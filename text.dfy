/** String helpers with the semantics of the JavaScript string methods the
    client uses: `trim`, `startsWith`, `includes`, `toLowerCase` (ASCII
    letters only), `split` on a single character and `join`. */
module Text {
  import Sequences

  /** The part of `String.prototype.trim`'s white space that the model
      handles: the ASCII white space and line terminators, no-break space,
      the byte order mark and the two Unicode line/paragraph separators.
      The other space separators trim also removes (U+1680, U+2000 to
      U+200A, U+202F, U+205F, U+3000) are not in it. */
  predicate IsWhitespace(c: char)
  {
    c == ' ' || c == '\t' || c == '\n' || c == '\r' || c == '\U{B}' || c == '\U{C}' ||
    c == '\U{A0}' || c == '\U{FEFF}' || c == '\U{2028}' || c == '\U{2029}'
  }

  predicate AllWhitespace(s: string)
  {
    forall i :: 0 <= i < |s| ==> IsWhitespace(s[i])
  }

  function TrimStart(s: string): (r: string)
    ensures |r| <= |s| && r == s[|s| - |r|..]
    ensures AllWhitespace(s[..|s| - |r|])
    ensures r == [] || !IsWhitespace(r[0])
  {
    if s != [] && IsWhitespace(s[0]) then TrimStart(s[1..]) else s
  }

  function TrimEnd(s: string): (r: string)
    ensures |r| <= |s| && r == s[..|r|]
    ensures AllWhitespace(s[|r|..])
    ensures r == [] || !IsWhitespace(r[|r| - 1])
  {
    if s != [] && IsWhitespace(s[|s| - 1]) then TrimEnd(s[..|s| - 1]) else s
  }

  /** `s.trim()`: `s` without its leading and trailing white space. */
  function Trim(s: string): (r: string)
  {
    TrimEnd(TrimStart(s))
  }

  /** `s.trim() === ''`, the client's test for a blank line or prompt. */
  predicate IsBlank(s: string)
  {
    Trim(s) == ""
  }

  /** `s.startsWith(p)` */
  predicate StartsWith(s: string, p: string)
  {
    |p| <= |s| && s[..|p|] == p
  }

  /** `s.includes(t)`: `t` occurs in `s` as a contiguous piece. */
  predicate Contains(s: string, t: string)
    decreases |s|
  {
    StartsWith(s, t) || (s != [] && Contains(s[1..], t))
  }

  /** ASCII upper-case letters to lower case; every other character unchanged. */
  function LowerChar(c: char): char
  {
    if 'A' <= c <= 'Z' then (c as int + 32) as char else c
  }

  /** `s.toLowerCase()` restricted to ASCII letters. */
  function ToLower(s: string): (r: string)
    ensures |r| == |s|
  {
    seq(|s|, i requires 0 <= i < |s| => LowerChar(s[i]))
  }

  /** `s.split(sep)` for a one-character separator: the pieces between the
      occurrences of `sep`, always at least one piece. */
  function Split(s: string, sep: char): (pieces: seq<string>)
    ensures |pieces| >= 1
    ensures forall k :: 0 <= k < |pieces| ==> sep !in pieces[k]
    decreases |s|
  {
    if sep !in s then [s]
    else
      var k := Sequences.FirstIndex(s, sep);
      [s[..k]] + Split(s[k + 1..], sep)
  }

  /** `pieces.join(sep)` */
  function Join(sep: string, pieces: seq<string>): (s: string)
  {
    if |pieces| == 0 then ""
    else if |pieces| == 1 then pieces[0]
    else pieces[0] + sep + Join(sep, pieces[1..])
  }

  lemma {:induction false} TrimStartOfWhitespace(s: string)
    requires AllWhitespace(s)
    ensures TrimStart(s) == ""
  {
    if s != [] {
      TrimStartOfWhitespace(s[1..]);
    }
  }

  /** A blank string is made of white space only, and conversely. */
  lemma BlankIsAllWhitespace(s: string)
    ensures IsBlank(s) <==> AllWhitespace(s)
  {
    if AllWhitespace(s) {
      TrimStartOfWhitespace(s);
    }
    if IsBlank(s) {
      var t := TrimStart(s);
      assert AllWhitespace(t[0..]) && t[0..] == t;
      assert s == s[..|s| - |t|] + t;
    }
  }

  /** `t` occurs in `s` starting at index `i`. */
  predicate OccursAt(s: string, t: string, i: nat)
  {
    i + |t| <= |s| && s[i..i + |t|] == t
  }

  /** `Contains` holds exactly when the piece occurs at some index. */
  lemma {:induction false} ContainsAt(s: string, t: string)
    ensures Contains(s, t) <==> exists i: nat :: OccursAt(s, t, i)
    decreases |s|
  {
    if StartsWith(s, t) {
      assert OccursAt(s, t, 0);
    }
    if s != [] {
      ContainsAt(s[1..], t);
      if exists i: nat :: OccursAt(s, t, i) {
        var i: nat :| OccursAt(s, t, i);
        if i > 0 {
          assert s[1..][i - 1..i - 1 + |t|] == s[i..i + |t|];
          assert OccursAt(s[1..], t, i - 1);
        }
      }
      if Contains(s[1..], t) {
        var i: nat :| OccursAt(s[1..], t, i);
        assert s[1..][i..i + |t|] == s[i + 1..i + 1 + |t|];
        assert OccursAt(s, t, i + 1);
      }
    } else if t == [] {
      assert OccursAt(s, t, 0);
    }
  }

  /** The empty string is contained in every string. */
  lemma ContainsEmpty(s: string)
    ensures Contains(s, "")
  {
    assert StartsWith(s, "");
  }

  /** Joining the pieces of a split with the separator gives back the string. */
  lemma {:induction false} JoinSplit(s: string, sep: char)
    ensures Join([sep], Split(s, sep)) == s
    decreases |s|
  {
    if sep in s {
      var k := Sequences.FirstIndex(s, sep);
      var rest := Split(s[k + 1..], sep);
      assert Split(s, sep) == [s[..k]] + rest;
      JoinSplit(s[k + 1..], sep);
      assert s == s[..k] + [sep] + s[k + 1..];
    }
  }

  /** Splitting a join of separator-free pieces gives back the pieces. */
  lemma {:induction false} SplitJoin(pieces: seq<string>, sep: char)
    requires |pieces| >= 1
    requires forall k :: 0 <= k < |pieces| ==> sep !in pieces[k]
    ensures Split(Join([sep], pieces), sep) == pieces
    decreases |pieces|
  {
    if |pieces| > 1 {
      var s := Join([sep], pieces);
      var p := pieces[0];
      var rest := Join([sep], pieces[1..]);
      assert s == p + [sep] + rest;
      assert s[|p|] == sep && s[..|p|] == p;
      assert sep in s;
      var k := Sequences.FirstIndex(s, sep);
      assert forall j :: 0 <= j < |p| ==> s[j] == p[j];
      assert k == |p|;
      assert s[k + 1..] == rest;
      SplitJoin(pieces[1..], sep);
      assert pieces == [p] + pieces[1..];
    }
  }

  /** `pieces.filter(p => p.trim() !== '')`: the non-blank pieces, in order. */
  function NonBlank(pieces: seq<string>): (r: seq<string>)
    ensures forall x :: x in r ==> x in pieces && !IsBlank(x)
  {
    if pieces == [] then []
    else if IsBlank(pieces[0]) then NonBlank(pieces[1..])
    else [pieces[0]] + NonBlank(pieces[1..])
  }

  /** The filter keeps each non-blank piece exactly as often as it occurs
      and drops every blank one. */
  lemma NonBlankExact(pieces: seq<string>)
    ensures forall x :: multiset(NonBlank(pieces))[x] == if IsBlank(x) then 0 else multiset(pieces)[x]
  {
    forall x ensures multiset(NonBlank(pieces))[x] == if IsBlank(x) then 0 else multiset(pieces)[x] {
      NonBlankCount(pieces, x);
    }
  }

  lemma {:induction false} NonBlankCount(pieces: seq<string>, x: string)
    ensures multiset(NonBlank(pieces))[x] == if IsBlank(x) then 0 else multiset(pieces)[x]
  {
    if pieces != [] {
      var h, t := pieces[0], pieces[1..];
      NonBlankCount(t, x);
      assert pieces == [h] + t;
      assert multiset(pieces)[x] == multiset([h])[x] + multiset(t)[x];
      if !IsBlank(h) {
        assert NonBlank(pieces) == [h] + NonBlank(t);
        assert multiset(NonBlank(pieces))[x] == multiset([h])[x] + multiset(NonBlank(t))[x];
      }
    }
  }

  /** The filter distributes over concatenation, so kept pieces stay in order. */
  lemma {:induction false} NonBlankAppend(a: seq<string>, b: seq<string>)
    ensures NonBlank(a + b) == NonBlank(a) + NonBlank(b)
  {
    if a == [] {
      assert a + b == b;
    } else {
      assert (a + b)[0] == a[0] && (a + b)[1..] == a[1..] + b;
      NonBlankAppend(a[1..], b);
    }
  }

  /** A character in neither the separator nor any piece is not in the join. */
  lemma {:induction false} JoinAvoids(sep: string, pieces: seq<string>, c: char)
    requires c !in sep
    requires forall k :: 0 <= k < |pieces| ==> c !in pieces[k]
    ensures c !in Join(sep, pieces)
  {
    if |pieces| > 1 {
      JoinAvoids(sep, pieces[1..], c);
      assert Join(sep, pieces) == pieces[0] + sep + Join(sep, pieces[1..]);
    }
  }

  /** The filter drops only blank pieces. */
  lemma {:induction false} NonBlankKeeps(pieces: seq<string>)
    ensures forall p :: p in pieces && !IsBlank(p) ==> p in NonBlank(pieces)
  {
    if pieces != [] {
      NonBlankKeeps(pieces[1..]);
      assert pieces == [pieces[0]] + pieces[1..];
    }
  }
}
