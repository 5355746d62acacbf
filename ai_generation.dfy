/** The generation hook: which backend and vendor model a selector string is
    sent to, the rule that empty output is an error, and the heading and
    paragraph steps of the response formatter. */
module AIGeneration {
  import opened Wrappers
  import opened Text
  import Sequences

  // ---------------------------------------------------------------------
  // Routing

  /** The vendors reached through the per-vendor SDK switch. */
  datatype Vendor = OpenAI | Anthropic | Mistral | XAI | Groq

  /** Where a request goes and under which model name. */
  datatype Route =
    | OpenRouter(model: string)
    | GoogleGemini(model: string)
    | VendorSdk(vendor: Vendor, model: string)

  /** The token limit every backend is asked for. */
  const MaxTokens: nat := 4096

  /** The selectors the vendor switch names explicitly. */
  const SwitchSelectors: set<string> :=
    {"gpt35", "gpt4o-mini", "claude-sonnet", "claude-haiku", "open-mistral-nemo", "mistral-large", "xai", "groq"}

  /** The vendor switch, with its OpenAI fallback. */
  function SwitchRoute(selector: string): (r: Route)
    ensures r.VendorSdk?
    ensures selector !in SwitchSelectors ==> r == VendorSdk(OpenAI, "gpt-3.5-turbo")
  {
    match selector
    case "gpt35" => VendorSdk(OpenAI, "gpt-3.5-turbo")
    case "gpt4o-mini" => VendorSdk(OpenAI, "gpt-4o-mini")
    case "claude-sonnet" => VendorSdk(Anthropic, "claude-3-5-sonnet-20240620")
    case "claude-haiku" => VendorSdk(Anthropic, "claude-3-5-haiku-20240620")
    case "open-mistral-nemo" => VendorSdk(Mistral, "open-mistral-nemo")
    case "mistral-large" => VendorSdk(Mistral, "mistral-large-2407")
    case "xai" => VendorSdk(XAI, "grok-beta")
    case "groq" => VendorSdk(Groq, "llama-3.2-90b-vision-preview")
    case _ => VendorSdk(OpenAI, "gpt-3.5-turbo")
  }

  /** The Google model a `gemini…` selector is mapped to. */
  function GeminiModel(selector: string): (model: string)
    ensures model == "gemini-1.5-flash-001" <==> selector == "gemini-1.5-flash"
    ensures model != "gemini-1.5-flash-001" ==> model == "gemini-1.5-pro-001"
  {
    if selector == "gemini-1.5-flash" then "gemini-1.5-flash-001" else "gemini-1.5-pro-001"
  }

  /** The routing decision of `generateContent`: a selector with a `/` goes to
      OpenRouter unchanged; otherwise a `gemini` prefix goes to Google;
      everything else goes through the vendor switch. */
  function RouteFor(selector: string): (r: Route)
    ensures r.OpenRouter? <==> '/' in selector
    ensures r.OpenRouter? ==> r.model == selector
    ensures r.GoogleGemini? <==> '/' !in selector && StartsWith(selector, "gemini")
    ensures r.VendorSdk? ==> r == SwitchRoute(selector)
  {
    if '/' in selector then OpenRouter(selector)
    else if StartsWith(selector, "gemini") then GoogleGemini(GeminiModel(selector))
    else SwitchRoute(selector)
  }

  /** The `/` test is made before the `gemini` prefix test. */
  lemma SlashBeforeGemini()
    ensures RouteFor("google/gemini-1.5-flash-001") == OpenRouter("google/gemini-1.5-flash-001")
  {
    assert "google/gemini-1.5-flash-001"[6] == '/';
  }

  lemma GeminiExamples()
    ensures RouteFor("gemini-1.5-flash") == GoogleGemini("gemini-1.5-flash-001")
    ensures RouteFor("gemini-1.5-pro") == GoogleGemini("gemini-1.5-pro-001")
  {
    var flash, pro := "gemini-1.5-flash", "gemini-1.5-pro";
    assert flash == "gemini" + "-1.5-flash" && pro == "gemini" + "-1.5-pro";
    assert StartsWith(flash, "gemini") && StartsWith(pro, "gemini");
    assert '/' !in flash && '/' !in pro;
  }

  /** Any selector that is neither OpenRouter, nor Gemini, nor named in the
      switch falls back to OpenAI `gpt-3.5-turbo`; `claude-…` routes to the
      Anthropic SDK only from the two switch selectors. */
  lemma {:induction false} VendorFallback(selector: string)
    ensures '/' !in selector && !StartsWith(selector, "gemini") && selector !in SwitchSelectors ==>
              RouteFor(selector) == VendorSdk(OpenAI, "gpt-3.5-turbo")
    ensures RouteFor(selector).VendorSdk? && RouteFor(selector).vendor == Anthropic <==>
              selector == "claude-sonnet" || selector == "claude-haiku"
  {
    if selector == "claude-sonnet" || selector == "claude-haiku" {
      assert selector[0] == 'c';
      assert !StartsWith(selector, "gemini");
      assert '/' !in selector;
    }
  }

  /** What `generateContent` sends: the backend, the user's prompt as the
      single user message, and the token limit, if one is set. */
  datatype Request = Request(route: Route, prompt: string, maxTokens: Option<nat>)

  /** The token limit sent on a route: the Gemini call sets none. */
  function TokenLimit(r: Route): (limit: Option<nat>)
    ensures limit.None? <==> r.GoogleGemini?
    ensures limit.Some? ==> limit.value == MaxTokens
  {
    if r.GoogleGemini? then None else Some(MaxTokens)
  }

  // ---------------------------------------------------------------------
  // Formatting: headings

  // The tags are written in pieces so that facts about their characters stay
  // cheap to check.
  const H1Open: string := "<h1 class=\"text-2xl font-bold " + "mt-4 mb-2 text-gray-800\">"
  const H1Close: string := "</h1>"
  const H2Open: string := "<h2 class=\"text-xl font-semibold " + "mt-3 mb-2 text-gray-700\">"
  const H2Close: string := "</h2>"
  const H3Open: string := "<h3 class=\"text-lg font-medium " + "mt-2 mb-1 text-gray-600\">"
  const H3Close: string := "</h3>"

  /** One line under `^marker(.*$)` with the multi-line flag: a line that
      starts with the marker is wrapped in the tag, the marker dropped. */
  function RewriteLine(line: string, marker: string, open: string, close: string): string
  {
    if StartsWith(line, marker) then open + line[|marker|..] + close else line
  }

  /** The rewrite applied to every line. */
  function RewriteLines(lines: seq<string>, marker: string, open: string, close: string): (out: seq<string>)
    ensures |out| == |lines|
  {
    seq(|lines|, k requires 0 <= k < |lines| => RewriteLine(lines[k], marker, open, close))
  }

  /** One multi-line replace pass over a whole text. */
  function HeadingPass(text: string, marker: string, open: string, close: string): string
  {
    Join("\n", RewriteLines(Split(text, '\n'), marker, open, close))
  }

  /** The heading step: the `# `, `## ` and `### ` passes, in that order. */
  function Headings(text: string): string
  {
    HeadingPass(HeadingPass(HeadingPass(text, "# ", H1Open, H1Close), "## ", H2Open, H2Close), "### ", H3Open, H3Close)
  }

  /** What the three passes do to one line, decided once. */
  function HeadingLine(line: string): string
  {
    if StartsWith(line, "# ") then H1Open + line[2..] + H1Close
    else if StartsWith(line, "## ") then H2Open + line[3..] + H2Close
    else if StartsWith(line, "### ") then H3Open + line[4..] + H3Close
    else line
  }

  function HeadingLines(lines: seq<string>): (out: seq<string>)
    ensures |out| == |lines|
  {
    seq(|lines|, k requires 0 <= k < |lines| => HeadingLine(lines[k]))
  }

  /** The markers exclude each other from the left: a `### ` line is not a
      `# ` or `## ` line, and a `## ` line is not a `# ` line, so each line
      gets the heading its own marker names. */
  lemma HeadingLineCases(line: string)
    ensures StartsWith(line, "# ") ==> HeadingLine(line) == H1Open + line[2..] + H1Close
    ensures StartsWith(line, "## ") ==> !StartsWith(line, "# ") && HeadingLine(line) == H2Open + line[3..] + H2Close
    ensures StartsWith(line, "### ") ==>
              !StartsWith(line, "# ") && !StartsWith(line, "## ") && HeadingLine(line) == H3Open + line[4..] + H3Close
    ensures !StartsWith(line, "# ") && !StartsWith(line, "## ") && !StartsWith(line, "### ") ==> HeadingLine(line) == line
  {
    if StartsWith(line, "## ") {
      assert line[1] == "## "[1];
    }
    if StartsWith(line, "### ") {
      assert line[1] == "### "[1] && line[2] == "### "[2];
    }
  }

  /** A line the `# ` pass has turned into a heading starts with `<`, so the
      later passes leave it alone; the three passes amount to `HeadingLine`. */
  lemma ThreePassesOnLine(line: string)
    ensures RewriteLine(RewriteLine(RewriteLine(line, "# ", H1Open, H1Close), "## ", H2Open, H2Close), "### ", H3Open, H3Close)
            == HeadingLine(line)
  {
    HeadingLineCases(line);
    var l1 := RewriteLine(line, "# ", H1Open, H1Close);
    var l2 := RewriteLine(l1, "## ", H2Open, H2Close);
    OpenTagsStartWithAngle();
    if StartsWith(line, "# ") {
      assert l1 == H1Open + (line[2..] + H1Close);
      assert l1[0] == H1Open[0];
      assert l2 == l1;
    } else if StartsWith(line, "## ") {
      assert l2 == H2Open + (line[3..] + H2Close);
      assert l2[0] == H2Open[0];
    }
  }

  lemma OpenTagsStartWithAngle()
    ensures |H1Open| > 0 && H1Open[0] == '<'
    ensures |H2Open| > 0 && H2Open[0] == '<'
  {
    assert H1Open[0] == "<h1 class=\"text-2xl font-bold "[0];
    assert H2Open[0] == "<h2 class=\"text-xl font-semibold "[0];
  }

  /** The heading tags hold no newline, so rewriting a line keeps it one line. */
  lemma TagsOnOneLine()
    ensures '\n' !in H1Open && '\n' !in H1Close && '\n' !in H2Open && '\n' !in H2Close
  {
    OneLineTag(H1Open, "<h1 class=\"text-2xl font-bold ", "mt-4 mb-2 text-gray-800\">");
    OneLineTag(H2Open, "<h2 class=\"text-xl font-semibold ", "mt-3 mb-2 text-gray-700\">");
    assert H1Close == "</h1>" && H2Close == "</h2>";
  }

  lemma OneLineTag(tag: string, a: string, b: string)
    requires tag == a + b
    requires forall i :: 0 <= i < |a| ==> a[i] != '\n'
    requires forall i :: 0 <= i < |b| ==> b[i] != '\n'
    ensures '\n' !in tag
  {
    forall i | 0 <= i < |tag| ensures tag[i] != '\n' {
      if i < |a| { assert tag[i] == a[i]; } else { assert tag[i] == b[i - |a|]; }
    }
  }

  /** A line that does not start with `#` is not a heading. */
  lemma UnmarkedLineKept(line: string)
    requires line == [] || line[0] != '#'
    ensures HeadingLine(line) == line
  {
    HeadingLineCases(line);
  }

  lemma RewriteLinesNoNewline(lines: seq<string>, marker: string, open: string, close: string)
    requires forall k :: 0 <= k < |lines| ==> '\n' !in lines[k]
    requires '\n' !in open && '\n' !in close
    ensures forall k :: 0 <= k < |lines| ==> '\n' !in RewriteLines(lines, marker, open, close)[k]
  {
  }

  /** A pass keeps the lines of a text apart: splitting the result again
      gives the rewritten lines. */
  lemma {:induction false} HeadingPassLines(text: string, marker: string, open: string, close: string)
    requires '\n' !in open && '\n' !in close
    ensures Split(HeadingPass(text, marker, open, close), '\n') == RewriteLines(Split(text, '\n'), marker, open, close)
  {
    var out := RewriteLines(Split(text, '\n'), marker, open, close);
    RewriteLinesNoNewline(Split(text, '\n'), marker, open, close);
    SplitJoin(out, '\n');
  }

  /** The three passes act line by line: every line of the text becomes
      `HeadingLine` of it, and the line structure is kept. */
  lemma {:induction false} HeadingsPerLine(text: string)
    ensures Headings(text) == Join("\n", HeadingLines(Split(text, '\n')))
  {
    var lines := Split(text, '\n');
    var t1 := HeadingPass(text, "# ", H1Open, H1Close);
    var t2 := HeadingPass(t1, "## ", H2Open, H2Close);
    TagsOnOneLine();
    HeadingPassLines(text, "# ", H1Open, H1Close);
    HeadingPassLines(t1, "## ", H2Open, H2Close);
    var l1 := RewriteLines(lines, "# ", H1Open, H1Close);
    var l2 := RewriteLines(l1, "## ", H2Open, H2Close);
    var l3 := RewriteLines(l2, "### ", H3Open, H3Close);
    assert Headings(text) == Join("\n", l3);
    forall k | 0 <= k < |lines| ensures l3[k] == HeadingLines(lines)[k] {
      ThreePassesOnLine(lines[k]);
    }
    assert l3 == HeadingLines(lines);
  }

  // ---------------------------------------------------------------------
  // Formatting: paragraphs

  const ParagraphOpen: string := "<p class=\"mb-2 " + "leading-relaxed text-gray-700\">"
  const ParagraphClose: string := "</p>"

  /** `s` holds no two newlines in a row, i.e. no blank-line break. */
  predicate NoBreak(s: string)
  {
    forall i :: 0 <= i < |s| - 1 ==> !(s[i] == '\n' && s[i + 1] == '\n')
  }

  predicate StartsWithNewline(s: string)
  {
    s != [] && s[0] == '\n'
  }

  predicate EndsWithNewline(s: string)
  {
    s != [] && s[|s| - 1] == '\n'
  }

  /** The pieces of a split on `\n\n+`: only the first may start, and only
      the last may end, with a newline. */
  predicate Separated(pieces: seq<string>)
  {
    (forall k :: 0 <= k < |pieces| - 1 ==> !EndsWithNewline(pieces[k])) &&
    (forall k :: 0 < k < |pieces| ==> !StartsWithNewline(pieces[k]))
  }

  /** The first index at or after `i` where two newlines meet, or `|s|`. */
  function FirstBreak(s: string, i: nat): (k: nat)
    requires i <= |s|
    ensures i <= k <= |s|
    ensures k < |s| ==> k + 1 < |s| && s[k] == '\n' && s[k + 1] == '\n'
    ensures forall m :: i <= m < k && m + 1 < |s| ==> !(s[m] == '\n' && s[m + 1] == '\n')
    decreases |s| - i
  {
    if i + 1 >= |s| then |s|
    else if s[i] == '\n' && s[i + 1] == '\n' then i
    else FirstBreak(s, i + 1)
  }

  /** The end of the run of newlines starting at `i`. */
  function RunEnd(s: string, i: nat): (j: nat)
    requires i <= |s|
    ensures i <= j <= |s|
    ensures forall m :: i <= m < j ==> s[m] == '\n'
    ensures j < |s| ==> s[j] != '\n'
    decreases |s| - i
  {
    if i < |s| && s[i] == '\n' then RunEnd(s, i + 1) else i
  }

  /** `s.split(/\n\n+/)`: the pieces between runs of two or more newlines,
      always at least one, with an empty piece where a run starts or ends
      the text. */
  function ParagraphPieces(s: string): (pieces: seq<string>)
    ensures |pieces| >= 1 && |pieces[0]| <= |s| && pieces[0] == s[..|pieces[0]|]
    ensures forall k :: 0 <= k < |pieces| ==> NoBreak(pieces[k])
    ensures Separated(pieces)
    decreases |s|
  {
    var k := FirstBreak(s, 0);
    if k == |s| then [s]
    else
      var j := RunEnd(s, k);
      assert j >= k + 2;
      var first := s[..k];
      assert k == 0 || s[k - 1] != '\n';
      var rest := ParagraphPieces(s[j..]);
      assert !StartsWithNewline(rest[0]) by {
        if rest[0] != [] {
          assert rest[0][0] == s[j];
        }
      }
      var pieces := [first] + rest;
      assert forall m :: 1 <= m < |pieces| ==> pieces[m] == rest[m - 1];
      pieces
  }

  /** A text with no blank-line break is one piece. */
  lemma NoBreakIsOnePiece(s: string)
    requires NoBreak(s)
    ensures ParagraphPieces(s) == [s]
  {
    assert FirstBreak(s, 0) == |s|;
  }

  /** `para.trim().startsWith('<') ? para : <p>trimmed</p>` */
  function WrapParagraph(para: string): string
  {
    if StartsWith(Trim(para), "<") then para else ParagraphOpen + Trim(para) + ParagraphClose
  }

  /** The paragraph step: split on blank lines, drop blank pieces, wrap the
      rest, join with single newlines. */
  function Paragraphs(content: string): string
  {
    Join("\n", WrapAll(NonBlank(ParagraphPieces(content))))
  }

  function WrapAll(kept: seq<string>): (ws: seq<string>)
    ensures |ws| == |kept|
  {
    seq(|kept|, k requires 0 <= k < |kept| => WrapParagraph(kept[k]))
  }

  /** The modelled part of `formatAIResponse`: headings, then paragraphs.
      Every step is total, so the fallback to the input is never taken. */
  function FormatAIResponse(text: string): string
  {
    Paragraphs(Headings(text))
  }

  // Helpers for the paragraph facts.

  lemma NewlineFreeFacts(s: string)
    requires '\n' !in s
    ensures NoBreak(s) && !StartsWithNewline(s) && !EndsWithNewline(s)
  {
  }

  lemma NoBreakSlice(s: string, i: nat, j: nat)
    requires i <= j <= |s| && NoBreak(s)
    ensures NoBreak(s[i..j])
  {
    var t := s[i..j];
    forall m | 0 <= m < |t| - 1 ensures !(t[m] == '\n' && t[m + 1] == '\n') {
      assert t[m] == s[i + m] && t[m + 1] == s[i + m + 1];
    }
  }

  lemma NoBreakConcat(a: string, b: string)
    requires NoBreak(a) && NoBreak(b) && !(EndsWithNewline(a) && StartsWithNewline(b))
    ensures NoBreak(a + b)
  {
    var s := a + b;
    forall m | 0 <= m < |s| - 1 ensures !(s[m] == '\n' && s[m + 1] == '\n') {
      if m + 1 < |a| {
        assert s[m] == a[m] && s[m + 1] == a[m + 1];
      } else if m >= |a| {
        assert s[m] == b[m - |a|] && s[m + 1] == b[m + 1 - |a|];
      }
    }
  }

  lemma TrimIsSlice(s: string)
    ensures exists i: nat, j: nat :: i <= j <= |s| && Trim(s) == s[i..j]
  {
    var t := TrimStart(s);
    var i := |s| - |t|;
    var r := TrimEnd(t);
    assert t == s[i..] && r == t[..|r|];
    PrefixOfSuffix(s, i, |r|);
    assert Trim(s) == s[i..i + |r|];
  }

  lemma PrefixOfSuffix(s: string, i: nat, n: nat)
    requires i + n <= |s|
    ensures s[i..][..n] == s[i..i + n]
  {
  }

  /** Whitespace-only text has a blank trim. */
  lemma NotBlankHead(a: string, b: string)
    requires !IsBlank(a)
    ensures !IsBlank(a + b)
  {
    BlankIsAllWhitespace(a);
    BlankIsAllWhitespace(a + b);
    var i :| 0 <= i < |a| && !IsWhitespace(a[i]);
    assert (a + b)[i] == a[i];
  }

  lemma {:induction false} TrimStartConcat(a: string, b: string)
    requires !AllWhitespace(a)
    ensures TrimStart(a + b) == TrimStart(a) + b
    decreases |a|
  {
    var i :| 0 <= i < |a| && !IsWhitespace(a[i]);
    assert (a + b)[0] == a[0];
    if IsWhitespace(a[0]) {
      assert a[1..][i - 1] == a[i];
      assert (a + b)[1..] == a[1..] + b;
      TrimStartConcat(a[1..], b);
    }
  }

  /** The trimmed text starts with the first non-white character. */
  lemma TrimStartsLikeTrimStart(s: string)
    requires TrimStart(s) != []
    ensures Trim(s) != [] && Trim(s)[0] == TrimStart(s)[0]
  {
    var t := TrimStart(s);
    var r := TrimEnd(t);
    assert t[0..] == t;
  }

  /** A piece wrapped in `<p …>…</p>` starts with `<`, ends with `>`, is its
      own trim and gains no blank-line break. */
  lemma WrappedInTags(body: string)
    requires NoBreak(body)
    ensures var w := ParagraphOpen + body + ParagraphClose;
      NoBreak(w) && w[0] == '<' && !EndsWithNewline(w) && TrimStart(w) == w && Trim(w) == w
  {
    var w := ParagraphOpen + body + ParagraphClose;
    NewlineFreeFacts(ParagraphOpen);
    NewlineFreeFacts(ParagraphClose);
    NoBreakConcat(ParagraphOpen, body);
    NoBreakConcat(ParagraphOpen + body, ParagraphClose);
    assert w[0] == '<';
    assert w[|w| - 1] == '>';
  }

  /** The facts `WrapParagraph` gives each piece of the paragraph step. */
  predicate WellWrapped(para: string, w: string)
  {
    !IsBlank(w) && NoBreak(w) && TrimStart(w) != [] && TrimStart(w)[0] == '<' &&
    (StartsWithNewline(w) ==> StartsWithNewline(para)) &&
    (EndsWithNewline(w) ==> EndsWithNewline(para))
  }

  lemma KeptPieceFacts(para: string)
    requires !IsBlank(para) && NoBreak(para) && StartsWith(Trim(para), "<")
    ensures WellWrapped(para, para)
  {
    assert Trim(para)[0] == '<';
    assert TrimStart(para) != [];
    TrimStartsLikeTrimStart(para);
  }

  lemma WrappedPieceFacts(para: string)
    requires NoBreak(para)
    ensures WellWrapped(para, ParagraphOpen + Trim(para) + ParagraphClose)
  {
    TrimIsSlice(para);
    var i: nat, j: nat :| i <= j <= |para| && Trim(para) == para[i..j];
    NoBreakSlice(para, i, j);
    WrappedInTags(Trim(para));
  }

  /** Each wrapped piece is non-blank, starts with `<` once trimmed, has no
      blank-line break and no newline at either edge that the piece lacked. */
  lemma WrapFacts(para: string)
    requires !IsBlank(para) && NoBreak(para)
    ensures WellWrapped(para, WrapParagraph(para))
  {
    if StartsWith(Trim(para), "<") {
      KeptPieceFacts(para);
    } else {
      WrappedPieceFacts(para);
    }
  }

  /** Dropping the first piece keeps the rest separated. */
  lemma TailSeparated(pieces: seq<string>)
    requires pieces != [] && Separated(pieces)
    ensures Separated(pieces[1..])
    ensures forall p :: p in pieces[1..] ==> !StartsWithNewline(p)
  {
    var tail := pieces[1..];
    forall k | 0 <= k < |tail| - 1 ensures !EndsWithNewline(tail[k]) {
      assert tail[k] == pieces[k + 1];
    }
    forall k | 0 <= k < |tail| ensures !StartsWithNewline(tail[k]) {
      assert tail[k] == pieces[k + 1];
    }
  }

  /** Putting a piece in front of separated pieces keeps them separated when
      it does not end with a newline or nothing follows it. */
  lemma ConsSeparated(first: string, rest: seq<string>)
    requires Separated(rest)
    requires rest != [] ==> !EndsWithNewline(first)
    requires forall p :: p in rest ==> !StartsWithNewline(p)
    ensures Separated([first] + rest)
  {
    var r := [first] + rest;
    forall k | 0 < k < |r| ensures r[k] == rest[k - 1] {
    }
  }

  /** Separation survives dropping pieces: a piece that was last stays
      last, one that was first stays first. */
  lemma {:induction false} NonBlankSeparated(pieces: seq<string>)
    requires Separated(pieces)
    ensures Separated(NonBlank(pieces))
  {
    if pieces != [] {
      var tail := pieces[1..];
      TailSeparated(pieces);
      NonBlankSeparated(tail);
      if !IsBlank(pieces[0]) {
        var rest := NonBlank(tail);
        assert rest != [] ==> rest[0] in tail;
        ConsSeparated(pieces[0], rest);
      }
    }
  }

  /** Non-empty, break-free, separated pieces joined by single newlines
      contain no blank-line break. */
  lemma {:induction false} JoinNoBreak(ws: seq<string>)
    requires forall k :: 0 <= k < |ws| ==> ws[k] != [] && NoBreak(ws[k])
    requires Separated(ws)
    ensures NoBreak(Join("\n", ws))
    decreases |ws|
  {
    if |ws| > 1 {
      var tail := ws[1..];
      assert Separated(tail) by {
        forall k | 0 <= k < |tail| - 1 ensures !EndsWithNewline(tail[k]) {
          assert tail[k] == ws[k + 1];
        }
        forall k | 0 < k < |tail| ensures !StartsWithNewline(tail[k]) {
          assert tail[k] == ws[k + 1];
        }
      }
      JoinNoBreak(tail);
      var rest := Join("\n", tail);
      assert rest[0] == ws[1][0] by {
        if |tail| > 1 {
          assert rest == tail[0] + ("\n" + Join("\n", tail[1..]));
        }
      }
      NoBreakConcat("\n", rest);
      NoBreakConcat(ws[0], "\n" + rest);
      assert Join("\n", ws) == ws[0] + ("\n" + rest);
    }
  }

  /** The wrapped pieces of a text are non-empty, break-free, separated and
      well wrapped. */
  lemma WrapAllFacts(content: string)
    ensures var kept := NonBlank(ParagraphPieces(content));
      var ws := WrapAll(kept);
      Separated(ws) &&
      forall k :: 0 <= k < |ws| ==> ws[k] != [] && NoBreak(ws[k]) && WellWrapped(kept[k], ws[k])
  {
    var pieces := ParagraphPieces(content);
    var kept := NonBlank(pieces);
    NonBlankSeparated(pieces);
    var ws := WrapAll(kept);
    forall k | 0 <= k < |kept| ensures ws[k] != [] && WellWrapped(kept[k], ws[k]) {
      assert kept[k] in kept;
      var i :| 0 <= i < |pieces| && pieces[i] == kept[k];
      WrapFacts(kept[k]);
    }
    forall k | 0 < k < |ws| ensures !StartsWithNewline(ws[k]) {
    }
    forall k | 0 <= k < |ws| - 1 ensures !EndsWithNewline(ws[k]) {
    }
  }

  /** A break-free text that is not blank and starts with `<` once trimmed
      is left as it is by the paragraph step. */
  lemma ParagraphsFixed(out: string)
    requires NoBreak(out) && !IsBlank(out) && StartsWith(Trim(out), "<")
    ensures Paragraphs(out) == out
  {
    NoBreakIsOnePiece(out);
    assert [out][1..] == [];
    assert NonBlank([out]) == [out] + NonBlank([]);
    assert WrapParagraph(out) == out;
    var ws := WrapAll([out]);
    assert |ws| == 1 && ws[0] == out;
    assert Join("\n", ws) == ws[0];
  }

  /** The joined output starts with the first wrapped piece. */
  lemma JoinHead(ws: seq<string>)
    requires ws != [] && !IsBlank(ws[0]) && TrimStart(ws[0]) != [] && TrimStart(ws[0])[0] == '<'
    ensures !IsBlank(Join("\n", ws)) && StartsWith(Trim(Join("\n", ws)), "<")
  {
    var out := Join("\n", ws);
    var tail := if |ws| == 1 then "" else "\n" + Join("\n", ws[1..]);
    assert out == ws[0] + tail;
    NotBlankHead(ws[0], tail);
    BlankIsAllWhitespace(ws[0]);
    TrimStartConcat(ws[0], tail);
    TrimStartsLikeTrimStart(out);
  }

  /** Formatting paragraphs twice is the same as once: the output has no
      blank-line break, so it is read back as a single piece that already
      starts with `<`. */
  lemma ParagraphsIdempotent(content: string)
    ensures Paragraphs(Paragraphs(content)) == Paragraphs(content)
  {
    var ws := WrapAll(NonBlank(ParagraphPieces(content)));
    var out := Join("\n", ws);
    if ws == [] {
      assert ParagraphPieces("") == [""];
      assert IsBlank("");
    } else {
      assert NoBreak(out) && !IsBlank(out) && StartsWith(Trim(out), "<") by {
        WrapAllFacts(content);
        JoinNoBreak(ws);
        assert WellWrapped(NonBlank(ParagraphPieces(content))[0], ws[0]);
        JoinHead(ws);
      }
      ParagraphsFixed(out);
    }
  }

  // Splitting and joining paragraphs

  lemma {:induction false} FirstBreakAt(s: string, i: nat, k: nat)
    requires i <= k && k + 1 < |s| && s[k] == '\n' && s[k + 1] == '\n'
    requires forall m :: i <= m < k ==> !(s[m] == '\n' && s[m + 1] == '\n')
    ensures FirstBreak(s, i) == k
    decreases k - i
  {
    if i < k {
      FirstBreakAt(s, i + 1, k);
    }
  }

  lemma {:induction false} RunEndAt(s: string, i: nat, j: nat)
    requires i <= j < |s| && s[j] != '\n'
    requires forall m :: i <= m < j ==> s[m] == '\n'
    ensures RunEnd(s, i) == j
    decreases j - i
  {
    if i < j {
      RunEndAt(s, i + 1, j);
    }
  }

  /** A paragraph joined by blank lines starts with its first piece. */
  lemma JoinBreaksHead(ps: seq<string>)
    requires |ps| >= 1
    ensures StartsWith(Join("\n\n", ps), ps[0])
  {
    var out := Join("\n\n", ps);
    if |ps| > 1 {
      var tail := "\n\n" + Join("\n\n", ps[1..]);
      assert out == ps[0] + tail;
      assert out[..|ps[0]|] == ps[0];
    } else {
      assert out == ps[0];
    }
  }

  /** A break-free piece that does not end in a newline, followed by a blank
      line and a text that does not start with one, splits off as one piece. */
  lemma SplitFirstPiece(p: string, rest: string)
    requires p != [] && NoBreak(p) && !EndsWithNewline(p)
    requires rest != [] && rest[0] != '\n'
    ensures ParagraphPieces(p + "\n\n" + rest) == [p] + ParagraphPieces(rest)
  {
    var s := p + "\n\n" + rest;
    forall m | 0 <= m < |p| ensures !(s[m] == '\n' && s[m + 1] == '\n') {
      if m + 1 < |p| {
        assert s[m] == p[m] && s[m + 1] == p[m + 1];
      } else {
        assert s[m] == p[|p| - 1];
      }
    }
    FirstBreakAt(s, 0, |p|);
    RunEndAt(s, |p|, |p| + 2);
    assert s[|p| + 2..] == rest;
    assert s[..|p|] == p;
  }

  /** Splitting on blank lines undoes joining with one blank line, for
      pieces that are non-empty, break-free and have no newline at an edge. */
  lemma {:induction false} ParagraphPiecesJoin(ps: seq<string>)
    requires |ps| >= 1
    requires forall k :: 0 <= k < |ps| ==>
               ps[k] != [] && NoBreak(ps[k]) && !StartsWithNewline(ps[k]) && !EndsWithNewline(ps[k])
    ensures ParagraphPieces(Join("\n\n", ps)) == ps
    decreases |ps|
  {
    if |ps| == 1 {
      NoBreakIsOnePiece(ps[0]);
    } else {
      var rest := Join("\n\n", ps[1..]);
      assert Join("\n\n", ps) == ps[0] + "\n\n" + rest;
      JoinBreaksHead(ps[1..]);
      assert rest[0] == ps[1][0];
      SplitFirstPiece(ps[0], rest);
      ParagraphPiecesJoin(ps[1..]);
      assert ps == [ps[0]] + ps[1..];
    }
  }

  // Blank replies

  lemma {:induction false} PiecesOfWhitespace(s: string)
    requires AllWhitespace(s)
    ensures forall k :: 0 <= k < |ParagraphPieces(s)| ==> IsBlank(ParagraphPieces(s)[k])
    decreases |s|
  {
    var pieces := ParagraphPieces(s);
    var k := FirstBreak(s, 0);
    if k == |s| {
      BlankIsAllWhitespace(s);
    } else {
      var j := RunEnd(s, k);
      assert AllWhitespace(s[..k]) && AllWhitespace(s[j..]);
      BlankIsAllWhitespace(s[..k]);
      PiecesOfWhitespace(s[j..]);
      assert pieces == [s[..k]] + ParagraphPieces(s[j..]);
    }
  }

  lemma {:induction false} NonBlankOfBlanks(pieces: seq<string>)
    requires forall k :: 0 <= k < |pieces| ==> IsBlank(pieces[k])
    ensures NonBlank(pieces) == []
  {
    if pieces != [] {
      NonBlankOfBlanks(pieces[1..]);
    }
  }

  /** The heading step leaves a text alone when no line starts with `#`. */
  lemma HeadingsWithoutMarkers(text: string)
    requires forall k :: 0 <= k < |Split(text, '\n')| ==> !StartsWith(Split(text, '\n')[k], "#")
    ensures Headings(text) == text
  {
    var lines := Split(text, '\n');
    HeadingsPerLine(text);
    forall k | 0 <= k < |lines| ensures HeadingLines(lines)[k] == lines[k] {
      assert lines[k] == [] || lines[k][0] != '#';
      UnmarkedLineKept(lines[k]);
    }
    assert HeadingLines(lines) == lines;
    JoinSplit(text, '\n');
  }

  /** A reply of white space only passes the emptiness test of
      `generateContent` but formats to the empty string. */
  lemma BlankReplyFormatsEmpty(text: string)
    requires AllWhitespace(text)
    ensures FormatAIResponse(text) == ""
  {
    var lines := Split(text, '\n');
    SplitPiecesAreWhitespace(text);
    forall k | 0 <= k < |lines| ensures !StartsWith(lines[k], "#") {
      if lines[k] != [] {
        assert IsWhitespace(lines[k][0]);
      }
    }
    HeadingsWithoutMarkers(text);
    PiecesOfWhitespace(text);
    NonBlankOfBlanks(ParagraphPieces(text));
  }

  lemma {:induction false} SplitPiecesAreWhitespace(text: string)
    requires AllWhitespace(text)
    ensures forall k :: 0 <= k < |Split(text, '\n')| ==> AllWhitespace(Split(text, '\n')[k])
    decreases |text|
  {
    if '\n' in text {
      var k := Sequences.FirstIndex(text, '\n');
      assert AllWhitespace(text[k + 1..]);
      SplitPiecesAreWhitespace(text[k + 1..]);
      assert Split(text, '\n') == [text[..k]] + Split(text[k + 1..], '\n');
    }
  }

  // ---------------------------------------------------------------------
  // Formatting twice

  /** No line of `s` past its first starts with `#`: no character right
      after a newline is a `#`. */
  predicate NoMarkedLaterLine(s: string)
  {
    forall i :: 0 < i < |s| && s[i - 1] == '\n' ==> s[i] != '#'
  }

  /** No line of `s` starts with `#`. */
  predicate NoMarkedLine(s: string)
  {
    (s == [] || s[0] != '#') && NoMarkedLaterLine(s)
  }

  /** Formatting a reply in which no line starts with `#` and formatting the
      result again give the same text: the heading step leaves both alone and
      the paragraph step is idempotent. */
  lemma FormatAIResponseIdempotent(text: string)
    requires NoMarkedLine(text)
    ensures FormatAIResponse(text) == Paragraphs(text)
    ensures FormatAIResponse(FormatAIResponse(text)) == FormatAIResponse(text)
  {
    var out := Paragraphs(text);
    assert FormatAIResponse(text) == out by { HeadingsUnmarked(text); }
    assert FormatAIResponse(out) == Paragraphs(out) by {
      ParagraphsUnmarked(text);
      HeadingsUnmarked(out);
    }
    ParagraphsIdempotent(text);
  }

  /** The heading step leaves a text with no `#` line as it is. */
  lemma HeadingsUnmarked(text: string)
    requires NoMarkedLine(text)
    ensures Headings(text) == text
  {
    UnmarkedLines(text);
    HeadingsWithoutMarkers(text);
  }

  /** No line in `lines` starts with `#`. */
  predicate NoMarkedPiece(lines: seq<string>)
  {
    forall m :: 0 <= m < |lines| ==> !StartsWith(lines[m], "#")
  }

  /** The character-level condition is the line-level one `HeadingsWithoutMarkers` asks for. */
  lemma {:induction false} UnmarkedLines(s: string)
    ensures NoMarkedLine(s) <==> NoMarkedPiece(Split(s, '\n'))
    decreases |s|
  {
    var lines := Split(s, '\n');
    if '\n' !in s {
      assert lines == [s] + [];
      PiecesCons(s, []);
      FirstLineMarked(s);
      forall i | 0 <= i < |s| ensures s[i] != '\n' {
        assert s[i] in s;
      }
    } else {
      var k := Sequences.FirstIndex(s, '\n');
      var head, tail := s[..k], s[k + 1..];
      var rest := Split(tail, '\n');
      UnmarkedLines(tail);
      FirstLineMarked(head);
      assert lines == [head] + rest;
      PiecesCons(head, rest);
      UnmarkedSplitAt(s, k);
      assert |head| == k && (k > 0 ==> head[0] == s[0]);
    }
  }

  lemma PiecesCons(head: string, rest: seq<string>)
    ensures NoMarkedPiece([head] + rest) <==> !StartsWith(head, "#") && NoMarkedPiece(rest)
  {
    var lines := [head] + rest;
    if NoMarkedPiece(lines) {
      assert lines[0] == head;
      forall m | 0 <= m < |rest| ensures !StartsWith(rest[m], "#") {
        assert rest[m] == lines[m + 1];
      }
    }
  }

  lemma FirstLineMarked(line: string)
    ensures StartsWith(line, "#") <==> line != [] && line[0] == '#'
  {
    if line != [] && line[0] == '#' {
      assert line[..1] == "#";
    }
  }

  /** Around a newline at `k`, the text is clear exactly when the part
      before it does not start with `#` and the part after it is clear. */
  lemma UnmarkedSplitAt(s: string, k: nat)
    requires k < |s| && s[k] == '\n'
    requires forall m :: 0 <= m < k ==> s[m] != '\n'
    ensures NoMarkedLine(s) <==> (k == 0 || s[0] != '#') && NoMarkedLine(s[k + 1..])
  {
    var tail := s[k + 1..];
    if NoMarkedLine(s) {
      forall i | 0 <= i < |tail| && (i == 0 || tail[i - 1] == '\n') ensures tail[i] != '#' {
        assert s[k + 1 + i] == tail[i];
        if i > 0 { assert s[k + i] == tail[i - 1]; }
      }
      if tail != [] { assert tail[0] == s[k + 1]; }
    }
    if (k == 0 || s[0] != '#') && NoMarkedLine(tail) {
      forall i | 0 < i < |s| && s[i - 1] == '\n' ensures s[i] != '#' {
        if i > k {
          assert s[i] == tail[i - k - 1];
          if i - k - 1 > 0 { assert s[i - 1] == tail[i - k - 2]; }
        }
      }
    }
  }

  lemma UnmarkedConcat(a: string, b: string)
    requires NoMarkedLaterLine(a) && NoMarkedLine(b)
    ensures NoMarkedLaterLine(a + b)
    ensures NoMarkedLine(a) ==> NoMarkedLine(a + b)
  {
    var s := a + b;
    forall i | 0 < i < |s| && s[i - 1] == '\n' ensures s[i] != '#' {
      if i < |a| {
        assert s[i] == a[i] && s[i - 1] == a[i - 1];
      } else {
        assert s[i] == b[i - |a|];
        if i - |a| > 0 { assert s[i - 1] == b[i - |a| - 1]; }
      }
    }
    if NoMarkedLine(a) && s != [] {
      if a != [] { assert s[0] == a[0]; } else { assert s[0] == b[0]; }
    }
  }

  /** A slice of a text keeps the property for its lines after the first, and
      for its first line too when it starts a line of the text. */
  lemma UnmarkedSlice(s: string, i: nat, j: nat)
    requires i <= j <= |s| && NoMarkedLine(s)
    ensures NoMarkedLaterLine(s[i..j])
    ensures (i == 0 || s[i - 1] == '\n') ==> NoMarkedLine(s[i..j])
  {
    var t := s[i..j];
    forall m | 0 < m < |t| && t[m - 1] == '\n' ensures t[m] != '#' {
      assert t[m] == s[i + m] && t[m - 1] == s[i + m - 1];
    }
    if t != [] {
      assert t[0] == s[i];
    }
  }

  /** A one-line tag that does not start with `#` followed by any text whose
      later lines are clear has no marked line. */
  lemma UnmarkedAfterTag(tag: string, y: string)
    requires tag != [] && tag[0] != '#'
    requires forall m :: 0 <= m < |tag| ==> tag[m] != '\n'
    requires NoMarkedLaterLine(y)
    ensures NoMarkedLine(tag + y)
  {
    var s := tag + y;
    assert s[0] == tag[0];
    forall i | 0 < i < |s| && s[i - 1] == '\n' ensures s[i] != '#' {
      if i > |tag| {
        assert s[i] == y[i - |tag|] && s[i - 1] == y[i - |tag| - 1];
      }
    }
  }

  lemma ParagraphTags()
    ensures ParagraphOpen != [] && ParagraphOpen[0] == '<'
    ensures forall m :: 0 <= m < |ParagraphOpen| ==> ParagraphOpen[m] != '\n'
    ensures NoMarkedLine(ParagraphClose)
  {
    var a, b := "<p class=\"mb-2 ", "leading-relaxed text-gray-700\">";
    assert ParagraphOpen == a + b;
    assert ParagraphOpen[0] == a[0];
    forall m | 0 <= m < |ParagraphOpen| ensures ParagraphOpen[m] != '\n' {
      if m < |a| { assert ParagraphOpen[m] == a[m]; } else { assert ParagraphOpen[m] == b[m - |a|]; }
    }
    assert ParagraphClose == "</p>";
  }

  /** Wrapping a paragraph with no marked line gives a text with none. */
  lemma WrapUnmarked(p: string)
    requires NoMarkedLine(p)
    ensures NoMarkedLine(WrapParagraph(p))
  {
    if !StartsWith(Trim(p), "<") {
      var t := Trim(p);
      assert NoMarkedLaterLine(t) by {
        TrimIsSlice(p);
        var i: nat, j: nat :| i <= j <= |p| && t == p[i..j];
        UnmarkedSlice(p, i, j);
      }
      WrappedUnmarked(t);
    }
  }

  lemma WrappedUnmarked(t: string)
    requires NoMarkedLaterLine(t)
    ensures NoMarkedLine(ParagraphOpen + t + ParagraphClose)
  {
    ParagraphTags();
    UnmarkedConcat(t, ParagraphClose);
    UnmarkedAfterTag(ParagraphOpen, t + ParagraphClose);
    assert ParagraphOpen + t + ParagraphClose == ParagraphOpen + (t + ParagraphClose);
  }

  /** Every paragraph piece of a text with no marked line has none. */
  lemma {:induction false} PiecesUnmarked(s: string)
    requires NoMarkedLine(s)
    ensures forall k :: 0 <= k < |ParagraphPieces(s)| ==> NoMarkedLine(ParagraphPieces(s)[k])
    decreases |s|
  {
    var k := FirstBreak(s, 0);
    if k < |s| {
      var j := RunEnd(s, k);
      assert s[j - 1] == '\n';
      UnmarkedSlice(s, 0, k);
      UnmarkedSlice(s, j, |s|);
      assert s[..k] == s[0..k] && s[j..] == s[j..|s|];
      PiecesUnmarked(s[j..]);
      var pieces := ParagraphPieces(s);
      assert pieces == [s[..k]] + ParagraphPieces(s[j..]);
    }
  }

  /** Pieces with no marked line joined by newlines give a text with none. */
  lemma {:induction false} JoinUnmarked(ws: seq<string>)
    requires forall k :: 0 <= k < |ws| ==> NoMarkedLine(ws[k])
    ensures NoMarkedLine(Join("\n", ws))
    decreases |ws|
  {
    if |ws| > 1 {
      JoinUnmarked(ws[1..]);
      assert NoMarkedLine("\n");
      UnmarkedConcat(ws[0], "\n");
      UnmarkedConcat(ws[0] + "\n", Join("\n", ws[1..]));
      assert Join("\n", ws) == ws[0] + "\n" + Join("\n", ws[1..]);
    } else if |ws| == 0 {
      assert Join("\n", ws) == "";
    }
  }

  /** The paragraph step adds no marked line. */
  lemma ParagraphsUnmarked(text: string)
    requires NoMarkedLine(text)
    ensures NoMarkedLine(Paragraphs(text))
  {
    var pieces := ParagraphPieces(text);
    var kept := NonBlank(pieces);
    var ws := WrapAll(kept);
    PiecesUnmarked(text);
    forall k | 0 <= k < |ws| ensures NoMarkedLine(ws[k]) {
      assert kept[k] in kept;
      var i :| 0 <= i < |pieces| && pieces[i] == kept[k];
      WrapUnmarked(kept[k]);
    }
    JoinUnmarked(ws);
  }

  // ---------------------------------------------------------------------
  // The generation hook's state

  /** `useAIGeneration`: the selected model and the last formatted output. */
  class AIGenerator {
    var selectedModel: string
    var generatedContent: string

    constructor ()
      ensures selectedModel == "gpt35" && generatedContent == ""
    {
      selectedModel := "gpt35";
      generatedContent := "";
    }

    method SetSelectedModel(model: string)
      modifies this
      ensures selectedModel == model && generatedContent == old(generatedContent)
    {
      selectedModel := model;
    }

    /** `generateContent(prompt)`. The request goes where `RouteFor` sends the
      selected model; `backendText` is what that backend answered (`None`
      when the call failed or gave no text). Missing or empty text is an
      error and the result is null; otherwise the formatted text is stored
      and returned. */
    method GenerateContent(prompt: string, backendText: Option<string>) returns (request: Request, result: Option<string>)
      modifies this
      ensures request == Request(RouteFor(selectedModel), prompt, TokenLimit(RouteFor(selectedModel)))
      ensures selectedModel == old(selectedModel)
      ensures result.None? <==> backendText.None? || backendText.value == ""
      ensures result.Some? ==> result.value == FormatAIResponse(backendText.value) && generatedContent == result.value
      ensures result.None? ==> generatedContent == old(generatedContent)
    {
      var route := RouteFor(selectedModel);
      request := Request(route, prompt, TokenLimit(route));
      if backendText.None? || backendText.value == "" {
        return request, None;
      }
      var formatted := FormatAIResponse(backendText.value);
      generatedContent := formatted;
      result := Some(formatted);
    }
  }
}
