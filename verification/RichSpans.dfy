// Lines made of plain text and unambiguous leaf spans: what their inline round trip through the tree gives back, and
// exactly when that is the line itself.
module RichSpans {
  import opened Options
  import opened Text
  import opened RichDom
  import opened RichInline

  datatype Style =
    | CodeStyle | BoldItalic | Bold | Italic | Strikethrough
    | UnderBoldItalic | UnderBold | UnderItalic

  datatype Span =
    | PlainText(text: string)
    | Styled(style: Style, text: string)
    | Link(text: string, url: string)

  function Mark(style: Style): (m: string)
    ensures m != ""
  {
    match style
    case CodeStyle => "`"
    case BoldItalic => "***"
    case Bold => "**"
    case Italic => "*"
    case Strikethrough => "~~"
    case UnderBoldItalic => "___"
    case UnderBold => "__"
    case UnderItalic => "_"
  }

  // The style as it is written back: with asterisks, whichever marks it had.
  function Starred(style: Style): Style {
    match style
    case UnderBoldItalic => BoldItalic
    case UnderBold => Bold
    case UnderItalic => Italic
    case _ => style
  }

  // The replacement that handles a style, by its place in the chain; links come last, at 8.
  function RuleOf(style: Style): (i: nat)
    ensures i < RULE_COUNT
  {
    match style
    case CodeStyle => 0
    case BoldItalic => 1
    case Bold => 3
    case Italic => 5
    case Strikethrough => 7
    case UnderBoldItalic => 2
    case UnderBold => 4
    case UnderItalic => 6
  }

  function Print(span: Span): string {
    match span
    case PlainText(text) => text
    case Styled(style, text) => Mark(style) + text + Mark(style)
    case Link(text, url) => "[" + text + "](" + url + ")"
  }

  function PrintAll(spans: seq<Span>): string {
    if spans == [] then "" else Print(spans[0]) + PrintAll(spans[1..])
  }

  // Text without markers and without NUL, on one line.
  predicate Clean(s: string) {
    s != "" && Plain(s) && forall k :: 0 <= k < |s| ==> !IsLineTerminator(s[k]) && s[k] != '\0'
  }

  // The same with something visible in it.
  predicate Leaf(s: string) {
    Clean(s) && Trim(s) != ""
  }

  predicate Address(s: string) {
    Plain(s) && HasScheme(s) && forall k :: 0 <= k < |s| ==> !IsSpace(s[k]) && s[k] != ')'
  }

  predicate GoodSpan(span: Span) {
    match span
    case PlainText(text) => Plain(text) && '\n' !in text
    case Styled(_, text) => Leaf(text)
    case Link(text, url) => Leaf(text) && ']' !in text && Address(url)
  }

  // Every span is well formed, and no two styled spans in a row share a marker character.
  predicate Unambiguous(spans: seq<Span>) {
    && (forall k :: 0 <= k < |spans| ==> GoodSpan(spans[k]))
    && (forall k :: 0 <= k < |spans| ==> spans[k] != PlainText(""))
    && (forall k :: 0 <= k < |spans| - 1 && spans[k].Styled? && spans[k + 1].Styled? ==>
          Mark(spans[k].style)[0] != Mark(spans[k + 1].style)[0])
  }

  // A span after the first n replacements.
  function Rendered(span: Span, n: nat): seq<Token> {
    match span
    case PlainText(text) => Chars(text)
    case Styled(style, text) =>
      if RuleOf(style) < n then
        Opens(RuleAt(RuleOf(style)).tags) + Chars(text) + Closes(RuleAt(RuleOf(style)).tags)
      else Chars(Print(span))
    case Link(text, url) =>
      if 8 < n then [Open(A, url)] + Chars(text) + [Close(A)] else Chars(Print(span))
  }

  function RenderedAll(spans: seq<Span>, n: nat): seq<Token> {
    if spans == [] then [] else Rendered(spans[0], n) + RenderedAll(spans[1..], n)
  }

  lemma RenderedFirst(span: Span)
    ensures Rendered(span, 0) == Chars(Print(span))
  {
    hide Chars;
  }

  lemma CharsConcat(a: string, b: string)
    ensures Chars(a + b) == Chars(a) + Chars(b)
  {
  }

  lemma NoChars()
    ensures Chars("") == []
  {
  }

  lemma {:induction false} RenderedAtStart(spans: seq<Span>)
    ensures RenderedAll(spans, 0) == Chars(PrintAll(spans))
  {
    hide Print;
    hide Chars;
    if spans != [] {
      RenderedAtStart(spans[1..]);
      RenderedFirst(spans[0]);
      hide Rendered;
      CharsConcat(Print(spans[0]), PrintAll(spans[1..]));
    } else {
      assert PrintAll(spans) == "" && RenderedAll(spans, 0) == [];
      NoChars();
    }
  }

  lemma FirstChar(s: string)
    requires s != ""
    ensures Chars(s) != [] && Chars(s)[0] == Ch(s[0])
  {
  }

  lemma OpensFirst(style: Style, rest: seq<Token>)
    ensures var all := Opens(RuleAt(RuleOf(style)).tags) + rest; all != [] && all[0].Open?
  {
  }

  lemma FirstToken(span: Span, n: nat, c: char)
    requires GoodSpan(span) && span != PlainText("") && (span.Styled? ==> Mark(span.style)[0] != c)
    requires c in {'`', '*', '_', '~'}
    ensures Rendered(span, n) != [] && Rendered(span, n)[0] != Ch(c)
  {
    hide Leaf;
    hide Address;
    hide Chars;
    match span
    case PlainText(text) =>
      FirstChar(text);
      assert !IsMarker(text[0]);
    case Styled(style, text) =>
      if RuleOf(style) < n {
        OpensFirst(style, Chars(text) + Closes(RuleAt(RuleOf(style)).tags));
      } else {
        assert Print(span)[0] == Mark(style)[0];
        FirstChar(Print(span));
        hide Print;
      }
    case Link(text, url) =>
      assert Print(span)[0] == '[';
      FirstChar(Print(span));
      hide Print;
  }

  // What follows a styled span never starts with its marker character.
  lemma NextStartsDifferently(spans: seq<Span>, n: nat)
    requires spans != [] && Unambiguous(spans) && spans[0].Styled?
    ensures var rest := RenderedAll(spans[1..], n);
            rest == [] || rest[0] != Ch(Mark(spans[0].style)[0])
  {
    hide GoodSpan;
    hide Rendered;
    if |spans| > 1 {
      var next := spans[1];
      assert spans[1..][0] == next;
      FirstToken(next, n, Mark(spans[0].style)[0]);
    }
  }

  lemma UnambiguousTail(spans: seq<Span>)
    requires spans != [] && Unambiguous(spans)
    ensures Unambiguous(spans[1..])
  {
    var tail := spans[1..];
    assert forall k :: 0 <= k < |tail| ==> tail[k] == spans[k + 1];
  }

  // The shortest body that starts behind the opening marks runs up to the next marks.
  lemma {:induction false} FindsTheClose(r: Rule, ts: seq<Token>, n: nat, k: nat)
    requires 1 <= r.width && 1 <= k <= n && 2 * r.width + n <= |ts|
    requires forall j :: r.width <= j < r.width + n ==> ts[j] != Ch(r.mark) && InBody(r, ts[j])
    requires MarksAt(r, ts, r.width + n)
    requires 2 * r.width + n < |ts| ==> ts[2 * r.width + n] != Ch(r.mark)
    ensures FindClose(r, ts, r.width + k) == Some(r.width + n)
    decreases n - k
  {
    if k < n {
      assert ts[r.width + k] != Ch(r.mark);
      FindsTheClose(r, ts, n, k + 1);
    } else {
      assert ts[r.width + n - 1] != Ch(r.mark);
      assert ClosesAt(r, ts, r.width + n);
    }
  }

  function Run(r: Rule): seq<Token> {
    seq(r.width, _ => Ch(r.mark))
  }

  function Wrapped(r: Rule, text: string, rest: seq<Token>): seq<Token> {
    Run(r) + Chars(text) + Run(r) + rest
  }

  lemma WrappedAt(r: Rule, text: string, rest: seq<Token>)
    ensures var ts := Wrapped(r, text, rest);
            && |ts| == 2 * r.width + |text| + |rest|
            && (forall j :: 0 <= j < r.width ==> ts[j] == Ch(r.mark))
            && (forall j :: 0 <= j < |text| ==> ts[r.width + j] == Ch(text[j]))
            && (forall j :: r.width + |text| <= j < 2 * r.width + |text| ==> ts[j] == Ch(r.mark))
            && (forall j :: 0 <= j < |rest| ==> ts[2 * r.width + |text| + j] == rest[j])
            && ts[2 * r.width + |text|..] == rest
            && ts[r.width..r.width + |text|] == Chars(text)
  {
  }

  lemma WrappedParts(r: Rule, text: string, rest: seq<Token>)
    ensures var ts := Wrapped(r, text, rest);
            && |ts| == 2 * r.width + |text| + |rest|
            && ts[r.width + |text| + r.width..] == rest
            && ts[r.width..r.width + |text|] == Chars(text)
  {
    WrappedAt(r, text, rest);
    hide Wrapped;
    hide Chars;
  }

  lemma MatchesSpan(r: Rule, prev: Option<Token>, text: string, rest: seq<Token>)
    requires IsMarker(r.mark) && 1 <= r.width && Clean(text)
    requires rest == [] || rest[0] != Ch(r.mark)
    requires prev != Some(Ch(r.mark))
    ensures Match(r, prev, Wrapped(r, text, rest)) == Some(r.width + |text|)
  {
    var ts := Wrapped(r, text, rest);
    WrappedAt(r, text, rest);
    hide Wrapped;
    forall j | r.width <= j < r.width + |text|
      ensures ts[j] != Ch(r.mark) && InBody(r, ts[j])
    {
      assert ts[j] == Ch(text[j - r.width]);
    }
    if rest != [] {
      assert ts[2 * r.width + |text|] == rest[0];
    }
    FindsTheClose(r, ts, |text|, 1);
    assert ts[r.width] != Ch(r.mark);
  }

  // The span's own rule replaces it and carries on behind it.
  lemma ReplacesSpan(r: Rule, prev: Option<Token>, text: string, rest: seq<Token>)
    requires IsMarker(r.mark) && 1 <= r.width && Clean(text)
    requires rest == [] || rest[0] != Ch(r.mark)
    requires prev != Some(Ch(r.mark))
    ensures Replace(r, prev, Wrapped(r, text, rest))
         == Opens(r.tags) + Chars(text) + Closes(r.tags) + Replace(r, Some(Ch(r.mark)), rest)
  {
    hide Clean;
    hide IsMarker;
    hide Wrapped;
    hide Match;
    hide Opens;
    hide Closes;
    hide Chars;
    MatchesSpan(r, prev, text, rest);
    WrappedParts(r, text, rest);
  }

  // A rule of the same character but more marks does not see a span with fewer.
  lemma ShorterPasses(r: Rule, q: Rule, prev: Option<Token>, text: string, rest: seq<Token>)
    requires IsMarker(r.mark) && r.mark == q.mark && 1 <= q.width < r.width && Clean(text)
    requires rest == [] || rest[0] != Ch(r.mark)
    ensures Replace(r, prev, Wrapped(q, text, rest))
         == Wrapped(q, text, []) + Replace(r, Some(Ch(r.mark)), rest)
  {
    var x := Wrapped(q, text, []);
    assert x + rest == Wrapped(q, text, rest);
    WrappedAt(q, text, []);
    WrappedAt(q, text, rest);
    forall p | 0 <= p < |x|
      ensures !MarksAt(r, x + rest, p)
    {
      var ts := x + rest;
      if p < q.width {
        assert ts[q.width] == Ch(text[0]) && text[0] != r.mark;
      } else if p < q.width + |text| {
        assert ts[p] == Ch(text[p - q.width]);
      } else if rest != [] {
        assert ts[2 * q.width + |text|] == rest[0];
      }
    }
    Passes(r, prev, x, rest);
  }

  lemma StyleRule(style: Style)
    ensures var r := RuleAt(RuleOf(style));
            |Mark(style)| == r.width && (forall k :: 0 <= k < r.width ==> Mark(style)[k] == r.mark)
    ensures TagsOf(style) == RuleAt(RuleOf(style)).tags
  {
  }

  function TagsOf(style: Style): seq<Tag> {
    match Starred(style)
    case CodeStyle => [Code]
    case BoldItalic => [Strong, Em]
    case Bold => [Strong]
    case Italic => [Em]
    case _ => [Del]
  }

  lemma MarkIsRun(mark: string, r: Rule)
    requires |mark| == r.width && forall k :: 0 <= k < r.width ==> mark[k] == r.mark
    ensures Chars(mark) == Run(r)
  {
  }

  // The printed span as tokens: the marks, the text, the marks.
  lemma PrintedStyled(style: Style, text: string, rest: seq<Token>)
    ensures Chars(Print(Styled(style, text))) + rest == Wrapped(RuleAt(RuleOf(style)), text, rest)
    ensures Chars(Print(Styled(style, text))) == Wrapped(RuleAt(RuleOf(style)), text, [])
  {
    var r := RuleAt(RuleOf(style));
    StyleRule(style);
    hide RuleAt;
    hide Mark;
    MarkIsRun(Mark(style), r);
    CharsConcat(Mark(style) + text, Mark(style));
    CharsConcat(Mark(style), text);
    hide Chars;
    hide Run;
    assert Run(r) + Chars(text) + Run(r) + [] == Run(r) + Chars(text) + Run(r);
  }

  // A rule whose character does not occur in a span's rendering leaves it, and what it hands on is not its mark.
  lemma UnmarkedSpan(r: Rule, prev: Option<Token>, span: Span, n: nat, rest: seq<Token>) returns (after: Option<Token>)
    requires r.width >= 1 && Ch(r.mark) !in Rendered(span, n) && Rendered(span, n) != []
    ensures Replace(r, prev, Rendered(span, n) + rest) == Rendered(span, n) + Replace(r, after, rest)
    ensures after != Some(Ch(r.mark))
  {
    hide Rendered;
    hide Replace;
    var x := Rendered(span, n);
    PassesUnmarked(r, prev, x, rest);
    after := Some(x[|x| - 1]);
    assert x[|x| - 1] in x;
  }

  lemma LeafLacks(text: string, c: char)
    requires Leaf(text) && c in {'`', '*', '_', '~'}
    ensures Ch(c) !in Chars(text)
  {
    hide Trim;
    PlainLacks(text, c);
  }

  lemma AddressLacks(url: string, c: char)
    requires Address(url) && c in {'`', '*', '_', '~'}
    ensures Ch(c) !in Chars(url)
  {
    hide HasScheme;
    hide IsSpace;
    PlainLacks(url, c);
  }

  lemma LinkLacks(text: string, url: string, c: char)
    requires Ch(c) !in Chars(text) && Ch(c) !in Chars(url) && c in {'`', '*', '_', '~'}
    ensures Ch(c) !in Chars(Print(Link(text, url)))
  {
    var p := "[" + text + "](" + url + ")";
    CharsConcat("[" + text + "](" + url, ")");
    CharsConcat("[" + text + "](", url);
    CharsConcat("[" + text, "](");
    CharsConcat("[", text);
    assert Chars("[") == [Ch('[')] && Chars(")") == [Ch(')')] && Chars("](") == [Ch(']'), Ch('(')];
    hide Chars;
  }

  lemma TagsLack(tags: seq<Tag>, c: char)
    ensures Ch(c) !in Opens(tags) && Ch(c) !in Closes(tags)
  {
  }

  lemma RunLacks(r: Rule, c: char)
    requires r.mark != c
    ensures Ch(c) !in Run(r)
  {
  }

  lemma RenderedLacks(span: Span, n: nat, c: char)
    requires GoodSpan(span) && c in {'`', '*', '_', '~'}
    requires span.Styled? && RuleOf(span.style) >= n ==> Mark(span.style)[0] != c
    ensures Ch(c) !in Rendered(span, n)
  {
    hide Chars;
    hide Leaf;
    hide Address;
    hide Opens;
    hide Closes;
    hide RuleAt;
    match span
    case PlainText(text) => PlainLacks(text, c);
    case Styled(style, text) =>
      LeafLacks(text, c);
      if RuleOf(style) < n {
        TagsLack(RuleAt(RuleOf(style)).tags, c);
      } else {
        StyleRule(style);
        PrintedStyled(style, text, []);
        RunLacks(RuleAt(RuleOf(style)), c);
        hide Run;
        hide Print;
      }
    case Link(text, url) =>
      LeafLacks(text, c);
      AddressLacks(url, c);
      if n <= 8 {
        LinkLacks(text, url, c);
      }
  }

  // A rule over a span that still carries its marks and uses the rule's character.
  lemma MarkedSpanPass(i: nat, prev: Option<Token>, style: Style, text: string, rest: seq<Token>)
    requires i < RULE_COUNT && RuleOf(style) >= i && Mark(style)[0] == RuleAt(i).mark && Clean(text)
    requires prev != Some(Ch(RuleAt(i).mark)) && (rest == [] || rest[0] != Ch(RuleAt(i).mark))
    ensures Replace(RuleAt(i), prev, Rendered(Styled(style, text), i) + rest)
         == Rendered(Styled(style, text), i + 1) + Replace(RuleAt(i), Some(Ch(RuleAt(i).mark)), rest)
  {
    PrintedStyled(style, text, rest);
    SameMarkShorter(i, style);
    RenderedStyled(style, text, i);
    RenderedStyled(style, text, i + 1);
    hide Rendered;
    hide RuleAt;
    hide Replace;
    hide Wrapped;
    if RuleOf(style) == i {
      ReplacesSpan(RuleAt(i), prev, text, rest);
    } else {
      ShorterPasses(RuleAt(i), RuleAt(RuleOf(style)), prev, text, rest);
    }
  }

  // One rule over one span.
  lemma SpanPass(i: nat, prev: Option<Token>, span: Span, rest: seq<Token>) returns (after: Option<Token>)
    requires i < RULE_COUNT && GoodSpan(span) && span != PlainText("")
    requires span.Styled? && Mark(span.style)[0] == RuleAt(i).mark ==>
      prev != Some(Ch(RuleAt(i).mark)) && (rest == [] || rest[0] != Ch(RuleAt(i).mark))
    ensures Replace(RuleAt(i), prev, Rendered(span, i) + rest)
         == Rendered(span, i + 1) + Replace(RuleAt(i), after, rest)
    ensures after == Some(Ch(RuleAt(i).mark)) ==> span.Styled? && Mark(span.style)[0] == RuleAt(i).mark
  {
    hide Trim;
    hide RuleAt;
    hide Rendered;
    hide Replace;
    if span.Styled? && RuleOf(span.style) >= i && Mark(span.style)[0] == RuleAt(i).mark {
      after := Some(Ch(RuleAt(i).mark));
      MarkedSpanPass(i, prev, span.style, span.text, rest);
    } else {
      RenderedLacks(span, i, RuleAt(i).mark);
      RenderedNotEmpty(span, i);
      if span.Styled? && RuleOf(span.style) == i {
        OwnRuleMark(i, span);
      }
      RenderedSame(span, i);
      after := UnmarkedSpan(RuleAt(i), prev, span, i, rest);
    }
  }

  lemma OwnRuleMark(i: nat, span: Span)
    requires i < RULE_COUNT && span.Styled? && RuleOf(span.style) == i
    ensures Mark(span.style)[0] == RuleAt(i).mark
  {
  }

  lemma RenderedNotEmpty(span: Span, n: nat)
    requires GoodSpan(span) && span != PlainText("")
    ensures Rendered(span, n) != []
  {
    hide Trim;
    hide HasScheme;
  }

  // A rule changes the rendering only of spans of its own style.
  lemma RenderedSame(span: Span, i: nat)
    requires i < RULE_COUNT && !(span.Styled? && RuleOf(span.style) == i)
    ensures Rendered(span, i + 1) == Rendered(span, i)
  {
  }

  lemma RenderedStyled(style: Style, text: string, n: nat)
    ensures Rendered(Styled(style, text), n) ==
      if RuleOf(style) < n then
        Opens(RuleAt(RuleOf(style)).tags) + Chars(text) + Closes(RuleAt(RuleOf(style)).tags)
      else Chars(Print(Styled(style, text)))
  {
  }

  lemma SameMarkShorter(i: nat, style: Style)
    requires i < RULE_COUNT && RuleOf(style) >= i && Mark(style)[0] == RuleAt(i).mark
    ensures IsMarker(RuleAt(i).mark) && RuleAt(RuleOf(style)).mark == RuleAt(i).mark
    ensures RuleOf(style) > i ==> RuleAt(RuleOf(style)).width < RuleAt(i).width
  {
  }

  lemma {:induction false} RulePass(i: nat, prev: Option<Token>, spans: seq<Span>)
    requires i < RULE_COUNT && Unambiguous(spans)
    requires spans != [] && spans[0].Styled? && Mark(spans[0].style)[0] == RuleAt(i).mark ==>
      prev != Some(Ch(RuleAt(i).mark))
    ensures Replace(RuleAt(i), prev, RenderedAll(spans, i)) == RenderedAll(spans, i + 1)
    decreases spans
  {
    hide Rendered;
    hide RuleAt;
    hide GoodSpan;
    if spans != [] {
      UnambiguousTail(spans);
      if spans[0].Styled? {
        NextStartsDifferently(spans, i);
      }
      var after := SpanPass(i, prev, spans[0], RenderedAll(spans[1..], i));
      if |spans| > 1 {
        assert spans[1..][0] == spans[1];
      }
      RulePass(i, after, spans[1..]);
    }
  }

  lemma {:induction false} RulesRender(spans: seq<Span>, from: nat)
    requires Unambiguous(spans) && from <= RULE_COUNT
    ensures ApplyRules(RenderedAll(spans, from), from) == RenderedAll(spans, RULE_COUNT)
    decreases RULE_COUNT - from
  {
    hide RuleAt;
    hide Rendered;
    hide RenderedAll;
    hide Replace;
    hide Unambiguous;
    if from < RULE_COUNT {
      RulePass(from, None, spans);
      RulesRender(spans, from + 1);
      assert ApplyRules(RenderedAll(spans, from), from)
          == ApplyRules(Replace(RuleAt(from), None, RenderedAll(spans, from)), from + 1);
    }
  }

  // ----- links -----

  lemma {:induction false} UpToText(s: string, stop: char, rest: seq<Token>)
    requires stop !in s
    ensures UpTo(Chars(s) + [Ch(stop)] + rest, stop) == |s|
  {
    var ts := Chars(s) + [Ch(stop)] + rest;
    if s != "" {
      assert ts[0] == Ch(s[0]) && s[0] in s;
      assert ts[1..] == Chars(s[1..]) + [Ch(stop)] + rest;
      UpToText(s[1..], stop, rest);
    }
  }

  lemma {:induction false} UrlText(s: string, rest: seq<Token>)
    requires forall k :: 0 <= k < |s| ==> !IsSpace(s[k]) && s[k] != ')'
    ensures UrlLength(Chars(s) + [Ch(')')] + rest) == |s|
  {
    hide IsSpace;
    var ts := Chars(s) + [Ch(')')] + rest;
    if s != "" {
      assert ts[0] == Ch(s[0]);
      assert ts[1..] == Chars(s[1..]) + [Ch(')')] + rest;
      UrlText(s[1..], rest);
    }
  }

  lemma SpellChars(s: string)
    ensures forall k :: 0 <= k < |Chars(s)| ==> Chars(s)[k].Ch?
    ensures Spell(Chars(s)) == s
  {
  }

  lemma PrintedLink(text: string, url: string, rest: seq<Token>)
    ensures var ts := Chars(Print(Link(text, url))) + rest;
            && |ts| == |text| + |url| + 4 + |rest|
            && ts[0] == Ch('[') && ts[|text| + 2] == Ch('(')
            && ts[|text| + 3 + |url|] == Ch(')')
            && ts[1..|text| + 1] == Chars(text)
            && ts[1..] == Chars(text) + [Ch(']')] + (Chars("(" + url + ")") + rest)
            && ts[|text| + 3..] == Chars(url) + [Ch(')')] + rest
            && ts[|text| + 3..][..|url|] == Chars(url)
            && ts[|text| + |url| + 4..] == rest
  {
    var ts := Chars(Print(Link(text, url))) + rest;
    assert Print(Link(text, url)) == "[" + text + "](" + url + ")";
    assert ts == [Ch('[')] + Chars(text) + [Ch(']'), Ch('(')] + Chars(url) + [Ch(')')] + rest;
  }

  lemma LinkReplaced(text: string, url: string, rest: seq<Token>)
    requires GoodSpan(Link(text, url))
    ensures ReplaceLinks(Chars(Print(Link(text, url))) + rest)
         == [Open(A, url)] + Chars(text) + [Close(A)] + ReplaceLinks(rest)
  {
    hide Trim;
    hide HasScheme;
    var ts := Chars(Print(Link(text, url))) + rest;
    PrintedLink(text, url, rest);
    UpToText(text, ']', Chars("(" + url + ")") + rest);
    UrlText(url, rest);
    SpellChars(url);
    hide Print;
    hide Chars;
    assert LinkHere(ts) == Some((|text|, |url|));
  }

  lemma LinkSpanPass(span: Span, rest: seq<Token>)
    requires GoodSpan(span)
    ensures ReplaceLinks(Rendered(span, 8) + rest) == Rendered(span, 9) + ReplaceLinks(rest)
  {
    if span.Link? {
      LinkReplaced(span.text, span.url, rest);
    } else {
      NoBracket(span);
      hide RuleAt;
      LinksPass(Rendered(span, 8), rest);
    }
  }

  lemma NoBracket(span: Span)
    requires GoodSpan(span) && !span.Link?
    ensures Ch('[') !in Rendered(span, 8)
  {
    hide Trim;
    match span
    case PlainText(text) => PlainLacks(text, '[');
    case Styled(style, text) => PlainLacks(text, '[');
  }

  lemma {:induction false} LinksRender(spans: seq<Span>)
    requires Unambiguous(spans)
    ensures ReplaceLinks(RenderedAll(spans, 8)) == RenderedAll(spans, 9)
  {
    hide Rendered;
    hide GoodSpan;
    if spans != [] {
      UnambiguousTail(spans);
      LinksRender(spans[1..]);
      LinkSpanPass(spans[0], RenderedAll(spans[1..], 8));
    }
  }

  // ----- back from the tree -----

  // An element with text inside, read back.
  lemma ParseElement(tag: Tag, href: string, text: string, rest: seq<Token>)
    requires Intact(text)
    ensures var ts := [Open(tag, href)] + Chars(text) + [Close(tag)] + rest;
            && Parse(ts).1 == Parse(rest).1
            && Inner(Parse(ts).0)
               == FormatBlock(tag, FormatInline(tag, AttributeValue(href), text)) + Inner(Parse(rest).0)
  {
    ReceivedIsIntact(text);
    var ts := [Open(tag, href)] + Chars(text) + [Close(tag)] + rest;
    var inside := [Close(tag)] + rest;
    assert ts[1..] == Chars(text) + inside;
    ParseChars(text, inside);
    assert inside[1..] == rest;
    var kids := Parse(ts[1..]).0;
    assert Inner(kids) == text + "";
    assert text + "" == text;
    ReadElement(tag, AttributeValue(href), kids, Parse(rest).0);
  }

  lemma ReadElement(tag: Tag, href: string, kids: seq<Node>, nodes: seq<Node>)
    ensures Inner([Element(tag, href, kids)] + nodes)
         == FormatBlock(tag, FormatInline(tag, href, Inner(kids))) + Inner(nodes)
  {
    assert ([Element(tag, href, kids)] + nodes)[1..] == nodes;
    hide FormatInline;
    hide FormatBlock;
  }

  lemma ParseBoldItalic(text: string, rest: seq<Token>)
    requires Intact(text)
    ensures var ts := [Open(Strong, ""), Open(Em, "")] + Chars(text) + [Close(Em), Close(Strong)] + rest;
            && Parse(ts).1 == Parse(rest).1
            && Inner(Parse(ts).0) == FormatInline(Strong, "", FormatInline(Em, "", text)) + Inner(Parse(rest).0)
  {
    var ts := [Open(Strong, ""), Open(Em, "")] + Chars(text) + [Close(Em), Close(Strong)] + rest;
    var inside := [Close(Strong)] + rest;
    assert ts[1..] == [Open(Em, "")] + Chars(text) + [Close(Em)] + inside;
    ParseElement(Em, "", text, inside);
    assert inside[1..] == rest;
    var kids := Parse(ts[1..]).0;
    assert Inner(kids) == FormatInline(Em, "", text) + "";
    assert FormatInline(Em, "", text) + "" == FormatInline(Em, "", text);
    ReadElement(Strong, "", kids, Parse(rest).0);
  }

  lemma StarredIsVisible(text: string)
    ensures Trim("*" + text + "*") != ""
  {
    var s := "*" + text + "*";
    assert s[|s| - 1] == '*' && s[0] == '*';
    assert TrimEnd(s) == s && TrimStart(s) == s;
  }

  lemma EmPrintsBack(text: string)
    requires Leaf(text)
    ensures FormatInline(Em, "", text) == "*" + text + "*"
  {
    hide Trim;
    assert !IsMarker(text[0]);
  }

  lemma StrongPrintsBack(text: string)
    requires text != "" && Trim(text) != "" && !("**" <= text) && !("__" <= text)
    ensures FormatInline(Strong, "", text) == "**" + text + "**"
  {
    hide Trim;
  }

  lemma BoldItalicPrintsBack(text: string)
    requires Leaf(text)
    ensures FormatInline(Strong, "", FormatInline(Em, "", text)) == "***" + text + "***"
  {
    EmPrintsBack(text);
    StarredIsVisible(text);
    LeafHead(text);
    hide Leaf;
    hide Trim;
    hide FormatInline;
    StarsAdd(text);
    StrongPrintsBack("*" + text + "*");
  }

  lemma StarsAdd(text: string)
    requires text != ""
    ensures "**" + ("*" + text + "*") + "**" == "***" + text + "***"
    ensures ("*" + text + "*")[0] == '*' && ("*" + text + "*")[1] == text[0]
  {
    var a, b := "**" + ("*" + text + "*") + "**", "***" + text + "***";
    assert |a| == |b|;
    assert forall k :: 0 <= k < |a| ==> a[k] == b[k];
  }

  lemma LeafHead(text: string)
    requires Leaf(text)
    ensures text != "" && !IsMarker(text[0]) && Trim(text) != ""
  {
    hide Trim;
  }

  lemma CodePrintsBack(text: string)
    ensures FormatInline(Code, "", text) == "`" + text + "`"
  {
    hide Wrap;
  }

  lemma DelPrintsBack(text: string)
    requires text != "" && text[0] != '~' && Trim(text) != ""
    ensures FormatInline(Del, "", text) == "~~" + text + "~~"
  {
    hide Trim;
  }

  // The tree element of every other style prints as that style's marks round the text.
  lemma StylePrintsBack(style: Style, text: string)
    requires Leaf(text) && Starred(style) != BoldItalic
    ensures FormatInline(TagsOf(style)[0], "", text) == Mark(Starred(style)) + text + Mark(Starred(style))
  {
    LeafHead(text);
    EmPrintsBack(text);
    hide FormatInline;
    hide Leaf;
    hide Trim;
    match Starred(style)
    case CodeStyle => CodePrintsBack(text);
    case Bold => StrongPrintsBack(text);
    case Strikethrough => DelPrintsBack(text);
    case _ =>
  }

  lemma LeafIsIntact(text: string)
    requires Leaf(text)
    ensures Intact(text)
  {
    hide Trim;
    assert IsLineTerminator('\r');
  }

  lemma ParseStyled(style: Style, text: string, rest: seq<Token>)
    requires Leaf(text)
    ensures var ts := Opens(TagsOf(style)) + Chars(text) + Closes(TagsOf(style)) + rest;
            && Parse(ts).1 == Parse(rest).1
            && Inner(Parse(ts).0) == Print(Styled(Starred(style), text)) + Inner(Parse(rest).0)
  {
    hide Trim;
    hide Leaf;
    hide FormatInline;
    hide Parse;
    hide Inner;
    hide Chars;
    LeafIsIntact(text);
    if Starred(style) == BoldItalic {
      BoldItalicPrintsBack(text);
      assert Opens([Strong, Em]) == [Open(Strong, ""), Open(Em, "")];
      assert Closes([Strong, Em]) == [Close(Em), Close(Strong)];
      ParseBoldItalic(text, rest);
    } else {
      StylePrintsBack(style, text);
      var tag := TagsOf(style)[0];
      assert Opens([tag]) == [Open(tag, "")] && Closes([tag]) == [Close(tag)];
      ParseElement(tag, "", text, rest);
    }
  }

  // What a span comes back as.
  function Returned(span: Span): string {
    match span
    case PlainText(text) => Received(text)
    case Styled(style, text) => Print(Styled(Starred(style), text))
    case Link(text, url) => Print(Link(text, AttributeValue(url)))
  }

  function ReturnedAll(spans: seq<Span>): string {
    if spans == [] then "" else Returned(spans[0]) + ReturnedAll(spans[1..])
  }

  lemma LinkPrintsBack(text: string, url: string)
    requires Leaf(text) && Address(url)
    ensures FormatBlock(A, FormatInline(A, AttributeValue(url), text)) == Print(Link(text, AttributeValue(url)))
  {
    hide Trim;
    assert url[0] == 'h' || url[0] == 'm';
    assert AttributeValue(url) != "" && text != "";
    hide AttributeValue;
    hide Address;
    hide Leaf;
  }

  lemma ParseSpan(span: Span, rest: seq<Token>)
    requires GoodSpan(span)
    ensures Parse(Rendered(span, 9) + rest).1 == Parse(rest).1
    ensures Inner(Parse(Rendered(span, 9) + rest).0) == Returned(span) + Inner(Parse(rest).0)
  {
    hide Trim;
    hide Parse;
    match span
    case PlainText(text) =>
      ParseChars(text, rest);
    case Link(text, url) =>
      LeafIsIntact(text);
      ParseElement(A, url, text, rest);
      LinkPrintsBack(text, url);
      hide Print;
      hide FormatInline;
      hide FormatBlock;
      hide Leaf;
      hide Address;
    case Styled(style, text) =>
      StyleRule(style);
      RenderedStyled(style, text, 9);
      hide Print;
      hide Rendered;
      ParseStyled(style, text, rest);
  }

  lemma {:induction false} ParseAll(spans: seq<Span>)
    requires Unambiguous(spans)
    ensures Inner(Parse(RenderedAll(spans, 9)).0) == ReturnedAll(spans)
  {
    hide Rendered;
    hide Returned;
    hide GoodSpan;
    if spans != [] {
      UnambiguousTail(spans);
      ParseAll(spans[1..]);
      ParseSpan(spans[0], RenderedAll(spans[1..], 9));
    }
  }

  // ----- what survives -----

  // Nothing in the span that the HTML parser reads as something else, and no underscores for marks.
  predicate Readable(span: Span) {
    match span
    case PlainText(text) => '\r' !in text && '\0' !in text
    case Styled(style, _) => Starred(style) == style
    case Link(_, url) => '"' !in url && '\0' !in url
  }

  predicate AllReadable(spans: seq<Span>) {
    forall k :: 0 <= k < |spans| ==> Readable(spans[k])
  }

  lemma SameAddress(text: string, v: string, url: string)
    ensures Print(Link(text, v)) == Print(Link(text, url)) <==> v == url
  {
    assert Print(Link(text, v))[|text| + 3..] == v + ")";
    assert Print(Link(text, url))[|text| + 3..] == url + ")";
    assert (v + ")")[..|v|] == v && (url + ")")[..|url|] == url;
  }

  lemma StarredIff(style: Style, text: string)
    ensures |Print(Styled(Starred(style), text))| == |Print(Styled(style, text))|
    ensures Print(Styled(Starred(style), text)) == Print(Styled(style, text)) <==> Starred(style) == style
  {
    assert Print(Styled(style, text))[0] == Mark(style)[0];
    assert Print(Styled(Starred(style), text))[0] == Mark(Starred(style))[0];
  }

  lemma ReturnedIff(span: Span)
    ensures |Returned(span)| <= |Print(span)|
    ensures Returned(span) == Print(span) <==> Readable(span)
  {
    hide AttributeValue;
    hide Received;
    match span
    case PlainText(text) => ReceivedIsIntact(text);
    case Styled(style, text) => StarredIff(style, text);
    case Link(text, url) =>
      AttributeKeptIff(url);
      SameAddress(text, AttributeValue(url), url);
  }

  // Equal concatenations of parts none of which grew are equal part by part.
  lemma EqualParts(a: string, b: string, x: string, y: string)
    requires |a| <= |x| && |b| <= |y|
    ensures a + b == x + y <==> a == x && b == y
  {
    if a + b == x + y {
      assert |a| == |x|;
      assert a == (a + b)[..|a|] && x == (x + y)[..|x|];
      assert b == (a + b)[|a|..] && y == (x + y)[|x|..];
    }
  }

  lemma {:induction false} ReturnedAllIff(spans: seq<Span>)
    ensures |ReturnedAll(spans)| <= |PrintAll(spans)|
    ensures ReturnedAll(spans) == PrintAll(spans) <==> AllReadable(spans)
  {
    hide Returned;
    hide Print;
    hide Readable;
    if spans != [] {
      ReturnedIff(spans[0]);
      ReturnedAllIff(spans[1..]);
      EqualParts(Returned(spans[0]), ReturnedAll(spans[1..]), Print(spans[0]), PrintAll(spans[1..]));
      assert AllReadable(spans) <==> Readable(spans[0]) && AllReadable(spans[1..]) by {
        assert forall k :: 0 < k < |spans| ==> spans[k] == spans[1..][k - 1];
      }
    }
  }

  // Behind the quote that ends an address, the rest of it spells attributes of the link's tag. Without an equals sign
  // they have no values, and nothing reads them.
  predicate TameAddress(url: string) {
    forall i, k :: 0 <= i < k < |url| && url[i] == '"' ==> url[k] != '='
  }

  predicate Tame(spans: seq<Span>) {
    forall k :: 0 <= k < |spans| && spans[k].Link? ==> TameAddress(spans[k].url)
  }

  // A line of plain text and unambiguous leaf spans survives the trip through the tree exactly when its text holds
  // no carriage return or NUL, its addresses no double quote or NUL, and its marks are no underscores, which come back
  // as asterisks.
  lemma SpansStableIff(spans: seq<Span>)
    requires Unambiguous(spans)
    ensures Tame(spans) ==> Normalised(PrintAll(spans)) == ReturnedAll(spans)
    ensures Stable(PrintAll(spans)) <==> AllReadable(spans)
  {
    RenderedAtStart(spans);
    RulesRender(spans, 0);
    LinksRender(spans);
    ParseAll(spans);
    ReturnedAllIff(spans);
  }

  lemma OneSpan(span: Span)
    ensures PrintAll([span]) == Print(span) && ReturnedAll([span]) == Returned(span)
    ensures AllReadable([span]) <==> Readable(span)
  {
    hide Print;
    hide Returned;
    hide Readable;
    assert [span][1..] == [];
    assert PrintAll([span]) == Print(span) + PrintAll([]);
    assert ReturnedAll([span]) == Returned(span) + ReturnedAll([]);
    assert [span][0] == span;
  }

  // A link alone: a double quote in its address ends the address there.
  lemma LinkSurvivesIff(text: string, url: string)
    requires Leaf(text) && ']' !in text && Address(url)
    ensures TameAddress(url) ==> Normalised(Print(Link(text, url))) == Print(Link(text, AttributeValue(url)))
    ensures Stable(Print(Link(text, url))) <==> '"' !in url && '\0' !in url
  {
    hide Leaf;
    hide Address;
    hide TameAddress;
    hide Normalised;
    hide PrintAll;
    hide ReturnedAll;
    hide Print;
    hide AttributeValue;
    OneSpan(Link(text, url));
    SpansStableIff([Link(text, url)]);
  }

  // The address in [x](http://a"b) comes back as http://a.
  lemma QuotedAddressIsCut()
    ensures Normalised(Print(Link("x", "http://a\"b"))) == Print(Link("x", "http://a"))
  {
    hide Normalised;
    hide Print;
    hide AttributeValue;
    PlainWitnesses();
    CutAtQuote();
    TameWitness("http://a\"b");
    hide Address;
    hide Leaf;
    hide TameAddress;
    LinkSurvivesIff("x", "http://a\"b");
  }

  lemma TameWitness(url: string)
    requires '=' !in url
    ensures TameAddress(url)
  {
  }

  lemma PlainWitnesses()
    ensures Leaf("x") && ']' !in "x" && Address("http://a\"b")
  {
    LeafWitness();
    hide Leaf;
    SpelledAddress("http://a\"b");
    hide Address;
  }

  lemma LeafWitness()
    ensures Leaf("x")
  {
    assert !IsSpace('x') && !IsLineTerminator('x') && !IsMarker('x');
    hide IsSpace;
    hide IsLineTerminator;
    hide IsMarker;
    var s := "x";
    assert |s| == 1 && s[0] == 'x';
    assert TrimEnd(s) == s;
    assert TrimStart(s) == s;
  }

  lemma SpelledAddress(url: string)
    requires |url| > 7 && "http://" <= url
    requires forall k :: 0 <= k < |url| ==> url[k] in {'h', 't', 'p', ':', '/', 'a', '"', 'b'}
    ensures Address(url)
  {
    hide IsSpace;
    hide IsMarker;
    forall k | 0 <= k < |url|
      ensures !IsSpace(url[k]) && url[k] != ')' && !IsMarker(url[k])
    {
      AddressCharacter(url[k]);
    }
  }

  lemma AddressCharacter(c: char)
    requires c in {'h', 't', 'p', ':', '/', 'a', '"', 'b'}
    ensures !IsSpace(c) && c != ')' && !IsMarker(c)
  {
  }

  lemma CutAtQuote()
    ensures AttributeValue("http://a\"b") == "http://a"
  {
    CutAfter("http://a", "\"b");
    assert "http://a" + "\"b" == "http://a\"b";
  }

  lemma {:induction false} CutAfter(head: string, tail: string)
    requires '"' !in head && '\0' !in head && tail != "" && tail[0] == '"'
    ensures AttributeValue(head + tail) == head
  {
    if head != "" {
      assert (head + tail)[1..] == head[1..] + tail;
      assert head[0] in head && head == [head[0]] + head[1..];
      CutAfter(head[1..], tail);
    } else {
      assert head + tail == tail;
    }
  }
}
