// Doing the trip through the editor twice, for documents written with spans.
module RichSpanTrip {
  import opened Options
  import opened Text
  import opened LineText
  import opened RichDom
  import opened RichInline
  import opened RichBlocks
  import opened RichRoundTrip
  import S = RichSpans

  // ----- parts of span text -----

  lemma {:induction false} PrintConcat(a: seq<S.Span>, b: seq<S.Span>)
    ensures S.PrintAll(a + b) == S.PrintAll(a) + S.PrintAll(b)
  {
    hide S.Print;
    if a == [] {
      assert a + b == b;
    } else {
      assert (a + b)[1..] == a[1..] + b;
      PrintConcat(a[1..], b);
      assert S.Print(a[0]) + (S.PrintAll(a[1..]) + S.PrintAll(b)) == S.PrintAll(a) + S.PrintAll(b);
    }
  }

  ghost predicate Readable(spans: seq<S.Span>) {
    S.Unambiguous(spans) && S.AllReadable(spans)
  }

  lemma SpansOf(spans: seq<S.Span>, text: string)
    requires Readable(spans) && S.PrintAll(spans) == text
    ensures SpanText(text)
  {
  }

  lemma Pieces(spans: seq<S.Span>, i: nat)
    requires Readable(spans) && i <= |spans|
    ensures Readable(spans[..i]) && Readable(spans[i..])
  {
    hide S.GoodSpan;
    hide S.Readable;
    hide S.Mark;
    assert forall k :: 0 <= k < |spans| - i ==> spans[i..][k] == spans[i + k];
  }

  // Readable spans may follow one another where one of the two that meet is plain text.
  lemma Joined(a: seq<S.Span>, b: seq<S.Span>)
    requires Readable(a) && Readable(b)
    requires a == [] || b == [] || a[|a| - 1].PlainText? || b[0].PlainText?
    ensures Readable(a + b)
  {
    hide S.GoodSpan;
    hide S.Readable;
    hide S.Mark;
    var all := a + b;
    forall k | 0 <= k < |all|
      ensures S.GoodSpan(all[k]) && all[k] != S.PlainText("") && S.Readable(all[k])
    {
      if k < |a| {
        assert all[k] == a[k];
      } else {
        assert all[k] == b[k - |a|];
      }
    }
    forall k | 0 <= k < |all| - 1 && all[k].Styled? && all[k + 1].Styled?
      ensures S.Mark(all[k].style)[0] != S.Mark(all[k + 1].style)[0]
    {
      if k + 1 < |a| {
        assert all[k] == a[k] && all[k + 1] == a[k + 1];
      } else if k >= |a| {
        assert all[k] == b[k - |a|] && all[k + 1] == b[k + 1 - |a|];
      }
    }
  }

  lemma TextAlone(text: string)
    requires text != "" && S.GoodSpan(S.PlainText(text)) && S.Readable(S.PlainText(text))
    ensures Readable([S.PlainText(text)]) && S.PrintAll([S.PlainText(text)]) == text
  {
    hide S.GoodSpan;
    hide S.Readable;
    S.OneSpan(S.PlainText(text));
    hide S.PrintAll;
  }

  lemma PartOfText(text: string, part: string)
    requires S.GoodSpan(S.PlainText(text)) && S.Readable(S.PlainText(text)) && forall x :: x in part ==> x in text
    ensures S.GoodSpan(S.PlainText(part)) && S.Readable(S.PlainText(part))
  {
    forall k | 0 <= k < |part|
      ensures !IsMarker(part[k])
    {
      assert part[k] in text;
    }
  }

  // A span other than plain text starts with a marker and does not end with white space.
  lemma SpanEnds(span: S.Span)
    requires S.GoodSpan(span) && !span.PlainText?
    ensures var p := S.Print(span); p != "" && IsMarker(p[0]) && !IsSpace(p[|p| - 1])
  {
    hide S.Leaf;
    hide S.Address;
    match span
    case Styled(style, text) =>
      var m := S.Mark(style);
      assert S.Print(span)[0] == m[0];
      assert S.Print(span)[|S.Print(span)| - 1] == m[|m| - 1];
    case Link(text, url) =>
      var p := S.Print(span);
      assert p[0] == '[' && p[|p| - 1] == ')';
  }

  lemma FirstIsPlain(spans: seq<S.Span>)
    requires Readable(spans) && spans != [] && S.PrintAll(spans) != "" && !IsMarker(S.PrintAll(spans)[0])
    ensures spans[0].PlainText?
  {
    FirstIsGood(spans);
    hide Readable;
    hide IsMarker;
    hide S.GoodSpan;
    hide S.Print;
    assert S.PrintAll(spans) == S.Print(spans[0]) + S.PrintAll(spans[1..]);
    if !spans[0].PlainText? {
      SpanEnds(spans[0]);
    }
  }

  lemma PrintsFirst(spans: seq<S.Span>)
    requires S.PrintAll(spans) != ""
    ensures spans != [] && S.PrintAll(spans) == S.Print(spans[0]) + S.PrintAll(spans[1..])
  {
    hide S.Print;
  }

  // Leading characters that are no markers can go.
  lemma {:induction false} DropPlain(spans: seq<S.Span>, n: nat)
    requires Readable(spans) && n <= |S.PrintAll(spans)|
    requires forall k :: 0 <= k < n ==> !IsMarker(S.PrintAll(spans)[k])
    ensures SpanText(S.PrintAll(spans)[n..])
    decreases |spans|
  {
    hide SpanText;
    hide Readable;
    hide IsMarker;
    hide S.GoodSpan;
    hide S.Readable;
    hide S.PrintAll;
    var all := S.PrintAll(spans);
    if n == 0 {
      assert all[0..] == all;
      SpansOf(spans, all);
    } else {
      PrintsFirst(spans);
      var first, rest := spans[0], spans[1..];
      FirstIsGood(spans);
      FirstIsPlain(spans);
      Pieces(spans, 1);
      assert all == first.text + S.PrintAll(rest);
      DropFromText(first.text, rest, n);
      var m := n - |first.text|;
      if m >= 0 {
        assert forall k :: 0 <= k < m ==> S.PrintAll(rest)[k] == all[|first.text| + k];
        DropPlain(rest, m);
      }
    }
  }

  lemma FirstIsGood(spans: seq<S.Span>)
    requires Readable(spans) && spans != []
    ensures S.GoodSpan(spans[0]) && S.Readable(spans[0]) && S.GoodSpan(spans[|spans| - 1]) && S.Readable(spans[|spans| - 1])
  {
    hide S.GoodSpan;
    hide S.Readable;
  }

  lemma DropFromText(text: string, rest: seq<S.Span>, n: nat)
    requires Readable(rest) && S.GoodSpan(S.PlainText(text)) && S.Readable(S.PlainText(text))
    requires n <= |text + S.PrintAll(rest)|
    ensures n >= |text| ==> (text + S.PrintAll(rest))[n..] == S.PrintAll(rest)[n - |text|..]
    ensures n < |text| ==> SpanText((text + S.PrintAll(rest))[n..])
  {
    hide Readable;
    hide SpanText;
    hide S.GoodSpan;
    hide S.Readable;
    hide S.PrintAll;
    var tail := S.PrintAll(rest);
    if n < |text| {
      var part := text[n..];
      assert forall x :: x in part ==> x in text;
      PartOfText(text, part);
      TextAlone(part);
      Joined([S.PlainText(part)], rest);
      PrintConcat([S.PlainText(part)], rest);
      SpansOf([S.PlainText(part)] + rest, part + tail);
      assert (text + tail)[n..] == part + tail;
    } else {
      assert (text + tail)[n..] == tail[n - |text|..];
    }
  }

  lemma SplitLast(spans: seq<S.Span>)
    requires spans != []
    ensures var m := |spans| - 1; S.PrintAll(spans) == S.PrintAll(spans[..m]) + S.Print(spans[m])
  {
    var m := |spans| - 1;
    assert spans == spans[..m] + [spans[m]];
    PrintConcat(spans[..m], [spans[m]]);
    S.OneSpan(spans[m]);
    hide S.PrintAll;
    hide S.Print;
  }

  lemma LastIsPlain(spans: seq<S.Span>)
    requires Readable(spans) && spans != [] && S.PrintAll(spans) != ""
    requires IsSpace(S.PrintAll(spans)[|S.PrintAll(spans)| - 1])
    ensures spans[|spans| - 1].PlainText?
  {
    FirstIsGood(spans);
    SplitLast(spans);
    hide Readable;
    hide IsSpace;
    hide IsMarker;
    hide S.GoodSpan;
    hide S.Print;
    hide S.PrintAll;
    if !spans[|spans| - 1].PlainText? {
      SpanEnds(spans[|spans| - 1]);
    }
  }

  // Trailing white space can go.
  lemma {:induction false} CutSpace(spans: seq<S.Span>, n: nat)
    requires Readable(spans) && n <= |S.PrintAll(spans)|
    requires forall k :: n <= k < |S.PrintAll(spans)| ==> IsSpace(S.PrintAll(spans)[k])
    ensures SpanText(S.PrintAll(spans)[..n])
    decreases |spans|
  {
    hide SpanText;
    hide Readable;
    hide IsSpace;
    var all := S.PrintAll(spans);
    if n == |all| {
      assert all[..n] == all;
      SpansOf(spans, all);
    } else {
      var m := |spans| - 1;
      var before, last := spans[..m], spans[m];
      FirstIsGood(spans);
      LastIsPlain(spans);
      Pieces(spans, m);
      SplitLast(spans);
      hide S.PrintAll;
      hide S.GoodSpan;
      hide S.Readable;
      CutFromText(before, last.text, n);
      if n <= |S.PrintAll(before)| {
        assert forall k :: n <= k < |S.PrintAll(before)| ==> S.PrintAll(before)[k] == all[k];
        CutSpace(before, n);
      }
    }
  }

  lemma CutFromText(before: seq<S.Span>, text: string, n: nat)
    requires Readable(before) && S.GoodSpan(S.PlainText(text)) && S.Readable(S.PlainText(text))
    requires n <= |S.PrintAll(before) + text|
    ensures n <= |S.PrintAll(before)| ==> (S.PrintAll(before) + text)[..n] == S.PrintAll(before)[..n]
    ensures n > |S.PrintAll(before)| ==> SpanText((S.PrintAll(before) + text)[..n])
  {
    hide Readable;
    hide SpanText;
    hide S.GoodSpan;
    hide S.Readable;
    hide S.PrintAll;
    var p := S.PrintAll(before);
    if n > |p| {
      var part := text[..n - |p|];
      assert forall x :: x in part ==> x in text;
      PartOfText(text, part);
      TextAlone(part);
      Joined(before, [S.PlainText(part)]);
      PrintConcat(before, [S.PlainText(part)]);
      SpansOf(before + [S.PlainText(part)], p + part);
      assert (p + text)[..n] == p + part;
    } else {
      assert (p + text)[..n] == p[..n];
    }
  }

  lemma {:induction false} TrimEndCuts(s: string)
    ensures forall k :: |TrimEnd(s)| <= k < |s| ==> IsSpace(s[k])
  {
    hide IsSpace;
    if s != "" && IsSpace(s[|s| - 1]) {
      TrimEndCuts(s[..|s| - 1]);
    }
  }

  lemma {:induction false} TrimStartDrops(s: string)
    ensures forall k :: 0 <= k < |s| - |TrimStart(s)| ==> IsSpace(s[k])
  {
    hide IsSpace;
    if s != "" && IsSpace(s[0]) {
      TrimStartDrops(s[1..]);
    }
  }

  lemma SpaceIsNoMarker(c: char)
    requires IsSpace(c)
    ensures !IsMarker(c)
  {
  }

  lemma TrimEndKeepsSpans(text: string)
    requires SpanText(text)
    ensures SpanText(TrimEnd(text))
  {
    var spans :| S.Unambiguous(spans) && S.AllReadable(spans) && S.PrintAll(spans) == text;
    TrimEndCuts(text);
    assert Readable(spans);
    hide SpanText;
    hide S.PrintAll;
    hide IsSpace;
    CutSpace(spans, |TrimEnd(text)|);
  }

  lemma SuffixKeepsSpans(text: string, n: nat)
    requires SpanText(text) && n <= |text| && forall k :: 0 <= k < n ==> !IsMarker(text[k])
    ensures SpanText(text[n..])
  {
    var spans :| S.Unambiguous(spans) && S.AllReadable(spans) && S.PrintAll(spans) == text;
    assert Readable(spans);
    hide SpanText;
    hide S.PrintAll;
    hide IsMarker;
    DropPlain(spans, n);
  }

  lemma TrimKeepsSpans(text: string)
    requires SpanText(text)
    ensures SpanText(Trim(text))
  {
    TrimEndKeepsSpans(text);
    var t := TrimEnd(text);
    TrimStartDrops(t);
    hide SpanText;
    hide IsSpace;
    hide IsMarker;
    var n := |t| - |TrimStart(t)|;
    forall k | 0 <= k < n
      ensures !IsMarker(t[k])
    {
      SpaceIsNoMarker(t[k]);
    }
    SuffixKeepsSpans(t, n);
  }

  // ----- the lines after one trip -----

  // A list line marked with a star.
  predicate StarLine(line: string) {
    BulletContent(line).Some? && Indent(line) < |line| && line[Indent(line)] == '*'
  }

  lemma BulletPrefix(line: string)
    requires BulletContent(line).Some?
    ensures Indent(line) < |line| && line[Indent(line)] in {'-', '*', '+'}
    ensures forall k :: 0 <= k < |line| - |BulletContent(line).value| && k != Indent(line) ==> IsSpace(line[k])
  {
    hide IsSpace;
    hide IsLineTerminator;
    var n := Indent(line);
    var tail := line[n + 1..];
    var c := AfterGap(tail, 1).value;
    GapIsSpace(tail);
    hide AfterGap;
    forall k | 0 <= k < |line| - |c| && k != n
      ensures IsSpace(line[k])
    {
      if k > n {
        assert line[k] == tail[k - n - 1];
      }
    }
  }

  lemma GapIsSpace(s: string)
    requires AfterGap(s, 1).Some?
    ensures forall k :: 0 <= k < |s| - |AfterGap(s, 1).value| ==> IsSpace(s[k])
  {
    hide IsSpace;
    hide IsLineTerminator;
  }

  lemma UnstarredItem(last: string)
    requires SpanText(last) && BulletContent(last).Some? && Indent(last) < |last| && last[Indent(last)] in {'-', '+'}
    ensures StableLine(last)
  {
    hide SpanText;
    hide Stable;
    hide Blank;
    hide IsSpace;
    hide IsMarker;
    hide BulletContent;
    hide Indent;
    BulletPrefix(last);
    var c := BulletContent(last).value;
    var n := |last| - |c|;
    DashesAreNoMarkers();
    forall k | 0 <= k < n
      ensures !IsMarker(last[k])
    {
      if k != Indent(last) {
        SpaceIsNoMarker(last[k]);
      }
    }
    SuffixKeepsSpans(last, n);
    SpanTextStable(c);
  }

  lemma DashesAreNoMarkers()
    ensures !IsMarker('-') && !IsMarker('+')
  {
  }

  // A trimmed line of span text is stable, or has become a list line marked with a star.
  lemma TrimmedSpanLine(line: string)
    requires SpanText(line)
    ensures StableLine(TrimEnd(line)) || StarLine(TrimEnd(line))
  {
    hide SpanText;
    hide TrimEnd;
    hide Stable;
    hide Blank;
    hide IsSpace;
    hide BulletContent;
    hide Indent;
    TrimEndKeepsSpans(line);
    var last := TrimEnd(line);
    if BulletContent(last).None? {
      SpanTextStable(last);
    } else {
      BulletPrefix(last);
      if last[Indent(last)] != '*' {
        UnstarredItem(last);
      }
    }
  }

  lemma TidySpanStable(line: string)
    requires SpanLine(line)
    ensures StableLine(Tidy(line))
  {
    hide SpanText;
    hide Stable;
    hide Trim;
    hide Blank;
    EmptyIsStable();
    match BulletContent(line)
    case Some(c) =>
      if line == "" {
        EmptyIsNoBullet();
      } else {
        TrimKeepsSpans(c);
        SpanTextStable(Trim(c));
        TidyItemStable(c);
      }
    case None =>
      SpanLineStable(line);
  }

  lemma EmptyIsStable()
    ensures StableLine("")
  {
    EmptyIsBare();
    BareIsStable("");
  }

  lemma DashIsStable()
    ensures StableLine("- ") && StableLine("-")
  {
    hide Bare;
    hide StableLine;
    DashIsBare();
    BareIsStable("- ");
    BareIsStable("-");
  }

  lemma ItemStable(t: string)
    requires Stable(t) && t != "" && !IsSpace(t[0]) && OneLine(t)
    ensures StableLine("- " + t)
  {
    hide Stable;
    DashedContent(t);
    hide IsSpace;
    hide BulletContent;
  }

  lemma TidyItemStable(c: string)
    requires Stable(Trim(c)) && OneLine(c)
    ensures StableLine("- " + Trim(c))
  {
    hide Stable;
    hide StableLine;
    hide IsSpace;
    TrimPart(c);
    if Trim(c) == "" {
      hide Trim;
      DashIsStable();
      assert "- " + "" == "- ";
    } else {
      TrimEdges(c);
      hide Trim;
      ItemStable(Trim(c));
    }
  }

  lemma DashIsBare()
    ensures Bare("- ") && Bare("-")
  {
  }

  // ----- no line break comes from the inline part of a list item -----

  predicate InlineToken(t: Token) {
    match t
    case Ch(c) => c != '\n' && c != '\r'
    case Open(tag, href) => tag in {Code, Strong, Em, Del, A} && '\n' !in href
    case Close(_) => true
  }

  predicate InlineTokens(ts: seq<Token>) {
    forall k :: 0 <= k < |ts| ==> InlineToken(ts[k])
  }

  lemma InlineConcat(a: seq<Token>, b: seq<Token>)
    ensures InlineTokens(a + b) <==> InlineTokens(a) && InlineTokens(b)
  {
    hide InlineToken;
    assert forall k :: 0 <= k < |a| ==> (a + b)[k] == a[k];
    assert forall k :: 0 <= k < |b| ==> (a + b)[|a| + k] == b[k];
  }

  lemma SliceInline(ts: seq<Token>, i: nat, j: nat)
    requires InlineTokens(ts) && i <= j <= |ts|
    ensures InlineTokens(ts[i..j])
  {
    hide InlineToken;
    assert forall k :: 0 <= k < j - i ==> ts[i..j][k] == ts[i + k];
  }

  lemma {:induction false} ReplaceStaysInline(r: Rule, prev: Option<Token>, ts: seq<Token>)
    requires InlineTokens(ts) && InlineTokens(Opens(r.tags)) && InlineTokens(Closes(r.tags))
    ensures InlineTokens(Replace(r, prev, ts))
    decreases |ts|
  {
    hide InlineToken;
    hide InlineTokens;
    hide Opens;
    hide Closes;
    hide Match;
    if ts != [] {
      match Match(r, prev, ts)
      case None =>
        assert ts == [ts[0]] + ts[1..];
        InlineConcat([ts[0]], ts[1..]);
        ReplaceStaysInline(r, Some(ts[0]), ts[1..]);
        InlineConcat([ts[0]], Replace(r, Some(ts[0]), ts[1..]));
      case Some(k) =>
        var rest := Replace(r, Some(Ch(r.mark)), ts[k + r.width..]);
        assert ts == (ts[..r.width] + ts[r.width..k]) + (ts[k..k + r.width] + ts[k + r.width..]);
        InlineConcat(ts[..r.width] + ts[r.width..k], ts[k..k + r.width] + ts[k + r.width..]);
        InlineConcat(ts[..r.width], ts[r.width..k]);
        InlineConcat(ts[k..k + r.width], ts[k + r.width..]);
        ReplaceStaysInline(r, Some(Ch(r.mark)), ts[k + r.width..]);
        InlineConcat(Opens(r.tags), ts[r.width..k]);
        InlineConcat(Opens(r.tags) + ts[r.width..k], Closes(r.tags));
        InlineConcat(Opens(r.tags) + ts[r.width..k] + Closes(r.tags), rest);
    }
  }

  lemma RuleTagsInline(i: nat)
    requires i < RULE_COUNT
    ensures InlineTokens(Opens(RuleAt(i).tags)) && InlineTokens(Closes(RuleAt(i).tags))
  {
  }

  lemma {:induction false} RulesStayInline(ts: seq<Token>, from: nat)
    requires InlineTokens(ts) && from <= RULE_COUNT
    ensures InlineTokens(ApplyRules(ts, from))
    decreases RULE_COUNT - from
  {
    hide InlineTokens;
    hide RuleAt;
    hide Replace;
    if from < RULE_COUNT {
      RuleTagsInline(from);
      ReplaceStaysInline(RuleAt(from), None, ts);
      RulesStayInline(Replace(RuleAt(from), None, ts), from + 1);
    }
  }

  lemma SpelledInline(ts: seq<Token>)
    requires InlineTokens(ts) && forall k :: 0 <= k < |ts| ==> ts[k].Ch?
    ensures '\n' !in Spell(ts)
  {
    forall k | 0 <= k < |ts|
      ensures Spell(ts)[k] != '\n'
    {
      assert InlineToken(ts[k]);
    }
  }

  lemma LinkParts(ts: seq<Token>, n: nat, m: nat)
    requires InlineTokens(ts) && n + m + 4 <= |ts|
    ensures InlineTokens(ts[1..n + 1]) && InlineTokens(ts[n + 3..][..m]) && InlineTokens(ts[n + m + 4..])
  {
    hide InlineTokens;
    SliceInline(ts, 1, n + 1);
    SliceInline(ts, n + 3, n + 3 + m);
    SliceInline(ts, n + m + 4, |ts|);
    assert ts[n + 3..n + 3 + m] == ts[n + 3..][..m] && ts[n + m + 4..|ts|] == ts[n + m + 4..];
  }

  lemma HeadAndTail(ts: seq<Token>)
    requires InlineTokens(ts) && ts != []
    ensures InlineTokens([ts[0]]) && InlineTokens(ts[1..])
  {
    hide InlineTokens;
    SliceInline(ts, 0, 1);
    SliceInline(ts, 1, |ts|);
    assert ts[0..1] == [ts[0]] && ts[1..|ts|] == ts[1..];
  }

  lemma LinkJoined(href: string, text: seq<Token>)
    requires '\n' !in href && InlineTokens(text)
    ensures InlineTokens([Open(A, href)] + text + [Close(A)])
  {
    LinkOpens(href);
    hide InlineTokens;
    InlineConcat([Open(A, href)], text);
    InlineConcat([Open(A, href)] + text, [Close(A)]);
  }

  lemma NoLinks()
    ensures ReplaceLinks([]) == [] && InlineTokens([])
  {
  }

  lemma NoLinkHere(ts: seq<Token>)
    requires ts != [] && LinkHere(ts).None?
    ensures ReplaceLinks(ts) == [ts[0]] + ReplaceLinks(ts[1..])
  {
    hide LinkHere;
  }

  lemma LinkAtHead(ts: seq<Token>)
    requires LinkHere(ts).Some?
    ensures var h := LinkHere(ts).value;
            ReplaceLinks(ts) == LinkTokens(ts, h.0, h.1) + ReplaceLinks(ts[h.0 + h.1 + 4..])
  {
    hide LinkHere;
    hide UrlLength;
    hide LinkTokens;
  }

  lemma LinkStaysInline(ts: seq<Token>, n: nat, m: nat)
    requires InlineTokens(ts) && n + m + 4 <= |ts| && UrlLength(ts[n + 3..]) == m
    ensures InlineTokens(LinkTokens(ts, n, m))
  {
    hide InlineTokens;
    hide UrlLength;
    hide Spell;
    LinkParts(ts, n, m);
    var url := ts[n + 3..][..m];
    SpelledInline(url);
    LinkJoined(Spell(url), ts[1..n + 1]);
  }

  lemma {:induction false} LinksStayInline(ts: seq<Token>)
    requires InlineTokens(ts)
    ensures InlineTokens(ReplaceLinks(ts))
    decreases |ts|
  {
    hide ReplaceLinks;
    hide LinkHere;
    hide UrlLength;
    hide InlineTokens;
    hide LinkTokens;
    if ts == [] {
      NoLinks();
    } else {
      match LinkHere(ts)
      case None =>
        NoLinkHere(ts);
        HeadAndTail(ts);
        LinksStayInline(ts[1..]);
        InlineConcat([ts[0]], ReplaceLinks(ts[1..]));
      case Some(h) =>
        LinkAtHead(ts);
        var link, rest := LinkTokens(ts, h.0, h.1), ts[h.0 + h.1 + 4..];
        LinkParts(ts, h.0, h.1);
        LinkStaysInline(ts, h.0, h.1);
        LinksStayInline(rest);
        InlineConcat(link, ReplaceLinks(rest));
    }
  }

  lemma LinkOpens(href: string)
    requires '\n' !in href
    ensures InlineTokens([Open(A, href)]) && InlineTokens([Close(A)])
  {
  }

  lemma {:induction false} AttributeOnOneLine(href: string)
    requires '\n' !in href
    ensures '\n' !in AttributeValue(href)
  {
    if href != "" && href[0] != '"' {
      assert href[0] in href;
      AttributeOnOneLine(href[1..]);
    }
  }

  lemma FormattedOnOneLine(tag: Tag, href: string, inner: string)
    requires tag in {Code, Strong, Em, Del, A} && '\n' !in href && '\n' !in inner
    ensures '\n' !in FormatBlock(tag, FormatInline(tag, href, inner))
  {
    hide Trim;
  }

  lemma {:induction false} ParseOnOneLine(ts: seq<Token>)
    requires InlineTokens(ts)
    ensures '\n' !in Inner(Parse(ts).0) && InlineTokens(Parse(ts).1)
    decreases |ts|
  {
    hide FormatInline;
    hide FormatBlock;
    hide InlineTokens;
    if ts != [] {
      var first := ts[0];
      assert ts == [first] + ts[1..];
      InlineConcat([first], ts[1..]);
      OneInline(first);
      ParseOnOneLine(ts[1..]);
      match first
      case Ch(c) => InnerCons(TextNode(Heard(c)), Parse(ts[1..]).0);
      case Close(_) =>
      case Open(tag, href) =>
        var kids := Parse(ts[1..]);
        ParseOnOneLine(kids.1);
        AttributeOnOneLine(href);
        FormattedOnOneLine(tag, AttributeValue(href), Inner(kids.0));
        InnerCons(Element(tag, AttributeValue(href), kids.0), Parse(kids.1).0);
    }
  }

  lemma OneInline(t: Token)
    requires InlineTokens([t])
    ensures InlineToken(t)
  {
    assert [t][0] == t;
  }

  lemma NormalisedOnOneLine(s: string)
    requires OneLine(s)
    ensures '\n' !in Normalised(s)
  {
    assert IsLineTerminator('\n') && IsLineTerminator('\r');
    assert InlineTokens(Chars(s));
    hide InlineTokens;
    RulesStayInline(Chars(s), 0);
    LinksStayInline(ApplyRules(Chars(s), 0));
    ParseOnOneLine(FormatInlineMarkdown(s));
  }

  // ----- a star never comes back -----

  lemma StarPrints(line: string)
    requires StarLine(line)
    ensures exists w :: LineOut(line) == w + "\n" && "- " <= w && '\n' !in w
  {
    hide BulletContent;
    hide Indent;
    hide Trim;
    hide Normalised;
    hide OneLine;
    var c := BulletContent(line).value;
    NormalisedOnOneLine(c);
    TrimPart(Normalised(c));
    var w := "- " + Trim(Normalised(c));
    assert LineOut(line) == w + "\n";
    hide LineOut;
    assert "- " <= w && '\n' !in w;
  }

  // The lines a document prints as, when its last line prints as w.
  lemma PrintedLines(lines: seq<string>, w: string) returns (all: seq<string>)
    requires lines != [] && LineOut(lines[|lines| - 1]) == w + "\n" && '\n' !in w
    ensures all != [] && all[|all| - 1] == w && (forall l :: l in all ==> '\n' !in l)
    ensures Raw(lines) == Join(all) + "\n"
  {
    hide LineOut;
    var front, last := lines[..|lines| - 1], lines[|lines| - 1];
    assert lines == front + [last];
    RawConcat(front, [last]);
    RawOne(last);
    if front == [] {
      all := [w];
      assert Raw(front) + (w + "\n") == w + "\n";
    } else {
      RawEnds(front);
      var r := Raw(front);
      var t := r[..|r| - 1];
      all := Lines(t) + [w];
      JoinConcat(Lines(t), [w]);
      JoinLines(t);
      assert r == t + "\n";
      assert (t + "\n") + (w + "\n") == t + "\n" + w + "\n";
    }
  }

  lemma RawOne(line: string)
    ensures Raw([line]) == LineOut(line)
  {
    hide LineOut;
    assert [line][1..] == [];
    assert Raw([line]) == LineOut(line) + Raw([]);
  }

  lemma LastOfDashed(all: seq<string>)
    requires all != [] && "- " <= all[|all| - 1]
    ensures LastVisible(all) == all[|all| - 1]
  {
    var front, w := all[..|all| - 1], all[|all| - 1];
    assert all == front + [w];
    VisibleConcat(front, [w]);
    VisibleOne(w);
    assert w[0] == '-' && !IsSpace('-');
    HasVisible(w, 0);
    hide Visible;
  }

  lemma DashStays(w: string)
    requires "- " <= w
    ensures TrimEnd(w) != "" && TrimEnd(w)[0] == '-'
  {
    assert w[0] == '-' && !IsSpace('-');
    HasVisible(w, 0);
    BlankIsTrimEnd(w);
  }

  lemma StarHead(line: string)
    requires StarLine(line)
    ensures line != "" && line[0] != '-'
  {
    assert !IsSpace('-');
    hide IsSpace;
  }

  lemma OutcomeEnds(all: seq<string>, out: string)
    requires Outcome(all, out)
    ensures Lines(out)[|Lines(out)| - 1] == TrimEnd(LastVisible(all))
  {
    hide Lines;
    hide TrimEnd;
    hide LastVisible;
    hide NoTriple;
    hide SettledLines;
    hide Tidy;
    assert TripLines(all, Lines(out));
  }

  lemma StarNeverFixed(out: string)
    requires var ls := Lines(out); StarLine(ls[|ls| - 1])
    ensures Normalise(out) != out
  {
    hide StarLine;
    hide Normalise;
    hide LineOut;
    hide Raw;
    hide Join;
    hide TrimEnd;
    hide LastVisible;
    hide Outcome;
    hide Lines;
    var ls := Lines(out);
    var last := ls[|ls| - 1];
    StarHead(last);
    StarPrints(last);
    var w :| LineOut(last) == w + "\n" && "- " <= w && '\n' !in w;
    var all := PrintedLines(ls, w);
    TripOutcome(out, all);
    OutcomeEnds(all, Normalise(out));
    LastOfDashed(all);
    DashStays(w);
  }

  // ----- the theorem -----

  lemma TrimmedTidyItem(line: string)
    requires SpanLine(line) && BulletContent(line).Some?
    ensures StableLine(TrimEnd(Tidy(line)))
  {
    TidySpanStable(line);
    DashIsStable();
    var t := Trim(BulletContent(line).value);
    assert Tidy(line) == "- " + t;
    if t != "" {
      TrimEdges(BulletContent(line).value);
    }
    hide StableLine;
    hide SpanLine;
    hide Tidy;
    hide Trim;
    hide BulletContent;
    hide IsSpace;
    TrimmedItem(t);
  }

  lemma TrimmedItem(t: string)
    requires t == "" || !IsSpace(t[|t| - 1])
    ensures TrimEnd("- " + t) == if t == "" then "-" else "- " + t
  {
    if t == "" {
      BareDash();
      assert "- " + "" == "- ";
    } else {
      hide IsSpace;
      var line := "- " + t;
      assert line[|line| - 1] == t[|t| - 1];
      NoSpaceAtEnd(line);
    }
  }

  // The last line after one trip.
  lemma LastLine(line: string)
    requires SpanLine(line)
    ensures StableLine(TrimEnd(Tidy(line))) || StarLine(TrimEnd(Tidy(line)))
  {
    hide SpanText;
    hide StableLine;
    hide StarLine;
    hide TrimEnd;
    EmptyIsStable();
    TrimEndEmpty();
    if BulletContent(line).Some? {
      TrimmedTidyItem(line);
    } else {
      TidyOfNoBullet(line);
      hide Tidy;
      hide BulletContent;
      if line != "" {
        TrimmedSpanLine(line);
      }
    }
  }

  lemma StarUnsettled(line: string)
    requires StarLine(TrimEnd(Tidy(line)))
    ensures !Settled(line)
  {
    SettledMeans(line);
    hide Settled;
    var last := TrimEnd(Tidy(line));
    StarHead(last);
    hide TrimEnd;
    assert BulletContent(last).Some?;
    hide BulletContent;
    hide Trim;
    assert Tidy(last)[0] == '-';
  }

  lemma TripStable(lines: seq<string>, ls: seq<string>)
    requires TripLines(TidyAll(lines), ls) && forall l :: l in lines ==> SpanLine(l)
    requires StableLine(ls[|ls| - 1])
    ensures forall l :: l in ls ==> StableLine(l)
  {
    hide StableLine;
    hide SpanLine;
    hide Tidy;
    hide TrimEnd;
    hide LastVisible;
    hide SettledLines;
    EmptyIsStable();
    forall l | l in ls
      ensures StableLine(l)
    {
      var k :| 0 <= k < |ls| && ls[k] == l;
      if k < |ls| - 1 && l in TidyAll(lines) {
        var j :| 0 <= j < |lines| && TidyAll(lines)[j] == l;
        TidySpanStable(lines[j]);
      }
    }
  }

  // For documents written with text and unambiguous spans that the parser reads as they stand, converting twice equals
  // converting once exactly when the last visible line is settled.
  lemma TwiceIsOnceIffSpans(md: string)
    requires forall l :: l in Lines(md) ==> SpanLine(l)
    ensures Normalise(Normalise(md)) == Normalise(md) <==> Settled(LastVisible(Lines(md)))
  {
    hide Normalise;
    hide SpanLine;
    hide StableLine;
    hide Tidy;
    hide TrimEnd;
    hide LastVisible;
    hide SettledLines;
    hide Settled;
    hide StarLine;
    hide Lines;
    hide NoTriple;
    var lines, out := Lines(md), Normalise(md);
    forall l | l in lines
      ensures StableLine(l)
    {
      SpanLineStable(l);
    }
    StableOutcome(md);
    var ls, v := Lines(out), LastVisible(lines);
    TidyOfLast(lines);
    LastVisibleIn(lines);
    EmptyIsSpanLine();
    LastLine(v);
    assert ls[|ls| - 1] == TrimEnd(Tidy(v));
    if StableLine(ls[|ls| - 1]) {
      TripStable(lines, ls);
      FixedIffCanonical(out);
      TidyAllSettled(lines);
      SettledMeans(v);
      hide TidyAll;
    } else {
      StarNeverFixed(out);
      StarUnsettled(v);
    }
  }

  lemma EmptyIsSpanLine()
    ensures SpanLine("")
  {
  }
}
