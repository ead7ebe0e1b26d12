// formatInlineMarkdown: the chain of global replacements that turns inline markers into elements.
// The replaced string is a sequence of tokens, a character or a whole tag; escaping is what makes that possible.
module RichInline {
  import opened Options
  import opened Text
  import opened RichDom

  datatype Token =
    | Ch(c: char)
    | Open(tag: Tag, href: string)
    | Close(tag: Tag)

  function Chars(s: string): (r: seq<Token>)
    ensures |r| == |s|
  {
    seq(|s|, k requires 0 <= k < |s| => Ch(s[k]))
  }

  // A replacement rule: width copies of mark, a shortest non-empty body, the same marks again. A guarded rule
  // refuses a longer run of the mark on its outside; a rule of width one also refuses it on its inside.
  datatype Rule = Rule(mark: char, width: nat, guarded: bool, tags: seq<Tag>)

  const RULE_COUNT := 8

  // The rules in the order they are applied.
  function RuleAt(i: nat): (r: Rule)
    requires i < RULE_COUNT
    ensures r.mark in {'`', '*', '_', '~'} && r.width >= 1
  {
    match i
    case 0 => Rule('`', 1, false, [Code])
    case 1 => Rule('*', 3, true, [Strong, Em])
    case 2 => Rule('_', 3, true, [Strong, Em])
    case 3 => Rule('*', 2, true, [Strong])
    case 4 => Rule('_', 2, true, [Strong])
    case 5 => Rule('*', 1, true, [Em])
    case 6 => Rule('_', 1, true, [Em])
    case _ => Rule('~', 2, false, [Del])
  }

  predicate MarksAt(r: Rule, ts: seq<Token>, k: nat) {
    k + r.width <= |ts| && forall j :: k <= j < k + r.width ==> ts[j] == Ch(r.mark)
  }

  predicate OpensHere(r: Rule, prev: Option<Token>, ts: seq<Token>) {
    && MarksAt(r, ts, 0) && r.width < |ts|
    && (r.guarded ==> prev != Some(Ch(r.mark)))
    && (r.width == 1 ==> ts[1] != Ch(r.mark))
  }

  predicate ClosesAt(r: Rule, ts: seq<Token>, k: nat) {
    && MarksAt(r, ts, k)
    && (r.guarded ==> k + r.width == |ts| || ts[k + r.width] != Ch(r.mark))
    && (r.guarded && r.width == 1 ==> k > 0 && ts[k - 1] != Ch(r.mark))
  }

  // The dot matches anything but a line terminator; the code rule's class matches those too.
  predicate InBody(r: Rule, t: Token) {
    r.mark == '`' || !t.Ch? || !IsLineTerminator(t.c)
  }

  // Where the shortest body that starts after the opening marks ends, trying k first.
  function FindClose(r: Rule, ts: seq<Token>, k: nat): (res: Option<nat>)
    ensures res.Some? ==> k <= res.value && res.value + r.width <= |ts|
    decreases |ts| - k
  {
    if k + r.width > |ts| || k >= |ts| then None
    else if ClosesAt(r, ts, k) then Some(k)
    else if !InBody(r, ts[k]) then None
    else FindClose(r, ts, k + 1)
  }

  function Match(r: Rule, prev: Option<Token>, ts: seq<Token>): (res: Option<nat>)
    ensures res.Some? ==> r.width < res.value && res.value + r.width <= |ts|
  {
    if OpensHere(r, prev, ts) && InBody(r, ts[r.width]) then FindClose(r, ts, r.width + 1) else None
  }

  function Opens(tags: seq<Tag>): seq<Token> {
    seq(|tags|, k requires 0 <= k < |tags| => Open(tags[k], ""))
  }

  function Closes(tags: seq<Tag>): seq<Token> {
    seq(|tags|, k requires 0 <= k < |tags| => Close(tags[|tags| - 1 - k]))
  }

  // One global replacement, left to right; prev is the token before ts, which a guard looks at.
  function Replace(r: Rule, prev: Option<Token>, ts: seq<Token>): seq<Token>
    decreases |ts|
  {
    if ts == [] then []
    else
      match Match(r, prev, ts)
      case None => [ts[0]] + Replace(r, Some(ts[0]), ts[1..])
      case Some(k) =>
        Opens(r.tags) + ts[r.width..k] + Closes(r.tags) + Replace(r, Some(Ch(r.mark)), ts[k + r.width..])
  }

  // ----- links -----

  // How many tokens come before the first stop character.
  function UpTo(ts: seq<Token>, stop: char): (n: nat)
    ensures n <= |ts|
  {
    if ts == [] || ts[0] == Ch(stop) then 0 else 1 + UpTo(ts[1..], stop)
  }

  function UrlLength(ts: seq<Token>): (n: nat)
    ensures n <= |ts|
    ensures forall k :: 0 <= k < n ==> ts[k].Ch?
  {
    if ts == [] || !ts[0].Ch? || IsSpace(ts[0].c) || ts[0].c == ')' then 0 else 1 + UrlLength(ts[1..])
  }

  function Spell(ts: seq<Token>): (s: string)
    requires forall k :: 0 <= k < |ts| ==> ts[k].Ch?
    ensures |s| == |ts|
  {
    seq(|ts|, k requires 0 <= k < |ts| => ts[k].c)
  }

  predicate HasScheme(url: string) {
    (|url| > 7 && "http://" <= url) || (|url| > 8 && "https://" <= url) || (|url| > 7 && "mailto:" <= url)
  }

  // [text](url) at the head of ts: the lengths of text and url.
  function LinkHere(ts: seq<Token>): (r: Option<(nat, nat)>)
    ensures r.Some? ==> r.value.0 + r.value.1 + 4 <= |ts| && UrlLength(ts[r.value.0 + 3..]) == r.value.1
  {
    if ts == [] || ts[0] != Ch('[') then None
    else
      var n := UpTo(ts[1..], ']');
      if n == 0 || n + 3 > |ts| || ts[n + 2] != Ch('(') then None
      else
        var m := UrlLength(ts[n + 3..]);
        if n + 3 + m < |ts| && ts[n + 3 + m] == Ch(')') && HasScheme(Spell(ts[n + 3..][..m])) then Some((n, m)) else None
  }

  // What takes the place of a link at the head of ts.
  function LinkTokens(ts: seq<Token>, n: nat, m: nat): seq<Token>
    requires n + m + 4 <= |ts| && UrlLength(ts[n + 3..]) == m
  {
    [Open(A, Spell(ts[n + 3..][..m]))] + ts[1..n + 1] + [Close(A)]
  }

  function ReplaceLinks(ts: seq<Token>): seq<Token>
    decreases |ts|
  {
    if ts == [] then []
    else
      match LinkHere(ts)
      case None => [ts[0]] + ReplaceLinks(ts[1..])
      case Some((n, m)) =>
        LinkTokens(ts, n, m) + ReplaceLinks(ts[n + m + 4..])
  }

  function ApplyRules(ts: seq<Token>, from: nat): seq<Token>
    requires from <= RULE_COUNT
    decreases RULE_COUNT - from
  {
    if from == RULE_COUNT then ts else ApplyRules(Replace(RuleAt(from), None, ts), from + 1)
  }

  function FormatInlineMarkdown(s: string): seq<Token> {
    ReplaceLinks(ApplyRules(Chars(s), 0))
  }

  // ----- the tree the tokens stand for -----

  // What the HTML parser makes of a character of text: it reads a carriage return as a newline and drops NUL. (The
  // markup holds no newline, so no carriage return is half of a pair.)
  function Heard(c: char): string {
    if c == '\r' then "\n" else if c == '\0' then "" else [c]
  }

  function Received(s: string): (r: string)
    ensures |r| <= |s|
  {
    if s == "" then "" else Heard(s[0]) + Received(s[1..])
  }

  // What it makes of a quoted attribute value: the value ends at its first quote, and NUL becomes U+FFFD.
  function AttributeValue(href: string): (r: string)
    ensures |r| <= |href|
  {
    if href == "" || href[0] == '"' then ""
    else [if href[0] == '\0' then '\U{fffd}' else href[0]] + AttributeValue(href[1..])
  }

  // Reads nodes up to a closing tag. A close always ends the innermost open element: how a browser repairs
  // misnested tags is not modelled.
  function Parse(ts: seq<Token>): (r: (seq<Node>, seq<Token>))
    ensures |r.1| <= |ts|
    decreases |ts|
  {
    if ts == [] then ([], [])
    else
      match ts[0]
      case Ch(c) => var rest := Parse(ts[1..]); ([TextNode(Heard(c))] + rest.0, rest.1)
      case Close(_) => ([], ts[1..])
      case Open(tag, href) =>
        var kids := Parse(ts[1..]);
        var rest := Parse(kids.1);
        ([Element(tag, AttributeValue(href), kids.0)] + rest.0, rest.1)
  }

  function InlineTree(s: string): seq<Node> {
    Parse(FormatInlineMarkdown(s)).0
  }

  // What a line's inline part becomes after a trip through the tree.
  function Normalised(s: string): string {
    Inner(InlineTree(s))
  }

  predicate Stable(s: string) {
    Normalised(s) == s
  }

  // ----- text without markers -----

  predicate IsMarker(c: char) {
    c in {'`', '*', '_', '~', '['}
  }

  predicate Plain(s: string) {
    forall k :: 0 <= k < |s| ==> !IsMarker(s[k])
  }

  lemma MarksShift(r: Rule, ts: seq<Token>, p: nat)
    requires ts != []
    ensures MarksAt(r, ts[1..], p) <==> MarksAt(r, ts, p + 1)
  {
    if p + 1 + r.width <= |ts| {
      assert forall j :: p + 1 <= j < p + 1 + r.width ==> ts[j] == ts[1..][j - 1];
      assert forall j :: p <= j < p + r.width ==> ts[1..][j] == ts[j + 1];
    }
  }

  // A stretch in which the rule's marks appear nowhere, not even straddling its end, passes unchanged.
  lemma {:induction false} Passes(r: Rule, prev: Option<Token>, x: seq<Token>, rest: seq<Token>)
    requires forall p :: 0 <= p < |x| ==> !MarksAt(r, x + rest, p)
    ensures Replace(r, prev, x + rest) == x + Replace(r, if x == [] then prev else Some(x[|x| - 1]), rest)
    decreases x
  {
    if x == [] {
      assert x + rest == rest;
    } else {
      var ts := x + rest;
      assert !MarksAt(r, ts, 0);
      var tail := x[1..];
      assert ts[1..] == tail + rest;
      assert Match(r, prev, ts) == None;
      hide Match;
      hide MarksAt;
      forall p | 0 <= p < |tail|
        ensures !MarksAt(r, tail + rest, p)
      {
        MarksShift(r, ts, p);
        assert !MarksAt(r, ts, p + 1);
      }
      Passes(r, Some(ts[0]), tail, rest);
    }
  }

  lemma PassesUnmarked(r: Rule, prev: Option<Token>, x: seq<Token>, rest: seq<Token>)
    requires r.width > 0 && Ch(r.mark) !in x
    ensures Replace(r, prev, x + rest) == x + Replace(r, if x == [] then prev else Some(x[|x| - 1]), rest)
  {
    forall p | 0 <= p < |x|
      ensures !MarksAt(r, x + rest, p)
    {
      assert (x + rest)[p] == x[p] && x[p] in x;
    }
    Passes(r, prev, x, rest);
  }

  lemma {:induction false} LinksPass(x: seq<Token>, rest: seq<Token>)
    requires Ch('[') !in x
    ensures ReplaceLinks(x + rest) == x + ReplaceLinks(rest)
  {
    if x == [] {
      assert x + rest == rest;
    } else {
      assert (x + rest)[0] == x[0] && x[0] in x;
      assert (x + rest)[1..] == x[1..] + rest;
      LinksPass(x[1..], rest);
    }
  }

  lemma {:induction false} ParseChars(s: string, rest: seq<Token>)
    ensures Parse(Chars(s) + rest).1 == Parse(rest).1
    ensures Inner(Parse(Chars(s) + rest).0) == Received(s) + Inner(Parse(rest).0)
    decreases s
  {
    hide Heard;
    if s == "" {
      assert Chars(s) + rest == rest;
    } else {
      var ts := Chars(s) + rest;
      assert ts[0] == Ch(s[0]) && ts[1..] == Chars(s[1..]) + rest;
      ParseChars(s[1..], rest);
      var nodes := Parse(ts[1..]).0;
      assert ([TextNode(Heard(s[0]))] + nodes)[1..] == nodes;
      assert Heard(s[0]) + (Received(s[1..]) + Inner(Parse(rest).0)) == Received(s) + Inner(Parse(rest).0);
    }
  }

  // Text the parser keeps as it is.
  predicate Intact(s: string) {
    '\r' !in s && '\0' !in s
  }

  lemma {:induction false} ReceivedIsIntact(s: string)
    ensures Intact(Received(s))
    ensures Intact(s) ==> Received(s) == s
    ensures forall x :: x in Received(s) ==> x in s || x == '\n'
  {
    if s != "" {
      ReceivedIsIntact(s[1..]);
      assert s == [s[0]] + s[1..];
      assert forall x :: x in Received(s) ==> x in Heard(s[0]) || x in Received(s[1..]);
      if Intact(s) {
        assert s[0] in s && forall x :: x in s[1..] ==> x in s;
      }
    }
  }

  lemma {:induction false} AttributeKeptIff(href: string)
    ensures AttributeValue(href) == href <==> '"' !in href && '\0' !in href
  {
    if href != "" && href[0] != '"' {
      AttributeKeptIff(href[1..]);
      assert href == [href[0]] + href[1..];
      var v := AttributeValue(href);
      assert v[1..] == AttributeValue(href[1..]);
      if v == href {
        assert v[0] == href[0];
      }
    }
  }

  lemma PlainLacks(s: string, c: char)
    requires Plain(s) && IsMarker(c)
    ensures Ch(c) !in Chars(s)
  {
  }

  // Text of a line without markers comes back as the parser received it: unchanged exactly when it holds no carriage
  // return and no NUL.
  lemma PlainStableIff(s: string)
    requires Plain(s) && '\n' !in s
    ensures Normalised(s) == Received(s)
    ensures Stable(s) <==> '\r' !in s && '\0' !in s
  {
    PlainSurvivesRules(s, 0);
    PlainLacks(s, '[');
    LinksPass(Chars(s), []);
    assert Chars(s) + [] == Chars(s);
    ParseChars(s, []);
    assert Received(s) + "" == Received(s);
    ReceivedIsIntact(s);
  }

  lemma NothingReplaced(r: Rule, prev: Option<Token>)
    ensures Replace(r, prev, []) == []
  {
  }

  lemma {:induction false} PlainSurvivesRules(s: string, from: nat)
    requires Plain(s) && from <= RULE_COUNT
    ensures ApplyRules(Chars(s), from) == Chars(s)
    decreases RULE_COUNT - from
  {
    hide RuleAt;
    hide Replace;
    hide Chars;
    hide Plain;
    if from < RULE_COUNT {
      var r, ts := RuleAt(from), Chars(s);
      PlainLacks(s, r.mark);
      PassesUnmarked(r, None, ts, []);
      NothingReplaced(r, if ts == [] then None else Some(ts[|ts| - 1]));
      assert ts + [] == ts;
      PlainSurvivesRules(s, from + 1);
    }
  }
}
