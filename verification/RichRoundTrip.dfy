// The trip from Markdown to the editor's tree and back: what it fixes, and when doing it twice changes more.
module RichRoundTrip {
  import opened Options
  import opened Text
  import opened LineText
  import opened RichDom
  import opened RichInline
  import opened RichBlocks
  import RichSpans

  // ----- what the tree of a document prints as -----

  // The text one line contributes.
  function LineOut(line: string): string {
    match BulletContent(line)
    case Some(c) => "- " + Trim(Normalised(c)) + "\n"
    case None => if Blank(line) then "\n" else FormatDiv(Normalised(line))
  }

  function Raw(lines: seq<string>): string {
    if lines == [] then "" else LineOut(lines[0]) + Raw(lines[1..])
  }

  lemma LineOutEnds(line: string)
    ensures EndsWithNewline(LineOut(line))
  {
    hide BulletContent;
    hide Normalised;
    hide Trim;
    hide Blank;
  }

  // One line's node prints as the line's text.
  lemma NodePrints(line: string)
    ensures var p := PieceOf(line);
            DomToMarkdown(Element(if p.LiPiece? then Li else Div, "", p.content)) == LineOut(line)
  {
    hide BulletContent;
    hide Trim;
    hide Blank;
    hide InlineTree;
    var p := PieceOf(line);
    if p.LiPiece? {
      ElementPrints(Li, p.content);
    } else {
      ElementPrints(Div, p.content);
      BreakInside();
    }
    hide DomToMarkdown;
    hide Inner;
  }

  lemma ElementPrints(tag: Tag, kids: seq<Node>)
    requires tag == Li || tag == Div || tag == Ul
    ensures DomToMarkdown(Element(tag, "", kids)) == FormatBlock(tag, Inner(kids))
  {
    hide Inner;
    hide FormatBlock;
    hide Trim;
    hide Wrap;
    hide StartsWith;
  }

  lemma BreakInside()
    ensures Inner([BREAK]) == "\n"
  {
    assert Inner([BREAK]) == "\n" + Inner([]);
  }

  lemma {:induction false} ItemsPrint(lines: seq<string>)
    requires forall k :: 0 <= k < |lines| ==> PieceOf(lines[k]).LiPiece?
    ensures Inner(ItemNodes(PiecesOf(lines))) == Raw(lines)
    ensures lines != [] ==> EndsWithNewline(Raw(lines))
  {
    hide BulletContent;
    hide PieceOf;
    hide LineOut;
    hide DomToMarkdown;
    if lines != [] {
      ItemsPrint(lines[1..]);
      NodePrints(lines[0]);
      LineOutEnds(lines[0]);
      var nodes := ItemNodes(PiecesOf(lines));
      assert nodes[1..] == ItemNodes(PiecesOf(lines[1..]));
    }
  }

  lemma {:induction false} RawConcat(a: seq<string>, b: seq<string>)
    ensures Raw(a + b) == Raw(a) + Raw(b)
  {
    hide LineOut;
    if a == [] {
      assert a + b == b;
    } else {
      assert (a + b)[0] == a[0] && (a + b)[1..] == a[1..] + b;
      RawConcat(a[1..], b);
      assert LineOut(a[0]) + (Raw(a[1..]) + Raw(b)) == LineOut(a[0]) + Raw(a[1..]) + Raw(b);
    }
  }

  lemma ListPrints(kids: seq<Node>)
    requires EndsWithNewline(Inner(kids))
    ensures DomToMarkdown(Element(Ul, "", kids)) == Inner(kids)
  {
    hide Inner;
  }

  lemma InnerCons(node: Node, rest: seq<Node>)
    ensures Inner([node] + rest) == DomToMarkdown(node) + Inner(rest)
  {
    assert ([node] + rest)[1..] == rest;
    hide DomToMarkdown;
  }

  // A list node prints as its lines, whatever follows.
  lemma ListPartPrints(lines: seq<string>, n: nat)
    requires 0 < n <= |lines| && n == Items(PiecesOf(lines))
    ensures Inner(BlockTree(PiecesOf(lines))) == Raw(lines[..n]) + Inner(BlockTree(PiecesOf(lines[n..])))
  {
    hide PieceOf;
    hide LineOut;
    hide DomToMarkdown;
    hide Raw;
    var ps := PiecesOf(lines);
    assert ps[..n] == PiecesOf(lines[..n]) && ps[n..] == PiecesOf(lines[n..]);
    forall k | 0 <= k < n
      ensures PieceOf(lines[..n][k]).LiPiece?
    {
      assert ps[k] == PieceOf(lines[k]);
    }
    ItemsPrint(lines[..n]);
    hide PiecesOf;
    hide ItemNodes;
    hide Inner;
    ListPrints(ItemNodes(ps[..n]));
    InnerCons(Element(Ul, "", ItemNodes(ps[..n])), BlockTree(ps[n..]));
  }

  lemma DivPartPrints(lines: seq<string>)
    requires lines != [] && Items(PiecesOf(lines)) == 0
    ensures Inner(BlockTree(PiecesOf(lines))) == LineOut(lines[0]) + Inner(BlockTree(PiecesOf(lines[1..])))
  {
    hide PieceOf;
    hide LineOut;
    hide DomToMarkdown;
    hide Inner;
    var ps := PiecesOf(lines);
    assert ps[0] == PieceOf(lines[0]) && ps[1..] == PiecesOf(lines[1..]);
    NodePrints(lines[0]);
    InnerCons(Element(Div, "", ps[0].content), BlockTree(ps[1..]));
  }

  lemma {:induction false} TreePrints(lines: seq<string>)
    ensures Inner(BlockTree(PiecesOf(lines))) == Raw(lines)
    decreases |lines|
  {
    hide LineOut;
    hide DomToMarkdown;
    hide PiecesOf;
    if lines == [] {
      EmptyTree();
    } else {
      hide BlockTree;
      hide Inner;
      var n := Items(PiecesOf(lines));
      if n > 0 {
        ListPartPrints(lines, n);
        TreePrints(lines[n..]);
        RawConcat(lines[..n], lines[n..]);
        assert lines[..n] + lines[n..] == lines;
      } else {
        DivPartPrints(lines);
        TreePrints(lines[1..]);
      }
    }
  }

  lemma EmptyTree()
    ensures Inner(BlockTree(PiecesOf([]))) == ""
  {
  }

  lemma BodyPrints(body: seq<Node>)
    requires body != [] && EndsWithNewline(Inner(body))
    ensures DomToMarkdown(Element(Div, "", body)) == Inner(body)
  {
    hide Inner;
  }

  lemma {:induction false} RawEnds(lines: seq<string>)
    requires lines != []
    ensures EndsWithNewline(Raw(lines))
  {
    hide LineOut;
    LineOutEnds(lines[0]);
    if |lines| > 1 {
      RawEnds(lines[1..]);
    }
  }

  lemma EmptyDocument()
    ensures TrimEnd(Collapse(Raw([""]))) == "" && Normalise("") == ""
  {
    EmptyLineOut();
    hide LineOut;
    assert Raw([""]) == "\n" + Raw([""][1..]);
    NewlineTrims();
    hide TrimEnd;
  }

  lemma EmptyLineOut()
    ensures LineOut("") == "\n"
  {
    assert BulletContent("") == None;
    assert Blank("");
  }

  lemma BreakPrints()
    ensures Inner([Element(Br, "", [])]) == "\n"
    ensures Inner([Element(Div, "", [Element(Br, "", [])])]) == "\n"
  {
    BreakInside();
    var br := Element(Br, "", []);
    InnerOne(Element(Div, "", [br]));
    ElementPrints(Div, [br]);
    hide DomToMarkdown;
    hide Inner;
  }

  // The special cases agree with the general rule, so one formula covers every document.
  lemma NormaliseIs(md: string)
    ensures Normalise(md) == TrimEnd(Collapse(Raw(Lines(md))))
  {
    if md == "" {
      EmptyDocument();
    } else {
      var lines := Lines(md);
      var body := BlockTree(PiecesOf(lines));
      TreePrints(lines);
      RawEnds(lines);
      BreakPrints();
      assert Body(md) == body;
      hide BlockTree;
      hide PiecesOf;
      hide Raw;
      hide Lines;
      if body == [Element(Br, "", [])] || body == [Element(Div, "", [Element(Br, "", [])])] {
        NewlineTrims();
      } else {
        hide DomToMarkdown;
        BodyPrints(body);
      }
    }
  }

  lemma NewlineTrims()
    ensures TrimEnd(Collapse("\n")) == ""
  {
    assert Collapse("\n") == "\n";
    assert TrimEnd("\n") == "";
  }

  // ----- lines in, lines out -----

  // A line whose inline part the tree gives back unchanged.
  predicate StableLine(line: string) {
    match BulletContent(line)
    case Some(c) => Stable(c)
    case None => Blank(line) || Stable(line)
  }

  predicate StableDoc(md: string) {
    forall l :: l in Lines(md) ==> StableLine(l)
  }

  // The line a stable line becomes.
  function Tidy(line: string): string {
    match BulletContent(line)
    case Some(c) => "- " + Trim(c)
    case None => if Blank(line) then "" else line
  }

  function TidyAll(lines: seq<string>): (r: seq<string>)
    ensures |r| == |lines|
  {
    seq(|lines|, k requires 0 <= k < |lines| => Tidy(lines[k]))
  }

  lemma StableLineOut(line: string)
    requires StableLine(line) && '\n' !in line
    ensures LineOut(line) == Tidy(line) + "\n"
  {
    hide BulletContent;
    hide Blank;
    hide Trim;
    hide Normalised;
    if BulletContent(line).None? && !Blank(line) {
      BlankEmpty();
      assert line != "" && line[|line| - 1] in line;
    }
  }

  lemma BlankEmpty()
    ensures Blank("") && Trim("") == ""
  {
  }

  lemma {:induction false} StableRaw(lines: seq<string>)
    requires lines != [] && forall l :: l in lines ==> StableLine(l) && '\n' !in l
    ensures Raw(lines) == Join(TidyAll(lines)) + "\n"
  {
    hide LineOut;
    hide StableLine;
    hide Tidy;
    StableLineOut(lines[0]);
    if |lines| == 1 {
      assert Raw(lines) == LineOut(lines[0]) + Raw([]);
      assert LineOut(lines[0]) + "" == LineOut(lines[0]);
    } else {
      StableRaw(lines[1..]);
      assert TidyAll(lines)[1..] == TidyAll(lines[1..]);
      var t := Join(TidyAll(lines[1..]));
      assert (Tidy(lines[0]) + "\n") + (t + "\n") == Tidy(lines[0]) + "\n" + t + "\n";
    }
  }

  lemma TidyHasNoNewline(line: string)
    requires '\n' !in line
    ensures '\n' !in Tidy(line)
  {
    match BulletContent(line)
    case Some(c) =>
      TrimPart(c);
      hide Trim;
      hide BulletContent;
      forall x | x in Tidy(line)
        ensures x != '\n'
      {
        assert x in "- " || x in Trim(c);
      }
    case None =>
  }

  // Trimming keeps only characters of the original.
  lemma TrimPart(s: string)
    ensures forall x :: x in Trim(s) ==> x in s
    ensures |Trim(s)| <= |s|
    ensures OneLine(s) ==> OneLine(Trim(s))
  {
    hide IsSpace;
    hide TrimStart;
    hide TrimEnd;
    var t := TrimEnd(s);
    var r := TrimStart(t);
    forall x | x in r
      ensures x in s
    {
      var k :| 0 <= k < |r| && r[k] == x;
      assert t[|t| - |r| + k] == x && s[|t| - |r| + k] == x;
    }
    if OneLine(s) {
      forall k | 0 <= k < |r|
        ensures !IsLineTerminator(r[k])
      {
        assert r[k] == t[|t| - |r| + k] == s[|t| - |r| + k];
      }
    }
  }

  // A trimmed text starts and ends with something visible.
  lemma TrimEdges(s: string)
    requires Trim(s) != ""
    ensures !IsSpace(Trim(s)[0]) && !IsSpace(Trim(s)[|Trim(s)| - 1])
  {
    hide IsSpace;
    var t := TrimEnd(s);
    hide TrimEnd;
    hide TrimStart;
    var r := TrimStart(t);
    assert r[|r| - 1] == t[|t| - 1];
  }

  lemma TrimFixed(s: string)
    requires s != "" && !IsSpace(s[0]) && !IsSpace(s[|s| - 1])
    ensures Trim(s) == s && TrimEnd(s) == s
  {
    hide IsSpace;
  }

  // "- x" is a list line whose content is x.
  lemma DashedContent(x: string)
    requires x != "" && !IsSpace(x[0]) && OneLine(x)
    ensures BulletContent("- " + x) == Some(x)
  {
    var line := "- " + x;
    assert !IsSpace('-') && IsSpace(' ');
    hide IsSpace;
    hide IsLineTerminator;
    assert Indent(line) == 0;
    var tail := line[1..];
    assert tail == " " + x;
    assert tail[1..] == x;
    assert Indent(x) == 0;
    assert Indent(tail) == 1;
  }

  lemma BareDash()
    ensures BulletContent("- ") == None && !Blank("- ") && Tidy("- ") == "- "
    ensures BulletContent("-") == None && !Blank("-") && Tidy("-") == "-"
    ensures TrimEnd("- ") == "-"
  {
    BareDashIndent();
    assert "- "[1..] == " " && "-"[1..] == "";
    assert BulletContent("- ") == AfterGap(" ", 1) == None;
    assert BulletContent("-") == AfterGap("", 1) == None;
    assert TrimEnd("- ") == TrimEnd("-") == "-";
    assert Trim("- ") == "-" && Trim("-") == "-";
  }

  lemma BareDashIndent()
    ensures Indent("- ") == 0 && Indent("-") == 0 && Indent(" ") == 1 && Indent("") == 0
  {
    assert " "[1..] == "";
  }

  // Tidying twice is tidying once, line by line.
  lemma TidyTwice(line: string)
    ensures Tidy(Tidy(line)) == Tidy(line)
  {
    BareDash();
    EmptyIsNoBullet();
    hide BulletContent;
    hide Trim;
    hide Blank;
    match BulletContent(line)
    case Some(c) =>
      TrimPart(c);
      if Trim(c) == "" {
        assert "- " + "" == "- ";
      } else {
        TrimEdges(c);
        DashedContent(Trim(c));
        TrimFixed(Trim(c));
      }
    case None =>
  }

  lemma EmptyIsNoBullet()
    ensures BulletContent("") == None && Tidy("") == ""
  {
    BlankEmpty();
  }

  // ----- collapsing newlines and trimming, line by line -----

  ghost predicate NoTriple(s: string) {
    forall k :: 0 <= k < |s| ==> !TripleAt(s, k)
  }

  predicate TripleAt(s: string, k: nat) {
    k + 2 < |s| && s[k] == s[k + 1] == s[k + 2] == '\n'
  }

  predicate TripleHere(s: string) {
    TripleAt(s, 0)
  }

  lemma CollapseUnfold(s: string)
    requires s != ""
    ensures Collapse(s) == if TripleHere(s) then Collapse(s[1..]) else [s[0]] + Collapse(s[1..])
  {
    if StartsWith(s, "\n\n\n") {
      assert s[0] == "\n\n\n"[0] && s[1] == "\n\n\n"[1] && s[2] == "\n\n\n"[2];
    }
  }

  lemma {:induction false} CollapseKeepsHead(s: string)
    ensures Collapse(s) == "" <==> s == ""
    ensures s != "" ==> Collapse(s)[0] == s[0]
  {
    if s != "" {
      CollapseUnfold(s);
      if TripleHere(s) {
        CollapseKeepsHead(s[1..]);
      }
    }
  }

  // The leading newlines of a collapsed text: as many as before, up to two.
  lemma {:induction false} CollapseSecond(s: string)
    requires |s| >= 2
    ensures var c := Collapse(s);
            (|c| >= 2 && c[0] == c[1] == '\n') <==> s[0] == s[1] == '\n'
  {
    CollapseUnfold(s);
    if TripleHere(s) {
      CollapseSecond(s[1..]);
    } else {
      CollapseKeepsHead(s[1..]);
    }
  }

  lemma {:induction false} CollapsedHasNoTriple(s: string)
    ensures NoTriple(Collapse(s))
  {
    if s != "" {
      CollapseUnfold(s);
      CollapsedHasNoTriple(s[1..]);
      if !TripleHere(s) {
        var rest := Collapse(s[1..]);
        if |s| >= 3 {
          CollapseSecond(s[1..]);
        } else if |s| == 2 {
          CollapseUnfold(s[1..]);
          assert s[1..][1..] == "";
        }
        forall k | 0 <= k < |Collapse(s)|
          ensures !TripleAt(Collapse(s), k)
        {
          if k > 0 {
            assert !TripleAt(rest, k - 1);
          }
        }
      }
    }
  }

  lemma {:induction false} NoTripleUncollapsed(s: string)
    requires NoTriple(s)
    ensures Collapse(s) == s
  {
    if s != "" {
      CollapseUnfold(s);
      assert !TripleAt(s, 0);
      forall k | 0 <= k < |s[1..]|
        ensures !TripleAt(s[1..], k)
      {
        assert !TripleAt(s, k + 1);
      }
      NoTripleUncollapsed(s[1..]);
    }
  }

  // The lines that are not blank, in order.
  function Visible(lines: seq<string>): seq<string> {
    if lines == [] then [] else (if Blank(lines[0]) then [] else [lines[0]]) + Visible(lines[1..])
  }

  // Lines that a second trip leaves alone once the text has been trimmed: each is tidy, the last visible one after
  // trimming, and what follows it is blank and goes.
  predicate SettledLines(ls: seq<string>) {
    ls != [] ==>
      && (if Visible(ls[1..]) == [] then Tidy(TrimEnd(ls[0])) == TrimEnd(ls[0]) else Tidy(ls[0]) == ls[0])
      && SettledLines(ls[1..])
  }

  lemma SettledCons(x: string, ls: seq<string>)
    ensures SettledLines([x] + ls) <==>
      (if Visible(ls) == [] then Tidy(TrimEnd(x)) == TrimEnd(x) else Tidy(x) == x) && SettledLines(ls)
  {
    assert ([x] + ls)[1..] == ls;
    hide Tidy;
    hide TrimEnd;
    hide Blank;
  }

  lemma EmptySettles(ls: seq<string>)
    ensures SettledLines([""] + ls) <==> SettledLines(ls)
  {
    EmptyIsNoBullet();
    TrimEndEmpty();
    SettledCons("", ls);
    hide Tidy;
    hide TrimEnd;
    hide Blank;
  }

  // Collapsing drops empty lines only: every line left was there, and neither the visible lines nor whether all are
  // settled changes.
  ghost predicate FewerLines(a: seq<string>, b: seq<string>) {
    && |a| >= 1 && |b| >= 1 && a[0] == b[0]
    && (forall l :: l in a[1..] ==> l in b[1..])
    && Visible(a[1..]) == Visible(b[1..])
    && (SettledLines(a[1..]) <==> SettledLines(b[1..]))
  }

  lemma {:induction false} CollapseLines(s: string)
    ensures FewerLines(Lines(Collapse(s)), Lines(s))
  {
    hide FewerLines;
    if s == "" {
      SameLines([""]);
    } else {
      CollapseUnfold(s);
      var t := s[1..];
      CollapseLines(t);
      assert [s[0]] + t == s;
      LinesCons(s[0], t);
      if TripleHere(s) {
        DropEmptyLine(Lines(Collapse(t)), Lines(t));
        TwoNewlines(t);
      } else {
        LinesCons(s[0], Collapse(t));
        FewerCons(s[0], Lines(Collapse(t)), Lines(t));
      }
    }
  }

  lemma SameLines(a: seq<string>)
    requires |a| >= 1
    ensures FewerLines(a, a)
  {
  }

  lemma TwoNewlines(t: string)
    requires t != "" && t[0] == '\n'
    ensures Lines(t)[0] == ""
  {
  }

  lemma SeenHead(b: seq<string>)
    requires b != []
    ensures Visible(b) == (if Blank(b[0]) then [] else [b[0]]) + Visible(b[1..])
  {
    hide Blank;
  }

  lemma EmptyBefore(rest: seq<string>)
    ensures Visible([""] + rest) == Visible(rest) && (SettledLines([""] + rest) <==> SettledLines(rest))
  {
    hide Blank;
    hide SettledLines;
    hide Visible;
    BlankEmpty();
    EmptySettles(rest);
    SeenHead([""] + rest);
    assert ([""] + rest)[1..] == rest;
  }

  lemma EmptyHead(b: seq<string>)
    requires b != [] && b[0] == ""
    ensures Visible(b) == Visible(b[1..]) && (SettledLines(b) <==> SettledLines(b[1..]))
  {
    hide Visible;
    hide SettledLines;
    var rest := b[1..];
    assert b == [""] + rest;
    EmptyBefore(rest);
  }

  lemma DropEmptyLine(a: seq<string>, b: seq<string>)
    requires FewerLines(a, b)
    ensures b[0] == "" ==> FewerLines(a, [""] + b)
  {
    hide Visible;
    hide SettledLines;
    if b[0] == "" {
      EmptyHead(b);
      assert ([""] + b)[1..] == b && ([""] + b)[0] == "";
      assert forall l :: l in b[1..] ==> l in b;
    }
  }

  lemma SettledSplit(a: seq<string>)
    requires a != []
    ensures SettledLines(a) <==>
      (if Visible(a[1..]) == [] then Tidy(TrimEnd(a[0])) == TrimEnd(a[0]) else Tidy(a[0]) == a[0]) && SettledLines(a[1..])
  {
    hide Tidy;
    hide TrimEnd;
    hide Visible;
  }

  lemma MoreHeads(a: seq<string>, b: seq<string>)
    requires a != [] && b != [] && a[0] == b[0] && forall l :: l in a[1..] ==> l in b[1..]
    ensures forall l :: l in a ==> l in b
  {
    forall l | l in a
      ensures l in b
    {
      var k :| 0 <= k < |a| && a[k] == l;
      if k > 0 {
        assert a[1..][k - 1] == l;
        assert l in a[1..];
      } else {
        assert b[0] == l;
      }
    }
  }

  lemma FewerCons(c: char, a: seq<string>, b: seq<string>)
    requires FewerLines(a, b)
    ensures FewerLines(PutFirst(c, a), PutFirst(c, b))
  {
    hide Blank;
    hide Tidy;
    hide TrimEnd;
    hide Visible;
    hide SettledLines;
    SettledSplit(a);
    SettledSplit(b);
    SeenHead(a);
    SeenHead(b);
    assert PutFirst(c, a)[1..] == if c == '\n' then a else a[1..];
    assert PutFirst(c, b)[1..] == if c == '\n' then b else b[1..];
    MoreHeads(a, b);
    assert PutFirst(c, a)[0] == PutFirst(c, b)[0];
    hide PutFirst;
  }

  function PutFirst(c: char, ls: seq<string>): seq<string>
    requires |ls| >= 1
  {
    if c == '\n' then [""] + ls else [[c] + ls[0]] + ls[1..]
  }

  lemma LinesCons(c: char, s: string)
    ensures Lines([c] + s) == PutFirst(c, Lines(s))
  {
    assert ([c] + s)[1..] == s;
  }

  // ----- the end of a document -----

  function PutLast(ls: seq<string>, c: char): seq<string>
    requires |ls| >= 1
  {
    if c == '\n' then ls + [""] else ls[..|ls| - 1] + [ls[|ls| - 1] + [c]]
  }

  lemma PutFirstLast(a: char, ls: seq<string>, c: char)
    requires |ls| >= 1
    ensures PutFirst(a, PutLast(ls, c)) == PutLast(PutFirst(a, ls), c)
  {
    var n := |ls|;
    if c == '\n' {
      assert PutLast(ls, c) == ls + [""];
      assert (ls + [""])[1..] == ls[1..] + [""];
    } else if a == '\n' {
      var put := [""] + ls;
      assert PutFirst(a, ls) == put && put[n] == ls[n - 1];
      assert put[..n] == [""] + ls[..n - 1];
    } else if n == 1 {
      assert [a] + (ls[0] + [c]) == [a] + ls[0] + [c];
      assert PutLast(ls, c) == [ls[0] + [c]];
    } else {
      var last := ls[n - 1] + [c];
      var put := [[a] + ls[0]] + ls[1..];
      assert PutFirst(a, ls) == put && put[n - 1] == ls[n - 1];
      assert put[..n - 1] == [[a] + ls[0]] + ls[1..n - 1];
      var cut := ls[..n - 1] + [last];
      assert PutLast(ls, c) == cut && cut[0] == ls[0];
      assert cut[1..] == ls[1..n - 1] + [last];
    }
  }

  lemma {:induction false} LinesSnoc(s: string, c: char)
    ensures Lines(s + [c]) == PutLast(Lines(s), c)
  {
    if s == "" {
      NoLines();
      assert s + [c] == [c] + "";
      LinesCons(c, "");
      hide Lines;
      assert "" + [c] == [c] + "";
    } else {
      hide Lines;
      assert s + [c] == [s[0]] + (s[1..] + [c]);
      LinesCons(s[0], s[1..] + [c]);
      LinesCons(s[0], s[1..]);
      assert [s[0]] + s[1..] == s;
      LinesSnoc(s[1..], c);
      PutFirstLast(s[0], Lines(s[1..]), c);
      hide PutFirst;
      hide PutLast;
    }
  }

  // The last line of a text that ends visibly ends the same way.
  lemma {:induction false} LastLineEnds(s: string)
    requires s != "" && s[|s| - 1] != '\n'
    ensures var last := Lines(s)[|Lines(s)| - 1];
            last != "" && last[|last| - 1] == s[|s| - 1]
  {
    LinesSnoc(s[..|s| - 1], s[|s| - 1]);
    assert s[..|s| - 1] + [s[|s| - 1]] == s;
  }

  // u is t with its tail of white space cut off: whole lines go, and the last line left is trimmed.
  ghost predicate CutAfter(u: seq<string>, t: seq<string>) {
    && 1 <= |u| <= |t|
    && u[..|u| - 1] == t[..|u| - 1]
    && u[|u| - 1] == TrimEnd(t[|u| - 1])
    && Visible(t[|u|..]) == []
  }

  lemma TrimEndSnoc(s: string, c: char)
    requires IsSpace(c)
    ensures TrimEnd(s + [c]) == TrimEnd(s)
  {
    assert (s + [c])[..|s|] == s;
    hide IsSpace;
  }

  lemma BlankIsTrimEnd(s: string)
    ensures Blank(s) <==> TrimEnd(s) == ""
  {
    hide IsSpace;
    var t := TrimEnd(s);
    if t != "" {
      VisibleEndStays(t);
    }
  }

  lemma {:induction false} VisibleEndStays(t: string)
    requires t != "" && !IsSpace(t[|t| - 1])
    ensures TrimStart(t) != ""
  {
    hide IsSpace;
    assert TrimStart(t) == if IsSpace(t[0]) then TrimStart(t[1..]) else t;
    hide TrimStart;
    if |t| > 1 {
      assert t[1..][|t| - 2] == t[|t| - 1];
      VisibleEndStays(t[1..]);
    }
  }

  lemma CutOneLine(u: seq<string>, t: seq<string>)
    requires CutAfter(u, t)
    ensures CutAfter(u, t + [""])
  {
    hide Blank;
    hide TrimEnd;
    hide Visible;
    BlankEmpty();
    VisibleOne("");
    VisibleConcat(t[|u|..], [""]);
    assert (t + [""])[|u|..] == t[|u|..] + [""];
    assert (t + [""])[..|u| - 1] == t[..|u| - 1];
  }

  lemma CutOneChar(u: seq<string>, t: seq<string>, c: char)
    requires CutAfter(u, t) && IsSpace(c)
    ensures CutAfter(u, t[|t| - 1 := t[|t| - 1] + [c]])
  {
    hide IsSpace;
    hide Blank;
    hide TrimEnd;
    hide Visible;
    var last := t[|t| - 1];
    var t' := t[|t| - 1 := last + [c]];
    TrimEndSnoc(last, c);
    BlankIsTrimEnd(last);
    BlankIsTrimEnd(last + [c]);
    if |u| < |t| {
      assert t[|u|..] == t[|u|..|t| - 1] + [last];
      assert t'[|u|..] == t[|u|..|t| - 1] + [last + [c]];
      VisibleConcat(t[|u|..|t| - 1], [last]);
      VisibleConcat(t[|u|..|t| - 1], [last + [c]]);
      VisibleOne(last);
      VisibleOne(last + [c]);
      assert t'[..|u| - 1] == t[..|u| - 1];
    } else {
      assert t'[|u|..] == t[|u|..] == [];
      assert t'[..|u| - 1] == t[..|u| - 1];
    }
  }

  lemma CutOneMore(u: seq<string>, t: seq<string>, c: char)
    requires |t| >= 1 && CutAfter(u, t) && IsSpace(c)
    ensures CutAfter(u, if c == '\n' then t + [""] else t[..|t| - 1] + [t[|t| - 1] + [c]])
  {
    hide IsSpace;
    hide CutAfter;
    hide TrimEnd;
    hide Visible;
    if c == '\n' {
      CutOneLine(u, t);
    } else {
      CutOneChar(u, t, c);
      assert t[|t| - 1 := t[|t| - 1] + [c]] == t[..|t| - 1] + [t[|t| - 1] + [c]];
    }
  }

  lemma {:induction false} TrimEndLines(t: string)
    ensures CutAfter(Lines(TrimEnd(t)), Lines(t))
  {
    hide CutAfter;
    if t == "" || !IsSpace(t[|t| - 1]) {
      Uncut(t);
    } else {
      TrimEndLines(t[..|t| - 1]);
      assert t[..|t| - 1] + [t[|t| - 1]] == t;
      LinesSnoc(t[..|t| - 1], t[|t| - 1]);
      CutOneMore(Lines(TrimEnd(t)), Lines(t[..|t| - 1]), t[|t| - 1]);
    }
  }

  lemma CutSelf(ls: seq<string>)
    requires |ls| >= 1 && TrimEnd(ls[|ls| - 1]) == ls[|ls| - 1]
    ensures CutAfter(ls, ls)
  {
    hide TrimEnd;
    NothingVisible();
    hide Visible;
    assert ls[|ls|..] == [];
  }

  lemma NoLines()
    ensures Lines("") == [""]
  {
  }

  lemma NewlineIsSpace()
    ensures IsSpace('\n')
  {
  }

  lemma LastLineTrimmed(t: string)
    requires t == "" || !IsSpace(t[|t| - 1])
    ensures TrimEnd(Lines(t)[|Lines(t)| - 1]) == Lines(t)[|Lines(t)| - 1]
  {
    hide TrimEnd;
    hide Lines;
    if t == "" {
      TrimEndEmpty();
      NoLines();
    } else {
      NewlineIsSpace();
      hide IsSpace;
      LastLineEnds(t);
      NoSpaceAtEnd(Lines(t)[|Lines(t)| - 1]);
    }
  }

  lemma Uncut(t: string)
    requires t == "" || !IsSpace(t[|t| - 1])
    ensures CutAfter(Lines(TrimEnd(t)), Lines(t))
  {
    hide CutAfter;
    hide Lines;
    hide IsSpace;
    LastLineTrimmed(t);
    assert TrimEnd(t) == t;
    CutSelf(Lines(t));
  }

  // ----- the two theorems -----

  // The last line with anything visible in it, or the empty line.
  function LastVisible(lines: seq<string>): string {
    var v := Visible(lines);
    if v == [] then "" else v[|v| - 1]
  }

  lemma MarksAreVisible()
    ensures !IsSpace('-') && !IsSpace('*') && !IsSpace('+')
  {
  }

  lemma BulletAt(line: string)
    requires BulletContent(line).Some?
    ensures Indent(line) < |line| && line[Indent(line)] in {'-', '*', '+'}
  {
    hide IsSpace;
  }

  lemma BlankTidy(line: string)
    ensures Blank(Tidy(line)) <==> Blank(line)
  {
    hide IsSpace;
    hide Trim;
    hide BulletContent;
    hide Indent;
    hide Blank;
    BlankEmpty();
    MarksAreVisible();
    match BulletContent(line)
    case Some(c) =>
      BulletAt(line);
      HasVisible(line, Indent(line));
      assert Tidy(line) == "- " + Trim(c) && Tidy(line)[0] == '-';
      HasVisible(Tidy(line), 0);
    case None =>
  }

  lemma {:induction false} HasVisible(s: string, k: nat)
    requires k < |s| && !IsSpace(s[k])
    ensures !Blank(s)
  {
    BlankIsTrimEnd(s);
    hide IsSpace;
    hide Blank;
    if k < |s| - 1 && IsSpace(s[|s| - 1]) {
      HasVisible(s[..|s| - 1], k);
      BlankIsTrimEnd(s[..|s| - 1]);
    }
  }

  lemma {:induction false} VisibleTidy(lines: seq<string>)
    ensures Visible(TidyAll(lines)) == TidyAll(Visible(lines))
  {
    hide Tidy;
    hide Blank;
    if lines != [] {
      BlankTidy(lines[0]);
      VisibleTidy(lines[1..]);
      assert TidyAll(lines)[1..] == TidyAll(lines[1..]);
      assert TidyAll([lines[0]] + Visible(lines[1..])) == [Tidy(lines[0])] + TidyAll(Visible(lines[1..]));
    }
  }

  lemma {:induction false} VisibleConcat(a: seq<string>, b: seq<string>)
    ensures Visible(a + b) == Visible(a) + Visible(b)
  {
    hide Blank;
    if a == [] {
      assert a + b == b;
    } else {
      assert (a + b)[0] == a[0] && (a + b)[1..] == a[1..] + b;
      VisibleConcat(a[1..], b);
    }
  }

  lemma VisibleOne(line: string)
    ensures Visible([line]) == if Blank(line) then [] else [line]
  {
    hide Blank;
    assert [line][1..] == [];
    assert Visible([line]) == (if Blank(line) then [] else [line]) + Visible([]);
  }

  lemma CutKeeps(u: seq<string>, t: seq<string>, k: nat)
    requires CutAfter(u, t) && k < |u| - 1
    ensures u[k] == t[k] && t[k] in t
  {
    hide TrimEnd;
    hide Visible;
    assert u[..|u| - 1][k] == t[..|u| - 1][k];
  }

  // The line a cut ends with is the last visible one, trimmed.
  lemma CutEndsVisibly(u: seq<string>, t: seq<string>)
    requires CutAfter(u, t) && (u[|u| - 1] == "" ==> |u| == 1)
    ensures u[|u| - 1] == TrimEnd(LastVisible(t))
  {
    hide Blank;
    hide TrimEnd;
    hide Visible;
    var n := |u|;
    var a, line, c := t[..n - 1], t[n - 1], t[n..];
    assert t == (a + [line]) + c;
    VisibleConcat(a + [line], c);
    VisibleConcat(a, [line]);
    VisibleOne(line);
    BlankIsTrimEnd(line);
    TrimEndEmpty();
    NothingVisible();
    hide CutAfter;
    if Blank(line) {
      assert a == [];
    }
  }

  lemma NothingVisible()
    ensures Visible([]) == []
  {
  }

  lemma TrimEndEmpty()
    ensures TrimEnd("") == ""
  {
  }

  lemma VisibleOfFewer(a: seq<string>, b: seq<string>)
    requires FewerLines(a, b)
    ensures Visible(a) == Visible(b) && forall l :: l in a ==> l in b
    ensures SettledLines(a) <==> SettledLines(b)
  {
    hide Blank;
    hide Tidy;
    hide TrimEnd;
    SettledCons(a[0], a[1..]);
    SettledCons(b[0], b[1..]);
    hide SettledLines;
    assert a == [a[0]] + a[1..] && b == [b[0]] + b[1..];
  }

  lemma {:induction false} BlankSettles(ls: seq<string>)
    requires Visible(ls) == []
    ensures SettledLines(ls)
  {
    EmptyIsNoBullet();
    hide Tidy;
    hide Blank;
    hide TrimEnd;
    if ls != [] {
      BlankIsTrimEnd(ls[0]);
      BlankSettles(ls[1..]);
    }
  }

  lemma CutSettledLast(u: seq<string>, t: seq<string>)
    requires CutAfter(u, t) && |u| == 1
    ensures SettledLines(t) <==> Tidy(u[0]) == u[0]
  {
    hide Tidy;
    hide Blank;
    hide TrimEnd;
    assert t == [t[0]] + t[1..];
    SettledCons(t[0], t[1..]);
    BlankSettles(t[1..]);
    hide SettledLines;
  }

  lemma CutTail(u: seq<string>, t: seq<string>)
    requires CutAfter(u, t) && |u| > 1 && u[|u| - 1] != ""
    ensures CutAfter(u[1..], t[1..]) && u[0] == t[0] && Visible(t[1..]) != []
  {
    hide Blank;
    hide TrimEnd;
    var n := |u|;
    assert t[1..][n - 1..] == t[n..];
    assert u[1..][..n - 2] == u[..n - 1][1..] && t[1..][..n - 2] == t[..n - 1][1..];
    assert u[0] == u[..n - 1][0] && t[0] == t[..n - 1][0];
    BlankIsTrimEnd(t[n - 1]);
    SeenFrom(t[1..], n - 2);
    hide Visible;
  }

  // Settled lines are those whose cut is tidy throughout.
  lemma {:induction false} CutSettled(u: seq<string>, t: seq<string>)
    requires CutAfter(u, t) && (u[|u| - 1] == "" ==> |u| == 1)
    ensures SettledLines(t) <==> forall l :: l in u ==> Tidy(l) == l
  {
    hide Tidy;
    hide TrimEnd;
    hide Visible;
    hide SettledLines;
    assert u == [u[0]] + u[1..];
    if |u| == 1 {
      CutSettledLast(u, t);
      hide CutAfter;
    } else {
      CutTail(u, t);
      assert t == [t[0]] + t[1..];
      SettledCons(t[0], t[1..]);
      CutSettled(u[1..], t[1..]);
      hide CutAfter;
    }
  }

  lemma {:induction false} SeenFrom(ls: seq<string>, k: nat)
    requires k < |ls| && !Blank(ls[k])
    ensures Visible(ls) != []
  {
    hide Blank;
    if k > 0 {
      SeenFrom(ls[1..], k - 1);
    }
  }

  // What a document whose lines print as `all` turns into: those lines and empty ones, and the last visible line,
  // trimmed, at the end.
  ghost predicate TripLines(all: seq<string>, ls: seq<string>) {
    && |ls| >= 1
    && (forall k :: 0 <= k < |ls| - 1 ==> ls[k] in all || ls[k] == "")
    && ls[|ls| - 1] == TrimEnd(LastVisible(all))
    && ((forall l :: l in ls ==> Tidy(l) == l) <==> SettledLines(all))
  }

  ghost predicate Outcome(all: seq<string>, out: string) {
    NoTriple(out) && TrimEnd(out) == out && TripLines(all, Lines(out))
  }

  lemma TidyAllNoNewline(lines: seq<string>)
    requires forall l :: l in lines ==> '\n' !in l
    ensures forall l :: l in TidyAll(lines) ==> '\n' !in l
  {
    hide Tidy;
    forall l | l in TidyAll(lines)
      ensures '\n' !in l
    {
      var k :| 0 <= k < |lines| && TidyAll(lines)[k] == l;
      TidyHasNoNewline(lines[k]);
    }
  }

  lemma EmptySnoc(all: seq<string>)
    ensures Visible(all + [""]) == Visible(all)
  {
    BlankEmpty();
    VisibleOne("");
    VisibleConcat(all, [""]);
    hide Visible;
    hide Blank;
  }

  lemma {:induction false} SettledSnoc(all: seq<string>)
    ensures SettledLines(all + [""]) <==> SettledLines(all)
  {
    hide Visible;
    hide SettledLines;
    if all == [] {
      assert all + [""] == [""] + [];
      EmptySettles([]);
    } else {
      SettledSnoc(all[1..]);
      EmptySnoc(all[1..]);
      assert all + [""] == [all[0]] + (all[1..] + [""]);
      assert all == [all[0]] + all[1..];
      SettledCons(all[0], all[1..] + [""]);
      SettledCons(all[0], all[1..]);
    }
  }

  lemma RawLines(all: seq<string>)
    requires all != [] && forall l :: l in all ==> '\n' !in l
    ensures Lines(Join(all) + "\n") == all + [""]
  {
    hide Lines;
    LinesJoin(all);
    LinesSnoc(Join(all), '\n');
    assert Join(all) + ['\n'] == Join(all) + "\n";
  }

  lemma NoTriplePrefix(p: string, s: string)
    requires p <= s && NoTriple(s)
    ensures NoTriple(p)
  {
    forall k | 0 <= k < |p|
      ensures !TripleAt(p, k)
    {
      assert !TripleAt(s, k);
    }
  }

  lemma TrimmedEnds(s: string)
    ensures TrimEnd(TrimEnd(s)) == TrimEnd(s)
    ensures TrimEnd(s) != "" ==>
      var ls := Lines(TrimEnd(s)); ls[|ls| - 1] != ""
    ensures TrimEnd(s) == "" ==> Lines(TrimEnd(s)) == [""]
  {
    var t := TrimEnd(s);
    if t != "" {
      assert t[|t| - 1] != '\n';
      LastLineEnds(t);
    }
  }

  lemma TripLinesOf(all: seq<string>, flat: seq<string>, out: seq<string>)
    requires FewerLines(flat, all + [""]) && CutAfter(out, flat) && (out[|out| - 1] == "" ==> |out| == 1)
    ensures TripLines(all, out)
  {
    hide Tidy;
    hide TrimEnd;
    hide Visible;
    hide SettledLines;
    hide FewerLines;
    var longer := all + [""];
    VisibleOfFewer(flat, longer);
    SettledSnoc(all);
    EmptySnoc(all);
    CutSettled(out, flat);
    CutEndsVisibly(out, flat);
    assert 1 <= |out| <= |flat|;
    forall k | 0 <= k < |out| - 1
      ensures out[k] in all || out[k] == ""
    {
      CutKeeps(out, flat, k);
      assert flat[k] in longer;
    }
    hide CutAfter;
  }

  lemma TripOutcome(md: string, all: seq<string>)
    requires all != [] && (forall l :: l in all ==> '\n' !in l) && Raw(Lines(md)) == Join(all) + "\n"
    ensures Outcome(all, Normalise(md))
  {
    hide TrimEnd;
    hide Raw;
    hide Join;
    hide Collapse;
    hide Visible;
    hide FewerLines;
    hide TripLines;
    hide NoTriple;
    hide Normalise;
    NormaliseIs(md);
    RawLines(all);
    var raw := Raw(Lines(md));
    var flat := Collapse(raw);
    CollapsedHasNoTriple(raw);
    CollapseLines(raw);
    TrimEndLines(flat);
    TrimmedEnds(flat);
    NoTriplePrefix(TrimEnd(flat), flat);
    hide Lines;
    hide CutAfter;
    assert Lines(TrimEnd(flat))[|Lines(TrimEnd(flat))| - 1] == "" ==> |Lines(TrimEnd(flat))| == 1;
    TripLinesOf(all, Lines(flat), Lines(TrimEnd(flat)));
  }

  lemma StableOutcome(md: string)
    requires StableDoc(md)
    ensures Outcome(TidyAll(Lines(md)), Normalise(md))
  {
    hide StableLine;
    hide Tidy;
    hide Raw;
    hide Lines;
    hide Outcome;
    StableRaw(Lines(md));
    TidyAllNoNewline(Lines(md));
    TripOutcome(md, TidyAll(Lines(md)));
  }

  lemma TidyOfLast(lines: seq<string>)
    ensures LastVisible(TidyAll(lines)) == Tidy(LastVisible(lines))
  {
    EmptyIsNoBullet();
    VisibleTidy(lines);
    hide Visible;
    hide Tidy;
    hide Blank;
  }

  lemma TripLinesTidy(lines: seq<string>, ls: seq<string>)
    requires TripLines(TidyAll(lines), ls)
    ensures forall k :: 0 <= k < |ls| - 1 ==> Tidy(ls[k]) == ls[k]
  {
    EmptyTidy();
    hide Tidy;
    hide TrimEnd;
    hide LastVisible;
    hide SettledLines;
    forall k | 0 <= k < |ls| - 1
      ensures Tidy(ls[k]) == ls[k]
    {
      if ls[k] in TidyAll(lines) {
        var j :| 0 <= j < |lines| && TidyAll(lines)[j] == ls[k];
        TidyTwice(lines[j]);
      }
    }
  }

  lemma EmptyTidy()
    ensures Tidy("") == ""
  {
    EmptyIsNoBullet();
  }

  // Documents the trip leaves alone.
  ghost predicate Canonical(md: string) {
    && (forall l :: l in Lines(md) ==> Tidy(l) == l)
    && NoTriple(md)
    && TrimEnd(md) == md
  }

  lemma CanonicalRaw(md: string)
    requires StableDoc(md) && forall l :: l in Lines(md) ==> Tidy(l) == l
    ensures Raw(Lines(md)) == md + "\n"
  {
    hide StableLine;
    hide Tidy;
    hide Raw;
    StableRaw(Lines(md));
    JoinLines(md);
    hide Lines;
    hide Join;
    assert TidyAll(Lines(md)) == Lines(md);
  }

  lemma OneNewlineMore(md: string)
    requires NoTriple(md) && (md != "" ==> md[|md| - 1] != '\n')
    ensures Collapse(md + "\n") == md + "\n"
  {
    forall k | 0 <= k < |md + "\n"|
      ensures !TripleAt(md + "\n", k)
    {
      if k < |md| {
        assert !TripleAt(md, k);
      }
    }
    NoTripleUncollapsed(md + "\n");
  }

  lemma CanonicalSurvives(md: string)
    requires StableDoc(md) && Canonical(md)
    ensures Normalise(md) == md
  {
    hide Normalise;
    hide Tidy;
    hide TrimEnd;
    hide StableLine;
    hide Lines;
    hide Raw;
    hide NoTriple;
    NormaliseIs(md);
    CanonicalRaw(md);
    TrimEndKeeps(md);
    OneNewlineMore(md);
  }

  lemma TrimEndKeeps(md: string)
    requires TrimEnd(md) == md
    ensures TrimEnd(md + "\n") == md
    ensures md != "" ==> md[|md| - 1] != '\n'
  {
    TrimEndSnoc(md, '\n');
    assert md + ['\n'] == md + "\n";
  }

  // The last visible line of a document that ends visibly is its last line.
  lemma LastIsVisible(md: string)
    requires TrimEnd(md) == md
    ensures var ls := Lines(md);
            ls[|ls| - 1] == LastVisible(ls) && TrimEnd(ls[|ls| - 1]) == ls[|ls| - 1]
  {
    hide Blank;
    hide Visible;
    hide IsSpace;
    TrimmedEnds(md);
    LastLineTrimmed(md);
    var ls := Lines(md);
    hide Lines;
    hide TrimEnd;
    var last := ls[|ls| - 1];
    BlankIsTrimEnd(last);
    assert ls == ls[..|ls| - 1] + [last];
    VisibleConcat(ls[..|ls| - 1], [last]);
    VisibleOne(last);
    if last == "" {
      assert ls == [""];
      NothingVisible();
    }
  }

  // Trimming a tidied line that was already trimmed changes nothing.
  lemma TidyOfTrimmed(line: string)
    requires TrimEnd(line) == line
    ensures TrimEnd(Tidy(line)) == Tidy(line)
  {
    TrimEndEmpty();
    match BulletContent(line)
    case Some(c) =>
      assert !IsSpace(c[|c| - 1]) by { assert c[|c| - 1] == line[|line| - 1]; }
      HasVisible(c, |c| - 1);
      TrimEdges(c);
      hide Trim;
      hide BulletContent;
      hide IsSpace;
      var t := Tidy(line);
      assert t[|t| - 1] == Trim(c)[|Trim(c)| - 1];
    case None =>
  }

  lemma AllFixed(ls: seq<string>)
    requires |ls| >= 1
    requires forall k :: 0 <= k < |ls| - 1 ==> Tidy(ls[k]) == ls[k]
    ensures (forall l :: l in ls ==> Tidy(l) == l) <==> Tidy(ls[|ls| - 1]) == ls[|ls| - 1]
  {
    hide Tidy;
    var last := ls[|ls| - 1];
    assert last in ls;
    if Tidy(last) == last {
      forall l | l in ls
        ensures Tidy(l) == l
      {
        var k :| 0 <= k < |ls| && ls[k] == l;
      }
    }
  }

  lemma FixedLines(ls: seq<string>)
    requires TripLines(TidyAll(ls), ls)
    requires ls[|ls| - 1] == LastVisible(ls) && TrimEnd(ls[|ls| - 1]) == ls[|ls| - 1]
    ensures forall l :: l in ls ==> Tidy(l) == l
  {
    var last := ls[|ls| - 1];
    TidyOfLast(ls);
    hide Tidy;
    hide TrimEnd;
    hide LastVisible;
    hide SettledLines;
    TidyOfTrimmed(last);
    TripLinesTidy(ls, ls);
    assert last == TrimEnd(Tidy(LastVisible(ls)));
    hide TripLines;
    AllFixed(ls);
  }

  lemma FixedIsCanonical(md: string)
    requires Outcome(TidyAll(Lines(md)), md)
    ensures Canonical(md)
  {
    hide IsSpace;
    hide NoTriple;
    hide Lines;
    hide LastVisible;
    hide TripLines;
    hide TidyAll;
    hide TrimEnd;
    hide Tidy;
    LastIsVisible(md);
    FixedLines(Lines(md));
  }

  // The fixed points of the trip, among documents whose inline parts it keeps, are exactly the canonical ones.
  lemma FixedIffCanonical(md: string)
    requires StableDoc(md)
    ensures Normalise(md) == md <==> Canonical(md)
  {
    StableOutcome(md);
    hide Outcome;
    hide Normalise;
    hide StableDoc;
    if Canonical(md) {
      CanonicalSurvives(md);
    }
    if Normalise(md) == md {
      FixedIsCanonical(md);
    }
  }

  // A sequence of unambiguous spans in which the HTML parser reads every character as it stands.
  ghost predicate SpanText(text: string) {
    exists spans :: RichSpans.Unambiguous(spans) && RichSpans.AllReadable(spans) && RichSpans.PrintAll(spans) == text
  }

  // A line that is such a sequence, bare or as a "- " item.
  ghost predicate SpanLine(line: string) {
    line == "" || match BulletContent(line)
                  case Some(c) => SpanText(c)
                  case None => SpanText(line)
  }

  lemma SpanTextStable(text: string)
    requires SpanText(text)
    ensures Stable(text)
  {
    hide Stable;
    var spans :| RichSpans.Unambiguous(spans) && RichSpans.AllReadable(spans) && RichSpans.PrintAll(spans) == text;
    RichSpans.SpansStableIff(spans);
  }

  // Canonical Markdown written with text and unambiguous spans comes back unchanged.
  lemma CanonicalRoundTrip(md: string)
    requires Canonical(md) && forall l :: l in Lines(md) ==> SpanLine(l)
    ensures Normalise(md) == md
  {
    hide Canonical;
    hide Lines;
    forall l | l in Lines(md)
      ensures StableLine(l)
    {
      SpanLineStable(l);
    }
    CanonicalSurvives(md);
  }

  lemma SpanLineStable(line: string)
    requires SpanLine(line)
    ensures StableLine(line)
  {
    hide Stable;
    hide SpanText;
    hide BulletContent;
    hide Blank;
    if line == "" {
      EmptyIsNoBullet();
      BlankEmpty();
    } else {
      match BulletContent(line)
      case Some(c) => SpanTextStable(c);
      case None => SpanTextStable(line);
    }
  }

  // ----- doing it twice -----

  // A line with no inline marker in its inline part.
  predicate BlockLine(line: string) {
    match BulletContent(line)
    case Some(c) => Plain(c)
    case None => Plain(line)
  }

  predicate BlockOnly(md: string) {
    forall l :: l in Lines(md) ==> BlockLine(l)
  }

  lemma PlainPart(part: string, whole: string)
    requires Plain(whole) && forall x :: x in part ==> x in whole
    ensures Plain(part)
  {
    forall k | 0 <= k < |part|
      ensures !IsMarker(part[k])
    {
      assert part[k] in whole;
    }
  }

  // The lines a line of a block-only document prints as: a list item, an empty line, or the line without its NULs,
  // broken at its carriage returns.
  function PartsOf(line: string): (parts: seq<string>)
    ensures |parts| >= 1
  {
    match BulletContent(line)
    case Some(c) => ["- " + Trim(Received(c))]
    case None =>
      if Blank(line) then [""]
      else
        var text := Received(line);
        Lines(if EndsWithNewline(text) then text[..|text| - 1] else text)
  }

  function PartsOfAll(lines: seq<string>): (parts: seq<string>)
    ensures |parts| >= |lines|
  {
    if lines == [] then [] else PartsOf(lines[0]) + PartsOfAll(lines[1..])
  }

  lemma PartsPrint(line: string)
    requires BlockLine(line) && '\n' !in line
    ensures LineOut(line) == Join(PartsOf(line)) + "\n"
  {
    hide Trim;
    hide Blank;
    hide Lines;
    hide Normalised;
    hide Received;
    hide Plain;
    hide BulletContent;
    match BulletContent(line)
    case Some(c) => PlainStableIff(c);
    case None =>
      PlainStableIff(line);
      var text := Received(line);
      if EndsWithNewline(text) {
        JoinLines(text[..|text| - 1]);
        assert text == text[..|text| - 1] + "\n";
        assert text == "\n" ==> text[..|text| - 1] == "";
      } else {
        JoinLines(text);
        assert "" + "\n" == "\n";
      }
  }

  lemma {:induction false} JoinConcat(a: seq<string>, b: seq<string>)
    requires |a| >= 1 && |b| >= 1
    ensures Join(a + b) == Join(a) + "\n" + Join(b)
  {
    if |a| == 1 {
      assert (a + b)[1..] == b;
    } else {
      assert (a + b)[1..] == a[1..] + b;
      JoinConcat(a[1..], b);
      assert a[0] + "\n" + (Join(a[1..]) + "\n" + Join(b)) == a[0] + "\n" + Join(a[1..]) + "\n" + Join(b);
    }
  }

  lemma {:induction false} PartsPrintAll(lines: seq<string>)
    requires lines != [] && forall l :: l in lines ==> BlockLine(l) && '\n' !in l
    ensures Raw(lines) == Join(PartsOfAll(lines)) + "\n"
  {
    hide LineOut;
    hide BlockLine;
    hide PartsOf;
    PartsPrint(lines[0]);
    if |lines| == 1 {
      assert Raw(lines) == LineOut(lines[0]) + Raw([]);
      assert PartsOfAll(lines) == PartsOf(lines[0]) + PartsOfAll([]);
      assert PartsOf(lines[0]) + [] == PartsOf(lines[0]);
    } else {
      PartsPrintAll(lines[1..]);
      JoinConcat(PartsOf(lines[0]), PartsOfAll(lines[1..]));
      var x, y := Join(PartsOf(lines[0])), Join(PartsOfAll(lines[1..]));
      assert (x + "\n") + (y + "\n") == x + "\n" + y + "\n";
    }
  }

  // Text on one line that no replacement and no parser touches.
  predicate Bare(s: string) {
    Plain(s) && Intact(s) && '\n' !in s
  }

  lemma BarePart(part: string, whole: string)
    requires Bare(whole) && forall x :: x in part ==> x in whole
    ensures Bare(part)
  {
    PlainPart(part, whole);
  }

  lemma BareIsStable(line: string)
    requires Bare(line)
    ensures StableLine(line)
  {
    hide Plain;
    hide Stable;
    hide Blank;
    match BulletContent(line)
    case Some(c) =>
      BarePart(c, line);
      PlainStableIff(c);
    case None => PlainStableIff(line);
  }

  lemma PartsAreBare(line: string)
    requires BlockLine(line) && '\n' !in line
    ensures forall p :: p in PartsOf(line) ==> Bare(p)
  {
    hide BulletContent;
    hide Blank;
    hide Trim;
    match BulletContent(line)
    case Some(c) =>
      ReceivedIsIntact(c);
      var t := Trim(Received(c));
      TrimPart(Received(c));
      assert forall x :: x in t ==> x in c || x == '\n';
      assert '\n' !in c by {
        assert c == line[|line| - |c|..];
      }
      assert '\n' !in Received(c) by {
        NoNewlineReceived(c);
      }
      BareText(c, t);
      BareDashed(t);
    case None =>
      EmptyIsBare();
      if !Blank(line) {
        ReceivedIsIntact(line);
        var text := Received(line);
        var cut := if EndsWithNewline(text) then text[..|text| - 1] else text;
        assert forall x :: x in cut ==> x in text;
        LinesInside(cut);
        forall p | p in Lines(cut)
          ensures Bare(p)
        {
          assert forall x :: x in p ==> x in line || x == '\n';
          BareText(line, p);
        }
      }
  }

  lemma NoNewlineReceived(s: string)
    requires '\n' !in s && OneLine(s)
    ensures '\n' !in Received(s)
  {
    assert '\r' !in s by {
      assert IsLineTerminator('\r');
    }
    if s != "" {
      assert s[0] in s;
      NoNewlineReceived(s[1..]);
    }
  }

  lemma EmptyIsBare()
    ensures Bare("")
  {
  }

  lemma BareText(whole: string, part: string)
    requires Plain(whole) && (forall x :: x in part ==> x in whole || x == '\n') && '\n' !in part && Intact(part)
    ensures Bare(part)
  {
    PlainPart(part, whole);
  }

  lemma BareDashed(t: string)
    requires Bare(t)
    ensures Bare("- " + t)
  {
    assert forall x :: x in "- " + t ==> x == '-' || x == ' ' || x in t;
    forall k | 0 <= k < |"- " + t|
      ensures !IsMarker(("- " + t)[k])
    {
      if k >= 2 {
        assert ("- " + t)[k] == t[k - 2];
      }
    }
  }

  // Every line of a text is made of its characters.
  lemma {:induction false} LinesInside(s: string)
    ensures forall l, x :: l in Lines(s) && x in l ==> x in s
  {
    if s != "" {
      LinesInside(s[1..]);
      var rest := Lines(s[1..]);
      forall l, x | l in Lines(s) && x in l
        ensures x in s
      {
        if s[0] != '\n' && l == [s[0]] + rest[0] {
          assert x == s[0] || x in rest[0];
          assert rest[0] in rest;
        }
        assert x == s[0] || x in s[1..];
      }
    }
  }

  lemma {:induction false} AllPartsAreBare(lines: seq<string>)
    requires forall l :: l in lines ==> BlockLine(l) && '\n' !in l
    ensures forall p :: p in PartsOfAll(lines) ==> Bare(p)
  {
    hide BlockLine;
    hide PartsOf;
    hide Bare;
    if lines != [] {
      PartsAreBare(lines[0]);
      AllPartsAreBare(lines[1..]);
    }
  }

  lemma LastVisibleIn(all: seq<string>)
    ensures LastVisible(all) in all || LastVisible(all) == ""
  {
    VisibleFrom(all);
    hide Visible;
  }

  lemma BareTrimmed(s: string)
    requires Bare(s)
    ensures Bare(TrimEnd(s))
  {
    assert TrimEnd(s) <= s;
    hide TrimEnd;
    BarePart(TrimEnd(s), s);
  }

  lemma TripIsBare(all: seq<string>, ls: seq<string>)
    requires TripLines(all, ls) && forall p :: p in all ==> Bare(p)
    ensures forall l :: l in ls ==> Bare(l)
  {
    hide Bare;
    hide TrimEnd;
    hide LastVisible;
    hide SettledLines;
    hide Tidy;
    EmptyIsBare();
    LastVisibleIn(all);
    BareTrimmed(LastVisible(all));
    forall l | l in ls
      ensures Bare(l)
    {
      var k :| 0 <= k < |ls| && ls[k] == l;
    }
  }

  lemma NoSpaceAtEnd(s: string)
    requires s != "" && !IsSpace(s[|s| - 1])
    ensures TrimEnd(s) == s
  {
    hide IsSpace;
  }

  lemma {:induction false} VisibleFrom(lines: seq<string>)
    ensures forall l :: l in Visible(lines) ==> l in lines
  {
    hide Blank;
    if lines != [] {
      VisibleFrom(lines[1..]);
    }
  }

  // The last visible line of a document causes no second change: it is a list line already, or trimming its end
  // does not turn it into a list line written some other way.
  predicate Settled(line: string) {
    BulletContent(line).Some? || Tidy(TrimEnd(line)) == TrimEnd(line)
  }

  lemma SettledMeans(line: string)
    ensures Settled(line) <==> Tidy(TrimEnd(Tidy(line))) == TrimEnd(Tidy(line))
  {
    hide Tidy;
    hide TrimEnd;
    if BulletContent(line).Some? {
      SettledList(line);
    } else {
      SettledOther(line);
    }
  }

  lemma SettledList(line: string)
    requires BulletContent(line).Some?
    ensures Tidy(TrimEnd(Tidy(line))) == TrimEnd(Tidy(line))
  {
    BareDash();
    TidyTwice(line);
    var c := BulletContent(line).value;
    if Trim(c) != "" {
      TrimEdges(c);
      assert Tidy(line)[|Tidy(line)| - 1] == Trim(c)[|Trim(c)| - 1];
      hide Trim;
      hide BulletContent;
      NoSpaceAtEnd(Tidy(line));
    } else {
      assert Tidy(line) == "- ";
    }
  }

  lemma SettledOther(line: string)
    requires BulletContent(line).None?
    ensures Tidy(TrimEnd(Tidy(line))) == TrimEnd(Tidy(line)) <==> Tidy(TrimEnd(line)) == TrimEnd(line)
  {
    TidyOfNoBullet(line);
    BlankIsTrimEnd(line);
    TrimEndEmpty();
    hide Tidy;
    hide TrimEnd;
    hide Blank;
  }

  lemma TidyOfNoBullet(line: string)
    requires BulletContent(line).None?
    ensures Tidy(line) == if Blank(line) then "" else line
  {
  }

  // Among block-only documents, converting twice equals converting once exactly when the lines they print as are
  // settled: no carriage return breaks off a list line written some other way or a line of spaces, and trimming the
  // last visible line does not make it such a list line.
  lemma TwiceIsOnceIff(md: string)
    requires BlockOnly(md)
    ensures Normalise(Normalise(md)) == Normalise(md) <==> SettledLines(PartsOfAll(Lines(md)))
  {
    var all, out := PartsOfAll(Lines(md)), Normalise(md);
    AllPartsAreBare(Lines(md));
    PartsPrintAll(Lines(md));
    assert forall p :: p in all ==> '\n' !in p;
    hide Bare;
    hide BlockLine;
    hide PartsOfAll;
    hide Raw;
    hide Join;
    TripOutcome(md, all);
    TripIsBare(all, Lines(out));
    forall l | l in Lines(out)
      ensures StableLine(l)
    {
      BareIsStable(l);
    }
    hide Normalise;
    hide StableLine;
    hide SettledLines;
    hide Tidy;
    hide TrimEnd;
    hide LastVisible;
    FixedIffCanonical(out);
  }

  lemma {:induction false} TidyAllSettled(lines: seq<string>)
    ensures SettledLines(TidyAll(lines)) <==>
      var last := LastVisible(TidyAll(lines)); Tidy(TrimEnd(last)) == TrimEnd(last)
  {
    hide Tidy;
    hide TrimEnd;
    hide Blank;
    if lines == [] {
      EmptyIsNoBullet();
      TrimEndEmpty();
    } else {
      var rest := TidyAll(lines[1..]);
      TidyAllSettled(lines[1..]);
      assert TidyAll(lines) == [Tidy(lines[0])] + rest;
      SettledCons(Tidy(lines[0]), rest);
      VisibleConcat([Tidy(lines[0])], rest);
      VisibleOne(Tidy(lines[0]));
      TidyTwice(lines[0]);
      BlankIsTrimEnd(Tidy(lines[0]));
      EmptyIsNoBullet();
      hide SettledLines;
      if Visible(rest) == [] {
        BlankSettles(rest);
      }
    }
  }

  // Without carriage returns and NULs it is a matter of the last visible line alone.
  lemma TwiceIsOnceIffIntact(md: string)
    requires BlockOnly(md) && forall l :: l in Lines(md) ==> Intact(l)
    ensures Normalise(Normalise(md)) == Normalise(md) <==> Settled(LastVisible(Lines(md)))
  {
    var lines := Lines(md);
    TwiceIsOnceIff(md);
    IntactParts(lines);
    TidyAllSettled(lines);
    TidyOfLast(lines);
    hide Normalise;
    hide Tidy;
    hide TrimEnd;
    hide LastVisible;
    hide SettledLines;
    SettledMeans(LastVisible(lines));
  }

  lemma {:induction false} IntactParts(lines: seq<string>)
    requires forall l :: l in lines ==> Intact(l) && '\n' !in l
    ensures PartsOfAll(lines) == TidyAll(lines)
  {
    hide PartsOf;
    hide Tidy;
    if lines != [] {
      IntactPart(lines[0]);
      IntactParts(lines[1..]);
      assert TidyAll(lines) == [Tidy(lines[0])] + TidyAll(lines[1..]);
    }
  }

  lemma IntactPart(line: string)
    requires Intact(line) && '\n' !in line
    ensures PartsOf(line) == [Tidy(line)]
  {
    hide Trim;
    hide Blank;
    match BulletContent(line)
    case Some(c) =>
      assert forall x :: x in c ==> x in line;
      ReceivedIsIntact(c);
    case None =>
      ReceivedIsIntact(line);
      LinesJoin([line]);
      assert line != "" ==> line[|line| - 1] in line;
  }

  // A document for which twice is not once: a "+" item kept from being one by a line separator at its end.
  lemma TwiceIsNotAlwaysOnce()
    ensures Normalise(Normalise("+ a\U{2028}")) != Normalise("+ a\U{2028}")
  {
    hide Normalise;
    hide BulletContent;
    hide Plain;
    hide Tidy;
    hide TrimEnd;
    hide Blank;
    hide Lines;
    hide LastVisible;
    var md := "+ a\U{2028}";
    NotABullet();
    SeparatorEnds();
    PlusItem();
    OneLineDocument(md);
    PlainWitness();
    assert '\n' !in md && Intact(md);
    assert BlockOnly(md);
    TwiceIsOnceIffIntact(md);
    assert "- a"[0] != "+ a"[0];
    assert !Settled(md);
  }

  lemma PlainWitness()
    ensures Plain("+ a\U{2028}")
  {
  }

  lemma OneLineDocument(md: string)
    requires '\n' !in md && !Blank(md)
    ensures Lines(md) == [md] && LastVisible(Lines(md)) == md
  {
    LinesJoin([md]);
    VisibleOne(md);
    hide Blank;
  }

  lemma NotABullet()
    ensures BulletContent("+ a\U{2028}") == None && !Blank("+ a\U{2028}")
  {
    var md := "+ a\U{2028}";
    WitnessIndents();
    WitnessGap();
    HasVisible(md, 0);
    hide IsSpace;
    hide Indent;
    hide AfterGap;
    hide Blank;
    assert md[0 + 1..] == " a\U{2028}";
  }

  lemma WitnessIndents()
    ensures Indent("+ a\U{2028}") == 0 && Indent("a\U{2028}") == 0 && Indent(" a\U{2028}") == 1
    ensures !IsSpace('+')
  {
    assert " a\U{2028}"[1..] == "a\U{2028}";
  }

  lemma WitnessGap()
    ensures AfterGap(" a\U{2028}", 1) == None
  {
    WitnessIndents();
    hide Indent;
    assert " a\U{2028}"[1..] == "a\U{2028}";
    assert IsLineTerminator("a\U{2028}"[1]);
  }

  lemma SeparatorEnds()
    ensures TrimEnd("+ a\U{2028}") == "+ a"
  {
    var md := "+ a\U{2028}";
    assert md[..3] == "+ a";
    assert IsSpace(md[3]) && !IsSpace('a');
    assert TrimEnd("+ a") == "+ a";
  }

  lemma PlusItem()
    ensures Tidy("+ a") == "- a"
  {
    PlusBullet();
    hide BulletContent;
    TrimOne();
    hide Trim;
    assert "- " + "a" == "- a";
  }

  lemma TrimOne()
    ensures Trim("a") == "a"
  {
    assert !IsSpace('a');
    TrimFixed("a");
  }

  lemma PlusBullet()
    ensures BulletContent("+ a") == Some("a")
  {
    assert "+ a"[1..] == " a" && " a"[1..] == "a";
    assert Indent("+ a") == 0 && Indent("a") == 0 && Indent(" a") == 1;
    assert AfterGap(" a", 1) == Some("a");
  }

  // Another: a plus item ended by a carriage return becomes a list line only once the parser has read that as a newline.
  lemma CarriageReturnChangesTwice()
    ensures Normalise(Normalise("+ a\r\nb")) != Normalise("+ a\r\nb")
  {
    hide Normalise;
    hide Lines;
    hide Tidy;
    hide TrimEnd;
    hide Blank;
    hide PartsOf;
    hide BlockLine;
    hide SettledLines;
    ReturnLines();
    ReturnIsBlockOnly();
    TwiceIsOnceIff("+ a\r\nb");
    ReturnParts();
    var all := PartsOfAll(["+ a\r", "b"]);
    assert all == ["+ a", "b"] by {
      assert ["+ a\r", "b"][1..] == ["b"] && ["b"][1..] == [];
      assert PartsOfAll(["b"]) == PartsOf("b") + [] == ["b"];
      assert ["+ a"] + ["b"] == ["+ a", "b"];
    }
    SettledCons("+ a", ["b"]);
    assert ["+ a"] + ["b"] == all;
    PlusItem();
    VisibleOne("b");
    HasVisible("b", 0);
    assert "- a"[0] != "+ a"[0];
  }

  lemma ReturnLines()
    ensures Lines("+ a\r\nb") == ["+ a\r", "b"]
  {
    LinesJoin(["+ a\r", "b"]);
    assert ["+ a\r", "b"][1..] == ["b"];
    assert Join(["+ a\r", "b"]) == "+ a\r" + "\n" + "b" == "+ a\r\nb";
  }

  lemma ReturnNoBullet()
    ensures BulletContent("+ a\r") == None && BulletContent("b") == None
  {
    assert !IsSpace('+') && !IsSpace('b') && !IsSpace('a') && IsSpace(' ');
    hide IsSpace;
    assert Indent("+ a\r") == 0 && Indent("b") == 0;
    assert "+ a\r"[1..] == " a\r" && " a\r"[1..] == "a\r";
    assert Indent("a\r") == 0 && Indent(" a\r") == 1;
    assert IsLineTerminator("a\r"[1]);
  }

  lemma ReturnIsBlockOnly()
    ensures BlockLine("+ a\r") && BlockLine("b")
  {
    ReturnNoBullet();
    hide BulletContent;
  }

  // A line that is no list line and whose received text, its final newline aside, is one line.
  lemma OnePart(line: string, text: string)
    requires BulletContent(line).None? && !Blank(line) && text != "" && '\n' !in text
    requires Received(line) == text || Received(line) == text + "\n"
    ensures PartsOf(line) == [text]
  {
    hide Blank;
    hide BulletContent;
    hide Received;
    LinesJoin([text]);
    hide Lines;
    assert text[|text| - 1] in text;
    assert (text + "\n")[..|text|] == text;
  }

  lemma ReturnVisible()
    ensures !Blank("+ a\r") && !Blank("b")
  {
    assert !IsSpace('+') && !IsSpace('b');
    hide IsSpace;
    hide Blank;
    HasVisible("+ a\r", 0);
    HasVisible("b", 0);
  }

  lemma ReturnParts()
    ensures PartsOf("+ a\r") == ["+ a"] && PartsOf("b") == ["b"]
  {
    hide IsSpace;
    hide Blank;
    hide BulletContent;
    ReturnNoBullet();
    ReturnVisible();
    ReturnReceived();
    hide Received;
    hide PartsOf;
    assert '\n' !in "+ a" && '\n' !in "b";
    assert "+ a" + "\n" == "+ a\n";
    OnePart("+ a\r", "+ a");
    OnePart("b", "b");
  }

  lemma ReturnReceived()
    ensures Received("+ a\r") == "+ a\n" && Received("b") == "b"
  {
    ReceivedIsIntact("b");
    ReceivedIsIntact("+ a");
    ReceivedConcat("+ a", "\r");
    assert "+ a" + "\r" == "+ a\r" && "+ a" + "\n" == "+ a\n";
    assert Received("\r") == "\n" + Received("");
  }

  lemma {:induction false} ReceivedConcat(a: string, b: string)
    ensures Received(a + b) == Received(a) + Received(b)
  {
    if a == "" {
      assert a + b == b;
    } else {
      assert (a + b)[1..] == a[1..] + b;
      ReceivedConcat(a[1..], b);
      assert Heard(a[0]) + (Received(a[1..]) + Received(b)) == Heard(a[0]) + Received(a[1..]) + Received(b);
    }
  }
}
