// markdownToHtml and the block structure of the round trip through the editor's tree.
module RichBlocks {
  import opened Options
  import opened Text
  import opened LineText
  import opened RichDom
  import opened RichInline

  // ----- markdownToHtml -----

  // The strings pushed to htmlLines; their join, parsed, is TreeOf.
  datatype Piece =
    | UlOpen
    | UlClose
    | LiPiece(content: seq<Node>)
    | DivPiece(content: seq<Node>)

  const BREAK := Element(Br, "", [])

  // How many list items a piece sequence starts with.
  function Items(ps: seq<Piece>): (n: nat)
    ensures n <= |ps|
    ensures forall k :: 0 <= k < n ==> ps[k].LiPiece?
  {
    if ps == [] || !ps[0].LiPiece? then 0 else 1 + Items(ps[1..])
  }

  function ItemNodes(ps: seq<Piece>): seq<Node>
    requires forall k :: 0 <= k < |ps| ==> ps[k].LiPiece?
  {
    seq(|ps|, k requires 0 <= k < |ps| => Element(Li, "", ps[k].content))
  }

  function TreeOf(ps: seq<Piece>): seq<Node>
    decreases |ps|
  {
    if ps == [] then []
    else
      match ps[0]
      case UlOpen =>
        var n := Items(ps[1..]);
        [Element(Ul, "", ItemNodes(ps[1..][..n]))] + TreeOf(ps[1..][n..])
      case UlClose => TreeOf(ps[1..])
      case LiPiece(content) => [Element(Li, "", content)] + TreeOf(ps[1..])
      case DivPiece(content) => [Element(Div, "", content)] + TreeOf(ps[1..])
  }

  // What the loop pushes for a line: a list item, or a div.
  function PieceOf(line: string): (p: Piece)
    ensures p.LiPiece? <==> BulletContent(line).Some?
    ensures p.LiPiece? || p.DivPiece?
  {
    match BulletContent(line)
    case Some(c) => LiPiece(InlineTree(c))
    case None => DivPiece(if Blank(line) then [BREAK] else InlineTree(line))
  }

  function PiecesOf(lines: seq<string>): (ps: seq<Piece>)
    ensures |ps| == |lines|
    ensures forall k :: 0 <= k < |ps| ==> ps[k].LiPiece? || ps[k].DivPiece?
  {
    seq(|lines|, k requires 0 <= k < |lines| => PieceOf(lines[k]))
  }

  // The loop of markdownToHtml from a given value of inList.
  ghost function Pushed(ps: seq<Piece>, inList: bool): seq<Piece> {
    if ps == [] then (if inList then [UlClose] else [])
    else if ps[0].LiPiece? then (if inList then [] else [UlOpen]) + [ps[0]] + Pushed(ps[1..], true)
    else (if inList then [UlClose] else []) + [ps[0]] + Pushed(ps[1..], false)
  }

  // The document as a tree: one ul for each maximal run of list items, one div for every other line.
  function BlockTree(ps: seq<Piece>): seq<Node>
    decreases |ps|
  {
    if ps == [] then []
    else
      var n := Items(ps);
      if n > 0 then [Element(Ul, "", ItemNodes(ps[..n]))] + BlockTree(ps[n..])
      else if ps[0].DivPiece? then [Element(Div, "", ps[0].content)] + BlockTree(ps[1..])
      else BlockTree(ps[1..])
  }

  // The pushes for one line.
  ghost function PushOne(p: Piece, inList: bool): seq<Piece> {
    if p.LiPiece? then (if inList then [p] else [UlOpen, p])
    else if inList then [UlClose, p] else [p]
  }

  lemma PushedStep(ps: seq<Piece>, inList: bool)
    requires ps != []
    ensures Pushed(ps, inList) == PushOne(ps[0], inList) + Pushed(ps[1..], ps[0].LiPiece?)
  {
  }

  lemma PushedEnd(inList: bool)
    ensures Pushed([], inList) == if inList then [UlClose] else []
  {
  }

  // Leaving a list costs exactly a closing piece.
  lemma PushedLeave(ps: seq<Piece>)
    requires ps == [] || !ps[0].LiPiece?
    ensures Pushed(ps, true) == [UlClose] + Pushed(ps, false)
  {
    if ps != [] {
      PushedStep(ps, true);
      PushedStep(ps, false);
    }
  }

  lemma {:induction false} PushedRun(ps: seq<Piece>)
    ensures var n, out := Items(ps), Pushed(ps, true);
            Items(out) == n && out[..n] == ps[..n] && out[n..] == [UlClose] + Pushed(ps[n..], false)
  {
    var n, out := Items(ps), Pushed(ps, true);
    if ps != [] && ps[0].LiPiece? {
      PushedStep(ps, true);
      PushedRun(ps[1..]);
      hide Pushed;
      var rest := Pushed(ps[1..], true);
      assert out == [ps[0]] + rest && out[1..] == rest;
      assert out[n..] == rest[n - 1..] && ps[n..] == ps[1..][n - 1..];
      assert out[..n] == [ps[0]] + rest[..n - 1] && ps[..n] == [ps[0]] + ps[1..][..n - 1];
    } else {
      PushedLeave(ps);
      assert ps[..0] == out[..0] && ps[0..] == ps && out[0..] == out;
    }
  }

  lemma TreeOfUl(list: seq<Piece>)
    ensures TreeOf([UlOpen] + list) == [Element(Ul, "", ItemNodes(list[..Items(list)]))] + TreeOf(list[Items(list)..])
  {
    assert ([UlOpen] + list)[1..] == list;
  }

  lemma TreeOfClose(ps: seq<Piece>)
    ensures TreeOf([UlClose] + ps) == TreeOf(ps)
  {
    assert ([UlClose] + ps)[1..] == ps;
  }

  lemma TreeOfDiv(p: Piece, ps: seq<Piece>)
    requires p.DivPiece?
    ensures TreeOf([p] + ps) == [Element(Div, "", p.content)] + TreeOf(ps)
  {
    assert ([p] + ps)[1..] == ps;
  }

  // The stateful loop and the grouping into maximal runs build the same tree.
  lemma {:induction false} LoopBuildsBlockTree(ps: seq<Piece>)
    requires forall k :: 0 <= k < |ps| ==> ps[k].LiPiece? || ps[k].DivPiece?
    ensures TreeOf(Pushed(ps, false)) == BlockTree(ps)
    decreases |ps|
  {
    hide Pushed;
    hide TreeOf;
    var n := Items(ps);
    if ps == [] {
      PushedEnd(false);
      TreeOfNothing();
    } else if n > 0 {
      var list := Pushed(ps, true);
      PushedStep(ps, false);
      PushedStep(ps, true);
      assert Pushed(ps, false) == [UlOpen] + list;
      PushedRun(ps);
      TreeOfUl(list);
      TreeOfClose(Pushed(ps[n..], false));
      LoopBuildsBlockTree(ps[n..]);
    } else {
      PushedStep(ps, false);
      TreeOfDiv(ps[0], Pushed(ps[1..], false));
      LoopBuildsBlockTree(ps[1..]);
    }
  }

  lemma TreeOfNothing()
    ensures TreeOf([]) == []
  {
  }

  method MarkdownToHtml(md: string) returns (htmlLines: seq<Piece>)
    ensures TreeOf(htmlLines) == Body(md)
  {
    hide BulletContent;
    hide PieceOf;
    hide Pushed;
    hide TreeOf;
    hide BlockTree;
    if md == "" {
      TreeOfNothing();
      return [];
    }
    var lines := Lines(md);
    ghost var ps := PiecesOf(lines);
    htmlLines := [];
    var inList := false;
    for i := 0 to |lines|
      invariant htmlLines + Pushed(ps[i..], inList) == Pushed(ps, false)
    {
      var rawLine := lines[i];
      assert ps[i..][0] == PieceOf(rawLine) && ps[i..][1..] == ps[i + 1..];
      PushedStep(ps[i..], inList);
      ghost var pushed := htmlLines + PushOne(PieceOf(rawLine), inList);
      assert htmlLines + Pushed(ps[i..], inList) == pushed + Pushed(ps[i + 1..], PieceOf(rawLine).LiPiece?);
      if BulletContent(rawLine).Some? {
        if !inList {
          htmlLines := htmlLines + [UlOpen];
          inList := true;
        }
        htmlLines := htmlLines + [PieceOf(rawLine)];
        assert htmlLines == pushed;
        continue;
      }
      if inList {
        htmlLines := htmlLines + [UlClose];
        inList := false;
      }
      htmlLines := htmlLines + [PieceOf(rawLine)];
      assert htmlLines == pushed;
    }
    PushedEnd(inList);
    if inList {
      htmlLines := htmlLines + [UlClose];
    }
    assert htmlLines == Pushed(ps, false);
    LoopBuildsBlockTree(ps);
  }

  // The editor's body for a document; the empty document has no markup at all.
  function Body(md: string): seq<Node> {
    if md == "" then [] else BlockTree(PiecesOf(Lines(md)))
  }

  // A document after a trip through the editor.
  function Normalise(md: string): string {
    HtmlToMarkdown(Body(md))
  }
}
