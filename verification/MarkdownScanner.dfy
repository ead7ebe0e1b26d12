// MarkdownText: the line loop that groups message lines into lists, code blocks and single-line blocks.
module MarkdownScanner {
  import opened Options
  import opened Text
  import opened LineText

  datatype ListKind = Ul | Ol

  datatype Block =
    | List(kind: ListKind, items: seq<string>)
    | Code(lines: seq<string>)
    | Heading(level: nat, text: string)
    | Quote(text: string)
    | Gap
    | Paragraph(text: string)

  // What a line is when it stands outside a code block.
  datatype Kind =
    | Fence
    | Item(list: ListKind, content: string)
    | Single(block: Block)

  datatype Row = Row(raw: string, kind: Kind)

  // ----- line patterns -----

  function Digits(s: string): (n: nat)
    ensures n <= |s|
  {
    if s != "" && '0' <= s[0] <= '9' then 1 + Digits(s[1..]) else 0
  }

  // ^(\s*)\d+\.\s+(.+)$
  function NumberedContent(line: string): Option<string> {
    var tail := line[Indent(line)..];
    var n := Digits(tail);
    if 0 < n < |tail| && tail[n] == '.' then AfterGap(tail[n + 1..], 1) else None
  }

  // ^#\s+(.+)$ and its longer forms, or ^>\s*(.+)$
  function AfterPrefix(line: string, prefix: string, gap: nat): Option<string> {
    if prefix <= line then AfterGap(line[|prefix|..], gap) else None
  }

  function SingleBlock(line: string): Block {
    match AfterPrefix(line, "#", 1)
    case Some(text) => Heading(1, text)
    case None =>
      match AfterPrefix(line, "##", 1)
      case Some(text) => Heading(2, text)
      case None =>
        match AfterPrefix(line, "###", 1)
        case Some(text) => Heading(3, text)
        case None =>
          match AfterPrefix(line, ">", 0)
          case Some(text) => Quote(text)
          case None => if Blank(line) then Gap else Paragraph(line)
  }

  function KindOf(line: string): Kind {
    if "```" <= Trim(line) then Fence
    else
      match BulletContent(line)
      case Some(content) => Item(Ul, content)
      case None =>
        match NumberedContent(line)
        case Some(content) => Item(Ol, content)
        case None => Single(SingleBlock(line))
  }

  function RowsOf(lines: seq<string>): (rows: seq<Row>)
    ensures |rows| == |lines|
  {
    seq(|lines|, k requires 0 <= k < |lines| => Row(lines[k], KindOf(lines[k])))
  }

  // ----- the grouping, stated simply -----

  function FenceFree(rows: seq<Row>): (n: nat)
    ensures n <= |rows|
    ensures forall k :: 0 <= k < n ==> rows[k].kind != Fence
    ensures n < |rows| ==> rows[n].kind == Fence
  {
    if rows == [] || rows[0].kind == Fence then 0 else 1 + FenceFree(rows[1..])
  }

  function ItemRun(list: ListKind, rows: seq<Row>): (n: nat)
    ensures n <= |rows|
    ensures forall k :: 0 <= k < n ==> rows[k].kind.Item? && rows[k].kind.list == list
    ensures n < |rows| ==> !(rows[n].kind.Item? && rows[n].kind.list == list)
  {
    if rows == [] || !(rows[0].kind.Item? && rows[0].kind.list == list) then 0 else 1 + ItemRun(list, rows[1..])
  }

  function Contents(rows: seq<Row>): seq<string>
    requires forall k :: 0 <= k < |rows| ==> rows[k].kind.Item?
  {
    seq(|rows|, k requires 0 <= k < |rows| => rows[k].kind.content)
  }

  function Raws(rows: seq<Row>): (r: seq<string>)
    ensures |r| == |rows|
  {
    seq(|rows|, k requires 0 <= k < |rows| => rows[k].raw)
  }

  function CodeOf(lines: seq<string>): seq<Block> {
    if lines == [] then [] else [Code(lines)]
  }

  // What is left after a fenced stretch: its closing fence is dropped, if there is one.
  function AfterFence(rows: seq<Row>): seq<Row> {
    if rows == [] then [] else rows[1..]
  }

  // A fence takes everything up to the next fence or the end; an item takes its whole run; other lines stand alone.
  function Group(rows: seq<Row>): seq<Block>
    decreases |rows|
  {
    if rows == [] then []
    else
      match rows[0].kind
      case Fence =>
        var n := FenceFree(rows[1..]);
        CodeOf(Raws(rows[1..][..n])) + Group(AfterFence(rows[1..][n..]))
      case Item(list, _) =>
        var n := ItemRun(list, rows);
        [List(list, Contents(rows[..n]))] + Group(rows[n..])
      case Single(block) => [block] + Group(rows[1..])
  }

  // ----- the loop -----

  // The loop's variables between two lines.
  datatype Pending =
    | Idle
    | InCode(lines: seq<string>)
    | InList(list: ListKind, items: seq<string>)

  // The blocks still to come, given what is pending.
  function Rest(p: Pending, rows: seq<Row>): seq<Block> {
    match p
    case Idle => Group(rows)
    case InCode(lines) =>
      var n := FenceFree(rows);
      CodeOf(lines + Raws(rows[..n])) + Group(AfterFence(rows[n..]))
    case InList(list, items) =>
      var n := ItemRun(list, rows);
      [List(list, items + Contents(rows[..n]))] + Group(rows[n..])
  }

  lemma RestFence(p: Pending, row: Row, rows: seq<Row>)
    requires row.kind == Fence
    ensures Rest(p, [row] + rows) ==
      match p
      case InCode(lines) => CodeOf(lines) + Rest(Idle, rows)
      case InList(list, items) => [List(list, items)] + Rest(InCode([]), rows)
      case Idle => Rest(InCode([]), rows)
  {
    var all := [row] + rows;
    assert all[1..] == rows && all[0..] == all;
    match p
    case InCode(lines) =>
      assert lines + Raws(all[..0]) == lines;
    case InList(list, items) =>
      assert items + Contents(all[..0]) == items;
      assert [] + Raws(rows[..FenceFree(rows)]) == Raws(rows[..FenceFree(rows)]);
    case Idle =>
      assert [] + Raws(rows[..FenceFree(rows)]) == Raws(rows[..FenceFree(rows)]);
  }

  lemma Cons(row: Row, rows: seq<Row>, n: nat)
    requires n <= |rows|
    ensures var all := [row] + rows;
            all[1..] == rows && all[..n + 1] == [row] + rows[..n] && all[n + 1..] == rows[n..]
  {
  }

  lemma RawsCons(lines: seq<string>, row: Row, rows: seq<Row>)
    ensures lines + Raws([row] + rows) == (lines + [row.raw]) + Raws(rows)
  {
    assert Raws([row] + rows) == [row.raw] + Raws(rows);
  }

  lemma ContentsCons(items: seq<string>, row: Row, rows: seq<Row>)
    requires row.kind.Item? && forall k :: 0 <= k < |rows| ==> rows[k].kind.Item?
    ensures items + Contents([row] + rows) == (items + [row.kind.content]) + Contents(rows)
  {
    assert Contents([row] + rows) == [row.kind.content] + Contents(rows);
  }

  lemma FenceFreeCons(row: Row, rows: seq<Row>)
    requires row.kind != Fence
    ensures FenceFree([row] + rows) == FenceFree(rows) + 1
  {
    assert ([row] + rows)[1..] == rows;
  }

  lemma RestCodeLine(lines: seq<string>, row: Row, rows: seq<Row>)
    requires row.kind != Fence
    ensures Rest(InCode(lines), [row] + rows) == Rest(InCode(lines + [row.raw]), rows)
  {
    hide Raws;
    hide Group;
    hide CodeOf;
    hide AfterFence;
    var n := FenceFree(rows);
    Cons(row, rows, n);
    FenceFreeCons(row, rows);
    hide FenceFree;
    RawsCons(lines, row, rows[..n]);
  }

  lemma RestItem(list: ListKind, items: seq<string>, row: Row, rows: seq<Row>)
    requires row.kind.Item? && row.kind.list == list
    ensures Rest(InList(list, items), [row] + rows) == Rest(InList(list, items + [row.kind.content]), rows)
  {
    var n := ItemRun(list, rows);
    Cons(row, rows, n);
    assert ItemRun(list, [row] + rows) == n + 1;
    ContentsCons(items, row, rows[..n]);
    hide Contents;
    hide Group;
  }

  // A list that meets anything but an item of its own kind is finished.
  lemma RestFlush(list: ListKind, items: seq<string>, rows: seq<Row>)
    requires rows == [] || !(rows[0].kind.Item? && rows[0].kind.list == list)
    ensures Rest(InList(list, items), rows) == [List(list, items)] + Rest(Idle, rows)
  {
    assert rows[0..] == rows;
    assert items + Contents(rows[..0]) == items;
  }

  lemma RestStart(row: Row, rows: seq<Row>)
    requires row.kind.Item?
    ensures Rest(Idle, [row] + rows) == Rest(InList(row.kind.list, [row.kind.content]), rows)
  {
    var list := row.kind.list;
    var n := ItemRun(list, rows);
    Cons(row, rows, n);
    assert ItemRun(list, [row] + rows) == n + 1;
    ContentsCons([], row, rows[..n]);
    assert [] + Contents([row] + rows[..n]) == Contents([row] + rows[..n]);
    assert [] + [row.kind.content] == [row.kind.content];
    hide Contents;
  }

  lemma RestSingle(row: Row, rows: seq<Row>)
    requires row.kind.Single?
    ensures Rest(Idle, [row] + rows) == [row.kind.block] + Rest(Idle, rows)
  {
    assert ([row] + rows)[1..] == rows;
  }

  lemma RestEnd(p: Pending)
    ensures Rest(p, []) ==
      match p
      case Idle => []
      case InCode(lines) => CodeOf(lines)
      case InList(list, items) => [List(list, items)]
  {
    var none: seq<Row> := [];
    assert none[..0] == [] && none[0..] == [];
    match p
    case InCode(lines) => assert lines + Raws([]) == lines;
    case InList(list, items) => assert items + Contents([]) == items;
    case Idle =>
  }

  // What the four loop variables amount to.
  ghost function PendingOf(inCodeBlock: bool, codeBlockLines: seq<string>, listItems: seq<string>, listType: Option<ListKind>): Pending {
    if inCodeBlock then InCode(codeBlockLines)
    else if listType.Some? then InList(listType.value, listItems)
    else Idle
  }

  function Flushed(blocks: seq<Block>, listItems: seq<string>, listType: Option<ListKind>): seq<Block> {
    if |listItems| > 0 && listType.Some? then blocks + [List(listType.value, listItems)] else blocks
  }

  method MarkdownText(content: string) returns (blocks: seq<Block>)
    ensures blocks == if content == "" then [] else Group(RowsOf(Lines(content)))
  {
    hide KindOf;
    hide Rest;
    blocks := [];
    if content == "" {
      return;
    }
    var lines := Lines(content);
    ghost var rows := RowsOf(lines);
    var inCodeBlock := false;
    var codeBlockLines: seq<string> := [];
    var listItems: seq<string> := [];
    var listType: Option<ListKind> := None;
    RestIdle(rows);
    assert rows[0..] == rows;
    for i := 0 to |lines|
      invariant listItems != [] <==> listType.Some?
      invariant inCodeBlock ==> listType.None?
      invariant !inCodeBlock ==> codeBlockLines == []
      invariant blocks + Rest(PendingOf(inCodeBlock, codeBlockLines, listItems, listType), rows[i..]) == Group(rows)
    {
      var line := lines[i];
      var kind := KindOf(line);
      ghost var row, tail := rows[i], rows[i + 1..];
      ghost var before := blocks + Rest(PendingOf(inCodeBlock, codeBlockLines, listItems, listType), rows[i..]);
      assert row == Row(line, kind) && rows[i..] == [row] + tail;
      if kind == Fence {
        RestFence(PendingOf(inCodeBlock, codeBlockLines, listItems, listType), row, tail);
        if inCodeBlock {
          Assoc(blocks, CodeOf(codeBlockLines), Rest(Idle, tail));
          blocks := blocks + CodeOf(codeBlockLines);
          codeBlockLines := [];
          inCodeBlock := false;
        } else {
          if listType.Some? {
            Assoc(blocks, [List(listType.value, listItems)], Rest(InCode([]), tail));
          }
          blocks := Flushed(blocks, listItems, listType);
          listItems, listType := [], None;
          inCodeBlock := true;
        }
        assert blocks + Rest(PendingOf(inCodeBlock, codeBlockLines, listItems, listType), tail) == before;
      } else if inCodeBlock {
        RestCodeLine(codeBlockLines, row, tail);
        codeBlockLines := codeBlockLines + [line];
      } else {
        if !(kind.Item? && (listType.None? || listType == Some(kind.list))) {
          if listType.Some? {
            RestFlush(listType.value, listItems, rows[i..]);
            Assoc(blocks, [List(listType.value, listItems)], Rest(Idle, rows[i..]));
          }
          blocks := Flushed(blocks, listItems, listType);
          listItems, listType := [], None;
        }
        assert before == blocks + Rest(PendingOf(inCodeBlock, codeBlockLines, listItems, listType), [row] + tail);
        if kind.Item? {
          if listType.Some? {
            RestItem(kind.list, listItems, row, tail);
          } else {
            RestStart(row, tail);
            assert [] + [kind.content] == [kind.content];
          }
          listType := Some(kind.list);
          listItems := listItems + [kind.content];
        } else {
          RestSingle(row, tail);
          Assoc(blocks, [kind.block], Rest(Idle, tail));
          blocks := blocks + [kind.block];
        }
      }
    }
    assert rows[|lines|..] == [];
    RestEnd(PendingOf(inCodeBlock, codeBlockLines, listItems, listType));
    if inCodeBlock {
      blocks := blocks + CodeOf(codeBlockLines);
    }
    blocks := Flushed(blocks, listItems, listType);
  }

  lemma Assoc(a: seq<Block>, b: seq<Block>, c: seq<Block>)
    ensures a + (b + c) == (a + b) + c
  {
  }

  lemma RestIdle(rows: seq<Row>)
    ensures Rest(Idle, rows) == Group(rows)
  {
  }

  // ----- what the grouping guarantees -----

  // A line's place in the output.
  datatype Cell = ItemCell(list: ListKind, content: string) | CodeCell(raw: string) | BlockCell(block: Block)

  function CellOf(row: Row, inCode: bool): Cell
    requires row.kind != Fence
  {
    if inCode then CodeCell(row.raw)
    else if row.kind.Item? then ItemCell(row.kind.list, row.kind.content)
    else BlockCell(row.kind.block)
  }

  // The lines read one by one: fences toggle code and leave no cell, every other line leaves exactly one.
  function CellsOfRows(rows: seq<Row>, inCode: bool): seq<Cell> {
    if rows == [] then []
    else if rows[0].kind == Fence then CellsOfRows(rows[1..], !inCode)
    else [CellOf(rows[0], inCode)] + CellsOfRows(rows[1..], inCode)
  }

  function CellsOfBlock(b: Block): seq<Cell> {
    match b
    case List(kind, items) => seq(|items|, k requires 0 <= k < |items| => ItemCell(kind, items[k]))
    case Code(lines) => seq(|lines|, k requires 0 <= k < |lines| => CodeCell(lines[k]))
    case _ => [BlockCell(b)]
  }

  function CellsOf(blocks: seq<Block>): seq<Cell> {
    if blocks == [] then [] else CellsOfBlock(blocks[0]) + CellsOf(blocks[1..])
  }

  // Single lines never yield a list or a code block.
  predicate Sound(rows: seq<Row>) {
    forall k :: 0 <= k < |rows| && rows[k].kind.Single? ==> !rows[k].kind.block.List? && !rows[k].kind.block.Code?
  }

  lemma KindsAreSound(lines: seq<string>)
    ensures Sound(RowsOf(lines))
  {
    forall k | 0 <= k < |lines|
      ensures KindOf(lines[k]).Single? ==> !KindOf(lines[k]).block.List? && !KindOf(lines[k]).block.Code?
    {
      SingleIsSound(lines[k]);
      hide BulletContent;
      hide NumberedContent;
      hide Trim;
      hide SingleBlock;
    }
    hide KindOf;
  }

  lemma SingleIsSound(line: string)
    ensures !SingleBlock(line).List? && !SingleBlock(line).Code?
  {
    hide AfterPrefix;
    hide Blank;
  }

  lemma {:induction false} CellsConcat(a: seq<Block>, b: seq<Block>)
    ensures CellsOf(a + b) == CellsOf(a) + CellsOf(b)
  {
    if a == [] {
      assert a + b == b;
    } else {
      assert (a + b)[0] == a[0] && (a + b)[1..] == a[1..] + b;
      CellsConcat(a[1..], b);
    }
  }

  function Each(rows: seq<Row>, inCode: bool): seq<Cell>
    requires forall k :: 0 <= k < |rows| ==> rows[k].kind != Fence
  {
    seq(|rows|, k requires 0 <= k < |rows| => CellOf(rows[k], inCode))
  }

  // A stretch without fences gives one cell a line, whatever follows.
  lemma {:induction false} StretchCells(rows: seq<Row>, n: nat, inCode: bool)
    requires n <= |rows| && forall k :: 0 <= k < n ==> rows[k].kind != Fence
    ensures CellsOfRows(rows, inCode) == Each(rows[..n], inCode) + CellsOfRows(rows[n..], inCode)
  {
    hide CellOf;
    if n == 0 {
      assert rows[0..] == rows;
    } else {
      var tail := rows[1..];
      StretchCells(tail, n - 1, inCode);
      assert tail[n - 1..] == rows[n..];
      EachCons(rows[..n], inCode);
      assert rows[..n][1..] == tail[..n - 1] && rows[..n][0] == rows[0];
      hide Each;
      var a, b := Each(tail[..n - 1], inCode), CellsOfRows(rows[n..], inCode);
      assert [CellOf(rows[0], inCode)] + (a + b) == ([CellOf(rows[0], inCode)] + a) + b;
    }
  }

  lemma EachCons(rows: seq<Row>, inCode: bool)
    requires rows != [] && forall k :: 0 <= k < |rows| ==> rows[k].kind != Fence
    ensures Each(rows, inCode) == [CellOf(rows[0], inCode)] + Each(rows[1..], inCode)
  {
    hide CellOf;
  }

  lemma RunCells(list: ListKind, rows: seq<Row>, n: nat)
    requires n <= |rows| && forall k :: 0 <= k < n ==> rows[k].kind.Item? && rows[k].kind.list == list
    ensures CellsOfRows(rows, false) == CellsOfBlock(List(list, Contents(rows[..n]))) + CellsOfRows(rows[n..], false)
  {
    StretchCells(rows, n, false);
    assert Each(rows[..n], false) == CellsOfBlock(List(list, Contents(rows[..n])));
  }

  lemma CodeCells(rows: seq<Row>, n: nat)
    requires n <= |rows| && forall k :: 0 <= k < n ==> rows[k].kind != Fence
    ensures CellsOfRows(rows, true) == CellsOfBlock(Code(Raws(rows[..n]))) + CellsOfRows(rows[n..], true)
  {
    StretchCells(rows, n, true);
    assert Each(rows[..n], true) == CellsOfBlock(Code(Raws(rows[..n])));
  }

  // Every line that is not a fence lands in exactly one block, in order, with its content.
  lemma {:induction false} EveryLineOnce(rows: seq<Row>)
    requires Sound(rows)
    ensures CellsOf(Group(rows)) == CellsOfRows(rows, false)
    decreases |rows|
  {
    if rows != [] {
      match rows[0].kind {
        case Fence =>
          var tail := rows[1..];
          var n := FenceFree(tail);
          CodeCells(tail, n);
          EveryLineOnce(AfterFence(tail[n..]));
          CellsConcat(CodeOf(Raws(tail[..n])), Group(AfterFence(tail[n..])));
          CodeOfCells(Raws(tail[..n]));
        case Item(list, _) =>
          var n := ItemRun(list, rows);
          RunCells(list, rows, n);
          EveryLineOnce(rows[n..]);
          CellsConcat([List(list, Contents(rows[..n]))], Group(rows[n..]));
          OneCells(List(list, Contents(rows[..n])));
        case Single(block) =>
          EveryLineOnce(rows[1..]);
          CellsConcat([block], Group(rows[1..]));
          OneCells(block);
      }
    }
  }

  lemma OneCells(b: Block)
    ensures CellsOf([b]) == CellsOfBlock(b)
  {
    assert [b][1..] == [];
    assert CellsOf([b]) == CellsOfBlock(b) + CellsOf([]);
  }

  lemma CodeOfCells(lines: seq<string>)
    ensures CellsOf(CodeOf(lines)) == CellsOfBlock(Code(lines))
  {
    if lines != [] {
      OneCells(Code(lines));
    }
  }

  // ----- where each block stands -----

  // A block and the rows it came from.
  datatype Placed = Placed(block: Block, lo: nat, hi: nat)

  // What the grouping takes first: at most one block, made of rows[from..to], and how many rows it uses up.
  datatype Taken = Taken(blocks: seq<Block>, from: nat, to: nat, used: nat)

  function First(rows: seq<Row>): (t: Taken)
    requires rows != []
    ensures t.from <= t.to <= t.used <= |rows| && t.used > 0 && |t.blocks| <= 1
  {
    match rows[0].kind
    case Fence =>
      var n := FenceFree(rows[1..]);
      Taken(CodeOf(Raws(rows[1..][..n])), 1, n + 1, if n + 1 == |rows| then n + 1 else n + 2)
    case Item(list, _) =>
      var n := ItemRun(list, rows);
      Taken([List(list, Contents(rows[..n]))], 0, n, n)
    case Single(block) => Taken([block], 0, 1, 1)
  }

  lemma GroupTakes(rows: seq<Row>)
    requires rows != []
    ensures Group(rows) == First(rows).blocks + Group(rows[First(rows).used..])
  {
    if rows[0].kind == Fence {
      var n := FenceFree(rows[1..]);
      assert AfterFence(rows[1..][n..]) == rows[First(rows).used..];
      hide Raws;
      hide CodeOf;
    }
    hide Contents;
  }

  // The grouping with positions; rows starts at position at of the message.
  function Place(rows: seq<Row>, at: nat): seq<Placed>
    decreases |rows|
  {
    if rows == [] then []
    else
      var t := First(rows);
      Head(t, at) + Place(rows[t.used..], at + t.used)
  }

  function Head(t: Taken, at: nat): seq<Placed> {
    if t.blocks == [] then [] else [Placed(t.blocks[0], at + t.from, at + t.to)]
  }

  lemma PlaceStep(rows: seq<Row>, at: nat)
    requires rows != []
    ensures var t := First(rows);
            Place(rows, at) == Head(t, at) + Place(rows[t.used..], at + t.used)
  {
  }

  function BlocksOf(ps: seq<Placed>): (r: seq<Block>)
    ensures |r| == |ps|
  {
    seq(|ps|, k requires 0 <= k < |ps| => ps[k].block)
  }

  lemma BlocksConcat(a: seq<Placed>, b: seq<Placed>)
    ensures BlocksOf(a + b) == BlocksOf(a) + BlocksOf(b)
  {
  }

  lemma {:induction false} PlaceGroups(rows: seq<Row>, at: nat)
    ensures BlocksOf(Place(rows, at)) == Group(rows)
    decreases |rows|
  {
    hide Group;
    hide First;
    hide Place;
    hide Head;
    hide BlocksOf;
    if rows == [] {
      NothingGrouped(at);
    } else {
      GroupTakes(rows);
      PlaceStep(rows, at);
      var t := First(rows);
      PlaceGroups(rows[t.used..], at + t.used);
      HeadBlocks(t, at);
      BlocksConcat(Head(t, at), Place(rows[t.used..], at + t.used));
    }
  }

  lemma HeadBlocks(t: Taken, at: nat)
    requires |t.blocks| <= 1
    ensures BlocksOf(Head(t, at)) == t.blocks
  {
  }

  lemma NothingGrouped(at: nat)
    ensures Group([]) == [] && BlocksOf(Place([], at)) == []
  {
  }

  // A list block is a maximal run of items of its kind; a code block is everything between two fences, or between
  // a fence and the end, and is not empty.
  ghost predicate WellPlaced(rows: seq<Row>, p: Placed) {
    && p.lo < p.hi <= |rows|
    && (p.block.List? ==>
          && (forall k :: p.lo <= k < p.hi ==> IsItem(rows[k], p.block.kind))
          && p.block.items == Contents(rows[p.lo..p.hi])
          && (p.lo > 0 ==> !IsItem(rows[p.lo - 1], p.block.kind))
          && (p.hi < |rows| ==> !IsItem(rows[p.hi], p.block.kind)))
    && (p.block.Code? ==>
          && (forall k :: p.lo <= k < p.hi ==> rows[k].kind != Fence)
          && p.block.lines == Raws(rows[p.lo..p.hi])
          && p.lo > 0 && rows[p.lo - 1].kind == Fence
          && (p.hi < |rows| ==> rows[p.hi].kind == Fence))
  }

  predicate IsItem(row: Row, list: ListKind) {
    row.kind.Item? && row.kind.list == list
  }

  // Placing starts here: an item at this position is not preceded by one of its kind.
  predicate FreshStart(rows: seq<Row>, at: nat) {
    at <= |rows| && (0 < at < |rows| && rows[at].kind.Item? ==> !IsItem(rows[at - 1], rows[at].kind.list))
  }

  lemma FirstFence(rows: seq<Row>, at: nat)
    requires at < |rows| && rows[at].kind == Fence
    ensures var t := First(rows[at..]);
            && FreshStart(rows, at + t.used)
            && (t.blocks != [] ==> WellPlaced(rows, Placed(t.blocks[0], at + t.from, at + t.to)))
  {
    var here := rows[at..];
    assert here[0] == rows[at];
    var n := FenceFree(here[1..]);
    assert forall k :: 0 <= k < |here[1..]| ==> here[1..][k] == rows[at + 1 + k];
    assert here[1..][..n] == rows[at + 1..at + 1 + n];
    assert forall k :: at + 1 <= k < at + 1 + n ==> rows[k] == here[1..][k - at - 1];
    hide Raws;
  }

  lemma FirstIsRun(rows: seq<Row>)
    requires rows != [] && rows[0].kind.Item?
    ensures var list := rows[0].kind.list;
            var n := ItemRun(list, rows);
            n > 0 && First(rows) == Taken([List(list, Contents(rows[..n]))], 0, n, n)
  {
    hide Contents;
  }

  lemma FirstItem(rows: seq<Row>, at: nat)
    requires at < |rows| && rows[at].kind.Item? && FreshStart(rows, at)
    ensures var t := First(rows[at..]);
            && FreshStart(rows, at + t.used)
            && t.blocks != [] && WellPlaced(rows, Placed(t.blocks[0], at + t.from, at + t.to))
  {
    hide Contents;
    hide ItemRun;
    var here, list := rows[at..], rows[at].kind.list;
    assert here[0] == rows[at];
    var n := ItemRun(list, here);
    FirstIsRun(here);
    hide First;
    assert forall k :: at <= k < |rows| ==> rows[k] == here[k - at];
    assert here[..n] == rows[at..at + n];
    forall k | at <= k < at + n
      ensures IsItem(rows[k], list)
    {
      assert here[k - at].kind.Item? && here[k - at].kind.list == list;
    }
  }

  lemma FirstWell(rows: seq<Row>, at: nat)
    requires at < |rows| && Sound(rows) && FreshStart(rows, at)
    ensures var t := First(rows[at..]);
            && FreshStart(rows, at + t.used)
            && (t.blocks != [] ==> WellPlaced(rows, Placed(t.blocks[0], at + t.from, at + t.to)))
  {
    match rows[at].kind
    case Fence => FirstFence(rows, at);
    case Item(_, _) => FirstItem(rows, at);
    case Single(_) =>
  }

  ghost predicate AllPlaced(rows: seq<Row>, at: nat, ps: seq<Placed>) {
    && (forall k :: 0 <= k < |ps| ==> WellPlaced(rows, ps[k]) && at <= ps[k].lo <= ps[k].hi)
    && (forall j, k :: 0 <= j < k < |ps| ==> ps[j].hi <= ps[k].lo)
  }

  lemma AllPlacedCons(rows: seq<Row>, at: nat, p: Placed, next: nat, ps: seq<Placed>)
    requires AllPlaced(rows, next, ps) && WellPlaced(rows, p) && at <= p.lo <= p.hi <= next
    ensures AllPlaced(rows, at, [p] + ps)
  {
    hide WellPlaced;
  }

  lemma AllPlacedSooner(rows: seq<Row>, at: nat, next: nat, ps: seq<Placed>)
    requires AllPlaced(rows, next, ps) && at <= next
    ensures AllPlaced(rows, at, [] + ps)
  {
    hide WellPlaced;
    assert [] + ps == ps;
  }

  // The block taken here is well placed, and so is what follows it.
  lemma HeadPlaced(rows: seq<Row>, at: nat, t: Taken, rest: seq<Placed>)
    requires t.from <= t.to <= t.used && |t.blocks| <= 1
    requires t.blocks != [] ==> WellPlaced(rows, Placed(t.blocks[0], at + t.from, at + t.to))
    requires AllPlaced(rows, at + t.used, rest)
    ensures AllPlaced(rows, at, Head(t, at) + rest)
  {
    hide AllPlaced;
    hide WellPlaced;
    if t.blocks == [] {
      AllPlacedSooner(rows, at, at + t.used, rest);
    } else {
      AllPlacedCons(rows, at, Placed(t.blocks[0], at + t.from, at + t.to), at + t.used, rest);
    }
  }

  lemma {:induction false} PlacedWell(rows: seq<Row>, at: nat)
    requires Sound(rows) && FreshStart(rows, at)
    ensures AllPlaced(rows, at, Place(rows[at..], at))
    decreases |rows| - at
  {
    hide AllPlaced;
    hide WellPlaced;
    hide First;
    hide Sound;
    hide Place;
    hide Head;
    if at == |rows| {
      NothingPlaced(rows, at);
    } else {
      var t := First(rows[at..]);
      PlaceStep(rows[at..], at);
      FirstWell(rows, at);
      PlacedWell(rows, at + t.used);
      assert rows[at..][t.used..] == rows[at + t.used..];
      HeadPlaced(rows, at, t, Place(rows[at + t.used..], at + t.used));
    }
  }

  lemma NothingPlaced(rows: seq<Row>, at: nat)
    ensures AllPlaced(rows, at, Place([], at))
  {
  }

  // Every block of a message stands where it should: lists are maximal runs, code blocks fill their fences.
  lemma BlocksStandWell(content: string) returns (ps: seq<Placed>)
    requires content != ""
    ensures BlocksOf(ps) == Group(RowsOf(Lines(content)))
    ensures AllPlaced(RowsOf(Lines(content)), 0, ps)
  {
    hide KindOf;
    hide AllPlaced;
    hide Place;
    var rows := RowsOf(Lines(content));
    KindsAreSound(Lines(content));
    ps := Place(rows, 0);
    PlaceGroups(rows, 0);
    assert rows[0..] == rows;
    PlacedWell(rows, 0);
  }
}
