// What reading a DOM tree does not depend on: which of two spellings an element has, elements without a meaning of their
// own, and marking a text again that is marked already. Every tree reads as one made of the elements Markdown has.
module RichReading {
  import opened Text
  import opened RichDom

  // The one of its synonyms that the Markdown reader writes.
  function Synonym(tag: Tag): Tag {
    match tag
    case B => Strong
    case I => Em
    case S => Del
    case Strike => Del
    case P => Div
    case Ol => Ul
    case _ => tag
  }

  // The same content with every element in its canonical spelling: synonyms replaced, meaningless elements and anchors
  // without an address dissolved into their children, break elements emptied.
  function Canonical(children: seq<Node>): seq<Node>
    decreases children, 1
  {
    if children == [] then [] else CanonicalNode(children[0]) + Canonical(children[1..])
  }

  function CanonicalNode(node: Node): seq<Node>
    decreases node, 0
  {
    match node
    case TextNode(_) => [node]
    case Element(tag, href, children) =>
      if tag == Other || (tag == A && href == "") then Canonical(children)
      else if tag == Br then [Element(Br, "", [])]
      else [Element(Synonym(tag), if tag == A then href else "", Canonical(children))]
  }

  lemma InlineAlike(tag: Tag, href: string, inner: string)
    ensures FormatInline(tag, href, inner) == FormatInline(Synonym(tag), if tag == A then href else "", inner)
  {
    hide Wrap;
    hide StartsWith;
  }

  lemma SynonymsFormatAlike(tag: Tag, href: string, inner: string)
    ensures FormatBlock(tag, FormatInline(tag, href, inner))
         == FormatBlock(Synonym(tag), FormatInline(Synonym(tag), if tag == A then href else "", inner))
  {
    hide Wrap;
    hide FormatDiv;
    hide StartsWith;
    InlineAlike(tag, href, inner);
    hide FormatInline;
  }

  lemma {:induction false} NodeReadsCanonically(node: Node)
    ensures Inner(CanonicalNode(node)) == DomToMarkdown(node)
    decreases node, 0
  {
    hide FormatInline;
    hide FormatBlock;
    match node
    case TextNode(_) => InnerOne(node);
    case Element(tag, href, children) =>
      ReadsCanonically(children);
      if tag == Other || (tag == A && href == "") {
        MeaninglessReads(tag, href, Inner(children));
      } else if tag == Br {
        InnerOne(Element(Br, "", []));
        BreakReads(href, Inner(children));
        BreakReads("", Inner([]));
      } else {
        SynonymsFormatAlike(tag, href, Inner(children));
        InnerOne(Element(Synonym(tag), if tag == A then href else "", Canonical(children)));
      }
  }

  lemma MeaninglessReads(tag: Tag, href: string, inner: string)
    requires tag == Other || (tag == A && href == "")
    ensures FormatBlock(tag, FormatInline(tag, href, inner)) == inner
  {
  }

  lemma BreakReads(href: string, inner: string)
    ensures FormatBlock(Br, FormatInline(Br, href, inner)) == "\n"
  {
  }

  // Reading is the same for all trees that have one canonical form.
  lemma {:induction false} ReadsCanonically(children: seq<Node>)
    ensures Inner(Canonical(children)) == Inner(children)
    decreases children, 1
  {
    hide DomToMarkdown;
    if children != [] {
      NodeReadsCanonically(children[0]);
      ReadsCanonically(children[1..]);
      InnerConcat(CanonicalNode(children[0]), Canonical(children[1..]));
    }
  }

  // ----- marks -----

  predicate Marked(tag: Tag, s: string) {
    match Synonym(tag)
    case Strong => "**" <= s || "__" <= s
    case Em => "*" <= s || "_" <= s
    case Del => "~~" <= s
    case _ => false
  }

  predicate IsStyle(tag: Tag) {
    Synonym(tag) in {Strong, Em, Del}
  }

  function MarkOf(tag: Tag): string {
    match Synonym(tag)
    case Strong => "**"
    case Em => "*"
    case _ => "~~"
  }

  lemma StyleFormats(tag: Tag, href: string, inner: string)
    requires IsStyle(tag)
    ensures FormatBlock(tag, FormatInline(tag, href, inner)) ==
      if Marked(tag, inner) then inner else if Trim(inner) == "" then "" else MarkOf(tag) + inner + MarkOf(tag)
  {
    hide Trim;
  }

  lemma MarksAreMarked(tag: Tag, inner: string)
    requires IsStyle(tag)
    ensures Marked(tag, MarkOf(tag) + inner + MarkOf(tag)) && !Marked(tag, "")
  {
  }

  // A styled element leaves a text alone that starts with a mark of its style, in either spelling; it swallows blank
  // text; any other text it encloses in marks. So styling twice is styling once.
  lemma StyledReads(tag: Tag, href: string, children: seq<Node>)
    requires IsStyle(tag)
    ensures var once, inner := DomToMarkdown(Element(tag, href, children)), Inner(children);
            && (once == inner <==> Marked(tag, inner) || inner == "")
            && (once == "" <==> Trim(inner) == "")
            && (once != "" ==> Marked(tag, once))
            && DomToMarkdown(Element(tag, href, [Element(tag, href, children)])) == once
  {
    var node, inner := Element(tag, href, children), Inner(children);
    var once := DomToMarkdown(node);
    assert Trim("") == "";
    InnerOne(node);
    assert once == FormatBlock(tag, FormatInline(tag, href, inner));
    assert DomToMarkdown(Element(tag, href, [node])) == FormatBlock(tag, FormatInline(tag, href, once));
    hide FormatBlock;
    hide FormatInline;
    hide DomToMarkdown;
    hide Inner;
    if Marked(tag, inner) {
      MarkedIsVisible(tag, inner);
    }
    hide Trim;
    StyleFormats(tag, href, inner);
    StyleFormats(tag, href, once);
    MarksAreMarked(tag, inner);
    hide Marked;
  }

  lemma MarkedIsVisible(tag: Tag, s: string)
    requires Marked(tag, s)
    ensures Trim(s) != ""
  {
    assert !IsSpace(s[0]);
    hide IsSpace;
    hide Marked;
    StartStays(s);
    assert TrimEnd(s)[0] == s[0];
  }

  lemma {:induction false} StartStays(s: string)
    requires s != "" && !IsSpace(s[0])
    ensures TrimEnd(s) != ""
  {
    hide IsSpace;
    if IsSpace(s[|s| - 1]) {
      StartStays(s[..|s| - 1]);
    }
  }

  // Lists and paragraphs end in a newline and add no more than that.
  lemma BlockReads(tag: Tag, href: string, children: seq<Node>)
    requires Synonym(tag) in {Ul, Div}
    ensures var read, inner := DomToMarkdown(Element(tag, href, children)), Inner(children);
            && read != "" && read[|read| - 1] == '\n' && read in {inner, inner + "\n"}
            && (read == inner <==> inner != "" && inner[|inner| - 1] == '\n')
  {
    var inner := Inner(children);
    assert DomToMarkdown(Element(tag, href, children)) == FormatBlock(tag, FormatInline(tag, href, inner));
    hide DomToMarkdown;
    hide Inner;
    BlockFormats(tag, href, inner);
  }

  lemma BlockFormats(tag: Tag, href: string, inner: string)
    requires Synonym(tag) in {Ul, Div}
    ensures var read := FormatBlock(tag, FormatInline(tag, href, inner));
            read == if inner != "" && inner[|inner| - 1] == '\n' then inner else inner + "\n"
  {
    hide Wrap;
    assert FormatInline(tag, href, inner) == inner;
    hide FormatInline;
    assert inner == "" ==> inner + "\n" == "\n";
  }
}
