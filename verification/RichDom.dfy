// domToMarkdown: reading an editor's DOM tree back as Markdown. Inline style attributes are not modelled.
module RichDom {
  import opened Text

  datatype Tag = B | Strong | I | Em | S | Strike | Del | Code | A | Li | Ul | Ol | P | Div | Br | Other

  datatype Node =
    | TextNode(text: string)
    | Element(tag: Tag, href: string, children: seq<Node>)

  predicate StartsWith(s: string, prefix: string) {
    prefix <= s
  }

  predicate EndsWithNewline(s: string) {
    s != "" && s[|s| - 1] == '\n'
  }

  // The marker put round the text of a styled element; a blank text loses the element altogether.
  function Wrap(mark: string, s: string): string {
    if Trim(s) != "" then mark + s + mark else ""
  }

  function FormatInline(tag: Tag, href: string, inner: string): string {
    var f0 := if tag == Code then "`" + inner + "`"
              else if tag == A && href != "" then "[" + (if inner != "" then inner else href) + "](" + href + ")"
              else inner;
    var f1 := if (tag == I || tag == Em) && !StartsWith(f0, "*") && !StartsWith(f0, "_") then Wrap("*", f0) else f0;
    var f2 := if (tag == B || tag == Strong) && !StartsWith(f1, "**") && !StartsWith(f1, "__") then Wrap("**", f1) else f1;
    if (tag == S || tag == Strike || tag == Del) && !StartsWith(f2, "~~") then Wrap("~~", f2) else f2
  }

  function FormatBlock(tag: Tag, formatted: string): string {
    match tag
    case Li => "- " + Trim(formatted) + "\n"
    case Ul => if EndsWithNewline(formatted) then formatted else formatted + "\n"
    case Ol => if EndsWithNewline(formatted) then formatted else formatted + "\n"
    case P => FormatDiv(formatted)
    case Div => FormatDiv(formatted)
    case Br => "\n"
    case _ => formatted
  }

  function FormatDiv(formatted: string): string {
    if formatted == "" || formatted == "\n" then "\n"
    else if EndsWithNewline(formatted) then formatted
    else formatted + "\n"
  }

  function DomToMarkdown(node: Node): string
    decreases node, 0
  {
    match node
    case TextNode(text) => text
    case Element(tag, href, children) => FormatBlock(tag, FormatInline(tag, href, Inner(children)))
  }

  function Inner(children: seq<Node>): string
    decreases children, 1
  {
    if children == [] then "" else DomToMarkdown(children[0]) + Inner(children[1..])
  }

  lemma {:induction false} InnerConcat(a: seq<Node>, b: seq<Node>)
    ensures Inner(a + b) == Inner(a) + Inner(b)
  {
    hide DomToMarkdown;
    if a == [] {
      assert a + b == b;
    } else {
      InnerConcat(a[1..], b);
      assert (a + b)[0] == a[0] && (a + b)[1..] == a[1..] + b;
      assert Inner(a + b) == DomToMarkdown(a[0]) + (Inner(a[1..]) + Inner(b));
    }
  }

  lemma InnerOne(node: Node)
    ensures Inner([node]) == DomToMarkdown(node)
  {
    hide DomToMarkdown;
    assert [node][1..] == [];
  }

  // domToMarkdown as the source runs it: the children's texts gathered in inner, then formatted in stages.
  method ReadNode(node: Node) returns (md: string)
    ensures md == DomToMarkdown(node)
    decreases node, 1
  {
    hide Trim;
    if node.TextNode? {
      return node.text;
    }
    var tag := node.tag;
    var inner := GatherChildren(node);
    var formatted := inner;
    if tag == Code {
      formatted := "`" + formatted + "`";
    } else if tag == A {
      if node.href != "" {
        formatted := "[" + (if formatted != "" then formatted else node.href) + "](" + node.href + ")";
      }
    }
    if tag in {I, Em} && !StartsWith(formatted, "*") && !StartsWith(formatted, "_") {
      formatted := if Trim(formatted) != "" then "*" + formatted + "*" else "";
    }
    if tag in {B, Strong} && !StartsWith(formatted, "**") && !StartsWith(formatted, "__") {
      formatted := if Trim(formatted) != "" then "**" + formatted + "**" else "";
    }
    if tag in {S, Strike, Del} && !StartsWith(formatted, "~~") {
      formatted := if Trim(formatted) != "" then "~~" + formatted + "~~" else "";
    }
    hide Inner;
    assert formatted == FormatInline(tag, node.href, inner);
    md := FormatBlock(tag, formatted);
  }

  method GatherChildren(node: Node) returns (inner: string)
    requires node.Element?
    ensures inner == Inner(node.children)
    decreases node, 0
  {
    hide DomToMarkdown;
    var children := node.children;
    inner := "";
    for i := 0 to |children|
      invariant inner == Inner(children[..i])
    {
      var text := ReadNode(children[i]);
      InnerConcat(children[..i], [children[i]]);
      InnerOne(children[i]);
      assert children[..i + 1] == children[..i] + [children[i]];
      inner := inner + text;
    }
    assert children[..|children|] == children;
  }

  // \n{3,} becomes \n\n: newlines beyond the second of a run are dropped.
  function Collapse(s: string): string {
    if s == "" then ""
    else if StartsWith(s, "\n\n\n") then Collapse(s[1..])
    else [s[0]] + Collapse(s[1..])
  }

  function HtmlToMarkdown(body: seq<Node>): string {
    if body == [] || body == [Element(Br, "", [])] || body == [Element(Div, "", [Element(Br, "", [])])] then ""
    else TrimEnd(Collapse(DomToMarkdown(Element(Div, "", body))))
  }
}
