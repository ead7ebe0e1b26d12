// renderInlineTokens: the inline tokenizer of a message line, over any matcher that finds tokens the way the source's
// regular expression does.
module InlineTokens {
  import opened Options
  import opened Text

  datatype Style = BoldItalic | Bold | Italic | Strikethrough

  datatype Capture =
    | CodeCapture(content: string)
    | LinkCapture(text: string, url: string)
    | UrlCapture
    | StyleCapture(style: Style, content: string)

  datatype Hit = Hit(index: nat, length: nat, capture: Capture)

  // The first token in a text, or nothing.
  type Matcher = string -> Option<Hit>

  // raw is the stretch of text a token was made from; React keys and style attributes are dropped.
  datatype Token =
    | Plain(raw: string)
    | CodeToken(raw: string, content: string)
    | Anchor(raw: string, text: string, href: string)
    | Styled(raw: string, style: Style, children: seq<Token>)

  // The marks of a style on both sides of content.
  predicate Encloses(raw: string, style: Style, content: string) {
    match style
    case BoldItalic => raw == "***" + content + "***" || raw == "___" + content + "___"
    case Bold => raw == "**" + content + "**" || raw == "__" + content + "__"
    case Italic => raw == "*" + content + "*" || raw == "_" + content + "_"
    case Strikethrough => raw == "~~" + content + "~~"
  }

  ghost predicate CaptureFits(raw: string, c: Capture) {
    match c
    case CodeCapture(content) => raw == "`" + content + "`"
    case LinkCapture(text, url) => raw == "[" + text + "](" + url + ")"
    case UrlCapture => true
    case StyleCapture(style, content) => Encloses(raw, style, content)
  }

  ghost predicate HitFits(text: string, h: Hit) {
    && h.length > 0 && h.index + h.length <= |text|
    && CaptureFits(text[h.index..h.index + h.length], h.capture)
  }

  ghost predicate Fits(m: Matcher) {
    forall text :: m(text).Some? ==> HitFits(text, m(text).value)
  }

  function Lower(s: string): (r: string)
    ensures |r| == |s|
  {
    seq(|s|, k requires 0 <= k < |s| =>
      if 'A' <= s[k] <= 'Z' then ((s[k] as int) + 32) as char else s[k])
  }

  predicate SafeScheme(url: string) {
    var low := Lower(url);
    "http://" <= low || "https://" <= low || "mailto:" <= low
  }

  function SanitizeUrl(rawUrl: string): Option<string> {
    var trimmed := Trim(rawUrl);
    if SafeScheme(trimmed) then Some(trimmed) else None
  }

  // The token pushed for a match.
  function TokenOf(m: Matcher, raw: string, c: Capture): Token
    requires Fits(m) && CaptureFits(raw, c)
    decreases |raw|, 0
  {
    match c
    case CodeCapture(content) => CodeToken(raw, content)
    case LinkCapture(text, url) =>
      (match SanitizeUrl(url)
       case Some(href) => Anchor(raw, text, href)
       case None => Plain("[" + text + "](" + url + ")"))
    case UrlCapture =>
      (match SanitizeUrl(raw)
       case Some(href) => Anchor(raw, raw, href)
       case None => Plain(raw))
    case StyleCapture(style, content) => Styled(raw, style, Tokens(m, content))
  }

  // The text before the first match, the match, and the rest read the same way.
  function Tokens(m: Matcher, text: string): seq<Token>
    requires Fits(m)
    decreases |text|, 1
  {
    if text == "" then []
    else
      match m(text)
      case None => [Plain(text)]
      case Some(h) =>
        (if h.index > 0 then [Plain(text[..h.index])] else [])
        + [TokenOf(m, text[h.index..h.index + h.length], h.capture)]
        + Tokens(m, text[h.index + h.length..])
  }

  // What the loop has pushed so far, followed by the tokens of what remains.
  lemma LoopStep(m: Matcher, tokens: seq<Token>, remaining: string, h: Hit)
    requires Fits(m) && remaining != "" && m(remaining) == Some(h)
    ensures HitFits(remaining, h)
    ensures var head := if h.index > 0 then [Plain(remaining[..h.index])] else [];
            tokens + Tokens(m, remaining)
            == tokens + head + [TokenOf(m, remaining[h.index..h.index + h.length], h.capture)]
               + Tokens(m, remaining[h.index + h.length..])
  {
    hide TokenOf;
    hide CaptureFits;
    assert HitFits(remaining, m(remaining).value);
    var head := if h.index > 0 then [Plain(remaining[..h.index])] else [];
    var token, rest :=
      TokenOf(m, remaining[h.index..h.index + h.length], h.capture), Tokens(m, remaining[h.index + h.length..]);
    assert Tokens(m, remaining) == head + [token] + rest;
    hide Tokens;
    hide Fits;
    assert tokens + (head + [token] + rest) == tokens + head + [token] + rest;
  }

  method RenderInlineTokens(m: Matcher, text: string) returns (tokens: seq<Token>)
    requires Fits(m)
    ensures tokens == Tokens(m, text)
    decreases |text|, 1
  {
    hide TokenOf;
    hide Tokens;
    hide Fits;
    hide CaptureFits;
    tokens := [];
    var remaining := text;
    while |remaining| > 0
      invariant |remaining| <= |text|
      invariant tokens + Tokens(m, remaining) == Tokens(m, text)
      decreases |remaining|
    {
      var found := m(remaining);
      if found.None? {
        NoMatch(m, remaining);
        tokens := tokens + [Plain(remaining)];
        return;
      }
      var h := found.value;
      LoopStep(m, tokens, remaining, h);
      if h.index > 0 {
        tokens := tokens + [Plain(remaining[..h.index])];
      }
      var token := RenderMatch(m, remaining[h.index..h.index + h.length], h.capture);
      tokens := tokens + [token];
      remaining := remaining[h.index + h.length..];
    }
    NothingLeft(m, remaining);
  }

  lemma NoMatch(m: Matcher, text: string)
    requires Fits(m) && text != "" && m(text) == None
    ensures Tokens(m, text) == [Plain(text)]
  {
  }

  lemma NothingLeft(m: Matcher, text: string)
    requires Fits(m) && text == ""
    ensures Tokens(m, text) == []
  {
  }

  method RenderMatch(m: Matcher, raw: string, c: Capture) returns (token: Token)
    requires Fits(m) && CaptureFits(raw, c)
    ensures token == TokenOf(m, raw, c)
    decreases |raw|, 0
  {
    hide SanitizeUrl;
    match c {
      case CodeCapture(content) => token := CodeToken(raw, content);
      case LinkCapture(linkText, url) =>
        var href := SanitizeUrl(url);
        token := if href.Some? then Anchor(raw, linkText, href.value) else Plain("[" + linkText + "](" + url + ")");
      case UrlCapture =>
        var href := SanitizeUrl(raw);
        token := if href.Some? then Anchor(raw, raw, href.value) else Plain(raw);
      case StyleCapture(style, content) =>
        var children := RenderInlineTokens(m, content);
        token := Styled(raw, style, children);
    }
  }

  // ----- what the tokens hold -----

  function RawOf(tokens: seq<Token>): string {
    if tokens == [] then "" else tokens[0].raw + RawOf(tokens[1..])
  }

  lemma {:induction false} RawConcat(a: seq<Token>, b: seq<Token>)
    ensures RawOf(a + b) == RawOf(a) + RawOf(b)
  {
    if a == [] {
      assert a + b == b;
    } else {
      assert (a + b)[1..] == a[1..] + b;
      RawConcat(a[1..], b);
    }
  }

  // A token shows what it was made from: all of it, or what its marks enclose, and a link only to a safe scheme.
  ghost predicate Faithful(t: Token) {
    match t
    case Plain(_) => true
    case CodeToken(raw, content) => raw == "`" + content + "`"
    case Anchor(raw, text, href) =>
      SafeScheme(href)
      && ((text == raw && href == Trim(raw))
          || exists url :: raw == "[" + text + "](" + url + ")" && href == Trim(url))
    case Styled(raw, style, children) =>
      && Encloses(raw, style, RawOf(children))
      && forall k :: 0 <= k < |children| ==> Faithful(children[k])
  }

  ghost predicate AllFaithful(tokens: seq<Token>) {
    forall k :: 0 <= k < |tokens| ==> Faithful(tokens[k])
  }

  lemma {:induction false} TokenIsFaithful(m: Matcher, raw: string, c: Capture)
    requires Fits(m) && CaptureFits(raw, c)
    ensures TokenOf(m, raw, c).raw == raw && Faithful(TokenOf(m, raw, c))
    decreases |raw|, 0
  {
    hide Tokens;
    hide SafeScheme;
    hide Trim;
    match c
    case StyleCapture(style, content) => TokensKeepTheText(m, content);
    case _ =>
  }

  // At every depth, each character of the text lands in exactly one token, in order.
  lemma {:induction false} TokensKeepTheText(m: Matcher, text: string)
    requires Fits(m)
    ensures RawOf(Tokens(m, text)) == text && AllFaithful(Tokens(m, text))
    decreases |text|, 1
  {
    hide TokenOf;
    hide Faithful;
    hide CaptureFits;
    if text == "" {
      NothingLeft(m, text);
    } else if m(text).None? {
      PlainIsFaithful(text);
    } else {
      var h := m(text).value;
      LoopStep(m, [], text, h);
      var raw, rest := text[h.index..h.index + h.length], text[h.index + h.length..];
      hide Tokens;
      TokenIsFaithful(m, raw, h.capture);
      TokensKeepTheText(m, rest);
      hide Fits;
      HitKeepsTheText(text, h.index, h.length, TokenOf(m, raw, h.capture), Tokens(m, rest));
    }
  }

  // The tokens of one round of the loop: the text before the hit, the hit, and what the rest gives.
  lemma HitKeepsTheText(text: string, at: nat, length: nat, token: Token, rest: seq<Token>)
    requires at + length <= |text|
    requires Faithful(token) && token.raw == text[at..at + length]
    requires AllFaithful(rest) && RawOf(rest) == text[at + length..]
    ensures var all := [] + (if at > 0 then [Plain(text[..at])] else []) + [token] + rest;
            RawOf(all) == text && AllFaithful(all)
  {
    hide Faithful;
    var head := if at > 0 then [Plain(text[..at])] else [];
    PlainIsFaithful(text[..at]);
    Joined(head, token, rest);
    assert RawOf(head) == text[..at];
    hide RawOf;
    assert [] + head == head;
    assert text == text[..at] + text[at..at + length] + text[at + length..];
  }

  lemma PlainIsFaithful(text: string)
    ensures RawOf([Plain(text)]) == text && AllFaithful([Plain(text)])
  {
  }

  lemma Joined(head: seq<Token>, token: Token, rest: seq<Token>)
    ensures RawOf(head + [token] + rest) == RawOf(head) + token.raw + RawOf(rest)
    ensures AllFaithful(head) && Faithful(token) && AllFaithful(rest) ==> AllFaithful(head + [token] + rest)
  {
    hide Faithful;
    RawConcat(head + [token], rest);
    RawConcat(head, [token]);
  }

  // ----- which links are shown -----

  // The same letter in either case, or the same character.
  predicate SameLetter(c: char, lower: char) {
    c == lower || ('a' <= lower <= 'z' && c as int == lower as int - 32)
  }

  predicate StartsLike(s: string, lower: string) {
    |lower| <= |s| && forall k :: 0 <= k < |lower| ==> SameLetter(s[k], lower[k])
  }

  // A safe address starts with http://, https:// or mailto:, in any case.
  lemma SafeIff(url: string)
    ensures SafeScheme(url) <==> StartsLike(url, "http://") || StartsLike(url, "https://") || StartsLike(url, "mailto:")
  {
    LikeIff(url, "http://");
    LikeIff(url, "https://");
    LikeIff(url, "mailto:");
    hide StartsLike;
    hide Lower;
  }

  lemma LikeIff(s: string, lower: string)
    requires forall k :: 0 <= k < |lower| ==> !('A' <= lower[k] <= 'Z')
    ensures lower <= Lower(s) <==> StartsLike(s, lower)
  {
    if lower <= Lower(s) {
      forall k | 0 <= k < |lower|
        ensures SameLetter(s[k], lower[k])
      {
        assert Lower(s)[k] == lower[k];
      }
    }
    if StartsLike(s, lower) {
      forall k | 0 <= k < |lower|
        ensures Lower(s)[k] == lower[k]
      {
        assert SameLetter(s[k], lower[k]);
      }
    }
  }

  // Code stays code and a styled stretch keeps its style; a link becomes an anchor exactly when its trimmed address is
  // safe, and plain text otherwise.
  lemma MatchShows(m: Matcher, raw: string, c: Capture)
    requires Fits(m) && CaptureFits(raw, c)
    ensures var t := TokenOf(m, raw, c);
            match c
            case CodeCapture(content) => t == CodeToken(raw, content)
            case LinkCapture(text, url) => t == if SafeScheme(Trim(url)) then Anchor(raw, text, Trim(url)) else Plain(raw)
            case UrlCapture => t == if SafeScheme(Trim(raw)) then Anchor(raw, raw, Trim(raw)) else Plain(raw)
            case StyleCapture(style, content) => t.Styled? && t.style == style && RawOf(t.children) == content
  {
    hide SafeScheme;
    hide Trim;
    hide Tokens;
    match c
    case StyleCapture(_, content) => TokensKeepTheText(m, content);
    case _ =>
  }
}
