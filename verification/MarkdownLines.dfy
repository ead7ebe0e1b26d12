// The lines of a message by their patterns: what the line scanner's functions say about a line, told by how the line is
// made up.
module MarkdownLines {
  import opened Options
  import opened Text
  import opened LineText
  import opened MarkdownScanner

  // s is at least so much white space and then text, which is not empty and on one line.
  ghost predicate Splits(s: string, least: nat, text: string) {
    && text != "" && OneLine(text)
    && |text| + least <= |s| && s[|s| - |text|..] == text
    && forall k :: 0 <= k < |s| - |text| ==> IsSpace(s[k])
  }

  // The white space takes as much as it can.
  ghost predicate Shortest(s: string, least: nat, text: string) {
    Splits(s, least, text) && forall t :: Splits(s, least, t) ==> |text| <= |t|
  }

  lemma IndentIsSpace(s: string)
    ensures forall k :: 0 <= k < Indent(s) ==> IsSpace(s[k])
  {
    hide IsSpace;
  }

  lemma GroupBehindIndent(s: string, least: nat)
    requires AfterGap(s, least).Some?
    ensures |s| - |AfterGap(s, least).value| <= Indent(s)
  {
    hide IsSpace;
    hide OneLine;
    hide Indent;
  }

  lemma GroupSplits(s: string, least: nat)
    requires AfterGap(s, least).Some?
    ensures Splits(s, least, AfterGap(s, least).value)
  {
    hide IsSpace;
    hide OneLine;
    hide Indent;
    IndentIsSpace(s);
    GroupBehindIndent(s, least);
    hide AfterGap;
  }

  lemma SplitIsFound(s: string, least: nat, t: string)
    requires Splits(s, least, t)
    ensures AfterGap(s, least).Some?
  {
    hide IsSpace;
    hide IsLineTerminator;
    hide Indent;
    var n, gap := Indent(s), |s| - |t|;
    IndentReaches(s, gap);
    assert s[gap..] == t;
    if n < |s| {
      TailOnOneLine(t, n - gap);
      assert s[n..] == t[n - gap..];
      hide OneLine;
    } else {
      assert s[n - 1] == t[|t| - 1];
    }
  }

  lemma TailOnOneLine(t: string, k: nat)
    requires OneLine(t) && k <= |t|
    ensures OneLine(t[k..])
  {
    hide IsLineTerminator;
  }

  lemma AfterGapSplits(s: string, least: nat)
    ensures match AfterGap(s, least)
            case Some(text) => Splits(s, least, text)
            case None => forall t :: !Splits(s, least, t)
  {
    hide Splits;
    hide AfterGap;
    forall t | Splits(s, least, t)
      ensures AfterGap(s, least).Some?
    {
      SplitIsFound(s, least, t);
    }
    if AfterGap(s, least).Some? {
      GroupSplits(s, least);
    }
  }

  lemma {:induction false} IndentReaches(s: string, k: nat)
    requires k <= |s| && forall i :: 0 <= i < k ==> IsSpace(s[i])
    ensures Indent(s) >= k
  {
    hide IsSpace;
    if k > 0 {
      IndentReaches(s[1..], k - 1);
    }
  }

  // The pattern's group is the shortest text that the white space leaves.
  lemma AfterGapIff(s: string, least: nat, text: string)
    ensures AfterGap(s, least) == Some(text) <==> Shortest(s, least, text)
  {
    AfterGapSplits(s, least);
    if AfterGap(s, least).Some? {
      AfterGapIsShortest(s, least);
      hide AfterGap;
      var group := AfterGap(s, least).value;
      if Shortest(s, least, text) {
        assert |text| == |group|;
      }
    }
  }

  lemma AfterGapIsShortest(s: string, least: nat)
    requires AfterGap(s, least).Some?
    ensures forall t :: Splits(s, least, t) ==> |AfterGap(s, least).value| <= |t|
  {
    hide IsSpace;
    hide OneLine;
    forall t | Splits(s, least, t)
      ensures |AfterGap(s, least).value| <= |t|
    {
      IndentReaches(s, |s| - |t|);
    }
  }

  // ----- lists -----

  ghost predicate BulletedAt(line: string, at: nat, text: string) {
    && at < |line| && (forall k :: 0 <= k < at ==> IsSpace(line[k]))
    && line[at] in {'-', '*', '+'} && Shortest(line[at + 1..], 1, text)
  }

  // White space, a bullet, white space, text.
  ghost predicate Bulleted(line: string, text: string) {
    exists at: nat :: BulletedAt(line, at, text)
  }

  predicate Digit(c: char) {
    '0' <= c <= '9'
  }

  ghost predicate NumberedAt(line: string, at: nat, dot: nat, text: string) {
    && at < dot < |line| && (forall k :: 0 <= k < at ==> IsSpace(line[k]))
    && (forall k :: at <= k < dot ==> Digit(line[k]))
    && line[dot] == '.' && Shortest(line[dot + 1..], 1, text)
  }

  // White space, digits, a dot, white space, text.
  ghost predicate Numbered(line: string, text: string) {
    exists at: nat, dot: nat :: NumberedAt(line, at, dot, text)
  }

  lemma IndentIs(line: string, at: nat)
    requires at < |line| && (forall k :: 0 <= k < at ==> IsSpace(line[k])) && !IsSpace(line[at])
    ensures Indent(line) == at
  {
    hide IsSpace;
    IndentReaches(line, at);
  }

  lemma MarksAndDigitsShow()
    ensures !IsSpace('-') && !IsSpace('*') && !IsSpace('+') && forall c :: Digit(c) ==> !IsSpace(c)
  {
  }

  lemma BulletIff(line: string, text: string)
    ensures BulletContent(line) == Some(text) <==> Bulleted(line, text)
  {
    hide AfterGap;
    hide Shortest;
    hide IsSpace;
    MarksAndDigitsShow();
    var n := Indent(line);
    hide Indent;
    if n < |line| {
      AfterGapIff(line[n + 1..], 1, text);
    }
    if BulletContent(line) == Some(text) {
      assert BulletedAt(line, n, text);
    }
    if at: nat :| BulletedAt(line, at, text) {
      IndentIs(line, at);
    }
  }

  lemma {:induction false} DigitsAre(s: string)
    ensures forall k :: 0 <= k < Digits(s) ==> Digit(s[k])
    ensures Digits(s) < |s| ==> !Digit(s[Digits(s)])
  {
    if s != "" && Digit(s[0]) {
      DigitsAre(s[1..]);
    }
  }

  lemma DigitsReach(s: string, n: nat)
    requires n < |s| && (forall k :: 0 <= k < n ==> Digit(s[k])) && !Digit(s[n])
    ensures Digits(s) == n
  {
    DigitsAre(s);
    hide Digit;
    hide Digits;
  }

  lemma NumberedHere(line: string, n: nat, d: nat, text: string)
    requires n <= |line| && 0 < d < |line[n..]| && line[n..][d] == '.'
    requires (forall k :: 0 <= k < n ==> IsSpace(line[k])) && forall k :: 0 <= k < d ==> Digit(line[n..][k])
    requires Shortest(line[n + d + 1..], 1, text)
    ensures NumberedAt(line, n, n + d, text)
  {
    hide Shortest;
    hide IsSpace;
    hide Digit;
    assert forall k :: n <= k < n + d ==> line[k] == line[n..][k - n];
  }

  lemma DotStops(line: string, at: nat, dot: nat)
    requires at < dot < |line| && (forall k :: at <= k < dot ==> Digit(line[k])) && line[dot] == '.'
    ensures Digits(line[at..]) == dot - at
  {
    assert !Digit('.');
    hide Digit;
    var tail := line[at..];
    assert forall k :: 0 <= k < dot - at ==> tail[k] == line[at + k];
    DigitsReach(tail, dot - at);
  }

  lemma NumberedIff(line: string, text: string)
    ensures NumberedContent(line) == Some(text) <==> Numbered(line, text)
  {
    hide AfterGap;
    hide Shortest;
    hide IsSpace;
    hide Digits;
    MarksAndDigitsShow();
    var n := Indent(line);
    hide Indent;
    var tail := line[n..];
    var d := Digits(tail);
    DigitsAre(tail);
    if NumberedContent(line) == Some(text) {
      AfterGapIff(tail[d + 1..], 1, text);
      assert tail[d + 1..] == line[n + d + 1..];
      NumberedHere(line, n, d, text);
    }
    if at: nat, dot: nat :| NumberedAt(line, at, dot, text) {
      assert Digit(line[at]);
      IndentIs(line, at);
      DotStops(line, at, dot);
      AfterGapIff(tail[d + 1..], 1, text);
      assert tail[d + 1..] == line[dot + 1..];
    }
  }

  // ----- every line -----

  // So many signs, white space, text.
  ghost predicate Signed(line: string, signs: string, least: nat, text: string) {
    signs <= line && Shortest(line[|signs|..], least, text)
  }

  lemma SignedIff(line: string, signs: string, least: nat, text: string)
    ensures AfterPrefix(line, signs, least) == Some(text) <==> Signed(line, signs, least, text)
  {
    if signs <= line {
      AfterGapIff(line[|signs|..], least, text);
    }
    hide AfterGap;
    hide Shortest;
  }

  // Outside the code blocks, a line that is no fence is a bulleted or a numbered item by its pattern alone.
  lemma ItemReads(line: string, text: string)
    ensures KindOf(line) == Fence <==> "```" <= Trim(line)
    ensures KindOf(line) == Item(Ul, text) <==> KindOf(line) != Fence && Bulleted(line, text)
    ensures KindOf(line) == Item(Ol, text) <==> KindOf(line) != Fence && Numbered(line, text)
  {
    hide Bulleted;
    hide Numbered;
    hide BulletContent;
    hide NumberedContent;
    hide SingleBlock;
    hide Trim;
    BulletIff(line, text);
    NumberedIff(line, text);
    if BulletContent(line).Some? {
      BulletIsNoNumber(line);
    }
  }

  // The rest are headings of one to three signs, quotes, blank lines, or else paragraphs as they stand.
  lemma SingleReads(line: string, text: string)
    ensures SingleBlock(line) == Heading(1, text) <==> Signed(line, "#", 1, text)
    ensures SingleBlock(line) == Heading(2, text) <==> Signed(line, "##", 1, text)
    ensures SingleBlock(line) == Heading(3, text) <==> Signed(line, "###", 1, text)
    ensures SingleBlock(line) == Quote(text) <==> Signed(line, ">", 0, text)
    ensures SingleBlock(line) == Paragraph(text) ==> text == line && !Blank(line)
    ensures SingleBlock(line) == Gap ==> Blank(line)
  {
    hide Signed;
    hide AfterPrefix;
    hide Blank;
    SignedIff(line, "#", 1, text);
    SignedIff(line, "##", 1, text);
    SignedIff(line, "###", 1, text);
    SignedIff(line, ">", 0, text);
    if AfterPrefix(line, "#", 1).Some? {
      OneSignOnly(line, "#", "##");
      OneSignOnly(line, "#", "###");
      OtherSign(line, "#");
    }
    if AfterPrefix(line, "##", 1).Some? {
      OneSignOnly(line, "##", "###");
      OtherSign(line, "##");
    }
    if AfterPrefix(line, "###", 1).Some? {
      OtherSign(line, "###");
    }
  }

  // After the signs comes white space, so longer signs do not match as well.
  lemma OneSignOnly(line: string, signs: string, longer: string)
    requires AfterPrefix(line, signs, 1).Some? && signs <= longer && |signs| < |longer| && longer[|signs|] == '#'
    ensures AfterPrefix(line, longer, 1).None?
  {
    assert !IsSpace('#');
    hide IsSpace;
  }

  lemma OtherSign(line: string, signs: string)
    requires AfterPrefix(line, signs, 1).Some? && "#" <= signs
    ensures AfterPrefix(line, ">", 0).None?
  {
    hide AfterGap;
    assert line[0] == signs[0] == '#';
  }

  lemma BulletIsNoNumber(line: string)
    requires BulletContent(line).Some?
    ensures NumberedContent(line).None?
  {
    hide AfterGap;
    hide IsSpace;
  }
}
