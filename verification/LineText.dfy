// Splitting text into lines, and the line patterns the two Markdown readers share.
module LineText {
  import opened Options
  import opened Text

  // split("\n").
  function Lines(s: string): (ls: seq<string>)
    ensures |ls| >= 1
    ensures forall l :: l in ls ==> '\n' !in l
  {
    if s == "" then [""]
    else
      var rest := Lines(s[1..]);
      if s[0] == '\n' then [""] + rest else [[s[0]] + rest[0]] + rest[1..]
  }

  function Join(ls: seq<string>): string
    requires |ls| >= 1
  {
    if |ls| == 1 then ls[0] else ls[0] + "\n" + Join(ls[1..])
  }

  lemma {:induction false} JoinLines(s: string)
    ensures Join(Lines(s)) == s
  {
    if s != "" {
      JoinLines(s[1..]);
      var rest := Lines(s[1..]);
      if s[0] == '\n' {
        assert Lines(s)[1..] == rest;
      } else if |rest| > 1 {
        assert Lines(s)[1..] == rest[1..];
        assert [s[0]] + (rest[0] + "\n" + Join(rest[1..])) == [s[0]] + rest[0] + "\n" + Join(rest[1..]);
      }
    }
  }

  lemma {:induction false} LinesOfPrefix(a: string, s: string)
    requires '\n' !in a
    ensures Lines(a + s) == [a + Lines(s)[0]] + Lines(s)[1..]
  {
    if a == "" {
      assert a + s == s && a + Lines(s)[0] == Lines(s)[0];
      assert Lines(s) == [Lines(s)[0]] + Lines(s)[1..];
    } else {
      LinesOfPrefix(a[1..], s);
      assert (a + s)[1..] == a[1..] + s;
      assert a == [a[0]] + a[1..];
      assert [a[0]] + (a[1..] + Lines(s)[0]) == a + Lines(s)[0];
    }
  }

  lemma {:induction false} LinesJoin(ls: seq<string>)
    requires |ls| >= 1 && forall l :: l in ls ==> '\n' !in l
    ensures Lines(Join(ls)) == ls
  {
    if |ls| == 1 {
      LinesOfPrefix(ls[0], "");
      assert ls[0] + "" == ls[0];
    } else {
      LinesJoin(ls[1..]);
      var t := "\n" + Join(ls[1..]);
      assert t[1..] == Join(ls[1..]);
      LinesOfPrefix(ls[0], t);
      assert ls[0] + "\n" + Join(ls[1..]) == ls[0] + t;
      assert Lines(t) == [""] + ls[1..];
      assert ls[0] + "" == ls[0] && [ls[0]] + ls[1..] == ls;
    }
  }

  // ----- line patterns -----

  // How many white-space characters s starts with.
  function Indent(s: string): (n: nat)
    ensures n <= |s|
    ensures forall k :: 0 <= k < n ==> IsSpace(s[k])
    ensures n < |s| ==> !IsSpace(s[n])
  {
    if s == "" || !IsSpace(s[0]) then 0 else 1 + Indent(s[1..])
  }

  predicate OneLine(s: string) {
    forall k :: 0 <= k < |s| ==> !IsLineTerminator(s[k])
  }

  // The group (.+) of the pattern \s{least,}(.+)$ on s. White space is taken greedily and given back only when
  // nothing else is left for the group, so an all-space tail leaves its last character to it.
  function AfterGap(s: string, least: nat): (r: Option<string>)
    ensures r.Some? ==> r.value != "" && OneLine(r.value) && |r.value| + least <= |s|
    ensures r.Some? ==> r.value == s[|s| - |r.value|..]
  {
    var n := Indent(s);
    if n < least then None
    else if n < |s| then (if OneLine(s[n..]) then Some(s[n..]) else None)
    else if n > least && !IsLineTerminator(s[n - 1]) then Some(s[n - 1..])
    else None
  }

  // ^(\s*)[-*+]\s+(.+)$
  function BulletContent(line: string): (r: Option<string>)
    ensures r.Some? ==> r.value != "" && OneLine(r.value) && |r.value| + 2 <= |line|
    ensures r.Some? ==> r.value == line[|line| - |r.value|..]
  {
    var n := Indent(line);
    if n < |line| && line[n] in {'-', '*', '+'} then AfterGap(line[n + 1..], 1) else None
  }
}
