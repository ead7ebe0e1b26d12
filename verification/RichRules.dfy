// The patterns of the replacement chain, told by what they match: marks, a body and the same marks again.
module RichRules {
  import opened Options
  import opened Text
  import opened RichDom
  import opened RichInline

  // So many marks from position k on.
  predicate Run(mark: char, width: nat, ts: seq<Token>, k: nat) {
    k + width <= |ts| && forall j :: k <= j < k + width ==> ts[j] == Ch(mark)
  }

  // What a pattern takes for a body: anything but backticks for code, anything on one line for the rest.
  predicate Body(mark: char, ts: seq<Token>, from: nat, to: nat)
    requires from <= to <= |ts|
  {
    forall j :: from <= j < to ==>
      if mark == '`' then ts[j] != Ch('`') else ts[j].Ch? ==> !IsLineTerminator(ts[j].c)
  }

  // Asterisks and underscores are guarded: no more of them may stand outside the marks, nor inside a single one.
  predicate Guarded(mark: char, width: nat, prev: Option<Token>, ts: seq<Token>, k: nat)
    requires 0 < width < k && k + width <= |ts|
  {
    mark in {'*', '_'} ==>
      && prev != Some(Ch(mark))
      && (k + width < |ts| ==> ts[k + width] != Ch(mark))
      && (width == 1 ==> ts[1] != Ch(mark) && ts[k - 1] != Ch(mark))
  }

  // The pattern matches at the head of ts, its closing marks at k.
  predicate Matches(mark: char, width: nat, prev: Option<Token>, ts: seq<Token>, k: nat) {
    && 0 < width < k && k + width <= |ts|
    && Run(mark, width, ts, 0) && Run(mark, width, ts, k)
    && Body(mark, ts, width, k) && Guarded(mark, width, prev, ts, k)
  }

  // Each rule of the chain matches its pattern, with the shortest body there is.
  lemma MatchIff(i: nat, prev: Option<Token>, ts: seq<Token>, k: nat)
    requires i < RULE_COUNT
    ensures var mark, width := RuleAt(i).mark, RuleAt(i).width;
            Match(RuleAt(i), prev, ts) == Some(k) <==>
              Matches(mark, width, prev, ts, k) && forall j: nat :: j < k ==> !Matches(mark, width, prev, ts, j)
  {
    var r := RuleAt(i);
    RuleKinds(i);
    hide RuleAt;
    forall j: nat
      ensures Matches(r.mark, r.width, prev, ts, j) <==> Closing(r, prev, ts, j)
    {
      MatchesIff(r, prev, ts, j);
    }
    hide Matches;
    MatchIsFirst(r, prev, ts, k);
  }

  lemma RuleKinds(i: nat)
    requires i < RULE_COUNT
    ensures Usual(RuleAt(i))
  {
  }

  // Only asterisks and underscores are guarded, and only code has single marks without being guarded.
  predicate Usual(r: Rule) {
    && r.width >= 1
    && (r.guarded <==> r.mark in {'*', '_'})
    && (r.mark == '`' ==> r.width == 1)
    && (r.mark == '~' ==> r.width > 1)
    && r.mark in {'`', '*', '_', '~'}
  }

  // What the scan for the closing marks accepts at j, with everything it passed on the way.
  predicate Closing(r: Rule, prev: Option<Token>, ts: seq<Token>, j: nat) {
    && OpensHere(r, prev, ts) && r.width < j && j + r.width <= |ts|
    && ClosesAt(r, ts, j)
    && forall k :: r.width <= k < j ==> InBody(r, ts[k]) && (r.mark == '`' ==> ts[k] != Ch('`'))
  }

  lemma MatchesIff(r: Rule, prev: Option<Token>, ts: seq<Token>, j: nat)
    requires Usual(r)
    ensures Matches(r.mark, r.width, prev, ts, j) <==> Closing(r, prev, ts, j)
  {
    hide IsLineTerminator;
  }

  lemma CodeCloses(r: Rule, ts: seq<Token>, j: nat)
    requires Usual(r) && r.mark == '`' && j < |ts|
    ensures ClosesAt(r, ts, j) <==> ts[j] == Ch('`')
  {
  }

  lemma CloseFits(r: Rule, ts: seq<Token>, j: nat)
    ensures ClosesAt(r, ts, j) ==> j + r.width <= |ts|
  {
  }

  lemma OpenWithin(r: Rule, prev: Option<Token>, ts: seq<Token>)
    ensures OpensHere(r, prev, ts) ==> r.width < |ts|
  {
  }

  lemma FirstIsClosing(r: Rule, prev: Option<Token>, ts: seq<Token>, k: nat)
    requires Usual(r) && OpensHere(r, prev, ts) && r.width < |ts| && InBody(r, ts[r.width])
    ensures
      (&& r.width < k < |ts| && ClosesAt(r, ts, k)
       && forall j :: r.width < j < k ==> InBody(r, ts[j]) && !ClosesAt(r, ts, j)) <==>
      Closing(r, prev, ts, k) && forall j: nat :: j < k ==> !Closing(r, prev, ts, j)
  {
    hide InBody;
    CodeOpens(r, prev, ts);
    hide OpensHere;
    forall j | r.width < j < |ts|
      ensures ClosesAt(r, ts, j) ==> j + r.width <= |ts|
      ensures r.mark == '`' ==> (ClosesAt(r, ts, j) <==> ts[j] == Ch('`'))
    {
      CloseFits(r, ts, j);
      if r.mark == '`' {
        CodeCloses(r, ts, j);
      }
    }
    hide ClosesAt;
    if Closing(r, prev, ts, k) && forall j: nat :: j < k ==> !Closing(r, prev, ts, j) {
      forall j | r.width < j < k
        ensures !ClosesAt(r, ts, j)
      {
        assert !Closing(r, prev, ts, j);
      }
    }
  }

  lemma CodeOpens(r: Rule, prev: Option<Token>, ts: seq<Token>)
    requires Usual(r) && OpensHere(r, prev, ts) && r.width < |ts|
    ensures r.mark == '`' ==> ts[r.width] != Ch('`')
  {
  }

  lemma MatchIsFirst(r: Rule, prev: Option<Token>, ts: seq<Token>, k: nat)
    requires Usual(r)
    ensures Match(r, prev, ts) == Some(k) <==> Closing(r, prev, ts, k) && forall j: nat :: j < k ==> !Closing(r, prev, ts, j)
  {
    hide InBody;
    hide OpensHere;
    hide ClosesAt;
    if OpensHere(r, prev, ts) && r.width < |ts| && InBody(r, ts[r.width]) {
      assert Match(r, prev, ts) == FindClose(r, ts, r.width + 1);
      FindsFirst(r, ts, r.width + 1, k);
      hide FindClose;
      hide Match;
      FirstIsClosing(r, prev, ts, k);
    } else {
      OpenWithin(r, prev, ts);
      assert Match(r, prev, ts).None?;
      assert forall j: nat :: Closing(r, prev, ts, j) ==> InBody(r, ts[r.width]);
    }
  }

  // The scan finds the first place from here on that closes, if nothing before it stops it.
  lemma {:induction false} FindsFirst(r: Rule, ts: seq<Token>, from: nat, k: nat)
    requires r.width >= 1
    ensures FindClose(r, ts, from) == Some(k) <==>
      && from <= k < |ts| && ClosesAt(r, ts, k)
      && forall j :: from <= j < k ==> InBody(r, ts[j]) && !ClosesAt(r, ts, j)
    decreases |ts| - from
  {
    hide InBody;
    if from + r.width <= |ts| && from < |ts| && !ClosesAt(r, ts, from) && InBody(r, ts[from]) {
      FindsFirst(r, ts, from + 1, k);
    }
  }

  // ----- links -----

  // [text](address) at the head of ts, with n tokens of text and m characters of address: no closing bracket in the text,
  // no white space or closing parenthesis in the address, and more of it than one of the three schemes.
  predicate LinkAt(ts: seq<Token>, n: nat, m: nat) {
    && n > 0 && n + m + 4 <= |ts|
    && ts[0] == Ch('[') && ts[n + 1] == Ch(']') && ts[n + 2] == Ch('(') && ts[n + 3 + m] == Ch(')')
    && (forall j :: 0 < j <= n ==> ts[j] != Ch(']'))
    && (forall j :: n + 3 <= j < n + 3 + m ==> ts[j].Ch? && !IsSpace(ts[j].c) && ts[j].c != ')')
    && Schemed(Letters(ts[n + 3..n + 3 + m]))
  }

  function Letters(ts: seq<Token>): string {
    seq(|ts|, k requires 0 <= k < |ts| => if ts[k].Ch? then ts[k].c else ' ')
  }

  predicate Schemed(url: string) {
    "http://" < url || "https://" < url || "mailto:" < url
  }

  lemma LinkIff(ts: seq<Token>, n: nat, m: nat)
    ensures LinkHere(ts) == Some((n, m)) <==> LinkAt(ts, n, m)
  {
    hide IsSpace;
    hide HasScheme;
    hide Schemed;
    hide Spell;
    hide Letters;
    hide UpTo;
    hide UrlLength;
    if ts != [] && ts[0] == Ch('[') {
      var k := UpTo(ts[1..], ']');
      UpToIff(ts[1..], ']', n);
      UpToIff(ts[1..], ']', k);
      if k + 3 <= |ts| {
        var len := UrlLength(ts[k + 3..]);
        UrlIff(ts[k + 3..], m);
        UrlIff(ts[k + 3..], len);
        SameLetters(ts, k + 3, len);
      }
    }
  }

  lemma {:induction false} UpToIff(ts: seq<Token>, stop: char, n: nat)
    ensures UpTo(ts, stop) == n <==>
      n <= |ts| && (forall j :: 0 <= j < n ==> ts[j] != Ch(stop)) && (n < |ts| ==> ts[n] == Ch(stop))
  {
    if ts != [] && ts[0] != Ch(stop) && n > 0 {
      UpToIff(ts[1..], stop, n - 1);
    }
  }

  lemma {:induction false} UrlIff(ts: seq<Token>, m: nat)
    ensures UrlLength(ts) == m <==>
      && m <= |ts| && (forall j :: 0 <= j < m ==> ts[j].Ch? && !IsSpace(ts[j].c) && ts[j].c != ')')
      && (m < |ts| ==> !(ts[m].Ch? && !IsSpace(ts[m].c) && ts[m].c != ')'))
  {
    hide IsSpace;
    if ts != [] && ts[0].Ch? && !IsSpace(ts[0].c) && ts[0].c != ')' && m > 0 {
      UrlIff(ts[1..], m - 1);
    }
  }

  lemma SameLetters(ts: seq<Token>, from: nat, len: nat)
    requires from + len <= |ts| && forall j :: 0 <= j < len ==> ts[from..][j].Ch?
    ensures forall j :: 0 <= j < len ==> ts[from..][..len][j].Ch?
    ensures HasScheme(Spell(ts[from..][..len])) <==> Schemed(Letters(ts[from..from + len]))
  {
    assert ts[from..][..len] == ts[from..from + len];
    assert Spell(ts[from..][..len]) == Letters(ts[from..from + len]);
  }
}
