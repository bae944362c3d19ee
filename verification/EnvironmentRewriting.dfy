// The environment found in a rewritten text, in terms of the text before.
module EnvironmentRewriting {
  import opened Text
  import opened Spaces
  import opened Rewriting
  import opened TargetEnvironment

  // Neither keywords nor what is written have white space.
  ghost predicate Spaceless(rs: seq<Rule>) {
    forall r :: r in rs ==> Proper(r) && NoSpace(r.key) && NoSpace(r.put)
  }

  ghost function Rewritten(rs: seq<Rule>, word: Option<string>): Option<string>
    requires forall r :: r in rs ==> Proper(r)
  {
    if word.Some? then Some(Rewrite(rs, word.value)) else None
  }

  lemma SpaceKept(rs: seq<Rule>, t: string)
    requires Spaceless(rs) && t != "" && IsSpace(t[0])
    ensures !SomeApplies(rs, t) && Rewrite(rs, t) == [t[0]] + Rewrite(rs, t[1..])
  {
  }

  lemma SpaceFirst(rs: seq<Rule>, c: char, t: string)
    requires Spaceless(rs) && IsSpace(c)
    ensures Rewrite(rs, [c] + t) == [c] + Rewrite(rs, t)
  {
    SpaceKept(rs, [c] + t);
    assert ([c] + t)[1..] == t;
  }

  // White space is passed over.
  lemma {:induction false} RewriteSpaces(rs: seq<Rule>, gap: string, u: string)
    requires Spaceless(rs) && AllSpace(gap)
    ensures Rewrite(rs, gap + u) == gap + Rewrite(rs, u)
    decreases |gap|
  {
    if gap == "" {
      assert gap + u == u && "" + Rewrite(rs, u) == Rewrite(rs, u);
    } else {
      var c, tail := gap[0], gap[1..];
      assert gap == [c] + tail;
      Associative([c], tail, u);
      SpaceFirst(rs, c, tail + u);
      RewriteSpaces(rs, tail, u);
      Associative([c], tail, Rewrite(rs, u));
    }
  }

  // A keyword applies to a word as it applies to the text the word begins.
  lemma AppliesInWord(r: Rule, word: string, rest: string)
    requires NoSpace(r.key) && NoSpace(word) && Breaks(rest)
    ensures Applies(r, word + rest) == Applies(r, word)
  {
    assert rest != "" ==> (word + rest)[|word|] == rest[0];
  }

  // A word is rewritten on its own.
  lemma {:induction false} RewriteWord(rs: seq<Rule>, word: string, rest: string)
    requires Spaceless(rs) && NoSpace(word) && Breaks(rest)
    ensures Rewrite(rs, word + rest) == Rewrite(rs, word) + Rewrite(rs, rest)
    ensures NoSpace(Rewrite(rs, word)) && (word != "" ==> Rewrite(rs, word) != "")
    decreases |word|
  {
    var s := word + rest;
    if word == "" {
      assert s == rest && "" + Rewrite(rs, rest) == Rewrite(rs, rest);
    } else {
      forall r | r in rs
        ensures Applies(r, s) == Applies(r, word)
      {
        AppliesInWord(r, word, rest);
      }
      TheRuleSame(rs, s, word);
      if SomeApplies(rs, word) {
        var x := TheRule(rs, word);
        var tail := word[|x.key|..];
        assert s[|x.key|..] == tail + rest;
        RewriteWord(rs, tail, rest);
        Associative(x.put, Rewrite(rs, tail), Rewrite(rs, rest));
      } else {
        var tail := word[1..];
        assert s[0] == word[0] && s[1..] == tail + rest;
        RewriteWord(rs, tail, rest);
        Associative([word[0]], Rewrite(rs, tail), Rewrite(rs, rest));
      }
    }
  }

  // The end of the text, or white space.
  predicate Breaks(rest: string) {
    rest == "" || IsSpace(rest[0])
  }

  lemma WordIs(gap: string, word: string, rest: string)
    requires AllSpace(gap) && NoSpace(word) && Breaks(rest) && (word == "" ==> rest == "")
    ensures WordAfterGap(gap + (word + rest)) == if gap == "" || word == "" then None else Some(word)
  {
    var u := word + rest;
    var t := gap + u;
    assert t[|gap|..] == u && u[..|word|] == word;
    assert word != "" ==> t[|gap|] == word[0];
    assert rest != "" ==> u[|word|] == rest[0];
    RunIs(t, |gap|, true);
    RunIs(u, |word|, false);
    assert t[|gap|..|gap| + |word|] == word;
  }

  lemma WordSplit(t: string) returns (gap: string, word: string, rest: string)
    ensures t == gap + (word + rest)
    ensures AllSpace(gap) && NoSpace(word) && Breaks(rest) && (word == "" ==> rest == "")
  {
    var n := Run(t, true);
    var u := t[n..];
    var m := Run(u, false);
    gap, word, rest := t[..n], u[..m], u[m..];
    assert u == word + rest;
  }

  lemma WordRewritten(rs: seq<Rule>, t: string)
    requires Spaceless(rs)
    ensures WordAfterGap(Rewrite(rs, t)) == Rewritten(rs, WordAfterGap(t))
  {
    var gap, word, rest := WordSplit(t);
    WordIs(gap, word, rest);
    RewriteSpaces(rs, gap, word + rest);
    RewriteWord(rs, word, rest);
    WordIs(gap, Rewrite(rs, word), Rewrite(rs, rest));
  }

  // Where the keyword does not begin inside p, the search goes on after p.
  lemma {:induction false} SearchSkips(key: string, p: string, q: string)
    requires key != "" && forall j :: 0 <= j < |p| ==> !(key <= p[j..] + q)
    ensures TargetEnv(key, p + q) == TargetEnv(key, q)
    decreases |p|
  {
    if p == "" {
      assert p + q == q;
    } else {
      assert p[0..] == p && (p + q)[1..] == p[1..] + q;
      forall j | 0 <= j < |p| - 1
        ensures !(key <= p[1..][j..] + q)
      {
        assert p[1..][j..] == p[j + 1..];
      }
      SearchSkips(key, p[1..], q);
    }
  }

  lemma NotInsideRule(x: Rule, r: Rule, q: string)
    requires Proper(x) && Proper(r) && x != r && Apart(x, r) && Apart(r, x)
    ensures TargetEnv(r.key, x.key + q) == TargetEnv(r.key, q)
    ensures TargetEnv(r.key, x.put + q) == TargetEnv(r.key, q)
    decreases q
  {
    forall j | 0 <= j < |x.key|
      ensures !(r.key <= x.key[j..] + q)
    {
      assert (x.key[j..] + q)[0] == x.key[j];
      if j == 0 && Applies(r, x.key + q) {
        OnlyRule(x, r, x.key + q);
      }
      assert x.key[0..] == x.key;
    }
    SearchSkips(r.key, x.key, q);
    forall j | 0 <= j < |x.put|
      ensures !(r.key <= x.put[j..] + q)
    {
      assert (x.put[j..] + q)[0] == x.put[j] && x.put[j] in x.put;
    }
    SearchSkips(r.key, x.put, q);
  }

  // The word found in the rewritten text is the rewriting of the word found in
  // the text: the first keyword that has a word is the same.
  lemma {:induction false} EnvironmentRewritten(rs: seq<Rule>, r: Rule, s: string)
    requires ClearOf(rs, r) && Spaceless(rs)
    ensures TargetEnv(r.key, Rewrite(rs, s)) == Rewritten(rs, TargetEnv(r.key, s))
    decreases |s|
  {
    if s != "" {
      if SomeApplies(rs, s) {
        var x := TheRule(rs, s);
        var q := s[|x.key|..];
        assert s == x.key + q;
        EnvironmentRewritten(rs, r, q);
        NotInsideRule(x, r, q);
        NotInsideRule(x, r, Rewrite(rs, q));
      } else {
        EnvironmentRewritten(rs, r, s[1..]);
        EnvHereRewritten(rs, r, s);
        assert Rewrite(rs, s)[1..] == Rewrite(rs, s[1..]);
      }
    }
  }

  lemma EnvHereRewritten(rs: seq<Rule>, r: Rule, s: string)
    requires ClearOf(rs, r) && Spaceless(rs) && s != "" && !SomeApplies(rs, s)
    ensures EnvHere(r.key, Rewrite(rs, s)) == Rewritten(rs, EnvHere(r.key, s))
  {
    if Applies(r, s) {
      var q := s[|r.key|..];
      assert s == r.key[0..] + q && r.key[0..] == r.key;
      RewriteSkip(rs, r, 0, q);
      assert Rewrite(rs, s)[|r.key|..] == Rewrite(rs, q);
      WordRewritten(rs, q);
    } else {
      NotCreated(rs, r, s);
    }
  }
}
