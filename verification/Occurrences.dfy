// What a pass of replacements does, keyword by keyword: how the text is split at
// a keyword, and how often each replacement occurs afterwards.
module Occurrences {
  import opened Text
  import opened Rewriting

  // How often t begins in s.
  function CountOf(s: string, t: string): nat {
    if s == "" then 0 else (if t <= s then 1 else 0) + CountOf(s[1..], t)
  }

  lemma {:induction false} ContainsIs(s: string, t: string)
    requires t != ""
    ensures Contains(s, t) <==> exists i :: 0 <= i <= |s| && t <= s[i..]
    ensures Contains(s, t) <==> CountOf(s, t) > 0
  {
    assert s[0..] == s;
    if s != "" {
      ContainsIs(s[1..], t);
      assert forall i :: 1 <= i <= |s| ==> s[i..] == s[1..][i - 1..];
      if i :| 0 <= i <= |s| && t <= s[i..] {
        assert i > 0 ==> t <= s[1..][i - 1..];
      }
    }
  }

  lemma {:induction false} CountSkip(p: string, q: string, t: string)
    requires forall j :: 0 <= j < |p| ==> !(t <= p[j..] + q)
    ensures CountOf(p + q, t) == CountOf(q, t)
    decreases |p|
  {
    if p == "" {
      assert p + q == q;
    } else {
      assert p[0..] == p && (p + q)[1..] == p[1..] + q;
      forall j | 0 <= j < |p| - 1
        ensures !(t <= p[1..][j..] + q)
      {
        assert p[1..][j..] == p[j + 1..];
      }
      CountSkip(p[1..], q, t);
    }
  }

  // A key whose first character is nowhere else in it ends no occurrence of
  // itself begun before it.
  lemma NoneBefore(key: string, p: string, t: string, j: nat)
    requires key != "" && (forall i :: 0 < i < |key| ==> key[i] != key[0])
    requires !Contains(p, key) && j < |p|
    ensures !(key <= p[j..] + (key + t))
  {
    var u := p[j..];
    assert (u + (key + t))[|u|] == key[0];
    ContainsIs(p, key);
    assert |key| <= |u| ==> (key <= u + (key + t) ==> key <= u);
  }

  // ----- splitting a text at a keyword -----

  // A keyword before q begins no other keyword, and ends none begun in p.
  lemma AppliesBefore(x: Rule, r: Rule, p: string, q: string)
    requires Proper(x) && Proper(r) && Apart(x, r) && p != ""
    ensures Applies(x, p + (r.key + q)) == Applies(x, p)
  {
    assert (p + (r.key + q))[|p|] == r.key[0];
  }

  // Text before a keyword, the keyword, and what follows are replaced on their own.
  lemma {:induction false} RewriteSplit(rs: seq<Rule>, p: string, r: Rule, q: string)
    requires Clean(rs) && r in rs
    ensures Rewrite(rs, p + (r.key + q)) == Rewrite(rs, p) + (r.put + Rewrite(rs, q))
    decreases |p|
  {
    var s := p + (r.key + q);
    if p == "" {
      assert s == r.key + q && Applies(r, s);
      OnlyRule(TheRule(rs, s), r, s);
      assert s[|r.key|..] == q;
      assert "" + (r.put + Rewrite(rs, q)) == r.put + Rewrite(rs, q);
    } else {
      forall x | x in rs
        ensures Applies(x, s) == Applies(x, p)
      {
        AppliesBefore(x, r, p, q);
      }
      TheRuleSame(rs, s, p);
      RewriteSplitOn(rs, p, r, q);
    }
  }

  lemma RewriteSplitOn(rs: seq<Rule>, p: string, r: Rule, q: string)
    requires Clean(rs) && r in rs && p != "" && SomeApplies(rs, p + (r.key + q)) == SomeApplies(rs, p)
    requires SomeApplies(rs, p) ==> TheRule(rs, p + (r.key + q)) == TheRule(rs, p)
    ensures Rewrite(rs, p + (r.key + q)) == Rewrite(rs, p) + (r.put + Rewrite(rs, q))
    decreases |p|, 0
  {
    var s := p + (r.key + q);
    var n := if SomeApplies(rs, p) then |TheRule(rs, p).key| else 1;
    assert s[n..] == p[n..] + (r.key + q);
    RewriteSplit(rs, p[n..], r, q);
    var head := if SomeApplies(rs, p) then TheRule(rs, p).put else [p[0]];
    Associative(head, Rewrite(rs, p[n..]), r.put + Rewrite(rs, q));
  }

  lemma {:induction false} NothingToRewrite(rs: seq<Rule>, s: string)
    requires Clean(rs) && forall r :: r in rs ==> !Contains(s, r.key)
    ensures Rewrite(rs, s) == s
    decreases |s|
  {
    if s != "" {
      NothingToRewrite(rs, s[1..]);
    }
  }

  // ----- counting replacements -----

  // a and b differ at a's character j or the next.
  predicate Differ(a: string, j: nat, b: string)
    requires j < |a|
  {
    b != "" && (a[j] != b[0] || (j + 1 < |a| && |b| > 1 && a[j + 1] != b[1]))
  }

  lemma DifferApart(a: string, j: nat, b: string, u: string)
    requires j < |a| && Differ(a, j, b)
    ensures !(b <= a[j..] + u) && !(a[j..] <= b + u)
  {
    var p := a[j..];
    assert p[0] == a[j] && (j + 1 < |a| ==> p[1] == a[j + 1]);
    assert (p + u)[0] == p[0] && (|p| > 1 ==> (p + u)[1] == p[1]);
    assert (b + u)[0] == b[0] && (|b| > 1 ==> (b + u)[1] == b[1]);
  }

  // No replacement begins inside another.
  ghost predicate Solid(rs: seq<Rule>)
    requires forall r :: r in rs ==> Proper(r)
  {
    forall x, r, j {:trigger Differ(x.put, j, r.put)} ::
      x in rs && r in rs && 0 <= j < |x.put| && (j > 0 || x != r) ==> Differ(x.put, j, r.put)
  }

  lemma PutOnce(rs: seq<Rule>, x: Rule, r: Rule, u: string)
    requires Clean(rs) && Solid(rs) && x in rs && r in rs
    ensures CountOf(x.put + u, r.put) == (if x == r then 1 else 0) + CountOf(u, r.put)
  {
    var n := if x == r then 1 else 0;
    var p := x.put[n..];
    forall j | 0 <= j < |p|
      ensures !(r.put <= p[j..] + u)
    {
      DifferApart(x.put, n + j, r.put, u);
      assert p[j..] == x.put[n + j..];
    }
    CountSkip(p, u, r.put);
    if x == r {
      assert (x.put + u)[1..] == p + u && r.put <= x.put + u;
    } else {
      assert p == x.put;
    }
  }

  // A keyword holds no replacement, and itself once.
  lemma KeyOnce(rs: seq<Rule>, x: Rule, r: Rule, q: string)
    requires Clean(rs) && x in rs && r in rs
    ensures CountOf(x.key + q, r.put) == CountOf(q, r.put)
    ensures CountOf(x.key + q, r.key) == (if x == r then 1 else 0) + CountOf(q, r.key)
  {
    assert Apart(x, r) && Apart(r, x);
    forall j | 0 <= j < |x.key|
      ensures !(r.put <= x.key[j..] + q)
      ensures (j > 0 || x != r) ==> !(r.key <= x.key[j..] + q)
    {
      assert (x.key[j..] + q)[0] == x.key[j] && r.put[0] in r.put && x.key[j] in x.key;
      if j == 0 && Applies(r, x.key + q) {
        OnlyRule(x, r, x.key + q);
      }
      assert x.key[0..] == x.key;
    }
    CountSkip(x.key, q, r.put);
    if x == r {
      var p := x.key[1..];
      forall j | 0 <= j < |p|
        ensures !(r.key <= p[j..] + q)
      {
        assert p[j..] == x.key[j + 1..];
      }
      CountSkip(p, q, r.key);
      assert (x.key + q)[1..] == p + q && r.key <= x.key + q;
    } else {
      CountSkip(x.key, q, r.key);
    }
  }

  // Text that shares no character with the keywords is kept.
  lemma {:induction false} RewriteKeeps(rs: seq<Rule>, p: string, q: string)
    requires (forall x :: x in rs ==> Proper(x)) && forall x, c :: x in rs && c in p ==> c !in x.key
    ensures Rewrite(rs, p + q) == p + Rewrite(rs, q)
    decreases |p|
  {
    if p == "" {
      assert p + q == q;
    } else {
      var s := p + q;
      assert s[0] == p[0] && p[0] in p && s[1..] == p[1..] + q;
      forall x | x in rs
        ensures !Applies(x, s)
      {
        assert x.key[0] in x.key;
      }
      assert forall c :: c in p[1..] ==> c in p;
      RewriteKeeps(rs, p[1..], q);
      assert p == [p[0]] + p[1..];
      Associative([p[0]], p[1..], Rewrite(rs, q));
    }
  }

  // What looks like the rest of a replacement after a pass was there before.
  lemma {:induction false} PutReflects(rs: seq<Rule>, r: Rule, j: nat, s: string)
    requires Clean(rs) && Solid(rs) && r in rs && 0 < j <= |r.put| && r.put[j..] <= Rewrite(rs, s)
    ensures r.put[j..] <= s
    decreases |r.put| - j
  {
    if j < |r.put| {
      var out := Rewrite(rs, s);
      assert out[0] == r.put[j..][0] == r.put[j];
      if SomeApplies(rs, s) {
        var x := TheRule(rs, s);
        DifferApart(r.put, j, x.put, Rewrite(rs, s[|x.key|..]));
      } else {
        assert out[1..] == Rewrite(rs, s[1..]) && r.put[j + 1..] == r.put[j..][1..];
        PutReflects(rs, r, j + 1, s[1..]);
        assert s == [s[0]] + s[1..] && r.put[j..] == [s[0]] + r.put[j + 1..];
      }
    }
  }

  // Where no keyword is, a pass neither begins nor breaks a replacement's text.
  lemma PutNotCreated(rs: seq<Rule>, r: Rule, s: string)
    requires Clean(rs) && Solid(rs) && r in rs && s != "" && !SomeApplies(rs, s)
    requires r.put <= [s[0]] + Rewrite(rs, s[1..])
    ensures r.put <= s
  {
    var rest := Rewrite(rs, s[1..]);
    assert r.put[1..] <= ([s[0]] + rest)[1..] == rest;
    PutReflects(rs, r, 1, s[1..]);
    assert s == [s[0]] + s[1..] && r.put == [s[0]] + r.put[1..];
  }

  lemma PutNotBroken(rs: seq<Rule>, r: Rule, s: string)
    requires Clean(rs) && r in rs && r.put <= s
    ensures r.put <= Rewrite(rs, s)
  {
    var q := s[|r.put|..];
    forall x, c | x in rs && c in r.put
      ensures c !in x.key
    {
      assert Apart(r, x);
    }
    assert s == r.put + q;
    RewriteKeeps(rs, r.put, q);
  }

  lemma CountHere(rs: seq<Rule>, r: Rule, s: string)
    requires Clean(rs) && Solid(rs) && r in rs && s != "" && !SomeApplies(rs, s)
    ensures CountOf(Rewrite(rs, s), r.put) ==
      (if r.put <= s then 1 else 0) + CountOf(Rewrite(rs, s[1..]), r.put)
  {
    var rest := Rewrite(rs, s[1..]);
    assert Rewrite(rs, s) == [s[0]] + rest && ([s[0]] + rest)[1..] == rest;
    if r.put <= s {
      PutNotBroken(rs, r, s);
    } else if r.put <= [s[0]] + rest {
      PutNotCreated(rs, r, s);
    }
  }

  // After a pass, a replacement occurs as often as it and its keyword did before.
  lemma {:induction false} CountRewritten(rs: seq<Rule>, r: Rule, s: string)
    requires Clean(rs) && Solid(rs) && r in rs
    ensures CountOf(Rewrite(rs, s), r.put) == CountOf(s, r.put) + CountOf(s, r.key)
    decreases |s|
  {
    if s != "" {
      if SomeApplies(rs, s) {
        var x := TheRule(rs, s);
        var q := s[|x.key|..];
        assert s == x.key + q;
        CountRewritten(rs, r, q);
        KeyOnce(rs, x, r, q);
        PutOnce(rs, x, r, Rewrite(rs, q));
      } else {
        CountRewritten(rs, r, s[1..]);
        CountHere(rs, r, s);
        assert !Applies(r, s);
      }
    }
  }
}
