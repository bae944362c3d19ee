// Rewriting keywords in a text: one pass that replaces every keyword at once,
// and the chain of single replacements that the scraper performs instead.
module Rewriting {
  import opened Text

  datatype Rule = Rule(key: string, put: string)

  // Replace every occurrence of key, from the left, without overlaps.
  function Replace(s: string, key: string, put: string): string
    requires key != ""
    decreases |s|
  {
    if s == "" then ""
    else if key <= s then put + Replace(s[|key|..], key, put)
    else [s[0]] + Replace(s[1..], key, put)
  }

  predicate Contains(s: string, key: string) {
    if key <= s then true else s != "" && Contains(s[1..], key)
  }

  predicate Proper(r: Rule) {
    r.key != "" && r.put != "" && '\n' !in r.key && '\n' !in r.put
  }

  // Neither keyword begins the other, q cannot begin inside r, and what r
  // writes has no character in common with q.
  ghost predicate Apart(r: Rule, q: Rule)
    requires Proper(r) && Proper(q)
  {
    (r.key <= q.key ==> r == q) &&
    (forall j :: 0 < j < |r.key| ==> r.key[j] != q.key[0]) &&
    forall c :: c in r.put ==> c !in q.key
  }

  ghost predicate Clean(rs: seq<Rule>) {
    (forall r :: r in rs ==> Proper(r)) &&
    forall r, q :: r in rs && q in rs ==> Apart(r, q)
  }

  predicate Applies(r: Rule, s: string) {
    r.key <= s
  }

  predicate SomeApplies(rs: seq<Rule>, s: string) {
    exists r :: r in rs && Applies(r, s)
  }

  // The first rule that applies.
  function TheRule(rs: seq<Rule>, s: string): (r: Rule)
    requires SomeApplies(rs, s)
    ensures r in rs && Applies(r, s)
  {
    if Applies(rs[0], s) then rs[0] else
      assert forall r :: r in rs ==> r == rs[0] || r in rs[1..];
      TheRule(rs[1..], s)
  }

  // All the rules at once, in one pass over the text.
  function Rewrite(rs: seq<Rule>, s: string): string
    requires forall r :: r in rs ==> Proper(r)
    decreases |s|
  {
    if s == "" then ""
    else if SomeApplies(rs, s) then
      var r := TheRule(rs, s);
      r.put + Rewrite(rs, s[|r.key|..])
    else [s[0]] + Rewrite(rs, s[1..])
  }

  // ----- the rules do not interfere -----

  lemma OnlyRule(r: Rule, q: Rule, s: string)
    requires Proper(r) && Proper(q) && Apart(r, q) && Apart(q, r)
    requires Applies(r, s) && Applies(q, s)
    ensures r == q
  {
  }

  // A replacement that shares no character with the keyword is passed over.
  lemma {:induction false} ReplaceSkip(p: string, q: string, key: string, put: string)
    requires key != "" && forall c :: c in p ==> c !in key
    ensures Replace(p + q, key, put) == p + Replace(q, key, put)
    decreases |p|
  {
    if p == "" {
      assert p + q == q;
    } else {
      var s := p + q;
      assert s[0] == p[0] && s[1..] == p[1..] + q;
      assert p[0] in p && key[0] in key;
      assert !(key <= s);
      ReplaceSkip(p[1..], q, key, put);
      assert p == [p[0]] + p[1..];
      Associative([p[0]], p[1..], Replace(q, key, put));
    }
  }

  // r is none of the rules and clear of them all.
  ghost predicate ClearOf(rs: seq<Rule>, r: Rule) {
    Proper(r) && r !in rs && forall x :: x in rs ==> Proper(x) && Apart(x, r) && Apart(r, x)
  }

  // An occurrence of a keyword outside the rules is passed over by them.
  lemma {:induction false} RewriteSkip(rs: seq<Rule>, r: Rule, j: nat, q: string)
    requires ClearOf(rs, r) && j <= |r.key|
    ensures Rewrite(rs, r.key[j..] + q) == r.key[j..] + Rewrite(rs, q)
    decreases |r.key| - j
  {
    var p := r.key[j..];
    if j == |r.key| {
      assert p + q == q;
    } else {
      var s := p + q;
      assert s[0] == r.key[j] && s[1..] == r.key[j + 1..] + q;
      RewriteSkip(rs, r, j + 1, q);
      assert p == [r.key[j]] + r.key[j + 1..];
      Associative([r.key[j]], r.key[j + 1..], Rewrite(rs, q));
    }
  }

  // What looks like the rest of a keyword after rewriting was there before.
  lemma {:induction false} RewriteReflects(rs: seq<Rule>, r: Rule, j: nat, s: string)
    requires Proper(r) && forall x :: x in rs ==> Proper(x) && Apart(x, r)
    requires 0 < j <= |r.key| && r.key[j..] <= Rewrite(rs, s)
    ensures r.key[j..] <= s
    decreases |r.key| - j
  {
    if j < |r.key| {
      var out := Rewrite(rs, s);
      assert out[0] == r.key[j..][0] == r.key[j];
      assert s != "";
      if SomeApplies(rs, s) {
        FirstWritten(rs, s);
      } else {
        assert out[1..] == Rewrite(rs, s[1..]);
        assert r.key[j + 1..] == r.key[j..][1..];
        RewriteReflects(rs, r, j + 1, s[1..]);
        assert s == [s[0]] + s[1..] && r.key[j..] == [s[0]] + r.key[j + 1..];
      }
    }
  }

  lemma FirstWritten(rs: seq<Rule>, s: string)
    requires forall r :: r in rs ==> Proper(r)
    requires SomeApplies(rs, s)
    ensures Rewrite(rs, s) != "" && Rewrite(rs, s)[0] in TheRule(rs, s).put
  {
  }

  // One more rule in the pass is one more replacement after it.
  lemma {:induction false} RewriteSnoc(rs: seq<Rule>, r: Rule, s: string)
    requires ClearOf(rs, r) && Clean(rs + [r])
    ensures Rewrite(rs + [r], s) == Replace(Rewrite(rs, s), r.key, r.put)
    decreases |s|
  {
    if s != "" {
      TheRuleSnoc(rs, r, s);
      if SomeApplies(rs, s) {
        var x := TheRule(rs, s);
        RewriteSnoc(rs, r, s[|x.key|..]);
        assert Apart(x, r);
        ReplaceSkip(x.put, Rewrite(rs, s[|x.key|..]), r.key, r.put);
      } else if Applies(r, s) {
        RewriteSnoc(rs, r, s[|r.key|..]);
        ReplaceHere(rs, r, s);
      } else {
        RewriteSnoc(rs, r, s[1..]);
        ReplaceLater(rs, r, s);
      }
    }
  }

  lemma ReplaceHere(rs: seq<Rule>, r: Rule, s: string)
    requires ClearOf(rs, r) && Applies(r, s)
    ensures Replace(Rewrite(rs, s), r.key, r.put) == r.put + Replace(Rewrite(rs, s[|r.key|..]), r.key, r.put)
  {
    var q := s[|r.key|..];
    assert s == r.key[0..] + q && r.key[0..] == r.key;
    RewriteSkip(rs, r, 0, q);
  }

  lemma ReplaceLater(rs: seq<Rule>, r: Rule, s: string)
    requires ClearOf(rs, r) && s != "" && !SomeApplies(rs, s) && !Applies(r, s)
    ensures Replace(Rewrite(rs, s), r.key, r.put) == [s[0]] + Replace(Rewrite(rs, s[1..]), r.key, r.put)
  {
    NotCreated(rs, r, s);
    var out := Rewrite(rs, s);
    assert out[0] == s[0] && out[1..] == Rewrite(rs, s[1..]);
  }

  lemma TheRuleSnoc(rs: seq<Rule>, r: Rule, s: string)
    ensures SomeApplies(rs + [r], s) <==> SomeApplies(rs, s) || Applies(r, s)
    ensures SomeApplies(rs, s) ==> TheRule(rs + [r], s) == TheRule(rs, s)
    ensures Applies(r, s) && !SomeApplies(rs, s) ==> TheRule(rs + [r], s) == r
  {
    if SomeApplies(rs, s) {
      var x :| x in rs && Applies(x, s);
      assert x in rs + [r];
    }
    if Applies(r, s) {
      assert r in rs + [r];
    }
    if rs != [] && !Applies(rs[0], s) {
      assert (rs + [r])[1..] == rs[1..] + [r];
      TheRuleSnoc(rs[1..], r, s);
    }
  }

  lemma {:induction false} TheRuleSame(rs: seq<Rule>, s: string, t: string)
    requires forall r :: r in rs ==> Applies(r, s) == Applies(r, t)
    ensures SomeApplies(rs, s) == SomeApplies(rs, t)
    ensures SomeApplies(rs, s) ==> TheRule(rs, s) == TheRule(rs, t)
  {
    if rs != [] && !Applies(rs[0], s) {
      assert forall r :: r in rs ==> r == rs[0] || r in rs[1..];
      TheRuleSame(rs[1..], s, t);
    }
  }

  // Rewriting creates no occurrence of a keyword.
  lemma NotCreated(rs: seq<Rule>, r: Rule, s: string)
    requires Proper(r) && forall x :: x in rs ==> Proper(x) && Apart(x, r)
    requires s != "" && !SomeApplies(rs, s) && !Applies(r, s)
    ensures !(r.key <= Rewrite(rs, s))
  {
    var out := Rewrite(rs, s);
    if r.key <= out {
      assert r.key[1..] <= out[1..] == Rewrite(rs, s[1..]);
      RewriteReflects(rs, r, 1, s[1..]);
    }
  }

  // ----- what a pass does to the text -----

  lemma {:induction false} ContainsSkip(p: string, q: string, key: string)
    requires key != "" && forall c :: c in p ==> c !in key
    ensures Contains(p + q, key) == Contains(q, key)
    decreases |p|
  {
    if p == "" {
      assert p + q == q;
    } else {
      var s := p + q;
      assert s[0] == p[0] && p[0] in p && key[0] in key && s[1..] == p[1..] + q;
      ContainsSkip(p[1..], q, key);
    }
  }

  lemma NoneHere(rs: seq<Rule>, r: Rule, s: string)
    requires Clean(rs) && r in rs && s != "" && !SomeApplies(rs, s)
    ensures Contains(Rewrite(rs, s), r.key) == Contains(Rewrite(rs, s[1..]), r.key)
  {
    assert !Applies(r, s);
    NotCreated(rs, r, s);
    assert Rewrite(rs, s)[1..] == Rewrite(rs, s[1..]);
  }

  // No keyword is left after a pass over it.
  lemma {:induction false} NoneLeft(rs: seq<Rule>, r: Rule, s: string)
    requires Clean(rs) && r in rs
    ensures !Contains(Rewrite(rs, s), r.key)
    decreases |s|
  {
    if s != "" {
      if SomeApplies(rs, s) {
        var x := TheRule(rs, s);
        NoneLeft(rs, r, s[|x.key|..]);
        assert Apart(x, r);
        ContainsSkip(x.put, Rewrite(rs, s[|x.key|..]), r.key);
      } else {
        NoneHere(rs, r, s);
        NoneLeft(rs, r, s[1..]);
      }
    }
  }

  lemma {:induction false} NothingInside(x: Rule, r: Rule, j: nat, q: string)
    requires Proper(x) && Proper(r) && Apart(x, r) && 0 < j <= |x.key|
    ensures Contains(x.key[j..] + q, r.key) == Contains(q, r.key)
    decreases |x.key| - j
  {
    var s := x.key[j..] + q;
    if j == |x.key| {
      assert s == q;
    } else {
      assert s[0] == x.key[j] != r.key[0] && s[1..] == x.key[j + 1..] + q;
      NothingInside(x, r, j + 1, q);
    }
  }

  // A pass neither creates nor destroys occurrences of other keywords.
  lemma {:induction false} OthersKept(rs: seq<Rule>, r: Rule, s: string)
    requires ClearOf(rs, r)
    ensures Contains(Rewrite(rs, s), r.key) == Contains(s, r.key)
    decreases |s|
  {
    if s != "" {
      if SomeApplies(rs, s) {
        var x := TheRule(rs, s);
        var q := s[|x.key|..];
        OthersKept(rs, r, q);
        ContainsSkip(x.put, Rewrite(rs, q), r.key);
        if Applies(r, s) {
          OnlyRule(x, r, s);
        }
        assert s[1..] == x.key[1..] + q;
        NothingInside(x, r, 1, q);
      } else if Applies(r, s) {
        var q := s[|r.key|..];
        assert s == r.key[0..] + q && r.key[0..] == r.key;
        RewriteSkip(rs, r, 0, q);
      } else {
        NotCreated(rs, r, s);
        OthersKept(rs, r, s[1..]);
        assert Rewrite(rs, s)[1..] == Rewrite(rs, s[1..]);
      }
    }
  }

  lemma {:induction false} ContainsAfter(p: string, q: string, key: string)
    requires Contains(q, key)
    ensures Contains(p + q, key)
    decreases |p|
  {
    if p == "" {
      assert p + q == q;
    } else {
      assert (p + q)[1..] == p[1..] + q;
      ContainsAfter(p[1..], q, key);
    }
  }

  lemma ContainsStart(p: string, q: string)
    ensures Contains(p + q, p)
  {
    assert p <= p + q;
  }

  // Where a keyword was, its replacement is.
  lemma {:induction false} ReplacementPresent(rs: seq<Rule>, r: Rule, s: string)
    requires Clean(rs) && r in rs && Contains(s, r.key)
    ensures Contains(Rewrite(rs, s), r.put)
    decreases |s|
  {
    assert s != "";
    if Applies(r, s) {
      var x := TheRule(rs, s);
      OnlyRule(x, r, s);
      ContainsStart(r.put, Rewrite(rs, s[|r.key|..]));
    } else if SomeApplies(rs, s) {
      var x := TheRule(rs, s);
      var q := s[|x.key|..];
      assert s[1..] == x.key[1..] + q;
      NothingInside(x, r, 1, q);
      ReplacementPresent(rs, r, q);
      ContainsAfter(x.put, Rewrite(rs, q), r.put);
    } else {
      ReplacementPresent(rs, r, s[1..]);
      ContainsAfter([s[0]], Rewrite(rs, s[1..]), r.put);
    }
  }

  lemma {:induction false} NewlinesKept(rs: seq<Rule>, s: string)
    requires Clean(rs)
    ensures Newlines(Rewrite(rs, s)) == Newlines(s)
    decreases |s|
  {
    if s != "" {
      if SomeApplies(rs, s) {
        var x := TheRule(rs, s);
        var q := s[|x.key|..];
        NewlinesKept(rs, q);
        assert s == x.key + q;
        NewlinesAppend(x.key, q);
        NewlinesAppend(x.put, Rewrite(rs, q));
        NewlineFree(x.key);
        NewlineFree(x.put);
      } else {
        NewlinesKept(rs, s[1..]);
        assert Rewrite(rs, s)[1..] == Rewrite(rs, s[1..]);
      }
    }
  }

  lemma {:induction false} ReplaceAbsent(s: string, key: string, put: string)
    requires key != "" && !Contains(s, key)
    ensures Replace(s, key, put) == s
    decreases |s|
  {
    if s != "" {
      ReplaceAbsent(s[1..], key, put);
    }
  }

  // Only the set of rules matters to a pass, not their order.
  lemma {:induction false} SameRules(rs: seq<Rule>, qs: seq<Rule>, s: string)
    requires Clean(rs) && Clean(qs) && forall r :: r in rs <==> r in qs
    ensures Rewrite(rs, s) == Rewrite(qs, s)
    decreases |s|
  {
    if s != "" {
      if SomeApplies(rs, s) {
        var x := TheRule(rs, s);
        assert x in qs;
        OnlyRule(x, TheRule(qs, s), s);
        SameRules(rs, qs, s[|x.key|..]);
      } else {
        SameRules(rs, qs, s[1..]);
      }
    }
  }
}
