// Keyword rewriting as a chain of single replacements, in any order, with a
// header put in front when one keyword is missing.
module Finishing {
  import opened Text
  import opened Rewriting

  // The rules, the one whose keyword is looked for, and what stands in for it.
  datatype Style = Style(rules: seq<Rule>, version: Rule, header: string) {
    ghost predicate Valid() {
      Clean(rules) && version in rules && forall r, c :: r in rules && c in header ==> c !in r.key
    }
  }

  // One replacement as the source makes it; the version keyword is looked for
  // at the moment its turn comes.
  function FinishStep(st: Style, r: Rule, s: string): string
    requires Proper(r)
  {
    if r == st.version && !Contains(s, r.key) then st.header + s
    else Replace(s, r.key, r.put)
  }

  function FinishIn(st: Style, order: seq<Rule>, s: string): string
    requires forall r :: r in order ==> Proper(r)
  {
    if order == [] then s
    else
      assert order[|order| - 1] in order;
      FinishStep(st, order[|order| - 1], FinishIn(st, order[..|order| - 1], s))
  }

  function Header(st: Style, order: seq<Rule>, s: string): string {
    if st.version in order && !Contains(s, st.version.key) then st.header else ""
  }

  // The same in one pass over the text.
  function Finished(st: Style, s: string): string
    requires forall r :: r in st.rules ==> Proper(r)
  {
    Header(st, st.rules, s) + Rewrite(st.rules, s)
  }

  ghost predicate NoDuplicates(order: seq<Rule>) {
    forall i, j :: 0 <= i < j < |order| ==> order[i] != order[j]
  }

  // After any distinct replacements the text is what one pass would have made.
  lemma {:induction false} FinishPrefix(st: Style, order: seq<Rule>, s: string)
    requires st.Valid() && NoDuplicates(order) && forall r :: r in order ==> r in st.rules
    ensures FinishIn(st, order, s) == Header(st, order, s) + Rewrite(order, s)
  {
    if order == [] {
      RewriteNothing(s);
    } else {
      var n := |order| - 1;
      var before, r := order[..n], order[n];
      FinishPrefix(st, before, s);
      assert before + [r] == order && r in st.rules && r !in before;
      FinishOne(st, before, r, s);
    }
  }

  lemma FinishOne(st: Style, before: seq<Rule>, r: Rule, s: string)
    requires st.Valid() && r in st.rules && r !in before && forall x :: x in before ==> x in st.rules
    ensures FinishStep(st, r, Header(st, before, s) + Rewrite(before, s)) ==
      Header(st, before + [r], s) + Rewrite(before + [r], s)
  {
    RewriteSnoc(before, r, s);
    var h, t := Header(st, before, s), Rewrite(before, s);
    if r == st.version {
      OthersKept(before, r, s);
      assert h == "" && h + t == t;
      if Contains(s, r.key) {
        assert Header(st, before + [r], s) == "";
      } else {
        ReplaceAbsent(t, r.key, r.put);
      }
    } else {
      assert Header(st, before + [r], s) == h;
      ReplaceSkip(h, t, r.key, r.put);
    }
  }

  lemma {:induction false} RewriteNothing(s: string)
    ensures Rewrite([], s) == s
    decreases |s|
  {
    if s != "" {
      RewriteNothing(s[1..]);
    }
  }

  // The replacements may be made in any order.
  lemma FinishInAnyOrder(st: Style, order: seq<Rule>, s: string)
    requires st.Valid() && NoDuplicates(order) && forall r :: r in order <==> r in st.rules
    ensures FinishIn(st, order, s) == Finished(st, s)
  {
    FinishPrefix(st, order, s);
    SameRules(order, st.rules, s);
  }

  // No keyword is left, a version line is there, and newlines are where they
  // were but for the header's.
  lemma FinishedText(st: Style, s: string, rest: string)
    requires st.Valid() && st.header == st.version.put + rest
    ensures forall r :: r in st.rules ==> !Contains(Finished(st, s), r.key)
    ensures Contains(Finished(st, s), st.version.put)
    ensures Newlines(Finished(st, s)) ==
      Newlines(s) + (if Contains(s, st.version.key) then 0 else Newlines(rest))
  {
    var h, body := Header(st, st.rules, s), Rewrite(st.rules, s);
    forall r | r in st.rules
      ensures !Contains(Finished(st, s), r.key)
    {
      NoneLeft(st.rules, r, s);
      ContainsSkip(h, body, r.key);
    }
    NewlinesKept(st.rules, s);
    NewlinesAppend(h, body);
    NewlinesAppend(st.version.put, rest);
    NewlineFree(st.version.put);
    if Contains(s, st.version.key) {
      ReplacementPresent(st.rules, st.version, s);
      assert h + body == body;
    } else {
      ContainsStart(st.version.put, rest + body);
      Associative(st.version.put, rest, body);
    }
  }

  // The chain written out.
  lemma ChainOfFour(st: Style, p: Rule, q: Rule, r: Rule, v: Rule, s: string)
    requires p.key != "" && q.key != "" && r.key != ""
    requires st.Valid() && st.rules == [p, q, r, v] && NoDuplicates(st.rules) && v == st.version
    ensures var b := Replace(Replace(s, p.key, p.put), q.key, q.put);
      b == Rewrite([p, q], s) &&
      FinishIn(st, [p, q, r, v], s) == FinishStep(st, v, Replace(b, r.key, r.put))
  {
    assert p != v && q != v && r != v by {
      assert st.rules[0] != st.rules[3] && st.rules[1] != st.rules[3] && st.rules[2] != st.rules[3];
    }
    assert [p, q, r, v][..3] == [p, q, r];
    assert [p, q, r][..2] == [p, q];
    assert [p, q][..1] == [p];
    assert [p][..0] == [];
    assert FinishIn(st, [], s) == s;
    assert FinishIn(st, [p], s) == Replace(s, p.key, p.put);
    assert FinishIn(st, [p, q], s) == Replace(Replace(s, p.key, p.put), q.key, q.put);
    assert st.rules[0] != st.rules[1];
    FinishPrefix(st, [p, q], s);
    assert Header(st, [p, q], s) == "";
  }
}
