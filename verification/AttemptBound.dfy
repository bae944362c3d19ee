// How many compare-and-exchanges N concurrent prepends can take: every failure
// is paid for by another thread's success since the head was last seen.
module AttemptBound {
  import opened AtomicList

  function Attempts(es: seq<Event>): nat {
    if es == [] then 0 else Attempts(es[..|es| - 1]) + if es[|es| - 1].CompareExchange? then 1 else 0
  }

  // ----- sums over the first n threads -----

  function Pending(threads: seq<Thread>, n: nat): nat
    requires n <= |threads|
  {
    if n == 0 then 0 else Pending(threads, n - 1) + if threads[n - 1].pc.Returned? then 0 else 1
  }

  // The failures the pending threads can still have before the next success.
  function Slack(threads: seq<Thread>, fails: seq<nat>, wins: nat, n: nat): int
    requires n <= |threads| == |fails|
  {
    if n == 0 then 0
    else Slack(threads, fails, wins, n - 1) + if threads[n - 1].pc.Returned? then 0 else wins - fails[n - 1]
  }

  // Steps a thread takes to get to pc, other than exchanges.
  function StepsTo(pc: Pc): nat {
    match pc
    case Called => 0
    case Allocated => 1
    case Trying => 2
    case Returned => 2
  }

  function OtherSteps(threads: seq<Thread>, n: nat): nat
    requires n <= |threads|
  {
    if n == 0 then 0 else OtherSteps(threads, n - 1) + StepsTo(threads[n - 1].pc)
  }

  // N + (N - 1) + ... for the first w successes.
  function Budget(n: nat, w: nat): int {
    if w == 0 then 0 else Budget(n, w - 1) + n - (w - 1)
  }

  lemma Products(a: int, b: int)
    ensures (a + 1) * b == a * (b + 1) + b - a
    ensures (a - b) * (a + b + 1) == a * (a + 1) - b * (b + 1)
  {
  }

  lemma {:induction false} BudgetIs(n: nat, w: nat)
    ensures 2 * Budget(n, w) == w * (2 * n - w + 1)
    decreases w
  {
    if w > 0 {
      BudgetIs(n, w - 1);
      Products(w - 1, 2 * n - w + 1);
    }
  }

  lemma BudgetAtMost(n: nat, w: nat)
    requires w <= n
    ensures 2 * Budget(n, w) <= n * (n + 1)
    ensures w == n ==> 2 * Budget(n, w) == n * (n + 1)
  {
    BudgetIs(n, w);
    var d := n - w;
    Products(n, d);
    assert w == n - d && 2 * n - w + 1 == n + d + 1;
    assert d * (d + 1) >= 0;
  }

  lemma {:induction false} SumsSame(threads: seq<Thread>, threads': seq<Thread>, fails: seq<nat>, wins: nat, n: nat)
    requires n <= |threads| == |threads'| == |fails|
    requires forall t :: 0 <= t < n ==> threads[t].pc.Returned? == threads'[t].pc.Returned?
    ensures Slack(threads', fails, wins, n) == Slack(threads, fails, wins, n)
    ensures Pending(threads', n) == Pending(threads, n)
  {
    if n > 0 {
      SumsSame(threads, threads', fails, wins, n - 1);
    }
  }

  lemma {:induction false} SlackFail(threads: seq<Thread>, fails: seq<nat>, wins: nat, t: nat, n: nat)
    requires n <= |threads| == |fails| && t < |threads| && !threads[t].pc.Returned?
    ensures Slack(threads, fails[t := fails[t] + 1], wins, n) ==
      Slack(threads, fails, wins, n) - if t < n then 1 else 0
  {
    if n > 0 {
      SlackFail(threads, fails, wins, t, n - 1);
    }
  }

  lemma {:induction false} SumsWin(threads: seq<Thread>, fails: seq<nat>, wins: nat, t: nat, th: Thread, n: nat)
    requires n <= |threads| == |fails| && t < |threads| && !threads[t].pc.Returned? && th.pc.Returned?
    ensures Slack(threads[t := th], fails, wins + 1, n) ==
      Slack(threads, fails, wins, n) + Pending(threads, n) - if t < n then 1 + wins - fails[t] else 0
    ensures Pending(threads[t := th], n) == Pending(threads, n) - if t < n then 1 else 0
  {
    if n > 0 {
      SumsWin(threads, fails, wins, t, th, n - 1);
    }
  }

  lemma {:induction false} OtherStepsUpdate(threads: seq<Thread>, t: nat, th: Thread, n: nat)
    requires n <= |threads| && t < |threads|
    ensures OtherSteps(threads[t := th], n) == OtherSteps(threads, n) +
      if t < n then StepsTo(th.pc) - StepsTo(threads[t].pc) else 0
    ensures OtherSteps(threads, n) <= 2 * n
  {
    if n > 0 {
      OtherStepsUpdate(threads, t, th, n - 1);
    }
  }

  // ----- the invariant -----

  // A thread has failed no more often than others have succeeded, and less
  // often if what it last saw is no longer the head.
  ghost predicate Charged(s: State, h: History, t: nat)
    requires t < |s.threads| == |h.fails|
  {
    var th := s.threads[t];
    !th.pc.Returned? ==>
      h.fails[t] <= |h.wins| &&
      (th.pc.Trying? && th.elem in s.heap && s.heap[th.elem].next != s.head ==> h.fails[t] < |h.wins|)
  }

  ghost predicate AllCharged(s: State, h: History) {
    |s.threads| == |h.fails| && forall t {:trigger Charged(s, h, t)} :: 0 <= t < |s.threads| ==> Charged(s, h, t)
  }

  lemma ChargedStep(s: State, h: History, e: Event)
    requires ListInv(s, h.chain) && AllCharged(s, h) && Enabled(s, e)
    ensures AllCharged(Apply(s, e), Record(h, s, e))
  {
    var s', h' := Apply(s, e), Record(h, s, e);
    assert Private(s, h.chain, e.t) && Charged(s, h, e.t);
    forall u | 0 <= u < |s'.threads|
      ensures Charged(s', h', u)
    {
      assert Charged(s, h, u) && Private(s, h.chain, u);
      assert if e.t < u then Separate(s, e.t, u) else if u < e.t then Separate(s, u, e.t) else true;
    }
  }

  lemma {:induction false} SlackNonNegative(s: State, h: History, n: nat)
    requires AllCharged(s, h) && n <= |s.threads|
    ensures Slack(s.threads, h.fails, |h.wins|, n) >= 0
  {
    if n > 0 {
      SlackNonNegative(s, h, n - 1);
      assert Charged(s, h, n - 1);
    }
  }

  // What the run has spent, and what it may still spend before the next success.
  ghost predicate WithinBudget(s: State, h: History, es: seq<Event>)
    requires |s.threads| == |h.fails|
  {
    var n := |s.threads|;
    Attempts(es) + Slack(s.threads, h.fails, |h.wins|, n) <= Budget(n, |h.wins|) &&
    Pending(s.threads, n) + |h.wins| == n &&
    |es| == Attempts(es) + OtherSteps(s.threads, n)
  }

  lemma BudgetStep(s: State, h: History, es: seq<Event>, e: Event)
    requires AllCharged(s, h) && Enabled(s, e) && WithinBudget(s, h, es)
    ensures |Apply(s, e).threads| == |Record(h, s, e).fails| && WithinBudget(Apply(s, e), Record(h, s, e), es + [e])
  {
    var s', h', n := Apply(s, e), Record(h, s, e), |s.threads|;
    var th' := s'.threads[e.t];
    assert (es + [e])[..|es + [e]| - 1] == es;
    assert s.threads[e.t := th'] == s'.threads;
    OtherStepsUpdate(s.threads, e.t, th', n);
    assert Charged(s, h, e.t);
    if !e.CompareExchange? {
      SumsSame(s.threads, s'.threads, h.fails, |h.wins|, n);
    } else if Succeeds(s, e) {
      SumsWin(s.threads, h.fails, |h.wins|, e.t, th', n);
    } else {
      SlackFail(s.threads, h.fails, |h.wins|, e.t, n);
    }
  }

  lemma {:induction false} StartSums(threads: seq<Thread>, fails: seq<nat>, n: nat)
    requires n <= |threads| == |fails| && forall t :: 0 <= t < |threads| ==> threads[t].pc == Called && fails[t] == 0
    ensures Slack(threads, fails, 0, n) == 0 && Pending(threads, n) == n && OtherSteps(threads, n) == 0
  {
    if n > 0 {
      StartSums(threads, fails, n - 1);
    }
  }

  ghost predicate Accounted(s: State, h: History, es: seq<Event>) {
    ListInv(s, h.chain) && AllCharged(s, h) && WithinBudget(s, h, es)
  }

  lemma AccountedStart(s0: State, ps: seq<Address>, fails: seq<nat>)
    requires Init(s0, ps) && |fails| == |s0.threads| && forall t :: 0 <= t < |fails| ==> fails[t] == 0
    ensures Accounted(s0, History(ps, [], fails), [])
  {
    InitKeeps(s0, ps);
    StartSums(s0.threads, fails, |s0.threads|);
  }

  lemma AccountedStep(s: State, h: History, es: seq<Event>, e: Event)
    requires Accounted(s, h, es) && Enabled(s, e)
    ensures Accounted(Apply(s, e), Record(h, s, e), es + [e])
  {
    StepKeeps(s, h, e);
    ChargedStep(s, h, e);
    BudgetStep(s, h, es, e);
  }

  lemma {:induction false} RunAccounted(s0: State, ps: seq<Address>, es: seq<Event>)
    requires Init(s0, ps) && Runs(s0, es)
    ensures Accounted(After(s0, es), Told(s0, ps, es), es)
    decreases |es|
  {
    if es == [] {
      AccountedStart(s0, ps, Told(s0, ps, es).fails);
    } else {
      var before, e := es[..|es| - 1], es[|es| - 1];
      RunAccounted(s0, ps, before);
      AccountedStep(After(s0, before), Told(s0, ps, before), before, e);
      assert before + [e] == es;
    }
  }

  // In every interleaving of N calls there are at most N(N+1)/2 exchanges, and
  // every run ends after at most 2N more steps.
  lemma AttemptsBounded(s0: State, ps: seq<Address>, es: seq<Event>)
    requires Init(s0, ps) && Runs(s0, es)
    ensures var n := |s0.threads|;
      2 * Attempts(es) <= n * (n + 1) && |es| <= Attempts(es) + 2 * n
  {
    var s, h, n := After(s0, es), Told(s0, ps, es), |s0.threads|;
    RunAccounted(s0, ps, es);
    SlackNonNegative(s, h, n);
    BudgetAtMost(n, |h.wins|);
    if n > 0 {
      OtherStepsUpdate(s.threads, 0, s.threads[0], n);
    }
  }
}
