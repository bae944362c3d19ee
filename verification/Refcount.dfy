// A reference counter that any number of threads get and put.
module Refcount {
  import opened Machine

  datatype Op = Get | Put

  // What one atomic operation leaves in the counter, and returns.
  function Step(n: UInt64, op: Op): UInt64 {
    match op
    case Get => if n == SIZE_64 - 1 then 0 else n + 1
    case Put => if n == 0 then SIZE_64 - 1 else n - 1
  }

  // The counter after init and then ops.
  function Value(ops: seq<Op>): UInt64 {
    if ops == [] then 1 else Step(Value(ops[..|ops| - 1]), ops[|ops| - 1])
  }

  class Counter {
    var n: UInt64
    ghost var ops: seq<Op>

    ghost predicate Valid()
      reads this
    {
      n == Value(ops)
    }

    constructor ()
      ensures Valid() && n == 1 && ops == []
    {
      n, ops := 1, [];
    }

    method DoGet() returns (now: UInt64)
      requires Valid()
      modifies this
      ensures Valid() && ops == old(ops) + [Get] && now == n
    {
      StepWraps(n);
      n, ops := Wrap64(n + 1), ops + [Get];
      now := n;
    }

    method DoPut() returns (now: UInt64)
      requires Valid()
      modifies this
      ensures Valid() && ops == old(ops) + [Put] && now == n
    {
      StepWraps(n);
      n, ops := Wrap64(n - 1), ops + [Put];
      now := n;
    }
  }

  // ----- one interleaving -----

  // References taken less references dropped, counting init's.
  function Balance(ops: seq<Op>): int {
    if ops == [] then 1 else Balance(ops[..|ops| - 1]) + if ops[|ops| - 1].Get? then 1 else -1
  }

  lemma StepWraps(x: int)
    ensures Step(Wrap64(x), Get) == Wrap64(x + 1) && Step(Wrap64(x), Put) == Wrap64(x - 1)
  {
  }

  // In every interleaving, even one that wraps, the counter is the balance
  // modulo 2^64.
  lemma {:induction false} ValueIsBalance(ops: seq<Op>)
    ensures Value(ops) == Wrap64(Balance(ops))
  {
    if ops != [] {
      var before := ops[..|ops| - 1];
      ValueIsBalance(before);
      StepWraps(Balance(before));
    }
  }

  // Never more puts than references, and never 2^64 references.
  ghost predicate Balanced(ops: seq<Op>) {
    forall k {:trigger ops[..k]} :: 0 <= k <= |ops| ==> 0 <= Balance(ops[..k]) < SIZE_64
  }

  lemma BalancedPrefix(ops: seq<Op>, k: nat)
    requires Balanced(ops) && k <= |ops|
    ensures Balanced(ops[..k]) && Value(ops[..k]) == Balance(ops[..k])
  {
    forall i | 0 <= i <= k
      ensures 0 <= Balance(ops[..k][..i]) < SIZE_64
    {
      assert ops[..k][..i] == ops[..i];
    }
    assert 0 <= Balance(ops[..k]) < SIZE_64;
    ValueIsBalance(ops[..k]);
  }

  // The k-th operation is a put that returns 0.
  predicate Releases(ops: seq<Op>, k: nat)
    requires k < |ops|
  {
    ops[k].Put? && Value(ops[..k + 1]) == 0
  }

  // The k-th operation is a get of an object already released.
  predicate Revives(ops: seq<Op>, k: nat)
    requires k < |ops|
  {
    ops[k].Get? && Value(ops[..k]) == 0
  }

  function Releasing(ops: seq<Op>, n: nat): nat
    requires n <= |ops|
  {
    if n == 0 then 0 else Releasing(ops, n - 1) + if Releases(ops, n - 1) then 1 else 0
  }

  function Reviving(ops: seq<Op>, n: nat): nat
    requires n <= |ops|
  {
    if n == 0 then 0 else Reviving(ops, n - 1) + if Revives(ops, n - 1) then 1 else 0
  }

  lemma BalanceStep(ops: seq<Op>, k: nat)
    requires k < |ops|
    ensures Balance(ops[..k + 1]) == Balance(ops[..k]) + if ops[k].Get? then 1 else -1
  {
    assert ops[..k + 1][..k] == ops[..k];
  }

  // Releases and revivals alternate: there are as many of one as of the other,
  // and one more release when the counter stands at zero.
  lemma {:induction false} ReleasesBalanceRevivals(ops: seq<Op>, n: nat)
    requires Balanced(ops) && n <= |ops|
    ensures Releasing(ops, n) == Reviving(ops, n) + if Value(ops[..n]) == 0 then 1 else 0
  {
    if n > 0 {
      ReleasesBalanceRevivals(ops, n - 1);
      BalanceStep(ops, n - 1);
      BalancedPrefix(ops, n - 1);
      BalancedPrefix(ops, n);
    }
  }

  ghost predicate NeverRevives(ops: seq<Op>) {
    forall k {:trigger Revives(ops, k)} :: 0 <= k < |ops| ==> !Revives(ops, k)
  }

  lemma {:induction false} NoRevival(ops: seq<Op>, n: nat)
    requires NeverRevives(ops) && n <= |ops|
    ensures Reviving(ops, n) == 0
  {
    if n > 0 {
      NoRevival(ops, n - 1);
    }
  }

  // A put returns 0 exactly when it drops the last reference.
  lemma ReleasesAtZero(ops: seq<Op>, k: nat)
    requires Balanced(ops) && k < |ops|
    ensures Releases(ops, k) <==> Balance(ops[..k + 1]) == 0
  {
    BalancedPrefix(ops, k);
    BalancedPrefix(ops, k + 1);
    BalanceStep(ops, k);
  }

  // When no get starts at zero, nothing follows the last reference.
  lemma NothingAfterZero(ops: seq<Op>, k: nat)
    requires Balanced(ops) && NeverRevives(ops) && k < |ops| && Balance(ops[..k + 1]) == 0
    ensures k == |ops| - 1
  {
    BalancedPrefix(ops, k + 1);
    if k + 1 < |ops| {
      assert !Revives(ops, k + 1);
      BalanceStep(ops, k + 1);
    }
  }

  // When no get starts at zero, the counter is the balance; a put returns 0
  // exactly when it drops the last reference; and at most one put does, the
  // last operation of the run.
  lemma ReleasedOnce(ops: seq<Op>, k: nat)
    requires Balanced(ops) && NeverRevives(ops) && k < |ops|
    ensures Value(ops) == Balance(ops)
    ensures Releases(ops, k) <==> Balance(ops[..k + 1]) == 0
    ensures Releases(ops, k) ==> k == |ops| - 1
    ensures Balance(ops) == 0 ==> Releases(ops, |ops| - 1)
  {
    var n := |ops|;
    assert ops[..n] == ops;
    BalancedPrefix(ops, n);
    ReleasesAtZero(ops, k);
    ReleasesAtZero(ops, n - 1);
    if Balance(ops[..k + 1]) == 0 {
      NothingAfterZero(ops, k);
    }
  }

  lemma ReleaseCount(ops: seq<Op>)
    requires Balanced(ops) && NeverRevives(ops)
    ensures Releasing(ops, |ops|) == if Balance(ops) == 0 then 1 else 0
  {
    ReleasesBalanceRevivals(ops, |ops|);
    NoRevival(ops, |ops|);
    assert ops[..|ops|] == ops;
    BalancedPrefix(ops, |ops|);
  }

  // A get at zero breaks it: two puts return 0.
  lemma RevivedReleasesTwice()
    ensures var ops := [Put, Get, Put]; Balanced(ops) && Revives(ops, 1) && Releases(ops, 0) && Releases(ops, 2)
  {
  }

  // ----- threads -----

  datatype Event = Event(t: nat, op: Op)

  function Ops(es: seq<Event>): (ops: seq<Op>)
    ensures |ops| == |es|
  {
    seq(|es|, i requires 0 <= i < |es| => es[i].op)
  }

  // What thread t does in a run.
  function Program(es: seq<Event>, t: nat): seq<Op> {
    if es == [] then []
    else
      var rest, e := Program(es[..|es| - 1], t), es[|es| - 1];
      if e.t == t then rest + [e.op] else rest
  }

  // References the first n threads' programs take, less those they drop.
  function Taken(programs: seq<seq<Op>>, n: nat): int
    requires n <= |programs|
  {
    if n == 0 then 0 else Taken(programs, n - 1) + Balance(programs[n - 1]) - 1
  }

  // The run does each thread's program, interleaved in some order.
  ghost predicate Interleaves(es: seq<Event>, programs: seq<seq<Op>>) {
    (forall i :: 0 <= i < |es| ==> es[i].t < |programs|) &&
    forall t {:trigger programs[t]} :: 0 <= t < |programs| ==> Program(es, t) == programs[t]
  }

  lemma {:induction false} TakenSnoc(programs: seq<seq<Op>>, t: nat, op: Op, n: nat)
    requires t < |programs| && n <= |programs|
    ensures Taken(programs[t := programs[t] + [op]], n) ==
      Taken(programs, n) + if t < n then (if op.Get? then 1 else -1) else 0
  {
    if n > 0 {
      TakenSnoc(programs, t, op, n - 1);
      assert (programs[t] + [op])[..|programs[t] + [op]| - 1] == programs[t];
    }
  }

  lemma {:induction false} TakenNone(programs: seq<seq<Op>>, n: nat)
    requires n <= |programs| && forall t :: 0 <= t < |programs| ==> programs[t] == []
    ensures Taken(programs, n) == 0
  {
    if n > 0 {
      TakenNone(programs, n - 1);
    }
  }

  lemma {:induction false} BalanceOfThreads(es: seq<Event>, programs: seq<seq<Op>>)
    requires Interleaves(es, programs)
    ensures Balance(Ops(es)) == 1 + Taken(programs, |programs|)
    decreases |es|
  {
    if es == [] {
      TakenNone(programs, |programs|);
    } else {
      var before, e := es[..|es| - 1], es[|es| - 1];
      var rest := Program(before, e.t);
      var programs' := programs[e.t := rest];
      assert programs[e.t] == rest + [e.op];
      BalanceOfThreads(before, programs');
      TakenSnoc(programs', e.t, e.op, |programs|);
      assert programs'[e.t := rest + [e.op]] == programs;
      assert Ops(es)[..|es| - 1] == Ops(before);
    }
  }

  // Whatever the interleaving of the threads' programs, the counter ends at the
  // same value.
  lemma InterleavingsAgree(es: seq<Event>, programs: seq<seq<Op>>)
    requires Interleaves(es, programs)
    ensures Value(Ops(es)) == Wrap64(1 + Taken(programs, |programs|))
  {
    BalanceOfThreads(es, programs);
    ValueIsBalance(Ops(es));
  }
}
