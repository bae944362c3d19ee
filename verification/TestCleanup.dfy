// The cleanup of a whole test: every thread prepends its cleanup stack to one
// list, and the cleanup phase pops and unwinds them all.
module TestCleanup {
  import opened Text
  import opened SList
  import opened Cleanup
  import AtomicList
  import AttemptWorstCase

  // What is on each stack. Pointer d, when it is not NULL, is that of stack d - 1.
  type Pushed = seq<seq<Command>>

  function On(pushed: Pushed, d: Data): seq<Command> {
    if 0 < d <= |pushed| then pushed[d - 1] else []
  }

  // Unwinding the stacks of a list, one after the other.
  function UndoneAll(ds: seq<Data>, pushed: Pushed): seq<Object> {
    if ds == [] then [] else Undone(On(pushed, ds[0])) + UndoneAll(ds[1..], pushed)
  }

  lemma UndoneAt(ds: seq<Data>, n: nat, pushed: Pushed)
    requires n < |ds|
    ensures UndoneAll(ds[n..], pushed) == Undone(On(pushed, ds[n])) + UndoneAll(ds[n + 1..], pushed)
  {
    assert ds[n..][1..] == ds[n + 1..];
  }

  // ----- the cleanup phase -----

  // Different pointers to different stacks, none of them NULL.
  ghost predicate Different(ds: seq<Data>, stacks: seq<Stack>) {
    (forall i :: 0 <= i < |ds| ==> 0 < ds[i] <= |stacks|) && (forall i, j :: 0 <= i < j < |ds| ==> ds[i] != ds[j]) &&
    forall i, j :: 0 <= i < j < |stacks| ==> stacks[i] != stacks[j]
  }

  // Always true: the triggers that keep the definitions of Unwound and Next
  // folded until a proof names them.
  predicate OpenUnwound(w: bool) {
    true
  }

  predicate OpenNext(w: bool) {
    true
  }

  // The stacks of the first n pointers are empty, the others as pushed says.
  ghost predicate Unwound(ds: seq<Data>, n: nat, stacks: seq<Stack>, pushed: Pushed)
    reads stacks
  {
    forall w {:trigger OpenUnwound(w)} :: OpenUnwound(w) ==> forall i :: 0 <= i < |ds| && 0 < ds[i] <= |stacks| ==>
      var s := stacks[ds[i] - 1]; s.Valid() && s.commands == if i < n then [] else On(pushed, ds[i])
  }

  // Pointer n has been popped, or NULL if there is none, and the list holds the
  // pointers after it.
  ghost predicate Next(list: List, ds: seq<Data>, n: nat, d: Data)
    reads list, list.nodes
  {
    forall w {:trigger OpenNext(w)} :: OpenNext(w) ==>
      list.Valid() && if n < |ds| then d == ds[n] && list.Contents() == ds[n + 1..] else d == 0 && list.Contents() == []
  }

  method PopNext(list: List, ghost ds: seq<Data>, ghost n: nat) returns (d: Data)
    requires list.Valid() && n <= |ds| && list.Contents() == ds[n..]
    modifies list
    ensures Next(list, ds, n, d)
  {
    d := list.Pop();
    if n < |ds| {
      assert ds[n..] == Prepended(list.Contents(), d) && ds[n..][0] == ds[n];
      assert ds[n..][1..] == ds[n + 1..] && Prepended(list.Contents(), d)[1..] == list.Contents();
    }
  }

  method UnwindOne(s: Stack, noCleanup: bool) returns (released: seq<Object>)
    requires s.Valid()
    modifies s
    ensures s.Valid() && s.commands == [] && released == if noCleanup then [] else Undone(old(s.commands))
  {
    released := [];
    if noCleanup {
      released := s.PopAll(true);
    }
    var more := s.PopAll(false);
    released := released + more;
  }

  method UnwindNext(ghost ds: seq<Data>, ghost n: nat, d: Data, stacks: seq<Stack>, noCleanup: bool,
                    ghost pushed: Pushed)
    returns (released: seq<Object>)
    requires n < |ds| && d == ds[n] && Different(ds, stacks) && Unwound(ds, n, stacks, pushed)
    modifies stacks
    ensures Unwound(ds, n + 1, stacks, pushed) && released == if noCleanup then [] else Undone(On(pushed, d))
  {
    assert OpenUnwound(true);
    released := UnwindOne(stacks[d - 1], noCleanup);
  }

  // Unwind the stack just popped, and pop the next one.
  method Step(list: List, ghost ds: seq<Data>, ghost n: nat, d: Data, stacks: seq<Stack>, noCleanup: bool,
              ghost pushed: Pushed)
    returns (released: seq<Object>, next: Data)
    requires Next(list, ds, n, d) && n < |ds| && d == ds[n]
    requires Different(ds, stacks) && Unwound(ds, n, stacks, pushed)
    modifies list, stacks
    ensures Next(list, ds, n + 1, next) && Unwound(ds, n + 1, stacks, pushed)
    ensures released == if noCleanup then [] else Undone(On(pushed, d))
  {
    released := UnwindNext(ds, n, d, stacks, noCleanup, pushed);
    assert OpenNext(true);
    next := PopNext(list, ds, n + 1);
  }

  lemma NextIs(list: List, ds: seq<Data>, n: nat, d: Data)
    requires Next(list, ds, n, d) && n <= |ds| && forall i :: 0 <= i < |ds| ==> ds[i] != 0
    ensures (d != 0 <==> n < |ds|) && (n < |ds| ==> d == ds[n])
    ensures d == 0 ==> list.Valid() && list.Contents() == []
  {
    assert OpenNext(true);
  }

  // Pop every stack off the list and unwind it; with no cleanup, every pop is a
  // no-op.
  method UnwindAll(list: List, stacks: seq<Stack>, noCleanup: bool, ghost pushed: Pushed)
    returns (released: seq<Object>)
    requires list.Valid() && Different(list.Contents(), stacks) && Unwound(list.Contents(), 0, stacks, pushed)
    modifies list, stacks
    ensures list.Valid() && list.Contents() == []
    ensures Unwound(old(list.Contents()), |old(list.Contents())|, stacks, pushed)
    ensures released == if noCleanup then [] else UndoneAll(old(list.Contents()), pushed)
  {
    ghost var ds := list.Contents();
    ghost var n := 0;
    assert ds[0..] == ds;
    released := [];
    var d := PopNext(list, ds, n);
    NextIs(list, ds, n, d);
    while d != 0
      invariant n <= |ds| && (d != 0 <==> n < |ds|) && (n < |ds| ==> d == ds[n])
      invariant Next(list, ds, n, d) && Unwound(ds, n, stacks, pushed)
      invariant released + (if noCleanup then [] else UndoneAll(ds[n..], pushed)) ==
        if noCleanup then [] else UndoneAll(ds, pushed)
      decreases |ds| - n
    {
      UndoneAt(ds, n, pushed);
      var more;
      more, d := Step(list, ds, n, d, stacks, noCleanup, pushed);
      Associative(released, more, UndoneAll(ds[n + 1..], pushed));
      released, n := released + more, n + 1;
      NextIs(list, ds, n, d);
    }
    NextIs(list, ds, n, d);
  }

  // ----- sums and joins over the threads -----

  // What is in the first n parts.
  function SumTo(parts: seq<seq<Object>>, n: nat): multiset<Object>
    requires n <= |parts|
  {
    if n == 0 then multiset{} else SumTo(parts, n - 1) + multiset(parts[n - 1])
  }

  ghost predicate Indices(ts: seq<nat>, n: nat) {
    forall i :: 0 <= i < |ts| ==> ts[i] < n
  }

  function SumOf(parts: seq<seq<Object>>, ts: seq<nat>): multiset<Object>
    requires Indices(ts, |parts|)
  {
    if ts == [] then multiset{} else SumOf(parts, ts[..|ts| - 1]) + multiset(parts[ts[|ts| - 1]])
  }

  function Without(ts: seq<nat>, k: nat): (rest: seq<nat>)
    requires k < |ts|
    ensures |rest| == |ts| - 1 && forall i :: 0 <= i < |rest| ==> rest[i] == if i < k then ts[i] else ts[i + 1]
  {
    ts[..k] + ts[k + 1..]
  }

  lemma {:induction false} SumWithout(parts: seq<seq<Object>>, ts: seq<nat>, k: nat)
    requires Indices(ts, |parts|) && k < |ts|
    ensures SumOf(parts, ts) == SumOf(parts, Without(ts, k)) + multiset(parts[ts[k]])
    decreases |ts|
  {
    var n := |ts| - 1;
    var rest := Without(ts, k);
    if k == n {
      assert rest == ts[..n];
    } else {
      assert rest[..n - 1] == Without(ts[..n], k);
      SumWithout(parts, ts[..n], k);
    }
  }

  ghost predicate Permutation(ts: seq<nat>, n: nat) {
    Indices(ts, n) && (forall t: nat :: t < n ==> t in ts) && forall i, j :: 0 <= i < j < |ts| ==> ts[i] != ts[j]
  }

  // Taking the last index out of a permutation.
  lemma TakeLast(ts: seq<nat>, n: nat) returns (k: nat)
    requires n > 0 && Permutation(ts, n)
    ensures k < |ts| && ts[k] == n - 1 && Permutation(Without(ts, k), n - 1)
  {
    var last: nat := n - 1;
    assert last in ts;
    k :| 0 <= k < |ts| && ts[k] == last;
    var rest := Without(ts, k);
    forall t: nat | t < n - 1
      ensures t in rest
    {
      assert t in ts;
      var i :| 0 <= i < |ts| && ts[i] == t;
      assert if i < k then rest[i] == t else rest[i - 1] == t;
    }
  }

  lemma {:induction false} SumOfPermutation(parts: seq<seq<Object>>, ts: seq<nat>, n: nat)
    requires n <= |parts| && Indices(ts, |parts|) && Permutation(ts, n)
    ensures SumOf(parts, ts) == SumTo(parts, n)
    decreases n
  {
    assert ts != [] ==> ts[0] < n;
    if n > 0 {
      var k := TakeLast(ts, n);
      SumWithout(parts, ts, k);
      SumOfPermutation(parts, Without(ts, k), n - 1);
    }
  }

  // The parts one after the other, the last one first.
  function Joined(parts: seq<seq<Object>>, ts: seq<nat>): seq<Object>
    requires Indices(ts, |parts|)
  {
    if ts == [] then [] else parts[ts[|ts| - 1]] + Joined(parts, ts[..|ts| - 1])
  }

  lemma {:induction false} JoinedSum(parts: seq<seq<Object>>, ts: seq<nat>)
    requires Indices(ts, |parts|)
    ensures multiset(Joined(parts, ts)) == SumOf(parts, ts)
  {
    if ts != [] {
      JoinedSum(parts, ts[..|ts| - 1]);
    }
  }

  // part is a contiguous piece of all.
  ghost predicate Within(part: seq<Object>, all: seq<Object>) {
    exists a, b :: all == a + (part + b)
  }

  lemma {:induction false} JoinedWithin(parts: seq<seq<Object>>, ts: seq<nat>, i: nat)
    requires Indices(ts, |parts|) && i < |ts|
    ensures Within(parts[ts[i]], Joined(parts, ts))
    decreases |ts|
  {
    var n := |ts| - 1;
    var first, rest := parts[ts[n]], Joined(parts, ts[..n]);
    if i == n {
      assert first + rest == [] + (first + rest);
    } else {
      JoinedWithin(parts, ts[..n], i);
      var a, b :| rest == a + (parts[ts[i]] + b);
      Associative(first, a, parts[ts[i]] + b);
      assert Joined(parts, ts) == (first + a) + (parts[ts[i]] + b);
    }
  }

  // ----- after any interleaving of the threads' prepends -----

  // What unwinding each thread's stack releases.
  function Parts(threads: seq<AtomicList.Thread>, pushed: Pushed): (parts: seq<seq<Object>>)
    ensures |parts| == |threads|
  {
    seq(|threads|, t requires 0 <= t < |threads| => Undone(On(pushed, threads[t].arg)))
  }

  lemma {:induction false} UnwindsJoined(threads: seq<AtomicList.Thread>, pushed: Pushed, ts: seq<nat>)
    requires Indices(ts, |threads|)
    ensures UndoneAll(AtomicList.PrependAll([], AtomicList.Args(threads, ts)), pushed) ==
      Joined(Parts(threads, pushed), ts)
    decreases |ts|
  {
    if ts != [] {
      var n := |ts| - 1;
      var args := AtomicList.Args(threads, ts);
      assert args[..n] == AtomicList.Args(threads, ts[..n]);
      UnwindsJoined(threads, pushed, ts[..n]);
      var rest := AtomicList.PrependAll([], args[..n]);
      assert ([args[n]] + rest)[1..] == rest;
    }
  }

  // However the threads' prepends interleave, unwinding the finished list runs
  // every command that any thread has pushed, each once, and each thread's in
  // one piece, last pushed first.
  lemma EveryCommandOnce(s0: AtomicList.State, es: seq<AtomicList.Event>, pushed: Pushed) returns (list: seq<Data>)
    requires AtomicList.Init(s0, []) && AtomicList.Runs(s0, es)
    requires forall e :: !AtomicList.Enabled(AtomicList.After(s0, es), e)
    ensures var s, h := AtomicList.After(s0, es), AtomicList.Told(s0, [], es);
      AtomicList.ListInv(s, h.chain) && list == AtomicList.Contents(s, h.chain)
    ensures multiset(UndoneAll(list, pushed)) == SumTo(Parts(s0.threads, pushed), |s0.threads|)
    ensures forall t :: 0 <= t < |s0.threads| && 0 < s0.threads[t].arg <= |pushed| ==>
      Within(Undone(pushed[s0.threads[t].arg - 1]), UndoneAll(list, pushed))
  {
    var s, h, n := AtomicList.After(s0, es), AtomicList.Told(s0, [], es), |s0.threads|;
    var parts := Parts(s0.threads, pushed);
    AtomicList.Linearizable(s0, [], es);
    AttemptWorstCase.Completed(s0, [], es);
    list := AtomicList.Contents(s, h.chain);
    UnwindsJoined(s0.threads, pushed, h.wins);
    JoinedSum(parts, h.wins);
    SumOfPermutation(parts, h.wins, n);
    forall t | 0 <= t < n && 0 < s0.threads[t].arg <= |pushed|
      ensures Within(Undone(pushed[s0.threads[t].arg - 1]), UndoneAll(list, pushed))
    {
      assert t in h.wins;
      var i :| 0 <= i < |h.wins| && h.wins[i] == t;
      JoinedWithin(parts, h.wins, i);
    }
  }
}
