// Every run of the calls can be finished, and the bound on exchanges is reached.
module AttemptWorstCase {
  import opened AtomicList
  import opened AttemptBound

  lemma FreshAddress(used: set<Address>) returns (p: Address)
    ensures p != 0 && forall q :: q in used ==> q < p
  {
    if used == {} {
      p := 1;
    } else {
      var k :| k in used;
      var rest := used - {k};
      p := FreshAddress(rest);
      p := if p <= k then k + 1 else p;
      assert forall q :: q in used ==> q == k || q in rest;
    }
  }

  // ----- no call can be blocked -----

  lemma StepExists(s: State, chain: seq<Address>, t: nat) returns (e: Event)
    requires ListInv(s, chain) && t < |s.threads| && !s.threads[t].pc.Returned?
    ensures Enabled(s, e) && e.t == t
  {
    assert Private(s, chain, t);
    match s.threads[t].pc
    case Called =>
      var p := FreshAddress(s.heap.Keys);
      e := Malloc(t, p, 0);
    case Allocated =>
      e := Load(t);
    case Trying =>
      e := CompareExchange(t);
  }

  lemma {:induction false} NonePending(threads: seq<Thread>, n: nat)
    requires n <= |threads| && forall t :: 0 <= t < |threads| ==> threads[t].pc.Returned?
    ensures Pending(threads, n) == 0
  {
    if n > 0 {
      NonePending(threads, n - 1);
    }
  }

  // A run that cannot go on has every call returned, after succeeding once each.
  lemma Completed(s0: State, ps: seq<Address>, es: seq<Event>)
    requires Init(s0, ps) && Runs(s0, es)
    requires forall e :: !Enabled(After(s0, es), e)
    ensures var s, wins := After(s0, es), Told(s0, ps, es).wins;
      |wins| == |s0.threads| && (forall t :: 0 <= t < |s0.threads| ==> s.threads[t].pc.Returned? && t in wins)
  {
    var s, h := After(s0, es), Told(s0, ps, es);
    RunAccounted(s0, ps, es);
    Linearizable(s0, ps, es);
    forall t | 0 <= t < |s.threads|
      ensures s.threads[t].pc.Returned?
    {
      if !s.threads[t].pc.Returned? {
        var e := StepExists(s, h.chain, t);
      }
    }
    NonePending(s.threads, |s.threads|);
  }

  // ----- the worst interleaving: all lose each race but one -----

  predicate Seen(s: State, t: nat)
    requires t < |s.threads|
  {
    var th := s.threads[t];
    th.pc.Trying? && th.elem in s.heap && s.heap[th.elem].next == s.head
  }

  predicate Stale(s: State, t: nat)
    requires t < |s.threads|
  {
    var th := s.threads[t];
    th.pc.Trying? && th.elem in s.heap && s.heap[th.elem].next != s.head
  }

  // Threads below k have their node, the others have not begun.
  ghost predicate Allocating(s: State, k: nat) {
    k <= |s.threads| && forall t :: 0 <= t < |s.threads| ==> s.threads[t].pc == if t < k then Allocated else Called
  }

  // Threads below k have seen the head, the others only have their node.
  ghost predicate Loading(s: State, k: nat) {
    k <= |s.threads| &&
    (forall t {:trigger Seen(s, t)} :: 0 <= t < k ==> Seen(s, t)) &&
    forall t :: k <= t < |s.threads| ==> s.threads[t].pc == Allocated
  }

  // Apart from the threads below r, which are done: those from r to j have seen the present head, the
  // rest have not.
  ghost predicate Racing(s: State, r: nat, j: nat) {
    r <= j <= |s.threads| &&
    (forall t {:trigger Seen(s, t)} :: r <= t < j ==> Seen(s, t)) &&
    forall t {:trigger Stale(s, t)} :: j <= t < |s.threads| ==> Stale(s, t)
  }

  // A thread's store leaves what another has seen.
  lemma OthersSee(s: State, chain: seq<Address>, t: nat, u: nat)
    requires ListInv(s, chain) && t < |s.threads| && u < |s.threads| && t != u
    ensures InCall(s.threads[t]) && InCall(s.threads[u]) ==> s.threads[t].elem != s.threads[u].elem
    ensures InCall(s.threads[t]) ==> s.threads[t].elem in s.heap && s.threads[t].elem != s.head
  {
    assert if t < u then Separate(s, t, u) else Separate(s, u, t);
    assert Private(s, chain, t);
    assert s.head == 0 || s.head in chain;
  }

  lemma LoadStep(s: State, chain: seq<Address>, k: nat)
    requires ListInv(s, chain) && Loading(s, k) && k < |s.threads|
    ensures Enabled(s, Load(k)) && Loading(Apply(s, Load(k)), k + 1)
  {
    assert Private(s, chain, k);
    var s' := Apply(s, Load(k));
    forall t | 0 <= t < k + 1
      ensures Seen(s', t)
    {
      if t < k {
        OthersSee(s, chain, k, t);
        assert Seen(s, t);
      }
    }
  }

  lemma WinStep(s: State, chain: seq<Address>, r: nat)
    requires ListInv(s, chain) && Racing(s, r, |s.threads|) && r < |s.threads|
    ensures Enabled(s, CompareExchange(r)) && Racing(Apply(s, CompareExchange(r)), r + 1, r + 1)
  {
    assert Seen(s, r);
    assert Private(s, chain, r);
    assert s.head == 0 || s.head in chain;
    var s' := Apply(s, CompareExchange(r));
    forall t | r < t < |s.threads|
      ensures Stale(s', t)
    {
      assert Seen(s, t);
    }
  }

  lemma LoseStep(s: State, chain: seq<Address>, r: nat, j: nat)
    requires ListInv(s, chain) && Racing(s, r, j) && j < |s.threads|
    ensures Enabled(s, CompareExchange(j)) && Racing(Apply(s, CompareExchange(j)), r, j + 1)
  {
    assert Stale(s, j);
    var s' := Apply(s, CompareExchange(j));
    forall t | r <= t < |s.threads|
      ensures if t <= j then Seen(s', t) else Stale(s', t)
    {
      if t != j {
        OthersSee(s, chain, j, t);
        assert if t < j then Seen(s, t) else Stale(s, t);
      }
    }
  }

  lemma Extend(s0: State, es: seq<Event>, e: Event)
    requires Runs(s0, es) && Enabled(After(s0, es), e)
    ensures Runs(s0, es + [e]) && After(s0, es + [e]) == Apply(After(s0, es), e)
    ensures Attempts(es + [e]) == Attempts(es) + if e.CompareExchange? then 1 else 0
  {
    assert (es + [e])[..|es + [e]| - 1] == es;
  }

  // A run of s0 with its list well formed, as every run has.
  lemma Extended(s0: State, ps: seq<Address>, es: seq<Event>) returns (chain: seq<Address>)
    requires Init(s0, ps) && Runs(s0, es)
    ensures ListInv(After(s0, es), chain) && |After(s0, es).threads| == |s0.threads|
  {
    Linearizable(s0, ps, es);
    chain := Told(s0, ps, es).chain;
  }

  lemma {:induction false} AllocateAll(s0: State, ps: seq<Address>, es: seq<Event>, k: nat) returns (more: seq<Event>)
    requires Init(s0, ps) && Runs(s0, es) && Allocating(After(s0, es), k)
    ensures Runs(s0, more) && Loading(After(s0, more), 0) && Attempts(more) == Attempts(es)
    decreases |s0.threads| - k
  {
    var chain := Extended(s0, ps, es);
    if k == |s0.threads| {
      more := es;
    } else {
      var p := FreshAddress(After(s0, es).heap.Keys);
      Extend(s0, es, Malloc(k, p, 0));
      more := AllocateAll(s0, ps, es + [Malloc(k, p, 0)], k + 1);
    }
  }

  lemma {:induction false} LoadAll(s0: State, ps: seq<Address>, es: seq<Event>, k: nat) returns (more: seq<Event>)
    requires Init(s0, ps) && Runs(s0, es) && Loading(After(s0, es), k)
    ensures Runs(s0, more) && Racing(After(s0, more), 0, |s0.threads|) && Attempts(more) == Attempts(es)
    decreases |s0.threads| - k
  {
    var chain := Extended(s0, ps, es);
    if k == |s0.threads| {
      more := es;
    } else {
      LoadStep(After(s0, es), chain, k);
      Extend(s0, es, Load(k));
      more := LoadAll(s0, ps, es + [Load(k)], k + 1);
    }
  }

  lemma {:induction false} LoseAll(s0: State, ps: seq<Address>, es: seq<Event>, r: nat, j: nat)
    returns (more: seq<Event>)
    requires Init(s0, ps) && Runs(s0, es) && Racing(After(s0, es), r, j)
    ensures Runs(s0, more) && Racing(After(s0, more), r, |s0.threads|)
    ensures Attempts(more) == Attempts(es) + |s0.threads| - j
    decreases |s0.threads| - j
  {
    var chain := Extended(s0, ps, es);
    if j == |s0.threads| {
      more := es;
    } else {
      LoseStep(After(s0, es), chain, r, j);
      Extend(s0, es, CompareExchange(j));
      more := LoseAll(s0, ps, es + [CompareExchange(j)], r, j + 1);
    }
  }

  lemma {:induction false} RaceAll(s0: State, ps: seq<Address>, es: seq<Event>, r: nat) returns (more: seq<Event>)
    requires Init(s0, ps) && Runs(s0, es) && Racing(After(s0, es), r, |s0.threads|)
    ensures Runs(s0, more)
    ensures 2 * Attempts(more) == 2 * Attempts(es) + (|s0.threads| - r) * (|s0.threads| - r + 1)
    decreases |s0.threads| - r
  {
    var chain := Extended(s0, ps, es);
    if r == |s0.threads| {
      more := es;
    } else {
      WinStep(After(s0, es), chain, r);
      Extend(s0, es, CompareExchange(r));
      var round := LoseAll(s0, ps, es + [CompareExchange(r)], r + 1, r + 1);
      more := RaceAll(s0, ps, round, r + 1);
      Products(|s0.threads| - r, 0);
      var d := |s0.threads| - r;
      assert (d - 1) * d + 2 * d == d * (d + 1);
    }
  }

  // For any number of threads and any list, some interleaving takes exactly
  // N(N+1)/2 exchanges.
  lemma BoundReached(s0: State, ps: seq<Address>) returns (es: seq<Event>)
    requires Init(s0, ps)
    ensures Runs(s0, es) && 2 * Attempts(es) == |s0.threads| * (|s0.threads| + 1)
  {
    assert After(s0, []) == s0;
    es := AllocateAll(s0, ps, [], 0);
    es := LoadAll(s0, ps, es, 0);
    es := RaceAll(s0, ps, es, 0);
  }
}
