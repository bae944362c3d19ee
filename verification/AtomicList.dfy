// Any number of threads prepending to one list head with compare-and-exchange,
// one call each, as interleaved atomic steps.
module AtomicList {
  import opened SList

  // Addresses of list nodes; 0 is NULL.
  type Address = nat

  datatype Cell = Cell(data: Data, next: Address)

  datatype Pc = Called | Allocated | Trying | Returned

  // A call in progress: its argument, where it is, and its node.
  datatype Thread = Thread(arg: Data, pc: Pc, elem: Address)

  datatype State = State(heap: map<Address, Cell>, head: Address, threads: seq<Thread>)

  // One atomic step of thread t. A fresh node gets the data; its next field is
  // whatever was in memory.
  datatype Event =
    | Malloc(t: nat, p: Address, junk: Address)
    | Load(t: nat)
    | CompareExchange(t: nat)

  predicate Enabled(s: State, e: Event) {
    e.t < |s.threads| &&
    var th := s.threads[e.t];
    match e
    case Malloc(_, p, _) => th.pc == Called && p != 0 && p !in s.heap
    case Load(_) => th.pc == Allocated && th.elem in s.heap
    case CompareExchange(_) => th.pc == Trying && th.elem in s.heap
  }

  // The exchange finds the head the thread last saw.
  predicate Succeeds(s: State, e: Event)
    requires Enabled(s, e)
  {
    e.CompareExchange? && s.heap[s.threads[e.t].elem].next == s.head
  }

  function Apply(s: State, e: Event): State
    requires Enabled(s, e)
  {
    var th := s.threads[e.t];
    match e
    case Malloc(t, p, junk) =>
      s.(heap := s.heap[p := Cell(th.arg, junk)], threads := s.threads[t := th.(pc := Allocated, elem := p)])
    case Load(t) =>
      s.(heap := s.heap[th.elem := s.heap[th.elem].(next := s.head)], threads := s.threads[t := th.(pc := Trying)])
    case CompareExchange(t) =>
      if Succeeds(s, e) then s.(head := th.elem, threads := s.threads[t := th.(pc := Returned)])
      else s.(heap := s.heap[th.elem := s.heap[th.elem].(next := s.head)])
  }

  // ----- runs -----

  predicate Runs(s: State, es: seq<Event>)
    decreases |es|, 0
  {
    es == [] || (Runs(s, es[..|es| - 1]) && Enabled(After(s, es[..|es| - 1]), es[|es| - 1]))
  }

  function After(s: State, es: seq<Event>): State
    requires Runs(s, es)
    decreases |es|, 1
  {
    if es == [] then s else Apply(After(s, es[..|es| - 1]), es[|es| - 1])
  }

  // The nodes from an address to NULL, in order.
  predicate Chain(heap: map<Address, Cell>, p: Address, ps: seq<Address>)
    decreases |ps|
  {
    if ps == [] then p == 0 else p == ps[0] && p != 0 && p in heap && Chain(heap, heap[p].next, ps[1..])
  }

  function Datas(heap: map<Address, Cell>, ps: seq<Address>): seq<Data>
    requires forall i :: 0 <= i < |ps| ==> ps[i] in heap
  {
    if ps == [] then [] else [heap[ps[0]].data] + Datas(heap, ps[1..])
  }

  ghost predicate Distinct(ps: seq<Address>) {
    forall i, j :: 0 <= i < j < |ps| ==> ps[i] != ps[j]
  }

  // A well-formed list and threads about to make their calls.
  ghost predicate Init(s: State, ps: seq<Address>) {
    Chain(s.heap, s.head, ps) && Distinct(ps) && forall t :: 0 <= t < |s.threads| ==> s.threads[t].pc == Called
  }

  // What a run has done: the nodes now in the list, the threads whose exchange
  // succeeded, in order, and each thread's failed exchanges.
  datatype History = History(chain: seq<Address>, wins: seq<nat>, fails: seq<nat>)

  function Record(h: History, s: State, e: Event): History
    requires Enabled(s, e) && e.t < |h.fails|
  {
    if !e.CompareExchange? then h
    else if Succeeds(s, e) then h.(chain := [s.threads[e.t].elem] + h.chain, wins := h.wins + [e.t])
    else h.(fails := h.fails[e.t := h.fails[e.t] + 1])
  }

  function Told(s: State, ps: seq<Address>, es: seq<Event>): (h: History)
    requires Runs(s, es)
    ensures |h.fails| == |s.threads| && |After(s, es).threads| == |s.threads|
  {
    if es == [] then History(ps, [], seq(|s.threads|, _ => 0))
    else Record(Told(s, ps, es[..|es| - 1]), After(s, es[..|es| - 1]), es[|es| - 1])
  }

  // The sequential prepends, one after the other.
  function PrependAll(list: seq<Data>, ds: seq<Data>): seq<Data> {
    if ds == [] then list else Prepended(PrependAll(list, ds[..|ds| - 1]), ds[|ds| - 1])
  }

  function Args(threads: seq<Thread>, wins: seq<nat>): (ds: seq<Data>)
    requires forall i :: 0 <= i < |wins| ==> wins[i] < |threads|
    ensures |ds| == |wins|
  {
    seq(|wins|, i requires 0 <= i < |wins| => threads[wins[i]].arg)
  }

  // ----- the invariant -----

  predicate InCall(th: Thread) {
    th.pc.Allocated? || th.pc.Trying?
  }

  // A node of its own, outside the list, holding the thread's data.
  ghost predicate Private(s: State, chain: seq<Address>, t: nat)
    requires t < |s.threads|
  {
    var th := s.threads[t];
    InCall(th) ==> th.elem != 0 && th.elem in s.heap && th.elem !in chain && s.heap[th.elem].data == th.arg
  }

  ghost predicate Separate(s: State, t: nat, u: nat)
    requires t < |s.threads| && u < |s.threads|
  {
    InCall(s.threads[t]) && InCall(s.threads[u]) ==> s.threads[t].elem != s.threads[u].elem
  }

  ghost predicate ListInv(s: State, chain: seq<Address>) {
    Chain(s.heap, s.head, chain) && Distinct(chain) &&
    (forall p :: p in chain ==> p in s.heap) &&
    (forall t {:trigger Private(s, chain, t)} :: 0 <= t < |s.threads| ==> Private(s, chain, t)) &&
    forall t, u {:trigger Separate(s, t, u)} :: 0 <= t < u < |s.threads| ==> Separate(s, t, u)
  }

  // The list's data, read from memory.
  function Contents(s: State, chain: seq<Address>): seq<Data>
    requires forall p :: p in chain ==> p in s.heap
  {
    Datas(s.heap, chain)
  }

  lemma {:induction false} ChainIn(heap: map<Address, Cell>, p: Address, ps: seq<Address>)
    requires Chain(heap, p, ps)
    ensures forall q :: q in ps ==> q in heap && q != 0
    decreases |ps|
  {
    if ps != [] {
      ChainIn(heap, heap[p].next, ps[1..]);
      assert forall q :: q in ps ==> q == ps[0] || q in ps[1..];
    }
  }

  // A store to a node outside the list does not change the list.
  lemma {:induction false} Frame(heap: map<Address, Cell>, p: Address, ps: seq<Address>, q: Address, c: Cell)
    requires Chain(heap, p, ps) && q !in ps && forall x :: x in ps ==> x in heap
    ensures Chain(heap[q := c], p, ps) && Datas(heap[q := c], ps) == Datas(heap, ps)
    decreases |ps|
  {
    if ps != [] {
      assert ps[0] != q && forall x :: x in ps[1..] ==> x in ps;
      Frame(heap, heap[p].next, ps[1..], q, c);
    }
  }

  // A store by thread t to its own node.
  lemma StoreKeeps(s: State, chain: seq<Address>, t: nat, q: Address, c: Cell, th: Thread)
    requires ListInv(s, chain) && t < |s.threads| && q != 0 && q !in chain && c.data == th.arg && th.elem == q
    requires if InCall(s.threads[t]) then s.threads[t].elem == q else q !in s.heap
    ensures var s' := s.(heap := s.heap[q := c], threads := s.threads[t := th]);
      ListInv(s', chain) && Contents(s', chain) == Contents(s, chain)
  {
    var s' := s.(heap := s.heap[q := c], threads := s.threads[t := th]);
    Frame(s.heap, s.head, chain, q, c);
    forall u | 0 <= u < |s'.threads|
      ensures Private(s', chain, u)
      ensures u != t && InCall(s'.threads[u]) ==> s'.threads[u].elem != q
    {
      assert Private(s, chain, u);
      assert if t < u then Separate(s, t, u) else if u < t then Separate(s, u, t) else true;
    }
    forall u, v | 0 <= u < v < |s'.threads|
      ensures Separate(s', u, v)
    {
      assert Separate(s, u, v);
    }
  }

  // One step: the list stays well formed, and its contents change only by the
  // sequential prepend, at a successful exchange.
  lemma StepKeeps(s: State, h: History, e: Event)
    requires ListInv(s, h.chain) && Enabled(s, e) && |h.fails| == |s.threads|
    ensures var s', chain' := Apply(s, e), Record(h, s, e).chain;
      ListInv(s', chain') && Contents(s', chain') ==
        if Succeeds(s, e) then Prepended(Contents(s, h.chain), s.threads[e.t].arg) else Contents(s, h.chain)
  {
    var th, chain := s.threads[e.t], h.chain;
    assert Private(s, chain, e.t);
    match e
    case Malloc(t, p, junk) =>
      StoreKeeps(s, chain, t, p, Cell(th.arg, junk), th.(pc := Allocated, elem := p));
    case Load(t) =>
      StoreKeeps(s, chain, t, th.elem, s.heap[th.elem].(next := s.head), th.(pc := Trying));
    case CompareExchange(t) =>
      if Succeeds(s, e) {
        PublishKeeps(s, chain, t);
      } else {
        StoreKeeps(s, chain, t, th.elem, s.heap[th.elem].(next := s.head), th);
        assert s.threads[t := th] == s.threads;
      }
  }

  lemma PublishKeeps(s: State, chain: seq<Address>, t: nat)
    requires ListInv(s, chain) && Enabled(s, CompareExchange(t)) && Succeeds(s, CompareExchange(t))
    ensures var s', chain' := Apply(s, CompareExchange(t)), [s.threads[t].elem] + chain;
      ListInv(s', chain') && Contents(s', chain') == Prepended(Contents(s, chain), s.threads[t].arg)
  {
    var s', chain' := Apply(s, CompareExchange(t)), [s.threads[t].elem] + chain;
    assert Private(s, chain, t);
    assert chain'[1..] == chain;
    forall u | 0 <= u < |s'.threads|
      ensures Private(s', chain', u)
    {
      assert Private(s, chain, u);
      assert if t < u then Separate(s, t, u) else if u < t then Separate(s, u, t) else true;
    }
    forall u, v | 0 <= u < v < |s'.threads|
      ensures Separate(s', u, v)
    {
      assert Separate(s, u, v);
    }
  }

  // ----- every run -----

  lemma InitKeeps(s: State, ps: seq<Address>)
    requires Init(s, ps)
    ensures ListInv(s, ps)
  {
    ChainIn(s.heap, s.head, ps);
  }

  // Who has won is who has returned, each once; arguments never change.
  ghost predicate WinsInv(s0: State, s: State, h: History) {
    |h.fails| == |s.threads| == |s0.threads| &&
    (forall t :: 0 <= t < |s.threads| ==> s.threads[t].arg == s0.threads[t].arg) &&
    (forall t :: 0 <= t < |s.threads| ==> (s.threads[t].pc == Returned <==> t in h.wins)) &&
    (forall i :: 0 <= i < |h.wins| ==> h.wins[i] < |s.threads|) &&
    forall i, j :: 0 <= i < j < |h.wins| ==> h.wins[i] != h.wins[j]
  }

  lemma WinsStep(s0: State, s: State, h: History, e: Event)
    requires WinsInv(s0, s, h) && Enabled(s, e)
    ensures WinsInv(s0, Apply(s, e), Record(h, s, e))
  {
  }

  lemma ArgsSnoc(threads: seq<Thread>, wins: seq<nat>, t: nat)
    requires (forall i :: 0 <= i < |wins| ==> wins[i] < |threads|) && t < |threads|
    ensures Args(threads, wins + [t]) == Args(threads, wins) + [threads[t].arg]
  {
  }

  // In every reachable state the list is finite and acyclic, unpublished nodes
  // are private, and the contents are those of the sequential prepends of the
  // successful exchanges, in order, on the initial list.
  lemma {:induction false} Linearizable(s0: State, ps: seq<Address>, es: seq<Event>)
    requires Init(s0, ps) && Runs(s0, es)
    ensures var s, h := After(s0, es), Told(s0, ps, es);
      ListInv(s, h.chain) && WinsInv(s0, s, h) && ListInv(s0, ps) &&
      Contents(s, h.chain) == PrependAll(Contents(s0, ps), Args(s0.threads, h.wins))
    decreases |es|
  {
    InitKeeps(s0, ps);
    if es != [] {
      var before, e := es[..|es| - 1], es[|es| - 1];
      Linearizable(s0, ps, before);
      var s, h := After(s0, before), Told(s0, ps, before);
      StepKeeps(s, h, e);
      WinsStep(s0, s, h, e);
      if Succeeds(s, e) {
        ArgsSnoc(s0.threads, h.wins, e.t);
      }
    }
  }

  // The list's data are the successful calls' in reverse order, then the
  // initial list's: none lost, none twice.
  lemma {:induction false} PrependAllAt(list: seq<Data>, ds: seq<Data>, i: nat)
    requires i < |ds| + |list|
    ensures |PrependAll(list, ds)| == |ds| + |list|
    ensures PrependAll(list, ds)[i] == if i < |ds| then ds[|ds| - 1 - i] else list[i - |ds|]
  {
    if ds != [] {
      if |ds| + |list| > 1 {
        PrependAllAt(list, ds[..|ds| - 1], if i > 0 then i - 1 else 0);
      } else {
        assert PrependAll(list, ds[..|ds| - 1]) == list;
      }
    }
  }
}
