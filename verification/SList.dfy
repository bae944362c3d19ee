// The sequential singly linked list.
module SList {

  // Data pointers; 0 is NULL.
  type Data = nat

  // What prepending means for the list's contents.
  function Prepended(list: seq<Data>, data: Data): seq<Data> {
    [data] + list
  }

  class Node {
    var data: Data
    var next: Node?

    constructor (data: Data, next: Node?)
      ensures this.data == data && this.next == next
    {
      this.data, this.next := data, next;
    }
  }

  // The nodes from head to NULL, in order.
  ghost predicate Linked(head: Node?, nodes: seq<Node>)
    reads nodes
  {
    if nodes == [] then head == null else head == nodes[0] && Linked(nodes[0].next, nodes[1..])
  }

  ghost function Datas(nodes: seq<Node>): (s: seq<Data>)
    reads nodes
    ensures |s| == |nodes|
  {
    if nodes == [] then [] else [nodes[0].data] + Datas(nodes[1..])
  }

  // A list head that operations update through its address.
  class List {
    var head: Node?
    ghost var nodes: seq<Node>
    ghost var live: set<Node>  // allocated for the list and not freed

    ghost predicate Valid()
      reads this, nodes
    {
      Linked(head, nodes) && live == (set n | n in nodes) &&
      forall i, j :: 0 <= i < j < |nodes| ==> nodes[i] != nodes[j]
    }

    ghost function Contents(): seq<Data>
      reads this, nodes
    {
      Datas(nodes)
    }

    constructor ()
      ensures Valid() && Contents() == []
    {
      head, nodes, live := null, [], {};
    }

    method Length() returns (n: nat)
      requires Valid()
      ensures n == |Contents()|
    {
      n := 0;
      var list := head;
      ghost var rest := nodes;
      while list != null
        invariant Linked(list, rest) && n + |rest| == |nodes|
        decreases |rest|
      {
        n := n + 1;
        list, rest := list.next, rest[1..];
      }
    }

    method Prepend(data: Data)
      requires Valid()
      modifies this
      ensures Valid() && Contents() == Prepended(old(Contents()), data)
      ensures nodes != [] && nodes[1..] == old(nodes) && fresh(nodes[0]) && live == old(live) + {nodes[0]}
    {
      var elem := new Node(data, head);
      head := elem;
      nodes, live := [elem] + nodes, live + {elem};
      assert nodes[1..] == old(nodes);
    }

    // Remove and free the first node and return its data; NULL when the list is
    // empty.
    method Pop() returns (data: Data)
      requires Valid()
      modifies this
      ensures Valid()
      ensures old(nodes) == [] ==> data == 0 && nodes == [] && live == {}
      ensures old(nodes) != [] ==> old(Contents()) == Prepended(Contents(), data) && nodes == old(nodes)[1..]
      ensures old(nodes) != [] ==> old(nodes)[0] in old(live) && live == old(live) - {old(nodes)[0]}
    {
      if head == null {
        return 0;
      }
      var oldList := head;
      head := oldList.next;
      data := oldList.data;
      live, nodes := live - {oldList}, nodes[1..];
    }

    // A pop undoes a prepend and leaves no node allocated.
    method PrependThenPop(data: Data) returns (popped: Data)
      requires Valid()
      modifies this
      ensures Valid() && popped == data && Contents() == old(Contents()) && live == old(live)
    {
      ghost var before := Contents();
      Prepend(data);
      popped := Pop();
      assert Prepended(before, data)[1..] == before && Prepended(Contents(), popped)[1..] == Contents();
    }
  }
}
