/** Intrusive circular doubly linked lists with a head that carries no content. */
module LinkedList {
  import opened Bits
  import opened Tables

  /** A list object with the content of a hash node; list heads leave the content unused. */
  class Node {
    var next: Node?
    var prev: Node?
    var key: seq<u8>
    var value: seq<u8>

    constructor ()
      ensures next == null && prev == null
    {
      next, prev, key, value := null, null, [], [];
    }
  }

  /** Position i of the cycle that starts at the head and comes back to it. */
  function At(h: Node, ns: seq<Node>, i: nat): Node
    requires i <= |ns| + 1
  {
    if i == 0 || i == |ns| + 1 then h else ns[i - 1]
  }

  /** The links between positions i and i + 1, both ways. */
  ghost predicate Linked(h: Node, ns: seq<Node>, i: nat)
    requires i <= |ns|
    reads h`next, h`prev, ns`next, ns`prev
  {
    At(h, ns, i).next == At(h, ns, i + 1) && At(h, ns, i + 1).prev == At(h, ns, i)
  }

  /** The list headed by h is the cycle through ns, and the prev links run it backwards. */
  ghost predicate Ring(h: Node, ns: seq<Node>)
    reads h`next, h`prev, ns`next, ns`prev
  {
    h !in ns && Distinct(ns) && forall i :: 0 <= i <= |ns| ==> Linked(h, ns, i)
  }

  /** ODPH_INIT_LIST_HEAD */
  method InitHead(h: Node)
    modifies h
    ensures h.next == h && h.prev == h && h.key == old(h.key) && h.value == old(h.value)
    ensures Ring(h, [])
  {
    h.next := h;
    h.prev := h;
  }

  /** odph_list_add: the new object goes right behind the head. */
  method Add(n: Node, h: Node, ghost ns: seq<Node>)
    requires Ring(h, ns) && n != h && n !in ns
    modifies n`next, n`prev, h`next, At(h, ns, 1)`prev
    ensures Ring(h, [n] + ns)
  {
    assert Linked(h, ns, 0);
    var after := h.next;
    after.prev := n;
    n.next := after;
    n.prev := h;
    h.next := n;
    ghost var ms := [n] + ns;
    forall i | 0 <= i <= |ms| ensures Linked(h, ms, i) {
      if i >= 2 { assert old(Linked(h, ns, i - 1)); }
    }
  }

  /** odph_list_del */
  method Del(ghost h: Node, ghost ns: seq<Node>, ghost k: nat, e: Node)
    requires Ring(h, ns) && k < |ns| && e == ns[k]
    modifies At(h, ns, k)`next, At(h, ns, k + 2)`prev, e`next, e`prev
    ensures Ring(h, ns[..k] + ns[k + 1..]) && e.next == e && e.prev == e
  {
    assert Linked(h, ns, k) && Linked(h, ns, k + 1);
    var before, after := e.prev, e.next;
    after.prev := before;
    before.next := after;
    e.next := e;
    e.prev := e;
    ghost var ms := ns[..k] + ns[k + 1..];
    Without(ns, k);
    forall i | 0 <= i <= |ms| ensures Linked(h, ms, i) {
      if i < k { assert old(Linked(h, ns, i)); }
      if i > k { assert old(Linked(h, ns, i + 1)); }
    }
  }

  lemma Without(ns: seq<Node>, k: nat)
    requires Distinct(ns) && k < |ns|
    ensures Distinct(ns[..k] + ns[k + 1..]) && ns[k] !in ns[..k] + ns[k + 1..]
    ensures forall n :: n in ns[..k] + ns[k + 1..] <==> n in ns && n != ns[k]
  {
    var ms := ns[..k] + ns[k + 1..];
    forall i | 0 <= i < |ns| && i != k ensures ns[i] in ms {
      assert ns[i] == ms[if i < k then i else i - 1];
    }
  }

  /** ODPH_LIST_FOR_EACH with a key comparison: the first object of the list that has the key. */
  method Search(h: Node, ghost ns: seq<Node>, key: seq<u8>) returns (node: Node?, ghost at: nat)
    requires Ring(h, ns)
    ensures node == null ==> forall n :: n in ns ==> n.key != key
    ensures node != null ==> at < |ns| && ns[at] == node && node.key == key
  {
    assert Linked(h, ns, 0);
    var n: Node? := h.next;
    at := 0;
    while n != h
      invariant at <= |ns| && n == At(h, ns, at + 1)
      invariant forall j :: 0 <= j < at ==> ns[j].key != key
      decreases |ns| - at
    {
      if n.key == key {
        return n, at;
      }
      assert Linked(h, ns, at + 1);
      n := n.next;
      at := at + 1;
    }
    node := null;
  }

  /** odph_list_del and the clearing of the links that follows it when a node is given back. */
  method Detach(ghost h: Node, ghost ns: seq<Node>, ghost k: nat, e: Node)
    requires Ring(h, ns) && k < |ns| && e == ns[k]
    modifies At(h, ns, k)`next, At(h, ns, k + 2)`prev, e`next, e`prev
    ensures Ring(h, ns[..k] + ns[k + 1..]) && e.next == null && e.prev == null
  {
    Without(ns, k);
    Del(h, ns, k, e);
    hide Ring;
    e.next, e.prev := null, null;
  }
}
