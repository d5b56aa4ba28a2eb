/**
  The kernel's doubly linked lists, as words in memory: a list and each of its nodes are two
  pointers, and the nodes of a memory pool lie in its free blocks.
 */
module NodeLists {

  /** The bytes of a node: two pointers of four bytes. */
  const NODE_SIZE: nat := 8

  /** Words by address. */
  type Memory = map<int, int>

  function Read(m: Memory, a: int): int {
    if a in m then m[a] else 0
  }

  function Next(m: Memory, node: int): int {
    Read(m, node)
  }

  function Prev(m: Memory, node: int): int {
    Read(m, node + 4)
  }

  // ---------- the operations ----------

  /** `sys_dlist_init`. */
  function InitList(m: Memory, list: int): Memory {
    m[list := list][list + 4 := list]
  }

  /** `sys_dlist_append`, one assignment after the other. */
  function Append(m: Memory, list: int, node: int): Memory {
    var m1 := m[node := list];
    var m2 := m1[node + 4 := Prev(m1, list)];
    var m3 := m2[Prev(m2, list) := node];
    m3[list + 4 := node]
  }

  /** `sys_dlist_remove`. */
  function Remove(m: Memory, node: int): Memory {
    var m1 := m[Prev(m, node) := Next(m, node)];
    m1[Next(m1, node) + 4 := Prev(m1, node)]
  }

  /** `sys_dlist_is_empty`. */
  predicate IsEmpty(m: Memory, list: int) {
    Next(m, list) == list
  }

  /** `sys_dlist_get`: the list without its first node, if it has one. */
  function Get(m: Memory, list: int): Memory {
    if IsEmpty(m, list) then m else Remove(m, Next(m, list))
  }

  // ---------- lists in memory ----------

  /** The members of the ring: the list itself, its nodes, and the list again. */
  function RingAt(list: int, nodes: seq<int>, i: int): int {
    if 1 <= i <= |nodes| then nodes[i - 1] else list
  }

  predicate Link(m: Memory, x: int, y: int) {
    Next(m, x) == y && Prev(m, y) == x
  }

  /** The list has these nodes, in this order, forwards and backwards. */
  ghost predicate Linked(m: Memory, list: int, nodes: seq<int>) {
    forall i :: 0 <= i <= |nodes| ==> Link(m, RingAt(list, nodes, i), RingAt(list, nodes, i + 1))
  }

  /** Two nodes have no word in common. */
  predicate Clear(x: int, y: int) {
    x + NODE_SIZE <= y || y + NODE_SIZE <= x
  }

  ghost predicate AllClear(list: int, nodes: seq<int>) {
    forall i, j :: 0 <= i < j <= |nodes| ==> Clear(RingAt(list, nodes, i), RingAt(list, nodes, j))
  }

  /** Address `a` is in the node `x`. */
  predicate InNode(x: int, a: int) {
    x <= a < x + NODE_SIZE
  }

  ghost predicate InRing(list: int, nodes: seq<int>, a: int) {
    InNode(list, a) || exists i :: 0 <= i < |nodes| && InNode(nodes[i], a)
  }

  /** The words outside a ring are the same in both memories. */
  ghost predicate SameOutside(m: Memory, n: Memory, list: int, nodes: seq<int>) {
    forall a :: !InRing(list, nodes, a) ==> Read(n, a) == Read(m, a)
  }

  lemma InitLinked(m: Memory, list: int)
    ensures Linked(InitList(m, list), list, []) && SameOutside(m, InitList(m, list), list, [])
  {
    assert InNode(list, list) && InNode(list, list + 4);
  }

  /** The head is the first node, and the list is empty exactly if there is none. */
  lemma FirstIs(m: Memory, list: int, nodes: seq<int>)
    requires Linked(m, list, nodes) && AllClear(list, nodes)
    ensures IsEmpty(m, list) <==> nodes == []
    ensures nodes != [] ==> Next(m, list) == nodes[0]
  {
    assert Link(m, RingAt(list, nodes, 0), RingAt(list, nodes, 1));
    assert nodes != [] ==> Clear(RingAt(list, nodes, 0), RingAt(list, nodes, 1));
  }

  lemma AppendIs(m: Memory, list: int, tail: int, node: int)
    requires Prev(m, list) == tail && Clear(list, node) && Clear(tail, node) && (tail == list || Clear(tail, list))
    ensures Append(m, list, node) == m[node := list][node + 4 := tail][tail := node][list + 4 := node]
  {
  }

  /** Appending a node that overlaps no other appends it to the list. */
  lemma AppendLinked(m: Memory, list: int, nodes: seq<int>, node: int)
    requires Linked(m, list, nodes) && AllClear(list, nodes + [node])
    ensures Linked(Append(m, list, node), list, nodes + [node])
    ensures SameOutside(m, Append(m, list, node), list, nodes + [node])
  {
    var all, n, last := nodes + [node], Append(m, list, node), |nodes|;
    var tail := RingAt(list, nodes, last);
    assert Link(m, tail, RingAt(list, nodes, last + 1));
    RingClear(list, all, 0, last + 1);
    RingClear(list, all, last, last + 1);
    RingClear(list, all, 0, last);
    AppendIs(m, list, tail, node);
    forall i | 0 <= i <= |all| ensures Link(n, RingAt(list, all, i), RingAt(list, all, i + 1)) {
      if i < last {
        OldLink(m, list, nodes, node, i, tail);
      }
    }
    assert InNode(all[last], node) && InNode(all[last], node + 4);
    assert last > 0 ==> InNode(all[last - 1], tail);
  }

  /** The links between the nodes that were there before. */
  lemma OldLink(m: Memory, list: int, nodes: seq<int>, node: int, i: nat, tail: int)
    requires Linked(m, list, nodes) && AllClear(list, nodes + [node]) && i < |nodes| && tail == RingAt(list, nodes, |nodes|)
    ensures var all := nodes + [node];
            Link(m[node := list][node + 4 := tail][tail := node][list + 4 := node], RingAt(list, all, i), RingAt(list, all, i + 1))
  {
    var all, last := nodes + [node], |nodes|;
    RingClear(list, all, i, last + 1);
    RingClear(list, all, i + 1, last + 1);
    RingClear(list, all, i, last);
    RingClear(list, all, 0, i);
    RingClear(list, all, 0, i + 1);
    RingClear(list, all, i + 1, last);
    assert Link(m, RingAt(list, nodes, i), RingAt(list, nodes, i + 1));
  }

  lemma RingClear(list: int, nodes: seq<int>, i: nat, j: nat)
    requires AllClear(list, nodes) && i <= |nodes| && j <= |nodes|
    ensures i == j || Clear(RingAt(list, nodes, i), RingAt(list, nodes, j))
  {
    if i < j {
      assert Clear(RingAt(list, nodes, i), RingAt(list, nodes, j));
    } else if j < i {
      assert Clear(RingAt(list, nodes, j), RingAt(list, nodes, i));
    }
  }

  function Without(nodes: seq<int>, k: nat): seq<int>
    requires k < |nodes|
  {
    nodes[..k] + nodes[k + 1..]
  }

  lemma RemoveIs(m: Memory, before: int, node: int, after: int)
    requires Link(m, before, node) && Link(m, node, after) && Clear(before, node)
    ensures Remove(m, node) == m[before := after][after + 4 := before]
  {
  }

  /** Removing a node takes it out of the list and does not write to the node itself. */
  lemma RemoveLinked(m: Memory, list: int, nodes: seq<int>, k: nat)
    requires Linked(m, list, nodes) && AllClear(list, nodes) && k < |nodes|
    ensures Linked(Remove(m, nodes[k]), list, Without(nodes, k))
    ensures SameOutside(m, Remove(m, nodes[k]), list, Without(nodes, k))
  {
    var rest, n := Without(nodes, k), Remove(m, nodes[k]);
    var before, after := RingAt(list, nodes, k), RingAt(list, nodes, k + 2);
    assert Link(m, before, RingAt(list, nodes, k + 1)) && Link(m, RingAt(list, nodes, k + 1), after);
    RingClear(list, nodes, k, k + 1);
    RemoveIs(m, before, nodes[k], after);
    forall i | 0 <= i <= |rest| ensures Link(n, RingAt(list, rest, i), RingAt(list, rest, i + 1)) {
      var j := if i <= k then i else i + 1;
      RemovedLink(m, list, nodes, k, i, j);
    }
    assert k > 0 ==> InNode(rest[k - 1], before);
    assert k < |rest| ==> InNode(rest[k], after + 4);
  }

  /** The link at position `i` of the shorter ring, which was at `j`. */
  lemma RemovedLink(m: Memory, list: int, nodes: seq<int>, k: nat, i: nat, j: nat)
    requires Linked(m, list, nodes) && AllClear(list, nodes) && k < |nodes| && i < |nodes|
    requires j == if i <= k then i else i + 1
    ensures var rest := Without(nodes, k);
            var before, after := RingAt(list, nodes, k), RingAt(list, nodes, k + 2);
            Link(m[before := after][after + 4 := before], RingAt(list, rest, i), RingAt(list, rest, i + 1))
  {
    var rest, next := Without(nodes, k), if k + 2 <= |nodes| then k + 2 else 0;
    var to := if j + 1 <= |nodes| then j + 1 else 0;
    assert RingAt(list, rest, i) == RingAt(list, nodes, j);
    if i != k {
      assert RingAt(list, rest, i + 1) == RingAt(list, nodes, j + 1) == RingAt(list, nodes, to);
      assert Link(m, RingAt(list, nodes, j), RingAt(list, nodes, j + 1));
      RingClear(list, nodes, j, k);
      RingClear(list, nodes, j, next);
      RingClear(list, nodes, to, k);
      RingClear(list, nodes, to, next);
    } else {
      assert RingAt(list, rest, i + 1) == RingAt(list, nodes, k + 2);
      RingClear(list, nodes, k, next);
    }
  }

  /** A list is where it was if none of its words changed. */
  lemma StillLinked(m: Memory, n: Memory, list: int, nodes: seq<int>)
    requires Linked(m, list, nodes) && forall a :: InRing(list, nodes, a) ==> Read(n, a) == Read(m, a)
    ensures Linked(n, list, nodes)
  {
    forall i | 0 <= i <= |nodes| ensures Link(n, RingAt(list, nodes, i), RingAt(list, nodes, i + 1)) {
      var x, y := RingAt(list, nodes, i), RingAt(list, nodes, i + 1);
      assert Link(m, x, y);
      assert InRing(list, nodes, x) by {
        assert InNode(x, x);
        assert 1 <= i ==> nodes[i - 1] == x;
      }
      assert InRing(list, nodes, y + 4) by {
        assert InNode(y, y + 4);
        assert i < |nodes| ==> nodes[i] == y;
      }
    }
  }
}
