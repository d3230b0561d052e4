/** The doubly linked list under every queue of the loop. `nodes` is the list as a
    sequence; each operation on the pointers is an operation on that sequence. */
module HeapList {
  import opened Sequences

  class Node<T> {
    var prev: Node?<T>
    var next: Node?<T>
    const data: T
    /** The position of the node in its list. */
    ghost var index: int

    constructor (data: T)
      ensures this.data == data && prev == null && next == null
    {
      this.data := data;
      prev, next := null, null;
    }
  }

  // ----- chains of nodes -----

  function PrevOf<T>(ns: seq<Node<T>>, i: nat): Node?<T>
    requires i <= |ns|
  {
    if i == 0 then null else ns[i - 1]
  }

  function NextOf<T>(ns: seq<Node<T>>, i: int): Node?<T>
    requires -1 <= i < |ns|
  {
    if i + 1 < |ns| then ns[i + 1] else null
  }

  /** The pointers of the nodes follow the sequence in both directions. */
  ghost predicate PrevChain<T>(ns: seq<Node<T>>)
    reads ns`prev
  {
    forall i {:trigger ns[i].prev} :: 0 <= i < |ns| ==> ns[i].prev == PrevOf(ns, i)
  }

  ghost predicate NextChain<T>(ns: seq<Node<T>>)
    reads ns`next
  {
    forall i {:trigger ns[i].next} :: 0 <= i < |ns| ==> ns[i].next == NextOf(ns, i)
  }

  ghost predicate Numbered<T>(ns: seq<Node<T>>)
    reads ns`index
  {
    forall i :: 0 <= i < |ns| ==> ns[i].index == i
  }

  /** The pointers after `n` was linked in at index `k`. */
  ghost predicate PrevChainWith<T>(ns: seq<Node<T>>, k: nat, n: Node<T>)
    requires k <= |ns|
    reads ns`prev, n`prev
  {
    && (forall i {:trigger ns[i].prev} :: 0 <= i < |ns| ==> ns[i].prev == if i == k then n else PrevOf(ns, i))
    && n.prev == PrevOf(ns, k)
  }

  ghost predicate NextChainWith<T>(ns: seq<Node<T>>, k: nat, n: Node<T>)
    requires k <= |ns|
    reads ns`next, n`next
  {
    && (forall i {:trigger ns[i].next} :: 0 <= i < |ns| ==> ns[i].next == if i == k - 1 then n else NextOf(ns, i))
    && n.next == NextOf(ns, k - 1)
  }

  lemma ChainedAfterInsert<T>(ns: seq<Node<T>>, k: nat, n: Node<T>, r: seq<Node<T>>)
    requires IsInsert(ns, k, n, r) && PrevChainWith(ns, k, n) && NextChainWith(ns, k, n)
    ensures PrevChain(r) && NextChain(r)
  {
    forall i | 0 <= i < |r|
      ensures r[i].prev == PrevOf(r, i)
    {
      assert r[i] == if i < k then ns[i] else if i == k then n else ns[i - 1];
    }
    forall i | 0 <= i < |r|
      ensures r[i].next == NextOf(r, i)
    {
      assert r[i] == if i < k then ns[i] else if i == k then n else ns[i - 1];
    }
  }

  /** The pointers after the node at index `k` was linked out. */
  ghost predicate PrevChainWithout<T>(ns: seq<Node<T>>, k: nat)
    requires k < |ns|
    reads ns`prev
  {
    && (forall i {:trigger ns[i].prev} :: 0 <= i < |ns| && i != k && i != k + 1 ==> ns[i].prev == PrevOf(ns, i))
    && (k + 1 < |ns| ==> ns[k + 1].prev == PrevOf(ns, k))
  }

  ghost predicate NextChainWithout<T>(ns: seq<Node<T>>, k: nat)
    requires k < |ns|
    reads ns`next
  {
    && (forall i {:trigger ns[i].next} :: 0 <= i < |ns| && i != k && i != k - 1 ==> ns[i].next == NextOf(ns, i))
    && (k > 0 ==> ns[k - 1].next == NextOf(ns, k))
  }

  lemma ChainedAfterDelete<T>(ns: seq<Node<T>>, k: nat, r: seq<Node<T>>)
    requires IsDelete(ns, k, r) && PrevChainWithout(ns, k) && NextChainWithout(ns, k)
    ensures PrevChain(r) && NextChain(r)
  {
    forall i | 0 <= i < |r|
      ensures r[i].prev == PrevOf(r, i)
    {
      assert r[i] == if i < k then ns[i] else ns[i + 1];
    }
    forall i | 0 <= i < |r|
      ensures r[i].next == NextOf(r, i)
    {
      assert r[i] == if i < k then ns[i] else ns[i + 1];
    }
  }

  lemma EndsAfterInsert<T>(ns: seq<Node<T>>, k: nat, n: Node<T>, r: seq<Node<T>>, nodes: set<Node<T>>)
    requires IsInsert(ns, k, n, r) && forall i :: 0 <= i < |ns| ==> ns[i] in nodes
    ensures NextOf(r, -1) == if k == 0 then n else NextOf(ns, -1)
    ensures PrevOf(r, |r|) == if k == |ns| then n else PrevOf(ns, |ns|)
    ensures forall i :: 0 <= i < |r| ==> r[i] in nodes + {n}
  {
    assert forall i :: 0 <= i < |r| ==> r[i] == if i < k then ns[i] else if i == k then n else ns[i - 1];
  }

  lemma DistinctAfterInsert<T>(ns: seq<Node<T>>, k: nat, n: Node<T>, r: seq<Node<T>>)
    requires IsInsert(ns, k, n, r) && Numbered(ns) && n !in ns
    ensures Distinct(r)
  {
    assert forall i :: 0 <= i < |r| && i != k ==> r[i].index == (if i < k then i else i - 1) && r[i] in ns;
  }

  lemma EndsAfterDelete<T>(ns: seq<Node<T>>, k: nat, r: seq<Node<T>>, nodes: set<Node<T>>)
    requires IsDelete(ns, k, r) && forall i :: 0 <= i < |ns| ==> ns[i] in nodes
    ensures NextOf(r, -1) == NextOf(ns, if k == 0 then 0 else -1)
    ensures PrevOf(r, |r|) == PrevOf(ns, if k == |ns| - 1 then k else |ns|)
    ensures forall i :: 0 <= i < |r| ==> r[i] in nodes
  {
    assert forall i :: 0 <= i < |r| ==> r[i] == if i < k then ns[i] else ns[i + 1];
  }

  lemma DistinctAfterDelete<T>(ns: seq<Node<T>>, k: nat, r: seq<Node<T>>)
    requires IsDelete(ns, k, r) && Numbered(ns)
    ensures Distinct(r)
  {
    assert forall i :: 0 <= i < |r| ==> r[i].index == if i < k then i else i + 1;
  }

  ghost method Renumber<T>(ns: seq<Node<T>>)
    requires Distinct(ns)
    modifies ns`index
    ensures Numbered(ns)
  {
    forall i | 0 <= i < |ns| {
      ns[i].index := i;
    }
  }

  function DataOf<T>(ns: seq<Node<T>>): (s: seq<T>)
    ensures |s| == |ns| && forall i :: 0 <= i < |ns| ==> s[i] == ns[i].data
  {
    seq(|ns|, i requires 0 <= i < |ns| => ns[i].data)
  }

  // ----- matching -----

  /** How an element is compared with the data searched for: by a callback that
      returns 0 on a match, or, without one, by identity. */
  datatype Comparison<!T(==)> = ByIdentity | By(cmp: (T, T) -> int) {
    predicate Matches(x: T, data: T) {
      match this
      case ByIdentity => x == data
      case By(cmp) => cmp(x, data) == 0
    }
  }

  /** The elements that do not match, in order. */
  function Keep<T(==)>(s: seq<T>, c: Comparison<T>, data: T): seq<T> {
    if s == [] then [] else (if c.Matches(s[0], data) then [] else [s[0]]) + Keep(s[1..], c, data)
  }

  /** What is kept are the elements that are not what was searched for: different data, or
      data for which the callback does not return 0. */
  lemma {:induction false} KeepIsFilter<T>(s: seq<T>, c: Comparison<T>, data: T)
    ensures forall x :: x in Keep(s, c, data) <==>
              x in s && if c.ByIdentity? then x != data else c.cmp(x, data) != 0
    ensures forall x :: x in Keep(s, c, data) ==> multiset(Keep(s, c, data))[x] == multiset(s)[x]
  {
    if s != [] {
      KeepIsFilter(s[1..], c, data);
      var rest := Keep(s[1..], c, data);
      assert s == [s[0]] + s[1..] && [] + rest == rest;
      assert multiset(s) == multiset([s[0]]) + multiset(s[1..]);
    }
  }

  /** And they keep their order. */
  lemma {:induction false} KeepAppend<T>(a: seq<T>, b: seq<T>, c: Comparison<T>, data: T)
    ensures Keep(a + b, c, data) == Keep(a, c, data) + Keep(b, c, data)
  {
    if a == [] {
      assert a + b == b;
    } else {
      assert (a + b)[1..] == a[1..] + b;
      KeepAppend(a[1..], b, c, data);
    }
  }

  /** The removal loop on sequences: position `b` onwards is still to be searched. */
  ghost function KeepFrom<T>(s: seq<T>, b: nat, c: Comparison<T>, data: T): seq<T>
    requires b <= |s|
    decreases |s| - b
  {
    if b == |s| then s
    else if c.Matches(s[b], data) then KeepFrom(DeleteAt(s, b), b, c, data)
    else KeepFrom(s, b + 1, c, data)
  }

  lemma {:induction false} KeepFromSkip<T>(s: seq<T>, b: nat, m: nat, c: Comparison<T>, data: T)
    requires b <= m <= |s|
    requires forall i :: b <= i < m ==> !c.Matches(s[i], data)
    ensures KeepFrom(s, b, c, data) == KeepFrom(s, m, c, data)
    decreases m - b
  {
    if b < m {
      KeepFromSkip(s, b + 1, m, c, data);
    }
  }

  lemma KeepFromNext<T>(s: seq<T>, b: nat, m: nat, c: Comparison<T>, data: T)
    requires b <= m <= |s|
    requires forall i :: b <= i < m ==> !c.Matches(s[i], data)
    requires m < |s| ==> c.Matches(s[m], data)
    ensures KeepFrom(s, b, c, data) == KeepFrom(if m < |s| then DeleteAt(s, m) else s, m, c, data)
  {
    KeepFromSkip(s, b, m, c, data);
  }

  lemma {:induction false} KeepFromIsKeep<T>(s: seq<T>, b: nat, c: Comparison<T>, data: T)
    requires b <= |s|
    ensures KeepFrom(s, b, c, data) == s[..b] + Keep(s[b..], c, data)
    decreases |s| - b
  {
    if b < |s| {
      if c.Matches(s[b], data) {
        KeepFromIsKeep(DeleteAt(s, b), b, c, data);
        assert DeleteAt(s, b)[..b] == s[..b] && DeleteAt(s, b)[b..] == s[b..][1..];
      } else {
        KeepFromIsKeep(s, b + 1, c, data);
        assert s[b + 1..] == s[b..][1..] && s[..b + 1] == s[..b] + [s[b]];
      }
    }
  }

  lemma KeepFromStart<T>(s: seq<T>, c: Comparison<T>, data: T)
    ensures KeepFrom(s, 0, c, data) == Keep(s, c, data)
  {
    KeepFromIsKeep(s, 0, c, data);
    assert s[0..] == s;
  }

  /** A count as an `unsigned int`. */
  function Wrap32(n: nat): nat {
    n % 0x1_0000_0000
  }

  function Increment32(n: nat): nat {
    (n + 1) % 0x1_0000_0000
  }

  lemma CountUp(n: nat)
    ensures Increment32(Wrap32(n)) == Wrap32(n + 1)
  {
  }

  lemma DataOfDelete<T>(ns: seq<Node<T>>, i: nat, r: seq<Node<T>>)
    requires IsDelete(ns, i, r)
    ensures DataOf(r) == DeleteAt(DataOf(ns), i)
  {
  }

  lemma DataOfInsert<T>(ns: seq<Node<T>>, i: nat, n: Node<T>, r: seq<Node<T>>)
    requires IsInsert(ns, i, n, r)
    ensures DataOf(r) == InsertAt(DataOf(ns), i, n.data)
  {
  }

  // ----- the list -----

  class List<T(==)> {
    var head: Node?<T>
    var tail: Node?<T>
    var length: nat
    ghost var nodes: seq<Node<T>>
    /** Every node that is or was in the list. */
    ghost var Repr: set<Node<T>>

    ghost predicate Valid()
      reads this, Repr
    {
      && (forall i :: 0 <= i < |nodes| ==> nodes[i] in Repr)
      && Numbered(nodes) && PrevChain(nodes) && NextChain(nodes)
      && head == NextOf(nodes, -1)
      && tail == PrevOf(nodes, |nodes|)
      && length == |nodes|
    }

    ghost predicate Has(n: Node<T>)
      reads this, n
    {
      0 <= n.index < |nodes| && nodes[n.index] == n
    }

    ghost function Contents(): seq<T>
      reads this
    {
      DataOf(nodes)
    }

    constructor ()
      ensures Valid() && nodes == [] && Repr == {}
    {
      head, tail, length := null, null, 0;
      nodes, Repr := [], {};
    }

    /** Inserts before `pos`, or into the empty list. With no position in a list that is not
        empty, the new node is counted but not linked in. */
    method AppendBefore(data: T, pos: Node?<T>) returns (r: int, ghost n: Node<T>)
      requires Valid()
      requires pos != null ==> Has(pos)
      modifies this, Repr
      ensures fresh(n) && n.data == data && r == 0
      ensures Valid() <==> pos != null || old(nodes) == []
      ensures Valid() ==> Repr == old(Repr) + {n}
      ensures Valid() ==> IsInsert(old(nodes), if pos == null then 0 else old(pos.index), n, nodes)
      ensures !Valid() ==> Repr == old(Repr) && nodes == old(nodes) && length == |nodes| + 1
    {
      ghost var i := if pos == null then 0 else pos.index;
      var node := new Node(data);
      LinkBefore(node, pos);
      if head == pos {
        head := node;
      }
      if tail == null {
        tail := node;
      }
      length := length + 1;
      if pos != null || nodes == [] {
        ghost var all := Inserted(nodes, i, node);
        LinkedIn(i, node, all);
      }
      r, n := 0, node;
    }

    /** The pointers between `node` and the neighbours it gets before `pos`. */
    method LinkBefore(node: Node<T>, pos: Node?<T>)
      requires Valid() && node !in nodes && (pos != null ==> Has(pos))
      modifies nodes`prev, nodes`next, node`prev, node`next
      ensures pos != null ==> PrevChainWith(nodes, pos.index, node) && NextChainWith(nodes, pos.index, node)
      ensures pos == null && nodes == [] ==> PrevChainWith(nodes, 0, node) && NextChainWith(nodes, 0, node)
    {
      if pos != null && pos.prev != null {
        pos.prev.next := node;
      }
      node.prev := if pos != null then pos.prev else null;
      node.next := pos;
      if pos != null {
        pos.prev := node;
      }
    }

    /** Inserts after `pos`, or into the empty list, with the same exception. */
    method AppendAfter(data: T, pos: Node?<T>) returns (r: int, ghost n: Node<T>)
      requires Valid()
      requires pos != null ==> Has(pos)
      modifies this, Repr
      ensures fresh(n) && n.data == data && r == 0
      ensures Valid() <==> pos != null || old(nodes) == []
      ensures Valid() ==> Repr == old(Repr) + {n}
      ensures Valid() ==> IsInsert(old(nodes), if pos == null then 0 else old(pos.index) + 1, n, nodes)
      ensures !Valid() ==> Repr == old(Repr) && nodes == old(nodes) && length == |nodes| + 1
    {
      ghost var i := if pos == null then 0 else pos.index + 1;
      var node := new Node(data);
      LinkAfter(node, pos);
      if head == null {
        head := node;
      }
      if tail == pos {
        tail := node;
      }
      length := length + 1;
      if pos != null || nodes == [] {
        ghost var all := Inserted(nodes, i, node);
        LinkedIn(i, node, all);
      }
      r, n := 0, node;
    }

    /** The pointers between `node` and the neighbours it gets after `pos`. */
    method LinkAfter(node: Node<T>, pos: Node?<T>)
      requires Valid() && node !in nodes && (pos != null ==> Has(pos))
      modifies nodes`prev, nodes`next, node`prev, node`next
      ensures pos != null ==> PrevChainWith(nodes, pos.index + 1, node) && NextChainWith(nodes, pos.index + 1, node)
      ensures pos == null && nodes == [] ==> PrevChainWith(nodes, 0, node) && NextChainWith(nodes, 0, node)
    {
      if pos != null && pos.next != null {
        pos.next.prev := node;
      }
      node.prev := pos;
      node.next := if pos != null then pos.next else null;
      if pos != null {
        pos.next := node;
      }
    }

    /** Takes up a node that the pointers already link in at index `i`. */
    ghost method LinkedIn(i: nat, node: Node<T>, r: seq<Node<T>>)
      requires IsInsert(nodes, i, node, r) && length == |nodes| + 1 && node !in nodes
      requires (forall j :: 0 <= j < |nodes| ==> nodes[j] in Repr) && Numbered(nodes)
      requires PrevChainWith(nodes, i, node) && NextChainWith(nodes, i, node)
      requires head == if i == 0 then node else NextOf(nodes, -1)
      requires tail == if i == |nodes| then node else PrevOf(nodes, |nodes|)
      modifies `nodes, `Repr, nodes`index, node`index
      ensures nodes == r && Repr == old(Repr) + {node}
      ensures Valid()
    {
      ChainedAfterInsert(nodes, i, node, r);
      DistinctAfterInsert(nodes, i, node, r);
      EndsAfterInsert(nodes, i, node, r, Repr);
      nodes, Repr := r, Repr + {node};
      Renumber(nodes);
    }

    method Append(data: T) returns (r: int, ghost n: Node<T>)
      requires Valid()
      modifies this, Repr
      ensures Valid() && fresh(n) && n.data == data && Repr == old(Repr) + {n}
      ensures IsInsert(old(nodes), |old(nodes)|, n, nodes)
      ensures r == 0
    {
      r, n := AppendAfter(data, tail);
    }

    /** Unlinks `node`; a null node is refused. */
    method RemoveNode(node: Node?<T>) returns (r: int)
      requires Valid()
      requires node != null ==> Has(node)
      modifies this, Repr
      ensures Valid() && Repr == old(Repr)
      ensures if node == null then nodes == old(nodes) else IsDelete(old(nodes), old(node.index), nodes)
      ensures r == if node == null then 0 else 1
    {
      if node == null {
        return 0;
      }
      Unlink(node, node.index);
      r := 1;
    }

    method Unlink(node: Node<T>, ghost i: nat)
      requires Valid() && i < |nodes| && nodes[i] == node
      modifies this, Repr
      ensures Valid() && Repr == old(Repr) && IsDelete(old(nodes), i, nodes)
    {
      Detach(node, i);
      ghost var rest := Deleted(nodes, i);
      LinkedOut(i, rest);
    }

    method Detach(node: Node<T>, ghost i: nat)
      requires Valid() && i < |nodes| && nodes[i] == node
      modifies `head, `tail, `length, nodes`prev, nodes`next
      ensures PrevChainWithout(nodes, i) && NextChainWithout(nodes, i) && length == |nodes| - 1
      ensures head == NextOf(nodes, if i == 0 then 0 else -1)
      ensures tail == PrevOf(nodes, if i == |nodes| - 1 then i else |nodes|)
    {
      var prev, next := node.prev, node.next;
      Bypass(node, prev, next);
      if head == node {
        head := next;
      }
      if tail == node {
        tail := prev;
      }
      if length > 0 {
        length := length - 1;
      }
    }

    /** The pointers of the neighbours of `node`, which lead past it. */
    method Bypass(node: Node<T>, prev: Node?<T>, next: Node?<T>)
      requires Valid() && Has(node) && prev == node.prev && next == node.next
      modifies nodes`prev, nodes`next
      ensures PrevChainWithout(nodes, node.index) && NextChainWithout(nodes, node.index)
    {
      if prev != null {
        prev.next := next;
      }
      if next != null {
        next.prev := prev;
      }
    }

    /** Drops the node at index `i`, which the pointers already bypass. */
    ghost method LinkedOut(i: nat, r: seq<Node<T>>)
      requires IsDelete(nodes, i, r) && length == |nodes| - 1
      requires (forall j :: 0 <= j < |nodes| ==> nodes[j] in Repr) && Numbered(nodes)
      requires PrevChainWithout(nodes, i) && NextChainWithout(nodes, i)
      requires head == NextOf(nodes, if i == 0 then 0 else -1)
      requires tail == PrevOf(nodes, if i == |nodes| - 1 then i else |nodes|)
      modifies `nodes, nodes`index
      ensures nodes == r
      ensures Valid()
    {
      ChainedAfterDelete(nodes, i, r);
      DistinctAfterDelete(nodes, i, r);
      EndsAfterDelete(nodes, i, r, Repr);
      nodes := r;
      Renumber(nodes);
    }

    /** The first match at or after `begin`. */
    method FindBegin(begin: Node?<T>, data: T, c: Comparison<T>) returns (found: Node?<T>)
      requires Valid()
      requires begin != null ==> Has(begin)
      ensures found != null ==> begin != null && Has(found) && begin.index <= found.index && c.Matches(found.data, data)
      ensures begin != null ==>
                var end := if found == null then |nodes| else found.index;
                forall i :: begin.index <= i < end ==> !c.Matches(nodes[i].data, data)
    {
      found := begin;
      while found != null
        invariant found != null ==> begin != null && Has(found) && begin.index <= found.index
        invariant begin != null ==>
                    var end := if found == null then |nodes| else found.index;
                    forall i :: begin.index <= i < end ==> !c.Matches(nodes[i].data, data)
        decreases if found == null then 0 else |nodes| - found.index
      {
        if c.Matches(found.data, data) {
          return;
        }
        assert found.next == NextOf(nodes, found.index);
        found := found.next;
      }
    }

    /** One round of the removal loop: find the next match, save its successor, unlink it. */
    method RemoveNext(begin: Node<T>, data: T, c: Comparison<T>) returns (found: bool, next: Node?<T>, ghost m: nat)
      requires Valid() && Has(begin)
      modifies this, Repr
      ensures Valid() && Repr == old(Repr)
      ensures |nodes| == |old(nodes)| - if found then 1 else 0
      ensures old(begin.index) <= m <= |nodes| && next == NextOf(nodes, m - 1)
      ensures !found ==> m == |nodes|
      ensures KeepFrom(Contents(), m, c, data) == KeepFrom(old(Contents()), old(begin.index), c, data)
    {
      var node := FindBegin(begin, data, c);
      ghost var was := nodes;
      m := if node == null then |nodes| else node.index;
      KeepFromNext(Contents(), begin.index, m, c, data);
      found, next := node != null, null;
      if found {
        next := node.next;
        var _ := RemoveNode(node);
        DataOfDelete(was, m, nodes);
      }
    }

    /** Removes every match, resuming each time from the saved successor. */
    method RemoveData(data: T, c: Comparison<T>) returns (r: nat)
      requires Valid()
      modifies this, Repr
      ensures Valid() && Repr == old(Repr)
      ensures |Contents()| <= |old(Contents())| && Contents() == Keep(old(Contents()), c, data)
      ensures r == (|old(Contents())| - |Contents()|) % 0x1_0000_0000
    {
      r := 0;
      ghost var orig, b, removed: nat := Contents(), 0, 0;
      var begin := head;
      while begin != null
        invariant Valid() && Repr == old(Repr)
        invariant 0 <= b <= |nodes| && begin == NextOf(nodes, b - 1)
        invariant KeepFrom(Contents(), b, c, data) == KeepFrom(orig, 0, c, data)
        invariant r == Wrap32(removed) && removed + |nodes| == |orig|
        decreases |nodes| - b
      {
        var found;
        found, begin, b := RemoveNext(begin, data, c);
        if found {
          CountUp(removed);
          r, removed := Increment32(r), removed + 1;
        }
      }
      KeepFromStart(orig, c, data);
    }

    /** Removes from the head until nothing is left. */
    method RemoveAll() returns (r: nat)
      requires Valid()
      modifies this, Repr
      ensures Valid() && Repr == old(Repr) && nodes == []
      ensures r == |old(nodes)| % 0x1_0000_0000
    {
      r := 0;
      while head != null
        invariant Valid() && Repr == old(Repr)
        invariant |nodes| <= |old(nodes)| && r == Wrap32(|old(nodes)| - |nodes|)
        decreases |nodes|
      {
        CountUp(|old(nodes)| - |nodes|);
        var _ := RemoveNode(head);
        r := Increment32(r);
      }
    }
  }
}
