/** The jobs of an event loop: appended from anywhere, run in order once per
    iteration, and dropped at shutdown. */
module Jobs {
  import opened Sequences
  import opened HeapList
  import opened Sweep

  datatype Job = Job(handler: int, userdata1: int, userdata2: int, userdata3: int)

  class JobQueue {
    const list: List<Job>

    ghost function Pending(): seq<Job>
      reads this, list
    {
      list.Contents()
    }

    ghost predicate Valid()
      reads this, list, list.Repr
    {
      list.Valid()
    }

    constructor ()
      ensures Valid() && fresh(list) && list.Repr == {} && Pending() == []
    {
      list := new List();
    }

    /** `event_loop_add_job`. */
    method Add(hasHandler: bool, job: Job) returns (ret: int, ghost n: Node?<Job>)
      requires Valid()
      modifies list, list.Repr
      ensures Valid() && (forall m :: m in list.Repr ==> m in old(list.Repr) || fresh(m))
      ensures ret == if hasHandler then 0 else -1
      ensures hasHandler ==> n != null && n.data == job && IsInsert(old(list.nodes), |old(list.nodes)|, n, list.nodes)
      ensures !hasHandler ==> list.nodes == old(list.nodes)
      ensures Pending() == old(Pending()) + if hasHandler then [job] else []
    {
      if !hasHandler {
        return -1, null;
      }
      ghost var was := list.nodes;
      ret, n := list.Append(job);
      DataOfInsert(was, |was|, n, list.nodes);
    }

    /** A running job adds further jobs; the nodes already in the list stay put. */
    method RunJob(adds: seq<Job>)
      requires Valid()
      modifies list, list.Repr
      ensures Valid() && (forall m :: m in list.Repr ==> m in old(list.Repr) || fresh(m))
      ensures Pending() == old(Pending()) + adds
      ensures old(list.nodes) <= list.nodes
    {
      var i := 0;
      while i < |adds|
        invariant 0 <= i <= |adds|
        invariant Valid() && (forall m :: m in list.Repr ==> m in old(list.Repr) || fresh(m))
        invariant Pending() == old(Pending()) + adds[..i]
        invariant old(list.nodes) <= list.nodes
      {
        var _, _ := Add(true, adds[i]);
        assert adds[..i + 1] == adds[..i] + [adds[i]];
        i := i + 1;
      }
      assert adds[..i] == adds;
    }

    /** One iteration of the pass over the job at the head: save the successor, run
        the job, unlink it. */
    method RunHead(node: Node<Job>, adds: seq<Job>) returns (next: Node?<Job>)
      requires Valid() && list.nodes != [] && node == list.nodes[0]
      modifies list, list.Repr
      ensures Valid() && (forall m :: m in list.Repr ==> m in old(list.Repr) || fresh(m))
      ensures Pending() == old(Pending())[1..] + adds
      ensures next == if |old(Pending())| == 1 then null else NextOf(list.nodes, -1)
    {
      next := node.next;
      ghost var before := list.nodes;
      assert next == NextOf(before, 0);
      RunJob(adds);
      ghost var grown := list.nodes;
      var _ := list.RemoveNode(node);
      HeadRemoved(before, adds, grown, list.nodes);
    }

    /** `_job_proc`: runs the pending jobs; `adds(k)` is what the `k`-th job to run adds.
        At shutdown, drops them. */
    method Proc(isRemoveAll: bool, adds: nat -> seq<Job>) returns (executed: seq<Job>)
      requires Valid() && (isRemoveAll || Ends(Pending(), adds, 0))
      modifies list, list.Repr
      ensures Valid() && (forall m :: m in list.Repr ==> m in old(list.Repr) || fresh(m))
      ensures isRemoveAll ==> Pending() == [] && executed == []
      ensures !isRemoveAll ==> executed == Visited(old(Pending()), adds, 0)
      ensures !isRemoveAll ==> Pending() == Left(old(Pending()), adds, 0)
    {
      executed := [];
      if isRemoveAll {
        var _ := list.RemoveAll();
        return;
      }
      ghost var q := Pending();
      var k := 0;
      var node := list.head;
      while node != null
        invariant 0 <= k && Valid() && (forall m :: m in list.Repr ==> m in old(list.Repr) || fresh(m))
        invariant node != null ==> list.nodes != [] && node == list.nodes[0] && Ends(Pending(), adds, k)
        invariant node != null ==> executed + Visited(Pending(), adds, k) == Visited(q, adds, 0)
        invariant node != null ==> Left(Pending(), adds, k) == Left(q, adds, 0)
        invariant node == null ==> executed == Visited(q, adds, 0) && Pending() == Left(q, adds, 0)
        decreases node != null, if Ends(Pending(), adds, k) then Length(Pending(), adds, k) else 0
      {
        OneMoreVisited(executed, Pending(), adds, k);
        executed := executed + [node.data];
        node := RunHead(node, adds(k));
        k := k + 1;
      }
    }
  }

  lemma HeadRemoved(before: seq<Node<Job>>, adds: seq<Job>, grown: seq<Node<Job>>, now: seq<Node<Job>>)
    requires before != [] && before <= grown && DataOf(grown) == DataOf(before) + adds
    requires IsDelete(grown, 0, now)
    ensures DataOf(now) == DataOf(before)[1..] + adds
    ensures NextOf(before, 0) == if |before| == 1 then null else NextOf(now, -1)
  {
    DataOfDelete(grown, 0, now);
    assert DeleteAt(DataOf(grown), 0) == DataOf(before)[1..] + adds;
    if |before| > 1 {
      assert now[0] == grown[1] == before[1];
    }
  }
}
