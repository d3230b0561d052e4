/** One poll of the select backend: refresh the cached bound, wait, and walk the
    channels with a saved successor, calling the handlers of the ready descriptors
    while they register and unregister channels. */
module Dispatch {
  import opened Sequences
  import opened HeapList
  import opened InterestIndex
  import opened DispatchModel
  import opened Channels
  import opened ChannelLoop

  /** The outcome of `select`: its result, and what it reports as ready. */
  datatype Ready = Ready(ret: int, interrupted: bool, sets: FdSets)

  /** What is in both. */
  function Meet(a: FdSets, b: FdSets): (r: FdSets)
    ensures forall k, fd :: fd in r.Get(k) <==> fd in a.Get(k) && fd in b.Get(k)
  {
    FdSets(a.read * b.read, a.write * b.write, a.error * b.error)
  }

  /** `select`, which looks at descriptors below `n` only. */
  method Select(n: int, sets: FdSets, outcome: Ready) returns (ret: int, back: FdSets)
    requires Covers(n, sets)
    ensures ret == outcome.ret && back == Meet(sets, outcome.sets)
  {
    ret, back := outcome.ret, Meet(sets, outcome.sets);
  }

  function FdsOf(cs: seq<Channel>): (fds: seq<int>)
    ensures |fds| == |cs| && forall i :: 0 <= i < |cs| ==> fds[i] == cs[i].fd
  {
    seq(|cs|, i requires 0 <= i < |cs| => cs[i].fd)
  }

  ghost function NodeFds(ns: seq<Node<Channel>>): seq<int> {
    FdsOf(DataOf(ns))
  }

  // ----- a visit -----

  /** The nodes during a visit: those already passed, the visited one unless it was
      unregistered, those the walk has yet to reach, and those registered meanwhile. */
  datatype Visit = Visit(
    kept: seq<Node<Channel>>,
    node: Node<Channel>,
    gone: bool,
    rest: seq<Node<Channel>>,
    added: seq<Node<Channel>>)
  {
    ghost function Nodes(): seq<Node<Channel>> {
      kept + (if gone then [] else [node]) + rest + added
    }

    /** `w` is this visit after a handler did something. */
    ghost predicate Leads(w: Visit) {
      w.kept == kept && w.node == node && w.rest == rest && added <= w.added && (gone ==> w.gone)
    }
  }

  lemma VisitGone(v: Visit, r: seq<Node<Channel>>)
    requires !v.gone && IsDelete(v.Nodes(), |v.kept|, r)
    ensures r == v.(gone := true).Nodes()
  {
  }

  lemma VisitGrown(v: Visit, r: seq<Node<Channel>>, n: Node<Channel>)
    requires r == v.Nodes() + [n]
    ensures r == v.(added := v.added + [n]).Nodes()
    ensures NodeFds(v.added + [n]) == NodeFds(v.added) + [n.data.fd]
  {
  }

  /** The loop in the middle of a visit. */
  ghost predicate Visiting(l: ChannelLoop, v: Visit, c: Channel, t: Turn)
    reads l, l.io, l.ecMap, l.ecMap.list, l.ecMap.list.Repr, l.Registered()
  {
    l.Valid() && l.View() == t.x && l.ecMap.list.nodes == v.Nodes() && Matches(v, c, t)
  }

  /** The nodes of a visit, and the visit in terms of descriptors. */
  ghost predicate Matches(v: Visit, c: Channel, t: Turn) {
    && v.node.data == c && v.gone == t.left && NodeFds(v.added) == t.joined
    && Lists(t, NodeFds(v.kept), c.fd, NodeFds(v.rest))
  }

  lemma StillMatches(v: Visit, c: Channel, t: Turn, act: Act, mayLeave: bool, w: Visit)
    requires Matches(v, c, t) && w.kept == v.kept && w.node == v.node && w.rest == v.rest
    requires w.gone == Do(t, act, c.fd, mayLeave).left && NodeFds(w.added) == Do(t, act, c.fd, mayLeave).joined
    ensures Matches(w, c, Do(t, act, c.fd, mayLeave))
  {
    DoLists(t, NodeFds(v.kept), c.fd, NodeFds(v.rest), act, mayLeave);
  }

  lemma VisitedIsListed(l: ChannelLoop, v: Visit, c: Channel, t: Turn)
    requires Visiting(l, v, c, t) && !t.left
    ensures |v.kept| < |t.x.entries| && t.x.entries[|v.kept|] == c.Current()
    ensures Mapped(t.x.entries, c.fd) && SearchPos(t.x.entries, c.fd) == |v.kept|
  {
    assert l.ecMap.list.nodes[|v.kept|] == v.node;
    MemberLeaves(t.x, |v.kept|);
  }

  // ----- what a handler does -----

  method DoUnregister(l: ChannelLoop, c: Channel, mayLeave: bool, left: bool, ghost v: Visit, ghost t: Turn)
    returns (leaves: bool, ghost w: Visit)
    requires Visiting(l, v, c, t) && left == t.left
    modifies l.io, l.ecMap.list, l.ecMap.list.Repr
    ensures Visiting(l, w, c, Do(t, Act.Unregister, c.fd, mayLeave)) && v.Leads(w) && leaves == w.gone
    ensures l.Grown()
  {
    leaves := left || mayLeave;
    w := v.(gone := leaves);
    if !left {
      VisitedIsListed(l, v, c, t);
    }
    StillMatches(v, c, t, Act.Unregister, mayLeave, w);
    if leaves && !left {
      TakeOut(l, c, v);
    }
  }

  method TakeOut(l: ChannelLoop, c: Channel, ghost v: Visit)
    requires l.Valid() && l.ecMap.list.nodes == v.Nodes() && !v.gone
    requires Mapped(l.View().entries, c.fd) && SearchPos(l.View().entries, c.fd) == |v.kept|
    modifies l.io, l.ecMap.list, l.ecMap.list.Repr
    ensures l.Valid() && l.View() == RemoveChannel(old(l.View()), old(c.Current()))
    ensures l.ecMap.list.nodes == v.(gone := true).Nodes() && l.Grown()
  {
    ghost var was := l.ecMap.list.nodes;
    var _ := l.RemoveChannel(c);
    VisitGone(v, l.ecMap.list.nodes);
  }

  method RegisterNew(l: ChannelLoop, fd: int, mask: Mask) returns (ghost n: Node<Channel>)
    requires l.Valid()
    modifies l.io, l.ecMap.list, l.ecMap.list.Repr
    ensures l.Valid() && l.View() == AddChannel(old(l.View()), Entry(fd, mask))
    ensures l.ecMap.list.nodes == old(l.ecMap.list.nodes) + [n] && n.data.fd == fd && fresh(n.data)
    ensures forall n :: n in l.ecMap.list.Repr ==> n in old(l.ecMap.list.Repr) || fresh(n)
  {
    var d := new Channel(fd, mask);
    ghost var was := l.ecMap.list.nodes;
    var _ := l.AddChannel(d);
    n := AppendedNode(was, l.ecMap.list.nodes, d);
  }

  method Enlist(l: ChannelLoop, fd: int, mask: Mask, ghost v: Visit) returns (ghost w: Visit)
    requires l.Valid() && l.ecMap.list.nodes == v.Nodes()
    modifies l.io, l.ecMap.list, l.ecMap.list.Repr
    ensures l.Valid() && l.View() == AddChannel(old(l.View()), Entry(fd, mask))
    ensures l.ecMap.list.nodes == w.Nodes() && w == v.(added := w.added) && v.Leads(w)
    ensures NodeFds(w.added) == NodeFds(v.added) + [fd] && l.Grown()
  {
    ghost var n := RegisterNew(l, fd, mask);
    w := v.(added := v.added + [n]);
    VisitGrown(v, l.ecMap.list.nodes, n);
  }

  method EnlistNew(l: ChannelLoop, fd: int, mask: Mask, ghost v: Visit) returns (ghost w: Visit)
    requires l.Valid() && l.ecMap.list.nodes == v.Nodes()
    modifies l.io, l.ecMap.list, l.ecMap.list.Repr
    ensures l.Valid() && l.ecMap.list.nodes == w.Nodes() && w == v.(added := w.added) && v.Leads(w) && l.Grown()
    ensures if fd >= 0 && !Mapped(old(l.View()).entries, fd)
            then l.View() == AddChannel(old(l.View()), Entry(fd, mask)) && NodeFds(w.added) == NodeFds(v.added) + [fd]
            else l.View() == old(l.View()) && w == v
  {
    w := v;
    var other := l.ecMap.Find(fd);
    if fd >= 0 && other == null {
      w := Enlist(l, fd, mask, v);
    }
  }

  lemma AppendedNode(was: seq<Node<Channel>>, now: seq<Node<Channel>>, d: Channel) returns (n: Node<Channel>)
    requires was <= now && DataOf(now) == DataOf(was) + [d]
    ensures now == was + [n] && n.data == d
  {
    n := now[|was|];
    assert DataOf(now)[|was|] == d;
  }

  method DoRegister(l: ChannelLoop, fd: int, mask: Mask, c: Channel, ghost mayLeave: bool,
                    ghost v: Visit, ghost t: Turn)
    returns (ghost w: Visit)
    requires Visiting(l, v, c, t)
    modifies l.io, l.ecMap.list, l.ecMap.list.Repr
    ensures Visiting(l, w, c, Do(t, Act.Register(fd, mask), c.fd, mayLeave)) && v.Leads(w)
    ensures l.Grown()
  {
    w := EnlistNew(l, fd, mask, v);
    StillMatches(v, c, t, Act.Register(fd, mask), mayLeave, w);
  }

  method DoChangeInterest(l: ChannelLoop, fd: int, mask: Mask, c: Channel, ghost mayLeave: bool,
                          ghost v: Visit, ghost t: Turn)
    requires Visiting(l, v, c, t)
    modifies l.io, l.Members()
    ensures Visiting(l, v, c, Do(t, ChangeInterest(fd, mask), c.fd, mayLeave))
    ensures l.Grown()
  {
    StillMatches(v, c, t, ChangeInterest(fd, mask), mayLeave, v);
    Remask(l, fd, mask);
  }

  method Remask(l: ChannelLoop, fd: int, mask: Mask)
    requires l.Valid() && InSync(l.View())
    modifies l.io, l.Members()
    ensures l.Valid() && l.ecMap.list.nodes == old(l.ecMap.list.nodes) && l.Grown()
    ensures var x, e := old(l.View()), Entry(fd, mask);
            l.View() == if Mapped(x.entries, fd) then UpdateChannel(ChangeMask(x, e), e) else x
  {
    var other := l.ecMap.Find(fd);
    if other != null {
      l.SetInterest(other, mask);
    }
  }

  method DoDropInterest(l: ChannelLoop, fd: int, mask: Mask, c: Channel, mayLeave: bool, left: bool,
                        ghost v: Visit, ghost t: Turn)
    returns (leaves: bool, ghost w: Visit)
    requires Visiting(l, v, c, t) && left == t.left
    modifies l.io, l.ecMap.list, l.ecMap.list.Repr, l.Members()
    ensures Visiting(l, w, c, Do(t, Act.DropInterest(fd, mask), c.fd, mayLeave))
    ensures v.Leads(w) && leaves == w.gone && l.Grown()
  {
    if !left {
      VisitedIsListed(l, v, c, t);
    }
    leaves := DropAllowed(l, fd, mask, c, mayLeave, left, v);
    w := v.(gone := leaves);
    StillMatches(v, c, t, Act.DropInterest(fd, mask), mayLeave, w);
  }

  method DropAllowed(l: ChannelLoop, fd: int, mask: Mask, c: Channel, mayLeave: bool, left: bool, ghost v: Visit)
    returns (leaves: bool)
    requires l.Valid() && InSync(l.View()) && l.ecMap.list.nodes == v.Nodes() && left == v.gone
    requires !left ==> SearchPos(l.View().entries, c.fd) == |v.kept|
    modifies l.io, l.ecMap.list, l.ecMap.list.Repr, l.Members()
    ensures leaves == (left || (Empties(old(l.View()), fd, mask) && fd == c.fd && mayLeave))
    ensures var x := old(l.View());
            var stays := Empties(x, fd, mask) && leaves == left;
            l.Valid() && l.View() == if stays then x else InterestIndex.RemoveFd(x, fd, mask)
    ensures l.ecMap.list.nodes == v.(gone := leaves).Nodes() && l.Grown()
  {
    var empties := WouldEmpty(l, fd, mask);
    leaves := left || (empties && fd == c.fd && mayLeave);
    if !empties || leaves != left {
      DropFd(l, fd, mask, v);
    }
  }

  method WouldEmpty(l: ChannelLoop, fd: int, mask: Mask) returns (empties: bool)
    requires l.Valid()
    ensures empties == Empties(l.View(), fd, mask)
  {
    var other := l.ecMap.Find(fd);
    empties := other != null && other.mask - mask == FD_MASK_NONE;
  }

  lemma DataAfterDelete(was: seq<Node<Channel>>, i: nat, now: seq<Node<Channel>>)
    requires IsDelete(was, i, now)
    ensures forall c :: c in DataOf(now) ==> c in DataOf(was)
  {
    forall j | 0 <= j < |now|
      ensures now[j].data in DataOf(was)
    {
      assert DataOf(was)[if j < i then j else j + 1] == now[j].data;
    }
  }

  method DropFd(l: ChannelLoop, fd: int, mask: Mask, ghost v: Visit)
    requires l.Valid() && InSync(l.View()) && l.ecMap.list.nodes == v.Nodes()
    requires Empties(l.View(), fd, mask) ==> !v.gone && SearchPos(l.View().entries, fd) == |v.kept|
    modifies l.io, l.ecMap.list, l.ecMap.list.Repr, l.Members()
    ensures l.Valid() && l.View() == InterestIndex.RemoveFd(old(l.View()), fd, mask)
    ensures l.ecMap.list.nodes == v.(gone := v.gone || Empties(old(l.View()), fd, mask)).Nodes() && l.Grown()
  {
    ghost var was := l.ecMap.list.nodes;
    UniqueAreDistinct(l.View().entries, l.Registered());
    var _, gone := l.RemoveFd(fd, mask);
    if gone {
      VisitGone(v, l.ecMap.list.nodes);
      DataAfterDelete(was, |v.kept|, l.ecMap.list.nodes);
    }
  }

  /** `left` says whether the channel has left already. */
  method Perform(l: ChannelLoop, act: Act, c: Channel, mayLeave: bool, left: bool, ghost v: Visit, ghost t: Turn)
    returns (leaves: bool, ghost w: Visit)
    requires Visiting(l, v, c, t) && left == t.left
    modifies l.io, l.ecMap.list, l.ecMap.list.Repr, l.Members()
    ensures Visiting(l, w, c, Do(t, act, c.fd, mayLeave)) && v.Leads(w) && leaves == w.gone
    ensures l.Grown()
  {
    leaves, w := left, v;
    match act
    case Register(fd, mask) =>
      w := DoRegister(l, fd, mask, c, mayLeave, v, t);
    case ChangeInterest(fd, mask) =>
      DoChangeInterest(l, fd, mask, c, mayLeave, v, t);
    case DropInterest(fd, mask) =>
      leaves, w := DoDropInterest(l, fd, mask, c, mayLeave, left, v, t);
    case Unregister =>
      leaves, w := DoUnregister(l, c, mayLeave, left, v, t);
  }

  method RunHandler(l: ChannelLoop, acts: seq<Act>, c: Channel, mayLeave: bool, left: bool,
                    ghost v: Visit, ghost t: Turn)
    returns (leaves: bool, ghost w: Visit)
    requires Visiting(l, v, c, t) && left == t.left
    modifies l.io, l.ecMap.list, l.ecMap.list.Repr, l.Members()
    ensures Visiting(l, w, c, DoAll(t, acts, c.fd, mayLeave)) && v.Leads(w) && leaves == w.gone
    ensures l.Grown()
    decreases acts
  {
    leaves, w := left, v;
    if acts != [] {
      ghost var u;
      leaves, u := Perform(l, acts[0], c, mayLeave, left, v, t);
      leaves, w := RunHandler(l, acts[1..], c, mayLeave, leaves, u, Do(t, acts[0], c.fd, mayLeave));
      LeadsOn(v, u, w);
    }
  }

  lemma LeadsOn(v: Visit, w: Visit, u: Visit)
    requires v.Leads(w) && w.Leads(u)
    ensures v.Leads(u)
  {
  }

  method CallIfReady(l: ChannelLoop, node: Node<Channel>, k: Kind, back: FdSets, acts: Acts,
                     left: bool, ghost v: Visit, ghost t: Turn)
    returns (calls: seq<(int, Kind)>, leaves: bool, ghost w: Visit)
    requires Visiting(l, v, node.data, t) && left == t.left
    modifies l.io, l.ecMap.list, l.ecMap.list.Repr, l.Members()
    ensures Visiting(l, w, node.data, OnKind(t, node.data.fd, k, back, acts)) && v.Leads(w) && leaves == w.gone
    ensures calls == CallsOf(node.data.fd, k, back)
    ensures l.Grown()
  {
    var fd := node.data.fd;
    calls, leaves, w := [], left, v;
    if fd in back.Get(k) {
      calls := [(fd, k)];
      leaves, w := RunHandler(l, acts.Of(k), node.data, IsLast(fd, k, back), left, v, t);
    }
  }

  method ReadThenWrite(l: ChannelLoop, node: Node<Channel>, back: FdSets, acts: Acts, ghost v: Visit, ghost t: Turn)
    returns (calls: seq<(int, Kind)>, leaves: bool, ghost w: Visit)
    requires Visiting(l, v, node.data, t) && !t.left
    modifies l.io, l.ecMap.list, l.ecMap.list.Repr, l.Members()
    ensures var r := OnKind(t, node.data.fd, Read, back, acts);
            Visiting(l, w, node.data, OnKind(r, node.data.fd, Write, back, acts))
    ensures v.Leads(w) && leaves == w.gone
    ensures calls == CallsOf(node.data.fd, Read, back) + CallsOf(node.data.fd, Write, back)
    ensures l.Grown()
  {
    var onWrite;
    ghost var u;
    calls, leaves, u := CallIfReady(l, node, Read, back, acts, false, v, t);
    ghost var r := OnKind(t, node.data.fd, Read, back, acts);
    onWrite, leaves, w := CallIfReady(l, node, Write, back, acts, leaves, u, r);
    LeadsOn(v, u, w);
    calls := calls + onWrite;
  }

  /** The handlers of one channel, in the order read, write, error. */
  method VisitChannel(l: ChannelLoop, node: Node<Channel>, back: FdSets, acts: Acts, ghost v: Visit)
    returns (calls: seq<(int, Kind)>, ghost w: Visit)
    requires Visiting(l, v, node.data, Begin(l.View()))
    modifies l.io, l.ecMap.list, l.ecMap.list.Repr, l.Members()
    ensures Visiting(l, w, node.data, OnReady(old(l.View()), node.data.fd, back, acts)) && v.Leads(w)
    ensures calls == CallsFor(node.data.fd, back)
    ensures l.Grown()
  {
    ghost var t, u := Begin(l.View()), v;
    var onError, leaves;
    calls, leaves, u := ReadThenWrite(l, node, back, acts, v, t);
    t := OnKind(OnKind(t, node.data.fd, Read, back, acts), node.data.fd, Write, back, acts);
    onError, leaves, w := CallIfReady(l, node, Error, back, acts, leaves, u, t);
    LeadsOn(v, u, w);
    calls := calls + onError;
  }

  // ----- the walk -----

  /** The loop stands on the first of the nodes `ahead`. */
  ghost predicate At(l: ChannelLoop, kept: seq<Node<Channel>>, ahead: seq<Node<Channel>>)
    reads l, l.io, l.ecMap, l.ecMap.list, l.ecMap.list.Repr, l.Registered()
  {
    l.Valid() && InSync(l.View()) && l.ecMap.list.nodes == kept + ahead
  }

  /** One iteration: save the successor, then call the ready handlers. */
  method VisitNext(l: ChannelLoop, node: Node<Channel>, back: FdSets, acts: Acts,
                   ghost kept: seq<Node<Channel>>, ghost ahead: seq<Node<Channel>>)
    returns (next: Node?<Channel>, calls: seq<(int, Kind)>,
             ghost passed: seq<Node<Channel>>, ghost on: seq<Node<Channel>>)
    requires At(l, kept, ahead) && ahead != [] && ahead[0] == node
    modifies l.io, l.ecMap.list, l.ecMap.list.Repr, l.Members()
    ensures At(l, passed, on)
    ensures if |ahead| == 1 then next == null else next != null && on != [] && next == on[0]
    ensures calls == CallsFor(node.data.fd, back)
    ensures var t := OnReady(old(l.View()), node.data.fd, back, acts);
            l.View() == t.x && NodeFds(on) == NodeFds(ahead[1..]) + t.joined
    ensures l.Grown()
  {
    ghost var v := StartVisit(l, kept, ahead);
    assert l.ecMap.list.nodes[|kept|] == node;
    next := node.next;
    calls, v := VisitChannel(l, node, back, acts, v);
    passed, on := v.kept + (if v.gone then [] else [v.node]), v.rest + v.added;
    EndVisit(v, passed, on);
  }

  lemma StartVisit(l: ChannelLoop, kept: seq<Node<Channel>>, ahead: seq<Node<Channel>>) returns (v: Visit)
    requires At(l, kept, ahead) && ahead != []
    ensures v == Visit(kept, ahead[0], false, ahead[1..], [])
    ensures Visiting(l, v, ahead[0].data, Begin(l.View()))
    ensures NextOf(l.ecMap.list.nodes, |kept|) == if |ahead| == 1 then null else ahead[1]
  {
    v := Visit(kept, ahead[0], false, ahead[1..], []);
    var ns := l.ecMap.list.nodes;
    assert ns == v.Nodes();
    assert NodeFds(ns) == NodeFds(kept) + [ahead[0].data.fd] + NodeFds(ahead[1..]) + [];
    assert FdsIn(l.View().entries) == NodeFds(ns);
  }

  lemma EndVisit(v: Visit, passed: seq<Node<Channel>>, on: seq<Node<Channel>>)
    requires passed == v.kept + (if v.gone then [] else [v.node]) && on == v.rest + v.added
    ensures v.Nodes() == passed + on && NodeFds(on) == NodeFds(v.rest) + NodeFds(v.added)
  {
  }

  /** The whole tour `r` is what was done so far and, from a node on, a tour over the
      nodes `ahead`. */
  ghost predicate Touring(r: Tour, x: Index, ahead: seq<Node<Channel>>, going: bool,
                          visited: seq<int>, back: FdSets, script: seq<Acts>, k: nat) {
    if going then
      var rest := Roam(x, NodeFds(ahead), back, script, k);
      ahead != [] && r.x == rest.x && r.visited == visited + rest.visited
    else r.x == x && r.visited == visited
  }

  lemma TourOn(r: Tour, x: Index, ahead: seq<Node<Channel>>, visited: seq<int>, back: FdSets, script: seq<Acts>, k: nat,
               y: Index, on: seq<Node<Channel>>)
    requires Touring(r, x, ahead, true, visited, back, script, k)
    requires var t := OnReady(x, ahead[0].data.fd, back, ActsAt(script, k));
             y == t.x && NodeFds(on) == NodeFds(ahead[1..]) + t.joined
    ensures |ahead| > 1 ==> on != []
    ensures Touring(r, y, on, |ahead| > 1, visited + [ahead[0].data.fd], back, script, k + 1)
    ensures k >= |script| ==> |on| == |ahead| - 1
  {
    var fd, fds := ahead[0].data.fd, NodeFds(ahead);
    assert fds[1..] == NodeFds(ahead[1..]);
    assert |on| == |NodeFds(on)|;
    if |ahead| > 1 {
      AppendAssoc(visited, [fd], Roam(y, NodeFds(on), back, script, k + 1).visited);
    }
  }

  /** What was done so far: the descriptors visited, and the nodes passed and to come. */
  datatype Log = Log(visited: seq<int>, kept: seq<Node<Channel>>, ahead: seq<Node<Channel>>)

  /** The loop stands on `node`, with `calls` made so far. */
  ghost predicate Underway(l: ChannelLoop, g: Log, node: Node?<Channel>, calls: seq<(int, Kind)>,
                           r: Tour, back: FdSets, script: seq<Acts>, k: nat)
    reads l, l.io, l.ecMap, l.ecMap.list, l.ecMap.list.Repr, l.Registered()
  {
    && At(l, g.kept, g.ahead) && (node != null ==> g.ahead != [] && g.ahead[0] == node)
    && Touring(r, l.View(), g.ahead, node != null, g.visited, back, script, k)
    && calls == Calls(g.visited, back) && k == |g.visited|
  }

  method Advance(l: ChannelLoop, node: Node<Channel>, back: FdSets, script: seq<Acts>, k: nat,
                 calls: seq<(int, Kind)>, ghost r: Tour, ghost g: Log)
    returns (next: Node?<Channel>, more: seq<(int, Kind)>, ghost h: Log)
    requires Underway(l, g, node, calls, r, back, script, k)
    modifies l.io, l.ecMap.list, l.ecMap.list.Repr, l.Members()
    ensures Underway(l, h, next, more, r, back, script, k + 1) && l.Grown()
    ensures k >= |script| ==> |h.ahead| < |g.ahead|
  {
    ghost var x := l.View();
    var cs;
    ghost var passed, on;
    next, cs, passed, on := VisitNext(l, node, back, ActsAt(script, k), g.kept, g.ahead);
    TourOn(r, x, g.ahead, g.visited, back, script, k, l.View(), on);
    CallsSnoc(g.visited, node.data.fd, back);
    more, h := calls + cs, Log(g.visited + [node.data.fd], passed, on);
  }

  /** The dispatch loop, from its first channel on. */
  method Walk(l: ChannelLoop, first: Node<Channel>, back: FdSets, script: seq<Acts>, ghost r: Tour, ghost start: Log)
    returns (live: nat, calls: seq<(int, Kind)>, ghost g: Log)
    requires Underway(l, start, first, [], r, back, script, 0)
    modifies l.io, l.ecMap.list, l.ecMap.list.Repr, l.Members()
    ensures Underway(l, g, null, calls, r, back, script, live) && l.Grown()
  {
    live, calls, g := 0, [], start;
    var node: Node?<Channel> := first;
    while node != null
      invariant Underway(l, g, node, calls, r, back, script, live) && l.Grown()
      decreases if live < |script| then |script| - live else 0, |g.ahead|
    {
      node, calls, g := Advance(l, node, back, script, live, calls, r, g);
      live := live + 1;
    }
  }

  /** The dispatch of a poll: on the list as it changes, the calls, the index and the number
      of visits are those of the tour over the descriptors registered at its start. */
  method DispatchReady(l: ChannelLoop, back: FdSets, script: seq<Acts>) returns (live: nat, calls: seq<(int, Kind)>)
    requires l.Valid() && InSync(l.View()) && l.Registered() != []
    modifies l.io, l.ecMap.list, l.ecMap.list.Repr, l.Members()
    ensures l.Valid() && InSync(l.View()) && l.Grown()
    ensures var x := old(l.View());
            var r := Roam(x, FdsIn(x.entries), back, script, 0);
            l.View() == r.x && calls == Calls(r.visited, back) && live == |r.visited|
  {
    ghost var r := Roam(l.View(), FdsIn(l.View().entries), back, script, 0);
    ghost var g := StartTour(l, r, back, script);
    live, calls, g := Walk(l, l.ecMap.list.head, back, script, r, g);
  }

  lemma StartTour(l: ChannelLoop, r: Tour, back: FdSets, script: seq<Acts>) returns (g: Log)
    requires l.Valid() && InSync(l.View()) && l.Registered() != []
    requires r == Roam(l.View(), FdsIn(l.View().entries), back, script, 0)
    ensures l.ecMap.list.head != null && Underway(l, g, l.ecMap.list.head, [], r, back, script, 0)
  {
    var ns := l.ecMap.list.nodes;
    g := Log([], [], ns);
    assert [] + ns == ns && [] + r.visited == r.visited;
    assert NodeFds(ns) == FdsIn(l.View().entries);
  }

  /** What a poll does to the index. */
  function Polled(x: Index, outcome: Ready, script: seq<Acts>): Index {
    if x.entries == [] then x
    else if outcome.ret <= 0 then Refresh(x)
    else Roam(Refresh(x), FdsIn(x.entries), Meet(x.sets, outcome.sets), script, 0).x
  }

  /** `event_io_poll`. The bound given to `select` covers every descriptor in the sets. */
  method Poll(l: ChannelLoop, outcome: Ready, script: seq<Acts>) returns (ret: int, calls: seq<(int, Kind)>)
    requires l.Valid() && InSync(l.View())
    modifies l.io, l.ecMap.list, l.ecMap.list.Repr, l.Members()
    ensures l.Valid() && InSync(l.View()) && l.Grown()
    ensures l.View() == Polled(old(l.View()), outcome, script)
    ensures var x := old(l.View());
            if x.entries == [] then ret == 0 && calls == []
            else if outcome.ret <= 0 then ret == (if outcome.interrupted then 0 else outcome.ret) && calls == []
            else
              var back := Meet(x.sets, outcome.sets);
              var r := Roam(Refresh(x), FdsIn(x.entries), back, script, 0);
              calls == Calls(r.visited, back) && ret == |r.visited|
  {
    calls := [];
    if l.ecMap.list.length == 0 {
      return 0, calls;
    }
    l.RefreshMaxFd();
    var back;
    ret, back := Select(l.io.maxFd + 1, l.io.Sets(), outcome);
    if ret < 0 {
      ret := if outcome.interrupted then 0 else ret;
    } else if ret > 0 {
      ret, calls := DispatchReady(l, back, script);
    }
  }
}
