/** What one dispatch of ready channels calls and changes, as a walk over descriptors. */
module DispatchModel {
  import opened Sequences
  import opened InterestIndex

  /** What a handler does. It unregisters its own channel, directly or by dropping the last
      of its interests, at most once and only from the last ready kind of its descriptor;
      it unregisters no other channel; and it registers descriptors that are not
      registered. Any other act is left out. */
  datatype Act =
    | Register(fd: int, mask: Mask)
    | ChangeInterest(fd: int, mask: Mask)
    | DropInterest(fd: int, mask: Mask)
    | Unregister

  /** What the handlers of one visited channel do when they are called. */
  datatype Acts = Acts(read: seq<Act>, write: seq<Act>, error: seq<Act>) {
    function Of(k: Kind): seq<Act> {
      match k
      case Read => read
      case Write => write
      case Error => error
    }
  }

  /** What the handlers of the `k`-th visited channel do; after the script, nothing. */
  function ActsAt(script: seq<Acts>, k: nat): Acts {
    if k < |script| then script[k] else Acts([], [], [])
  }

  predicate IsReady(back: FdSets, fd: int): (r: bool)
    ensures r <==> exists k: Kind :: fd in back.Get(k)
  {
    assert back.Get(Read) == back.read && back.Get(Write) == back.write && back.Get(Error) == back.error;
    fd in back.read || fd in back.write || fd in back.error
  }

  function FdsIn(es: seq<Entry>): (fds: seq<int>)
    ensures |fds| == |es| && forall i :: 0 <= i < |es| ==> fds[i] == es[i].fd
  {
    seq(|es|, i requires 0 <= i < |es| => es[i].fd)
  }

  // ----- what is called -----

  function CallsOf(fd: int, k: Kind, back: FdSets): seq<(int, Kind)> {
    if fd in back.Get(k) then [(fd, k)] else []
  }

  function CallsFor(fd: int, back: FdSets): seq<(int, Kind)> {
    CallsOf(fd, Read, back) + CallsOf(fd, Write, back) + CallsOf(fd, Error, back)
  }

  function Calls(fds: seq<int>, back: FdSets): seq<(int, Kind)> {
    if fds == [] then [] else CallsFor(fds[0], back) + Calls(fds[1..], back)
  }

  lemma {:induction false} CallsAppend(a: seq<int>, b: seq<int>, back: FdSets)
    ensures Calls(a + b, back) == Calls(a, back) + Calls(b, back)
  {
    if a == [] {
      assert a + b == b;
    } else {
      assert (a + b)[1..] == a[1..] + b;
      CallsAppend(a[1..], b, back);
    }
  }

  lemma CallsSnoc(visited: seq<int>, fd: int, back: FdSets)
    ensures Calls(visited + [fd], back) == Calls(visited, back) + CallsFor(fd, back)
  {
    CallsAppend(visited, [fd], back);
    assert Calls([fd], back) == CallsFor(fd, back) + Calls([], back);
  }

  /** A visited channel is called once for every kind it is ready for, reading before
      writing and writing before errors. */
  lemma CallsInOrder(fd: int, back: FdSets)
    ensures var r := CallsFor(fd, back);
            && (forall k :: (fd, k) in r <==> fd in back.Get(k))
            && (forall c :: c in r ==> c.0 == fd)
            && forall i, j :: 0 <= i < j < |r| ==> BitOf(r[i].1) < BitOf(r[j].1)
  {
    var r := CallsFor(fd, back);
    forall k
      ensures (fd, k) in r <==> fd in back.Get(k)
    {
      assert (fd, k) in r <==> (fd, k) in CallsOf(fd, Read, back) || (fd, k) in CallsOf(fd, Write, back)
                               || (fd, k) in CallsOf(fd, Error, back);
    }
  }

  /** Nothing is called exactly when nothing is ready. */
  lemma {:induction false} NoCalls(fds: seq<int>, back: FdSets)
    ensures Calls(fds, back) == [] <==> forall fd :: fd in fds ==> !IsReady(back, fd)
  {
    if fds != [] {
      NoCalls(fds[1..], back);
      assert fds == [fds[0]] + fds[1..];
      assert CallsFor(fds[0], back) == [] <==> !IsReady(back, fds[0]) by {
        if IsReady(back, fds[0]) {
          var k := if fds[0] in back.read then Read else if fds[0] in back.write then Write else Error;
          assert (fds[0], k) in CallsFor(fds[0], back);
        }
      }
    }
  }

  // ----- a visit -----

  /** A visit in progress: the index, whether the visited channel left, and the
      descriptors registered since the visit began. */
  datatype Turn = Turn(x: Index, left: bool, joined: seq<int>)

  function Do(t: Turn, act: Act, fd: int, mayLeave: bool): Turn {
    var es := t.x.entries;
    match act
    case Register(f, mask) =>
      if f >= 0 && !Mapped(es, f) then t.(x := AddChannel(t.x, Entry(f, mask)), joined := t.joined + [f]) else t
    case ChangeInterest(f, mask) =>
      if Mapped(es, f) then t.(x := UpdateChannel(ChangeMask(t.x, Entry(f, mask)), Entry(f, mask))) else t
    case DropInterest(f, mask) =>
      if !Empties(t.x, f, mask) then t.(x := InterestIndex.RemoveFd(t.x, f, mask))
      else if f == fd && mayLeave && !t.left then t.(x := InterestIndex.RemoveFd(t.x, f, mask), left := true)
      else t
    case Unregister =>
      if mayLeave && !t.left && Mapped(es, fd)
      then t.(x := RemoveChannel(t.x, es[SearchPos(es, fd)]), left := true)
      else t
  }

  function DoAll(t: Turn, acts: seq<Act>, fd: int, mayLeave: bool): Turn
    decreases acts
  {
    if acts == [] then t else DoAll(Do(t, acts[0], fd, mayLeave), acts[1..], fd, mayLeave)
  }

  /** A channel may leave only from the last of its ready kinds. */
  predicate IsLast(fd: int, k: Kind, back: FdSets) {
    match k
    case Read => fd !in back.write && fd !in back.error
    case Write => fd !in back.error
    case Error => true
  }

  function OnKind(t: Turn, fd: int, k: Kind, back: FdSets, acts: Acts): Turn {
    if fd in back.Get(k) then DoAll(t, acts.Of(k), fd, IsLast(fd, k, back)) else t
  }

  function Begin(x: Index): Turn {
    Turn(x, false, [])
  }

  /** The visit of one channel. */
  function OnReady(x: Index, fd: int, back: FdSets, acts: Acts): Turn {
    OnKind(OnKind(OnKind(Begin(x), fd, Read, back, acts), fd, Write, back, acts), fd, Error, back, acts)
  }

  /** Acts are performed one after the other. */
  lemma {:induction false} DoAllAppend(t: Turn, a: seq<Act>, b: seq<Act>, fd: int, mayLeave: bool)
    ensures DoAll(t, a + b, fd, mayLeave) == DoAll(DoAll(t, a, fd, mayLeave), b, fd, mayLeave)
    decreases a
  {
    if a == [] {
      assert a + b == b;
    } else {
      assert (a + b)[1..] == a[1..] + b;
      DoAllAppend(Do(t, a[0], fd, mayLeave), a[1..], b, fd, mayLeave);
    }
  }

  /** The interests registered after an act of a handler of `fd`. */
  ghost predicate WantsAfterAct(t: Turn, act: Act, fd: int, mayLeave: bool, f: int, k: Kind) {
    var es := t.x.entries;
    match act
    case Register(g, mask) =>
      Wants(es, f, k) || (f == g && g >= 0 && !Mapped(es, g) && Wanted(mask, k))
    case ChangeInterest(g, mask) =>
      if f == g && Mapped(es, g) then Wanted(mask, k) else Wants(es, f, k)
    case DropInterest(g, mask) =>
      if Empties(t.x, g, mask) && !(g == fd && mayLeave && !t.left) then Wants(es, f, k)
      else Wants(es, f, k) && !(f == g && Wanted(mask, k))
    case Unregister =>
      Wants(es, f, k) && !(f == fd && mayLeave && !t.left)
  }

  /** Every act changes the interests it is about, and no others, in the map and in the
      sets. */
  lemma ActTakesEffect(t: Turn, kept: seq<int>, fd: int, rest: seq<int>, act: Act, mayLeave: bool, f: int)
    requires Lists(t, kept, fd, rest)
    ensures var y := Do(t, act, fd, mayLeave).x;
            forall k: Kind ::
              && (Wants(y.entries, f, k) <==> WantsAfterAct(t, act, fd, mayLeave, f, k))
              && (f in y.sets.Get(k) <==> WantsAfterAct(t, act, fd, mayLeave, f, k))
  {
    var x, y := t.x, Do(t, act, fd, mayLeave).x;
    DoLists(t, kept, fd, rest, act, mayLeave);
    match act {
      case Register(g, mask) =>
        if g >= 0 && !Mapped(x.entries, g) {
          OpTakesEffect(x, Op.Register(Entry(g, mask)), f);
        }
      case ChangeInterest(g, mask) =>
        if Mapped(x.entries, g) {
          OpTakesEffect(x, SetInterest(Entry(g, mask)), f);
        }
      case DropInterest(g, mask) =>
        DropTakesEffect(x, g, mask, f);
      case Unregister =>
        if mayLeave && !t.left {
          LeaveLists(t, kept, fd, rest);
          MemberLeaves(x, |kept|);
          RegisteredClearsGone(x.entries, x.entries[|kept|]);
          OpTakesEffect(x, Op.Unregister(x.entries[|kept|]), f);
        }
    }
    forall k: Kind
      ensures f in y.sets.Get(k) <==> Wants(y.entries, f, k)
    {
      assert Agrees(y, f, k);
    }
  }

  /** The acts of the last ready kind whose handler does anything. */
  function LastDeed(fd: int, back: FdSets, acts: Acts): seq<Act> {
    if fd in back.error && acts.error != [] then acts.error
    else if fd in back.write && acts.write != [] then acts.write
    else if fd in back.read then acts.read
    else []
  }

  /** The handlers run in the order read, write, error: of several changes of a mask the one
      made last by the last of them stands. */
  lemma LastChangeStands(x: Index, kept: seq<int>, fd: int, rest: seq<int>, back: FdSets, acts: Acts,
                         g: int, mask: Mask)
    requires InSync(x) && FdsIn(x.entries) == kept + [fd] + rest
    requires var last := LastDeed(fd, back, acts);
             last != [] && last[|last| - 1] == ChangeInterest(g, mask)
    ensures var y := OnReady(x, fd, back, acts).x;
            Mapped(y.entries, g) ==> forall k: Kind ::
              (Wants(y.entries, g, k) <==> Wanted(mask, k)) && (g in y.sets.Get(k) <==> Wanted(mask, k))
  {
    var last, b := LastDeed(fd, back, acts), Begin(x);
    assert kept + [fd] + rest + [] == kept + [fd] + rest;
    DoAllLists(b, kept, fd, rest, acts.read, IsLast(fd, Read, back));
    var r := OnKind(b, fd, Read, back, acts);
    DoAllLists(r, kept, fd, rest, acts.write, IsLast(fd, Write, back));
    var w := OnKind(r, fd, Write, back, acts);
    if fd in back.error && acts.error != [] {
      ChangeAtEnd(w, kept, fd, rest, last, IsLast(fd, Error, back), g, mask);
    } else if fd in back.write && acts.write != [] {
      ChangeAtEnd(r, kept, fd, rest, last, IsLast(fd, Write, back), g, mask);
    } else {
      ChangeAtEnd(b, kept, fd, rest, last, IsLast(fd, Read, back), g, mask);
    }
  }

  lemma ChangeAtEnd(t: Turn, kept: seq<int>, fd: int, rest: seq<int>, acts: seq<Act>, mayLeave: bool,
                    g: int, mask: Mask)
    requires Lists(t, kept, fd, rest) && acts != [] && acts[|acts| - 1] == ChangeInterest(g, mask)
    ensures var y := DoAll(t, acts, fd, mayLeave).x;
            Mapped(y.entries, g) ==> forall k: Kind ::
              (Wants(y.entries, g, k) <==> Wanted(mask, k)) && (g in y.sets.Get(k) <==> Wanted(mask, k))
  {
    var init, last := acts[..|acts| - 1], ChangeInterest(g, mask);
    var u := DoAll(t, init, fd, mayLeave);
    assert acts == init + [last];
    DoAllAppend(t, init, [last], fd, mayLeave);
    DoAllLists(t, kept, fd, rest, init, mayLeave);
    ActTakesEffect(u, kept, fd, rest, last, mayLeave, g);
    assert DoAll(u, [last], fd, mayLeave) == Do(u, last, fd, mayLeave);
    if !Mapped(u.x.entries, g) {
      assert Do(u, last, fd, mayLeave) == u;
    }
  }

  // ----- the walk -----

  /** A walk: the index after it, the descriptors visited, those of them whose channels did
      not leave, those registered during it, and those registered but not visited. */
  datatype Tour = Tour(x: Index, visited: seq<int>, stayed: seq<int>, joined: seq<int>, unvisited: seq<int>)

  function Stays(t: Turn, fd: int): seq<int> {
    if t.left then [] else [fd]
  }

  /** The successor is saved before the handlers run, so the walk goes on over channels
      they register unless it stands on the last one. */
  function Roam(x: Index, ahead: seq<int>, back: FdSets, script: seq<Acts>, k: nat): Tour
    decreases if k < |script| then |script| - k else 0, |ahead|
  {
    if ahead == [] then Tour(x, [], [], [], [])
    else
      var t := OnReady(x, ahead[0], back, ActsAt(script, k));
      if |ahead| == 1 then Tour(t.x, ahead, Stays(t, ahead[0]), t.joined, t.joined)
      else Prepend(t, ahead[0], Roam(t.x, ahead[1..] + t.joined, back, script, k + 1))
  }

  /** A tour that begins with one more visit. */
  function Prepend(t: Turn, fd: int, r: Tour): Tour {
    Tour(r.x, [fd] + r.visited, Stays(t, fd) + r.stayed, t.joined + r.joined, r.unvisited)
  }

  /** The index after the visits of these channels, one after the other. */
  function VisitAll(x: Index, fds: seq<int>, back: FdSets, script: seq<Acts>, k: nat): Index
    decreases fds
  {
    if fds == [] then x else VisitAll(OnReady(x, fds[0], back, ActsAt(script, k)).x, fds[1..], back, script, k + 1)
  }

  /** The index after a walk is the one after its visits. */
  lemma {:induction false} RoamFolds(x: Index, ahead: seq<int>, back: FdSets, script: seq<Acts>, k: nat)
    ensures var r := Roam(x, ahead, back, script, k);
            r.x == VisitAll(x, r.visited, back, script, k)
    decreases if k < |script| then |script| - k else 0, |ahead|
  {
    if ahead != [] {
      var t := OnReady(x, ahead[0], back, ActsAt(script, k));
      if |ahead| == 1 {
        assert ahead[1..] == [];
      } else {
        RoamFolds(t.x, ahead[1..] + t.joined, back, script, k + 1);
        var r := Roam(t.x, ahead[1..] + t.joined, back, script, k + 1);
        assert ([ahead[0]] + r.visited)[1..] == r.visited;
      }
    }
  }

  /** Nothing is skipped: the walk visits the channels it began with, then those
      registered during it, in order, as far as it gets. */
  lemma {:induction false} RoamVisits(x: Index, ahead: seq<int>, back: FdSets, script: seq<Acts>, k: nat)
    ensures var r := Roam(x, ahead, back, script, k);
            r.visited + r.unvisited == ahead + r.joined && ahead <= r.visited
    decreases if k < |script| then |script| - k else 0, |ahead|
  {
    if |ahead| > 1 {
      var t := OnReady(x, ahead[0], back, ActsAt(script, k));
      var rest := ahead[1..] + t.joined;
      RoamVisits(t.x, rest, back, script, k + 1);
      var r := Roam(t.x, rest, back, script, k + 1);
      AppendAssoc([ahead[0]], r.visited, r.unvisited);
      AppendAssoc(ahead[1..], t.joined, r.joined);
      AppendAssoc([ahead[0]], ahead[1..], t.joined + r.joined);
      assert ahead == [ahead[0]] + ahead[1..];
      PrefixOfPrefix(ahead[1..], t.joined, r.visited);
    }
  }

  lemma PrefixOfPrefix(a: seq<int>, b: seq<int>, c: seq<int>)
    requires a + b <= c
    ensures a <= c
  {
  }

  // ----- which channels are called -----

  /** The visits of the channels there at the start, each with its handlers: what they
      register before the last of them is visited, and that last visit. */
  function Front(x: Index, a: seq<int>, back: FdSets, script: seq<Acts>, k: nat): (seq<int>, Turn)
    requires a != []
    decreases a
  {
    var t := OnReady(x, a[0], back, ActsAt(script, k));
    if |a| == 1 then ([], t)
    else
      var r := Front(t.x, a[1..], back, script, k + 1);
      (t.joined + r.0, r.1)
  }

  lemma RoamOn(x: Index, ahead: seq<int>, back: FdSets, script: seq<Acts>, k: nat)
    requires |ahead| > 1
    ensures var t := OnReady(x, ahead[0], back, ActsAt(script, k));
            Roam(x, ahead, back, script, k).visited
            == [ahead[0]] + Roam(t.x, ahead[1..] + t.joined, back, script, k + 1).visited
  {
  }

  lemma FrontOn(x: Index, a: seq<int>, back: FdSets, script: seq<Acts>, k: nat)
    requires |a| > 1
    ensures var t := OnReady(x, a[0], back, ActsAt(script, k));
            var r := Front(t.x, a[1..], back, script, k + 1);
            Front(x, a, back, script, k) == (t.joined + r.0, r.1)
  {
  }

  /** What a walk over `a` and then `b` visits after `a`: nothing when there is no `b` and
      nothing was registered before the last of `a` was visited, for then the walk stands
      on the last channel. */
  function Later(a: seq<int>, b: seq<int>, f: (seq<int>, Turn), back: FdSets, script: seq<Acts>, k: nat): seq<int> {
    if b + f.0 == [] then [] else Roam(f.1.x, b + f.0 + f.1.joined, back, script, k + |a|).visited
  }

  lemma {:induction false} RoamThrough(x: Index, a: seq<int>, b: seq<int>, back: FdSets, script: seq<Acts>, k: nat)
    requires a != []
    ensures Roam(x, a + b, back, script, k).visited == a + Later(a, b, Front(x, a, back, script, k), back, script, k)
    decreases a
  {
    var t := OnReady(x, a[0], back, ActsAt(script, k));
    if |a| == 1 {
      assert a == [a[0]] && b + [] == b;
      if b == [] {
        assert a + b == a;
      } else {
        RoamOn(x, a + b, back, script, k);
        assert (a + b)[1..] == b;
      }
    } else {
      var r := Front(t.x, a[1..], back, script, k + 1);
      RoamOn(x, a + b, back, script, k);
      FrontOn(x, a, back, script, k);
      RoamThrough(t.x, a[1..], b + t.joined, back, script, k + 1);
      assert (a + b)[1..] == a[1..] + b;
      AppendAssoc(a[1..], b, t.joined);
      AppendAssoc(b, t.joined, r.0);
      var later := Later(a[1..], b + t.joined, r, back, script, k + 1);
      AppendAssoc([a[0]], a[1..], later);
      assert a == [a[0]] + a[1..];
    }
  }

  /** A walk over channels that are not ready visits exactly them. */
  lemma {:induction false} RoamQuietly(x: Index, ahead: seq<int>, back: FdSets, script: seq<Acts>, k: nat)
    requires forall fd :: fd in ahead ==> !IsReady(back, fd)
    ensures Roam(x, ahead, back, script, k).visited == ahead
    decreases |ahead|
  {
    if |ahead| > 1 {
      assert ahead[0] in ahead;
      assert OnReady(x, ahead[0], back, ActsAt(script, k)) == Begin(x);
      assert ahead[1..] + [] == ahead[1..];
      RoamQuietly(x, ahead[1..], back, script, k + 1);
      assert ahead == [ahead[0]] + ahead[1..];
    }
  }

  /** The walk visits only the channels there at its start exactly when their handlers
      register nothing before the last of them is visited. It calls only those exactly when,
      besides, nothing that their handlers register is ready. */
  lemma RoamCallsFirst(x: Index, ahead: seq<int>, back: FdSets, script: seq<Acts>)
    requires ahead != []
    ensures var f, r := Front(x, ahead, back, script, 0), Roam(x, ahead, back, script, 0);
            && (|r.visited| == |ahead| <==> f.0 == [])
            && (Calls(r.visited, back) == Calls(ahead, back) <==>
                  f.0 == [] || forall fd :: fd in f.0 + f.1.joined ==> !IsReady(back, fd))
            && (f.0 != [] && (forall fd :: fd in f.0 + f.1.joined ==> !IsReady(back, fd)) ==>
                  r.visited == ahead + (f.0 + f.1.joined))
  {
    var f, r := Front(x, ahead, back, script, 0), Roam(x, ahead, back, script, 0);
    var news := f.0 + f.1.joined;
    var late := Later(ahead, [], f, back, script, 0);
    RoamThrough(x, ahead, [], back, script, 0);
    assert ahead + [] == ahead && [] + f.0 == f.0;
    CallsAppend(ahead, late, back);
    NoCalls(late, back);
    if f.0 != [] {
      RoamVisits(f.1.x, news, back, script, |ahead|);
      assert forall fd :: fd in news ==> fd in late;
      if forall fd :: fd in news ==> !IsReady(back, fd) {
        RoamQuietly(f.1.x, news, back, script, |ahead|);
      }
    }
  }

  /** Descriptors 3 and 7 are registered and 3 is ready. Its handler gives the descriptor
      up and another channel is registered under the same number: the walk calls that one
      too, on the readiness of the first. */
  lemma ReusedDescriptorIsCalled()
    ensures var x := Index([Entry(3, FD_MASK_READ), Entry(7, FD_MASK_READ)], FdSets({3, 7}, {}, {}), 7, false);
            var back := FdSets({3}, {}, {});
            var script := [Acts([Act.Unregister, Act.Register(3, FD_MASK_READ)], [], [])];
            var r := Roam(x, [3, 7], back, script, 0);
            r.visited == [3, 7, 3] && Calls(r.visited, back) == [(3, Read), (3, Read)]
  {
    var x := Index([Entry(3, FD_MASK_READ), Entry(7, FD_MASK_READ)], FdSets({3, 7}, {}, {}), 7, false);
    var back := FdSets({3}, {}, {});
    var script := [Acts([Act.Unregister, Act.Register(3, FD_MASK_READ)], [], [])];
    var t := OnReady(x, 3, back, ActsAt(script, 0));
    ReusedVisit(x, back, script[0]);
    assert [3, 7][1..] + t.joined == [7, 3];
    var u := OnReady(t.x, 7, back, ActsAt(script, 1));
    assert u == Begin(t.x);
    assert [7, 3][1..] + u.joined == [3];
    var r := Roam(t.x, [7, 3], back, script, 1);
    assert r.visited == [7] + Roam(u.x, [3], back, script, 2).visited;
    assert Calls([3, 7, 3], back) == CallsFor(3, back) + (CallsFor(7, back) + (CallsFor(3, back) + []));
  }

  lemma ReusedVisit(x: Index, back: FdSets, acts: Acts)
    requires x.entries == [Entry(3, FD_MASK_READ), Entry(7, FD_MASK_READ)] && back == FdSets({3}, {}, {})
    requires acts.read == [Act.Unregister, Act.Register(3, FD_MASK_READ)]
    ensures OnReady(x, 3, back, acts).joined == [3]
  {
    assert x.entries[0] in x.entries;
    var gone := Do(Begin(x), Act.Unregister, 3, true);
    assert gone.x.entries == [Entry(7, FD_MASK_READ)];
    var again := Do(gone, acts.read[1], 3, true);
    assert again.joined == [] + [3];
    assert acts.read[1..] == [acts.read[1]] && acts.read[1..][1..] == [];
    assert DoAll(gone, acts.read[1..], 3, true) == DoAll(again, [], 3, true);
    assert DoAll(Begin(x), acts.read, 3, true) == again;
  }

  // ----- what is left -----

  /** The index during the visit of `fd`: the channels before it in the map, itself unless
      it left, those after it, and those registered meanwhile. */
  ghost predicate Lists(t: Turn, kept: seq<int>, fd: int, rest: seq<int>) {
    InSync(t.x) && FdsIn(t.x.entries) == kept + Stays(t, fd) + rest + t.joined
  }

  /** A registered channel that leaves takes its own entry out of the map. */
  lemma MemberLeaves(x: Index, i: nat)
    requires InSync(x) && i < |x.entries|
    ensures var e := x.entries[i];
            var y := RemoveChannel(x, e);
            && e in x.entries && Mapped(x.entries, e.fd) && SearchPos(x.entries, e.fd) == i
            && InSync(y) && y.entries == DeleteAt(x.entries, i)
  {
    var e := x.entries[i];
    var j := SearchPos(x.entries, e.fd);
    assert e in x.entries;
    assert FdPair(x.entries, i, j) && FdPair(x.entries, j, i);
    RegisteredClearsGone(x.entries, e);
    RemoveChannelKeepsSync(x, e);
  }

  lemma FdsAfterDelete(es: seq<Entry>, kept: seq<int>, fd: int, rest: seq<int>, joined: seq<int>)
    requires FdsIn(es) == kept + [fd] + rest + joined
    ensures |kept| < |es| && es[|kept|].fd == fd
    ensures FdsIn(DeleteAt(es, |kept|)) == kept + [] + rest + joined
  {
    assert FdsIn(es)[|kept|] == fd;
    assert FdsIn(DeleteAt(es, |kept|)) == DeleteAt(FdsIn(es), |kept|);
  }

  lemma FdsAfterUpdate(es: seq<Entry>, i: nat, e: Entry)
    requires i < |es| && es[i].fd == e.fd
    ensures FdsIn(es[i := e]) == FdsIn(es)
  {
  }

  /** The visited channel leaves the map where it stands. */
  lemma LeaveLists(t: Turn, kept: seq<int>, fd: int, rest: seq<int>)
    requires Lists(t, kept, fd, rest) && !t.left
    ensures Mapped(t.x.entries, fd) && SearchPos(t.x.entries, fd) == |kept|
    ensures Lists(Turn(RemoveChannel(t.x, t.x.entries[|kept|]), true, t.joined), kept, fd, rest)
  {
    FdsAfterDelete(t.x.entries, kept, fd, rest, t.joined);
    MemberLeaves(t.x, |kept|);
  }

  lemma DropLists(t: Turn, kept: seq<int>, fd: int, rest: seq<int>, f: int, mask: Mask, mayLeave: bool)
    requires Lists(t, kept, fd, rest)
    ensures Lists(Do(t, Act.DropInterest(f, mask), fd, mayLeave), kept, fd, rest)
  {
    var es := t.x.entries;
    RemoveFdKeepsSync(t.x, f, mask);
    if Mapped(es, f) {
      var i := SearchPos(es, f);
      FdsAfterUpdate(es, i, Entry(f, es[i].mask - mask));
      if f == fd && !t.left {
        FdsAfterDelete(es, kept, fd, rest, t.joined);
        MemberLeaves(t.x, |kept|);
      }
    }
  }

  /** Whatever a handler does, map and sets agree afterwards, and the map lists the same
      channels in the same order, without the visited one if it left, and with the ones
      registered at its end. */
  lemma DoLists(t: Turn, kept: seq<int>, fd: int, rest: seq<int>, act: Act, mayLeave: bool)
    requires Lists(t, kept, fd, rest)
    ensures Lists(Do(t, act, fd, mayLeave), kept, fd, rest)
  {
    var es := t.x.entries;
    match act
    case Register(f, mask) =>
      AddKeepsSync(t.x, Entry(f, mask));
      assert FdsIn(es + [Entry(f, mask)]) == FdsIn(es) + [f];
      assert (kept + Stays(t, fd) + rest + t.joined) + [f] == kept + Stays(t, fd) + rest + (t.joined + [f]);
    case ChangeInterest(f, mask) =>
      if Mapped(es, f) {
        RemaskKeepsSync(t.x, Entry(f, mask));
        FdsAfterUpdate(es, SearchPos(es, f), Entry(f, mask));
      }
    case DropInterest(f, mask) =>
      DropLists(t, kept, fd, rest, f, mask, mayLeave);
    case Unregister =>
      if mayLeave && !t.left {
        LeaveLists(t, kept, fd, rest);
      }
  }

  lemma {:induction false} DoAllLists(t: Turn, kept: seq<int>, fd: int, rest: seq<int>, acts: seq<Act>, mayLeave: bool)
    requires Lists(t, kept, fd, rest)
    ensures Lists(DoAll(t, acts, fd, mayLeave), kept, fd, rest)
    decreases acts
  {
    if acts != [] {
      DoLists(t, kept, fd, rest, acts[0], mayLeave);
      DoAllLists(Do(t, acts[0], fd, mayLeave), kept, fd, rest, acts[1..], mayLeave);
    }
  }

  lemma VisitLists(x: Index, kept: seq<int>, fd: int, rest: seq<int>, back: FdSets, acts: Acts)
    requires InSync(x) && FdsIn(x.entries) == kept + [fd] + rest
    ensures Lists(OnReady(x, fd, back, acts), kept, fd, rest)
  {
    var b := Begin(x);
    assert kept + [fd] + rest + [] == kept + [fd] + rest;
    DoAllLists(b, kept, fd, rest, acts.read, IsLast(fd, Read, back));
    var r := OnKind(b, fd, Read, back, acts);
    DoAllLists(r, kept, fd, rest, acts.write, IsLast(fd, Write, back));
    var w := OnKind(r, fd, Write, back, acts);
    DoAllLists(w, kept, fd, rest, acts.error, IsLast(fd, Error, back));
  }

  /** A dispatch keeps map and sets in agreement, and afterwards the map lists exactly the
      visited channels that did not leave and the ones registered but not visited, in
      order. */
  lemma {:induction false} RoamLists(x: Index, kept: seq<int>, ahead: seq<int>, back: FdSets, script: seq<Acts>, k: nat)
    requires InSync(x) && FdsIn(x.entries) == kept + ahead
    ensures var r := Roam(x, ahead, back, script, k);
            InSync(r.x) && FdsIn(r.x.entries) == kept + r.stayed + r.unvisited
    decreases if k < |script| then |script| - k else 0, |ahead|
  {
    if ahead == [] {
      assert kept + [] + [] == kept + [];
    } else {
      var fd, rest := ahead[0], ahead[1..];
      assert ahead == [fd] + rest;
      AppendAssoc(kept, [fd], rest);
      VisitLists(x, kept, fd, rest, back, ActsAt(script, k));
      var t := OnReady(x, fd, back, ActsAt(script, k));
      if |ahead| == 1 {
        assert kept + Stays(t, fd) + [] + t.joined == kept + Stays(t, fd) + t.joined;
      } else {
        var on := rest + t.joined;
        AppendAssoc(kept + Stays(t, fd), rest, t.joined);
        RoamLists(t.x, kept + Stays(t, fd), on, back, script, k + 1);
        var r := Roam(t.x, on, back, script, k + 1);
        AppendAssoc(kept, Stays(t, fd), r.stayed);
      }
    }
  }

  // ----- who leaves -----

  /** An act by which the handler of `fd` may make its channel leave. */
  predicate MayPart(act: Act, fd: int) {
    act.Unregister? || (act.DropInterest? && act.fd == fd)
  }

  lemma {:induction false} DoAllLeaves(t: Turn, kept: seq<int>, fd: int, rest: seq<int>, acts: seq<Act>, mayLeave: bool)
    requires Lists(t, kept, fd, rest)
    ensures var y := DoAll(t, acts, fd, mayLeave);
            && (t.left ==> y.left) && (mayLeave && Act.Unregister in acts ==> y.left)
            && (y.left && !t.left ==> mayLeave && exists act :: act in acts && MayPart(act, fd))
    decreases acts
  {
    if acts != [] {
      var u := Do(t, acts[0], fd, mayLeave);
      DoLists(t, kept, fd, rest, acts[0], mayLeave);
      DoAllLeaves(u, kept, fd, rest, acts[1..], mayLeave);
      if !t.left {
        LeaveLists(t, kept, fd, rest);
      }
      assert u.left && !t.left ==> acts[0] in acts && MayPart(acts[0], fd);
      assert forall act :: act in acts[1..] ==> act in acts;
    }
  }

  /** The acts of the handler of the last ready kind of `fd`. */
  function LastActs(fd: int, back: FdSets, acts: Acts): seq<Act> {
    if fd in back.error then acts.error
    else if fd in back.write then acts.write
    else if fd in back.read then acts.read
    else []
  }

  /** A visited channel leaves when the handler of its last ready kind unregisters it, and
      only when that handler unregisters it or drops interests of it. */
  lemma VisitLeaves(x: Index, kept: seq<int>, fd: int, rest: seq<int>, back: FdSets, acts: Acts)
    requires InSync(x) && FdsIn(x.entries) == kept + [fd] + rest
    ensures var left, last := OnReady(x, fd, back, acts).left, LastActs(fd, back, acts);
            && (Act.Unregister in last ==> left)
            && (left ==> exists act :: act in last && MayPart(act, fd))
  {
    var b := Begin(x);
    assert kept + [fd] + rest + [] == kept + [fd] + rest;
    DoAllLists(b, kept, fd, rest, acts.read, IsLast(fd, Read, back));
    DoAllLeaves(b, kept, fd, rest, acts.read, IsLast(fd, Read, back));
    var r := OnKind(b, fd, Read, back, acts);
    DoAllLists(r, kept, fd, rest, acts.write, IsLast(fd, Write, back));
    DoAllLeaves(r, kept, fd, rest, acts.write, IsLast(fd, Write, back));
    var w := OnKind(r, fd, Write, back, acts);
    DoAllLeaves(w, kept, fd, rest, acts.error, IsLast(fd, Error, back));
  }

  // ----- without registrations -----

  predicate NoneRegisters(script: seq<Acts>) {
    forall k, kind, act :: 0 <= k < |script| && act in script[k].Of(kind) ==> !act.Register?
  }

  lemma {:induction false} NoneJoins(t: Turn, acts: seq<Act>, fd: int, mayLeave: bool)
    requires forall act :: act in acts ==> !act.Register?
    ensures DoAll(t, acts, fd, mayLeave).joined == t.joined
    decreases acts
  {
    if acts != [] {
      assert acts[0] in acts;
      NoneJoins(Do(t, acts[0], fd, mayLeave), acts[1..], fd, mayLeave);
    }
  }

  lemma NoneJoinsVisit(x: Index, fd: int, back: FdSets, acts: Acts)
    requires forall kind, act :: act in acts.Of(kind) ==> !act.Register?
    ensures OnReady(x, fd, back, acts).joined == []
  {
    var r := OnKind(Begin(x), fd, Read, back, acts);
    var w := OnKind(r, fd, Write, back, acts);
    NoneJoins(Begin(x), acts.Of(Read), fd, IsLast(fd, Read, back));
    NoneJoins(r, acts.Of(Write), fd, IsLast(fd, Write, back));
    NoneJoins(w, acts.Of(Error), fd, IsLast(fd, Error, back));
  }

  /** When no handler registers a channel, a dispatch visits exactly the channels there at
      its start. */
  lemma {:induction false} NoneLate(x: Index, ahead: seq<int>, back: FdSets, script: seq<Acts>, k: nat)
    requires NoneRegisters(script)
    ensures Roam(x, ahead, back, script, k).visited == ahead
    ensures Roam(x, ahead, back, script, k).joined == []
    decreases if k < |script| then |script| - k else 0, |ahead|
  {
    if ahead != [] {
      var t := OnReady(x, ahead[0], back, ActsAt(script, k));
      NoneJoinsVisit(x, ahead[0], back, ActsAt(script, k));
      assert ahead[1..] + t.joined == ahead[1..];
      NoneLate(t.x, ahead[1..], back, script, k + 1);
    }
  }
}
