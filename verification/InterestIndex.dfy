/** Which descriptors the loop waits for: the registered channels with their masks,
    and the three descriptor sets that have to agree with them. */
module InterestIndex {
  import opened Sequences

  /** An `int` of interest bits, as the set of its bit positions. */
  type Mask = set<nat>

  const FD_MASK_NONE: Mask := {}
  const FD_MASK_READ: Mask := {0}
  const FD_MASK_WRITE: Mask := {1}
  const FD_MASK_ERROR: Mask := {2}
  const FD_MASK_ALL: Mask := {0, 1, 2}

  datatype Kind = Read | Write | Error

  function BitOf(k: Kind): nat {
    match k
    case Read => 0
    case Write => 1
    case Error => 2
  }

  predicate Wanted(mask: Mask, k: Kind) {
    BitOf(k) in mask
  }

  predicate NoInterest(mask: Mask) {
    forall k: Kind :: !Wanted(mask, k)
  }

  // ----- the index -----

  datatype Entry = Entry(fd: int, mask: Mask)

  datatype FdSets = FdSets(read: set<int>, write: set<int>, error: set<int>) {
    function Get(k: Kind): set<int> {
      match k
      case Read => read
      case Write => write
      case Error => error
    }
  }

  /** The registered channels in list order, the descriptor sets, and the cached
      highest descriptor with its dirty flag. */
  datatype Index = Index(entries: seq<Entry>, sets: FdSets, maxFd: int, isDirty: bool)

  function SetBits(s: FdSets, fd: int, mask: Mask): (r: FdSets)
    ensures forall k, f :: f in r.Get(k) <==> f in s.Get(k) || (f == fd && Wanted(mask, k))
  {
    FdSets(if Wanted(mask, Read) then s.read + {fd} else s.read,
           if Wanted(mask, Write) then s.write + {fd} else s.write,
           if Wanted(mask, Error) then s.error + {fd} else s.error)
  }

  function ClearBits(s: FdSets, fd: int, mask: Mask): (r: FdSets)
    ensures forall k, f :: f in r.Get(k) <==> f in s.Get(k) && !(f == fd && Wanted(mask, k))
  {
    FdSets(if Wanted(mask, Read) then s.read - {fd} else s.read,
           if Wanted(mask, Write) then s.write - {fd} else s.write,
           if Wanted(mask, Error) then s.error - {fd} else s.error)
  }

  function MaxFd(es: seq<Entry>): int {
    if es == [] then -1
    else if MaxFd(es[..|es| - 1]) < es[|es| - 1].fd then es[|es| - 1].fd
    else MaxFd(es[..|es| - 1])
  }

  lemma {:induction false} MaxFdBounds(es: seq<Entry>)
    ensures forall e :: e in es ==> e.fd <= MaxFd(es)
    ensures MaxFd(es) == -1 || exists e :: e in es && e.fd == MaxFd(es)
  {
    if es != [] {
      var rest := es[..|es| - 1];
      assert es == rest + [es[|es| - 1]];
      MaxFdBounds(rest);
    }
  }

  // ----- lookups -----

  predicate Mapped(es: seq<Entry>, fd: int) {
    exists e :: e in es && e.fd == fd
  }

  /** The position the map's search ends at: the first entry with the descriptor, or,
      when there is none, the last entry it looked at. */
  function SearchPos(es: seq<Entry>, fd: int): (i: nat)
    requires es != []
    ensures i < |es|
    ensures forall j :: 0 <= j < i ==> es[j].fd != fd
    ensures es[i].fd == fd || (i == |es| - 1 && !Mapped(es, fd))
  {
    if es[0].fd == fd || |es| == 1 then 0 else 1 + SearchPos(es[1..], fd)
  }

  ghost predicate FdPair(es: seq<Entry>, i: int, j: int) {
    0 <= i <= j < |es| ==> 0 <= es[i].fd && (i < j ==> es[i].fd != es[j].fd)
  }

  /** Descriptors are not negative, and no two channels share one. */
  ghost predicate UniqueFds(es: seq<Entry>) {
    forall i, j :: FdPair(es, i, j)
  }

  lemma UniqueEntry(es: seq<Entry>, a: Entry, b: Entry)
    requires UniqueFds(es) && a in es && b in es && a.fd == b.fd
    ensures a == b && a.fd >= 0
  {
    var i, j :| 0 <= i < |es| && 0 <= j < |es| && es[i] == a && es[j] == b;
    assert FdPair(es, i, j) && FdPair(es, j, i);
  }

  // ----- agreement -----

  ghost predicate Wants(es: seq<Entry>, fd: int, k: Kind) {
    exists e :: e in es && e.fd == fd && Wanted(e.mask, k)
  }

  /** A descriptor is in the set of a kind exactly when the channel with that
      descriptor has that interest bit. */
  ghost predicate Agrees(x: Index, fd: int, k: Kind) {
    fd in x.sets.Get(k) <==> Wants(x.entries, fd, k)
  }

  ghost predicate InSync(x: Index) {
    && UniqueFds(x.entries)
    && (forall fd, k :: Agrees(x, fd, k))
    && (!x.isDirty ==> x.maxFd == MaxFd(x.entries))
  }

  // ----- operations -----

  function AddChannel(x: Index, e: Entry): Index {
    x.(entries := x.entries + [e], sets := SetBits(x.sets, e.fd, e.mask), isDirty := true)
  }

  /** Removal from the map: the entry the search ends at goes, found or not. */
  function MapRemove(es: seq<Entry>, fd: int): seq<Entry> {
    if es == [] then [] else DeleteAt(es, SearchPos(es, fd))
  }

  function RemoveChannel(x: Index, e: Entry): Index {
    x.(entries := MapRemove(x.entries, e.fd), sets := ClearBits(x.sets, e.fd, e.mask), isDirty := true)
  }

  /** The entry at `i` keeps the interests `left`, or goes when that is none. */
  function Narrow(x: Index, i: nat, gone: Mask, left: Mask): Index
    requires i < |x.entries|
  {
    var fd := x.entries[i].fd;
    Index(if left == FD_MASK_NONE then DeleteAt(x.entries, i) else x.entries[i := Entry(fd, left)],
          ClearBits(x.sets, fd, gone), x.maxFd, true)
  }

  /** Dropping these interests leaves a registered descriptor with none. */
  predicate Empties(x: Index, fd: int, mask: Mask) {
    Mapped(x.entries, fd) && x.entries[SearchPos(x.entries, fd)].mask - mask == FD_MASK_NONE
  }

  function RemoveFd(x: Index, fd: int, mask: Mask): Index {
    if !Mapped(x.entries, fd) then x
    else
      var i := SearchPos(x.entries, fd);
      Narrow(x, i, mask, x.entries[i].mask - mask)
  }

  /** Re-registers a channel whose mask is `e.mask` by now. */
  function UpdateChannel(x: Index, e: Entry): Index {
    x.(sets := SetBits(ClearBits(x.sets, e.fd, FD_MASK_ALL), e.fd, e.mask), isDirty := true)
  }

  /** The mask of a registered channel changes, and nothing else yet. */
  function ChangeMask(x: Index, e: Entry): Index {
    if !Mapped(x.entries, e.fd) then x
    else x.(entries := x.entries[SearchPos(x.entries, e.fd) := e])
  }

  /** What a poll does to the cache before it waits. */
  function Refresh(x: Index): Index {
    if x.entries == [] || !x.isDirty then x else x.(isDirty := false, maxFd := MaxFd(x.entries))
  }

  // ----- what keeps the index in step -----

  lemma UniqueAppend(es: seq<Entry>, e: Entry)
    ensures UniqueFds(es + [e]) <==> UniqueFds(es) && e.fd >= 0 && !Mapped(es, e.fd)
  {
    var n, all := |es|, es + [e];
    if UniqueFds(all) {
      forall i, j
        ensures FdPair(es, i, j)
      {
        assert FdPair(all, i, j);
      }
      assert FdPair(all, n, n);
      forall u | u in es
        ensures u.fd != e.fd
      {
        var i :| 0 <= i < n && es[i] == u;
        assert FdPair(all, i, n);
      }
    } else if e.fd >= 0 && !Mapped(es, e.fd) {
      var i, j :| !FdPair(all, i, j);
      assert es[i] in es;
      assert !FdPair(es, i, j) || !FdPair(es, i, i);
    }
  }

  /** Registering keeps the index in step exactly for a descriptor that is valid and
      not registered yet. */
  lemma AddKeepsSync(x: Index, e: Entry)
    requires InSync(x)
    ensures InSync(AddChannel(x, e)) <==> e.fd >= 0 && !Mapped(x.entries, e.fd)
  {
    var y := AddChannel(x, e);
    UniqueAppend(x.entries, e);
    forall fd, k
      ensures Agrees(y, fd, k)
    {
      assert Agrees(x, fd, k);
      assert forall u :: u in y.entries <==> u in x.entries || u == e;
    }
  }

  lemma UniqueDelete(es: seq<Entry>, i: nat)
    requires UniqueFds(es) && i < |es|
    ensures UniqueFds(DeleteAt(es, i))
    ensures forall u :: u in DeleteAt(es, i) <==> u in es && u.fd != es[i].fd
  {
    var r := DeleteAt(es, i);
    forall a, b
      ensures FdPair(r, a, b)
    {
      assert FdPair(es, if a < i then a else a + 1, if b < i then b else b + 1);
    }
    forall j | 0 <= j < |r|
      ensures r[j] in es && r[j].fd != es[i].fd
    {
      assert FdPair(es, j, i) && FdPair(es, i, j + 1);
    }
    forall u | u in es && u.fd != es[i].fd
      ensures u in r
    {
      var j :| 0 <= j < |es| && es[j] == u;
      assert r[if j < i then j else j - 1] == u;
    }
  }

  /** What unregistering `e` takes out of the map is cleared from the sets with it. */
  ghost predicate ClearsGone(es: seq<Entry>, e: Entry) {
    es == [] ||
    var gone := es[SearchPos(es, e.fd)];
    forall k: Kind :: Wanted(gone.mask, k) ==> gone.fd == e.fd && Wanted(e.mask, k)
  }

  /** Unregistering keeps the index in step exactly when the channel it takes out of the
      map, which for an unknown descriptor is the one registered last, waits for nothing
      that is not cleared. */
  lemma RemoveChannelKeepsSync(x: Index, e: Entry)
    requires InSync(x)
    ensures InSync(RemoveChannel(x, e)) <==> ClearsGone(x.entries, e)
  {
    var y := RemoveChannel(x, e);
    if x.entries == [] {
      forall fd, k
        ensures Agrees(y, fd, k)
      {
        assert Agrees(x, fd, k);
      }
    } else {
      var i := SearchPos(x.entries, e.fd);
      var gone := x.entries[i];
      UniqueDelete(x.entries, i);
      forall fd, k
        ensures Agrees(y, fd, k) <==> fd != gone.fd || !Wanted(gone.mask, k) || (gone.fd == e.fd && Wanted(e.mask, k))
      {
        assert Agrees(x, fd, k);
        if fd == gone.fd {
          OnlyEntry(x.entries, gone, k);
        }
      }
      if InSync(y) {
        forall k: Kind
          ensures Wanted(gone.mask, k) ==> gone.fd == e.fd && Wanted(e.mask, k)
        {
          assert Agrees(y, gone.fd, k);
        }
      }
    }
  }

  /** For a registered channel that is always so. */
  lemma RegisteredClearsGone(es: seq<Entry>, e: Entry)
    requires UniqueFds(es) && e in es
    ensures ClearsGone(es, e)
  {
    UniqueEntry(es, e, es[SearchPos(es, e.fd)]);
  }

  lemma OnlyEntry(es: seq<Entry>, e: Entry, k: Kind)
    requires UniqueFds(es) && e in es
    ensures Wants(es, e.fd, k) <==> Wanted(e.mask, k)
  {
    if u :| u in es && u.fd == e.fd && Wanted(u.mask, k) {
      UniqueEntry(es, u, e);
    }
  }

  lemma UniqueUpdate(es: seq<Entry>, i: nat, e: Entry)
    requires UniqueFds(es) && i < |es| && es[i].fd == e.fd
    ensures UniqueFds(es[i := e])
    ensures forall u :: u in es[i := e] <==> u == e || (u in es && u.fd != e.fd)
  {
    var r := es[i := e];
    forall a, b
      ensures FdPair(r, a, b)
    {
      assert FdPair(es, a, b);
    }
    forall u | u in es && u.fd != e.fd
      ensures u in r
    {
      var j :| 0 <= j < |es| && es[j] == u;
      assert r[j] == u;
    }
    forall j | 0 <= j < |r| && r[j] != e
      ensures r[j] in es && r[j].fd != e.fd
    {
      assert FdPair(es, j, i) && FdPair(es, i, j);
    }
    assert r[i] == e;
  }

  /** `left` is `mask` without the interests of `gone`. */
  ghost predicate Narrowed(mask: Mask, gone: Mask, left: Mask) {
    forall k: Kind :: Wanted(left, k) <==> Wanted(mask, k) && !Wanted(gone, k)
  }

  lemma EmptiedKeepsSync(x: Index, e: Entry, mask: Mask, es: seq<Entry>)
    requires InSync(x) && e in x.entries && Narrowed(e.mask, mask, FD_MASK_NONE)
    requires UniqueFds(es) && forall u :: u in es <==> u in x.entries && u.fd != e.fd
    ensures InSync(Index(es, ClearBits(x.sets, e.fd, mask), x.maxFd, true))
  {
    var y := Index(es, ClearBits(x.sets, e.fd, mask), x.maxFd, true);
    forall f, k
      ensures Agrees(y, f, k)
    {
      assert Agrees(x, f, k);
      if f == e.fd {
        OnlyEntry(x.entries, e, k);
      }
    }
  }

  lemma NarrowedKeepsSync(x: Index, e: Entry, mask: Mask, left: Entry, es: seq<Entry>)
    requires InSync(x) && e in x.entries && left.fd == e.fd && Narrowed(e.mask, mask, left.mask)
    requires UniqueFds(es) && left in es && forall u :: u in es <==> u == left || (u in x.entries && u.fd != e.fd)
    ensures InSync(Index(es, ClearBits(x.sets, e.fd, mask), x.maxFd, true))
  {
    var y := Index(es, ClearBits(x.sets, e.fd, mask), x.maxFd, true);
    forall f, k
      ensures Agrees(y, f, k)
    {
      assert Agrees(x, f, k);
      if f == e.fd {
        OnlyEntry(x.entries, e, k);
        OnlyEntry(es, left, k);
      }
    }
  }

  lemma NarrowKeepsSync(x: Index, i: nat, gone: Mask, left: Mask)
    requires InSync(x) && i < |x.entries| && Narrowed(x.entries[i].mask, gone, left)
    ensures InSync(Narrow(x, i, gone, left))
  {
    var e := x.entries[i];
    UniqueDelete(x.entries, i);
    UniqueUpdate(x.entries, i, Entry(e.fd, left));
    if left == FD_MASK_NONE {
      EmptiedKeepsSync(x, e, gone, DeleteAt(x.entries, i));
    } else {
      NarrowedKeepsSync(x, e, gone, Entry(e.fd, left), x.entries[i := Entry(e.fd, left)]);
    }
  }

  /** Removing some interests of a descriptor always keeps the index in step. */
  lemma RemoveFdKeepsSync(x: Index, fd: int, mask: Mask)
    requires InSync(x)
    ensures InSync(RemoveFd(x, fd, mask))
  {
    if Mapped(x.entries, fd) {
      var i := SearchPos(x.entries, fd);
      NarrowKeepsSync(x, i, mask, x.entries[i].mask - mask);
    }
  }

  /** It unregisters the channel exactly when that empties its mask. */
  lemma RemoveFdUnregisters(x: Index, e: Entry, mask: Mask)
    requires InSync(x) && e in x.entries
    ensures Mapped(RemoveFd(x, e.fd, mask).entries, e.fd) <==> e.mask - mask != FD_MASK_NONE
  {
    var i, left := SearchPos(x.entries, e.fd), e.mask - mask;
    UniqueEntry(x.entries, e, x.entries[i]);
    UniqueDelete(x.entries, i);
    if left != FD_MASK_NONE {
      assert Narrow(x, i, mask, left).entries[i] == Entry(e.fd, left);
    }
  }

  /** The index is in step but for one descriptor. */
  ghost predicate InSyncBut(x: Index, fd: int) {
    UniqueFds(x.entries) && forall f, k :: f != fd ==> Agrees(x, f, k)
  }

  /** `e` waits for exactly what the map says about its descriptor. */
  ghost predicate SameInterest(es: seq<Entry>, e: Entry) {
    forall k: Kind :: Wanted(e.mask, k) <==> Wants(es, e.fd, k)
  }

  /** Re-registering brings the index in step exactly when the channel waits for what the
      map says about its descriptor, whether the sets were in step there or not. */
  lemma UpdateKeepsSync(x: Index, e: Entry)
    requires InSyncBut(x, e.fd)
    ensures InSync(UpdateChannel(x, e)) <==> SameInterest(x.entries, e)
  {
    var y := UpdateChannel(x, e);
    forall f, k
      ensures Agrees(y, f, k) <==> f != e.fd || (Wanted(e.mask, k) <==> Wants(x.entries, e.fd, k))
    {
      assert f != e.fd ==> Agrees(x, f, k);
    }
    if InSync(y) {
      forall k: Kind
        ensures Wanted(e.mask, k) <==> Wants(x.entries, e.fd, k)
      {
        assert Agrees(y, e.fd, k);
      }
    }
  }

  /** Changing the mask of a channel and then re-registering it keeps the index in step
      exactly when the channel is registered, or waits for nothing. */
  lemma RemaskKeepsSync(x: Index, e: Entry)
    requires InSync(x)
    ensures InSync(UpdateChannel(ChangeMask(x, e), e)) <==> Mapped(x.entries, e.fd) || NoInterest(e.mask)
  {
    var m := ChangeMask(x, e);
    if Mapped(x.entries, e.fd) {
      var i := SearchPos(x.entries, e.fd);
      UniqueUpdate(x.entries, i, e);
      assert m.entries[i] == e;
      forall k: Kind
        ensures Wants(m.entries, e.fd, k) <==> Wanted(e.mask, k)
      {
        OnlyEntry(m.entries, e, k);
      }
    }
    forall f, k | f != e.fd
      ensures Agrees(m, f, k)
    {
      assert Agrees(x, f, k);
    }
    UpdateKeepsSync(m, e);
  }

  /** `n` is above every descriptor in any of the sets. */
  ghost predicate Covers(n: int, s: FdSets) {
    forall k, fd :: fd in s.Get(k) ==> 0 <= fd < n
  }

  /** Descriptor 3 is registered for reading. Unregistering a channel with descriptor 5
      takes 3 out of the map and leaves it in the set; updating that channel puts 5 into
      the set without a channel. A second channel with descriptor 3 that waits for writing
      does the same harm: unregistering it takes the first one out of the map and leaves
      3 in the set, and updating it moves 3 to the other set. */
  lemma UnregisteredChannelsBreakSync()
    ensures var x := Index([Entry(3, FD_MASK_READ)], FdSets({3}, {}, {}), 3, false);
            var stray, second := Entry(5, FD_MASK_READ), Entry(3, FD_MASK_WRITE);
            && InSync(x)
            && RemoveChannel(x, stray).entries == [] && !InSync(RemoveChannel(x, stray))
            && !InSync(UpdateChannel(x, stray))
            && RemoveChannel(x, second).entries == [] && !InSync(RemoveChannel(x, second))
            && UpdateChannel(x, second).sets == FdSets({}, {3}, {}) && !InSync(UpdateChannel(x, second))
  {
    var x := Index([Entry(3, FD_MASK_READ)], FdSets({3}, {}, {}), 3, false);
    var stray, second := Entry(5, FD_MASK_READ), Entry(3, FD_MASK_WRITE);
    assert forall i, j :: FdPair(x.entries, i, j);
    assert x.entries[0] in x.entries;
    assert forall fd, k :: Agrees(x, fd, k);
    assert MaxFd(x.entries[..0]) == -1;
    assert Wanted(FD_MASK_READ, Read) && !Wanted(FD_MASK_WRITE, Read);
    RemoveChannelKeepsSync(x, stray);
    RemoveChannelKeepsSync(x, second);
    UpdateKeepsSync(x, stray);
    UpdateKeepsSync(x, second);
    assert !Wants(x.entries, 5, Read) && Wants(x.entries, 3, Read);
  }

  /** When the wait begins, the bound passed to it is one above the highest registered
      descriptor, and so exceeds every descriptor in any of the sets; nothing is left to be
      refreshed. */
  lemma RefreshBounds(x: Index)
    requires InSync(x)
    ensures InSync(Refresh(x))
    ensures x.entries != [] ==> Covers(Refresh(x).maxFd + 1, x.sets)
    ensures x.entries != [] ==> !Refresh(x).isDirty && Mapped(x.entries, Refresh(x).maxFd)
    ensures forall e :: e in x.entries ==> e.fd <= Refresh(x).maxFd
    ensures Refresh(x).entries == x.entries && Refresh(x).sets == x.sets
  {
    var y := Refresh(x);
    forall fd, k
      ensures Agrees(y, fd, k)
    {
      assert Agrees(x, fd, k);
    }
    MaxFdBounds(x.entries);
    if x.entries != [] {
      assert x.entries[0] in x.entries;
      UniqueEntry(x.entries, x.entries[0], x.entries[0]);
    }
    forall k, fd | x.entries != [] && fd in y.sets.Get(k)
      ensures 0 <= fd < y.maxFd + 1
    {
      assert Agrees(x, fd, k);
      var e :| e in x.entries && e.fd == fd && Wanted(e.mask, k);
      UniqueEntry(x.entries, e, e);
    }
  }

  // ----- runs -----

  /** `Update` re-registers any channel as it is, `SetInterest` one whose mask changes. */
  datatype Op =
    | Register(e: Entry)
    | Unregister(e: Entry)
    | DropInterest(fd: int, mask: Mask)
    | Update(e: Entry)
    | SetInterest(e: Entry)
    | Poll

  /** What each operation needs of its caller. */
  ghost predicate Allowed(x: Index, op: Op) {
    match op
    case Register(e) => e.fd >= 0 && !Mapped(x.entries, e.fd)
    case Unregister(e) => ClearsGone(x.entries, e)
    case DropInterest(_, _) => true
    case Update(e) => SameInterest(x.entries, e)
    case SetInterest(e) => Mapped(x.entries, e.fd) || NoInterest(e.mask)
    case Poll => true
  }

  function Apply(x: Index, op: Op): Index {
    match op
    case Register(e) => AddChannel(x, e)
    case Unregister(e) => RemoveChannel(x, e)
    case DropInterest(fd, mask) => RemoveFd(x, fd, mask)
    case Update(e) => UpdateChannel(x, e)
    case SetInterest(e) => UpdateChannel(ChangeMask(x, e), e)
    case Poll => Refresh(x)
  }

  /** One operation keeps the index in step exactly when it is allowed. */
  lemma OpKeepsSync(x: Index, op: Op)
    requires InSync(x)
    ensures InSync(Apply(x, op)) <==> Allowed(x, op)
  {
    match op
    case Register(e) => AddKeepsSync(x, e);
    case Unregister(e) => RemoveChannelKeepsSync(x, e);
    case DropInterest(fd, mask) => RemoveFdKeepsSync(x, fd, mask);
    case Update(e) => UpdateKeepsSync(x, e);
    case SetInterest(e) => RemaskKeepsSync(x, e);
    case Poll => RefreshBounds(x);
  }

  /** Which interests are registered after an operation. The sets agree with that, so this
      is what each operation does to them, too. */
  ghost predicate WantsAfter(x: Index, op: Op, f: int, k: Kind) {
    match op
    case Register(e) => Wants(x.entries, f, k) || (f == e.fd && Wanted(e.mask, k))
    case Unregister(e) => Wants(x.entries, f, k) && f != e.fd
    case DropInterest(fd, mask) => Wants(x.entries, f, k) && !(f == fd && Wanted(mask, k))
    case Update(_) => Wants(x.entries, f, k)
    case SetInterest(e) => if f == e.fd && Mapped(x.entries, f) then Wanted(e.mask, k) else Wants(x.entries, f, k)
    case Poll => Wants(x.entries, f, k)
  }

  /** Which descriptors are registered after it. */
  ghost predicate MappedAfter(x: Index, op: Op, f: int) {
    match op
    case Register(e) => Mapped(x.entries, f) || f == e.fd
    case Unregister(e) => Mapped(x.entries, f) && f != e.fd
    case DropInterest(fd, mask) => Mapped(x.entries, f) && !(f == fd && Empties(x, fd, mask))
    case _ => Mapped(x.entries, f)
  }

  /** What is unregistered is a registered channel. */
  ghost predicate Knows(x: Index, op: Op) {
    op.Unregister? ==> op.e in x.entries
  }

  /** Every operation changes the interests it is about, and no others. */
  lemma OpTakesEffect(x: Index, op: Op, f: int)
    requires InSync(x) && Allowed(x, op) && Knows(x, op)
    ensures Mapped(Apply(x, op).entries, f) <==> MappedAfter(x, op, f)
    ensures forall k: Kind :: Wants(Apply(x, op).entries, f, k) <==> WantsAfter(x, op, f, k)
    ensures forall k: Kind :: f in Apply(x, op).sets.Get(k) <==> WantsAfter(x, op, f, k)
  {
    var y := Apply(x, op);
    OpKeepsSync(x, op);
    match op {
      case Register(e) =>
        assert forall u :: u in y.entries <==> u in x.entries || u == e;
      case Unregister(e) =>
        UniqueEntry(x.entries, e, x.entries[SearchPos(x.entries, e.fd)]);
        UniqueDelete(x.entries, SearchPos(x.entries, e.fd));
      case DropInterest(fd, mask) =>
        DropTakesEffect(x, fd, mask, f);
      case SetInterest(e) =>
        if Mapped(x.entries, e.fd) {
          UniqueUpdate(x.entries, SearchPos(x.entries, e.fd), e);
          assert y.entries[SearchPos(x.entries, e.fd)] == e;
        }
      case _ =>
    }
    forall k: Kind
      ensures f in y.sets.Get(k) <==> Wants(y.entries, f, k)
    {
      assert Agrees(y, f, k);
    }
  }

  lemma DropTakesEffect(x: Index, fd: int, mask: Mask, f: int)
    requires InSync(x)
    ensures var es := RemoveFd(x, fd, mask).entries;
            && (Mapped(es, f) <==> Mapped(x.entries, f) && !(f == fd && Empties(x, fd, mask)))
            && forall k: Kind :: Wants(es, f, k) <==> Wants(x.entries, f, k) && !(f == fd && Wanted(mask, k))
  {
    if Mapped(x.entries, fd) {
      var i, es := SearchPos(x.entries, fd), RemoveFd(x, fd, mask).entries;
      var was, left := x.entries[i], Entry(fd, x.entries[i].mask - mask);
      UniqueDelete(x.entries, i);
      UniqueUpdate(x.entries, i, left);
      if !Empties(x, fd, mask) {
        assert es[i] == left;
      }
      forall k: Kind
        ensures Wants(es, f, k) <==> Wants(x.entries, f, k) && !(f == fd && Wanted(mask, k))
      {
        OnlyEntry(x.entries, was, k);
        if f != fd {
          assert forall u: Entry :: u.fd == f ==> (u in es <==> u in x.entries);
        } else if !Empties(x, fd, mask) {
          OnlyEntry(es, left, k);
        } else {
          assert Wanted(was.mask, k) ==> Wanted(mask, k) by {
            assert BitOf(k) !in was.mask - mask;
          }
        }
      }
    }
  }

  ghost predicate AllAllowed(x: Index, ops: seq<Op>)
    decreases ops
  {
    ops == [] || (Allowed(x, ops[0]) && AllAllowed(Apply(x, ops[0]), ops[1..]))
  }

  function ApplyAll(x: Index, ops: seq<Op>): Index
    decreases ops
  {
    if ops == [] then x else ApplyAll(Apply(x, ops[0]), ops[1..])
  }

  /** The index is in step before and after every operation. */
  ghost predicate StaysInSync(x: Index, ops: seq<Op>)
    decreases ops
  {
    InSync(x) && (ops == [] || StaysInSync(Apply(x, ops[0]), ops[1..]))
  }

  /** Over a run the sets agree with the registered masks at every moment exactly when
      every operation is allowed, and then every wait is given a bound above every
      descriptor it has to look at. */
  lemma {:induction false} RunsStayInSync(x: Index, ops: seq<Op>)
    requires InSync(x)
    ensures StaysInSync(x, ops) <==> AllAllowed(x, ops)
    ensures var y := ApplyAll(x, ops);
            AllAllowed(x, ops) ==> InSync(y) && (y.entries != [] ==> Covers(Refresh(y).maxFd + 1, y.sets))
    decreases ops
  {
    if ops == [] {
      RefreshBounds(x);
    } else {
      OpKeepsSync(x, ops[0]);
      if Allowed(x, ops[0]) {
        RunsStayInSync(Apply(x, ops[0]), ops[1..]);
      }
    }
  }
}
