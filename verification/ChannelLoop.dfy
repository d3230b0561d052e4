/** The channel operations of an event loop: each changes the map and the descriptor
    sets together. */
module ChannelLoop {
  import opened Sequences
  import opened InterestIndex
  import opened Channels

  class ChannelLoop {
    const io: EventIo
    const ecMap: ChannelMap

    ghost function Registered(): seq<Channel>
      reads this, ecMap, ecMap.list
    {
      ecMap.Channels()
    }

    ghost function Members(): set<Channel>
      reads this, ecMap, ecMap.list
    {
      set c | c in Registered()
    }

    ghost function View(): Index
      reads this, io, ecMap, ecMap.list, Registered()
    {
      Index(EntriesOf(Registered()), io.Sets(), io.maxFd, io.isDirty)
    }

    ghost predicate Valid()
      reads this, ecMap, ecMap.list, ecMap.list.Repr
    {
      ecMap.Valid()
    }

    /** Everything that makes up the loop's channels. */
    ghost function Objects(): set<object>
      reads this, ecMap, ecMap.list
    {
      {io, ecMap.list} + ecMap.list.Repr + Members()
    }

    /** Nodes and channels that were not there before are new. */
    twostate predicate Grown()
      reads this, ecMap, ecMap.list
    {
      && (forall n :: n in ecMap.list.Repr ==> n in old(ecMap.list.Repr) || fresh(n))
      && (forall c :: c in Members() ==> c in old(Members()) || fresh(c))
    }

    constructor ()
      ensures Valid() && fresh(io) && fresh(ecMap) && fresh(ecMap.list) && ecMap.list.Repr == {}
      ensures Registered() == [] && InSync(View())
    {
      io := new EventIo();
      ecMap := new ChannelMap();
      new;
      assert View() == Index([], FdSets({}, {}, {}), -1, true);
      EmptyInSync(View());
    }

    method AddChannel(c: Channel) returns (ret: int)
      requires Valid()
      modifies io, ecMap.list, ecMap.list.Repr
      ensures Valid() && (forall n :: n in ecMap.list.Repr ==> n in old(ecMap.list.Repr) || fresh(n))
      ensures Registered() == old(Registered()) + [c] && old(ecMap.list.nodes) <= ecMap.list.nodes
      ensures View() == InterestIndex.AddChannel(old(View()), c.Current())
      ensures ret == 0
    {
      ghost var es := EntriesOf(Registered());
      ret := ecMap.Add(c);
      if ret == 0 {
        io.AddFd(c);
      }
      assert EntriesOf(Registered()) == es + [c.Current()];
    }

    /** Takes the entry at which the search for `fd` ends out of the map. */
    method Unmap(fd: int)
      requires Valid()
      modifies ecMap.list, ecMap.list.Repr
      ensures Valid() && ecMap.list.Repr == old(ecMap.list.Repr)
      ensures View() == old(View()).(entries := MapRemove(old(View()).entries, fd))
      ensures if old(Registered()) == [] then Registered() == []
              else IsDelete(old(ecMap.list.nodes), SearchPos(old(View()).entries, fd), ecMap.list.nodes)
                   && Registered() == DeleteAt(old(Registered()), SearchPos(old(View()).entries, fd))
    {
      ghost var es, cs := EntriesOf(Registered()), Registered();
      var _ := ecMap.Remove(fd);
      assert EntriesOf(cs) == es;
      if cs != [] {
        EntriesOfDelete(cs, SearchPos(es, fd));
      }
    }

    method RemoveChannel(c: Channel) returns (ret: int)
      requires Valid()
      modifies io, ecMap.list, ecMap.list.Repr
      ensures Valid() && ecMap.list.Repr == old(ecMap.list.Repr)
      ensures View() == InterestIndex.RemoveChannel(old(View()), c.Current())
      ensures if old(Registered()) == [] then Registered() == []
              else IsDelete(old(ecMap.list.nodes), SearchPos(old(View()).entries, c.fd), ecMap.list.nodes)
                   && Registered() == DeleteAt(old(Registered()), SearchPos(old(View()).entries, c.fd))
      ensures ret == 0
    {
      io.RemoveFd(c);
      Unmap(c.fd);
      ret := 0;
    }

    /** Clears the bits of `mask` for the channel at `i` in the sets, with its own mask
        swapped for the time that takes, and then in its mask. */
    method DropBits(channel: Channel, mask: Mask, ghost i: nat)
      requires Valid() && Distinct(Registered()) && i < |Registered()| && Registered()[i] == channel
      modifies io, channel
      ensures Valid() && channel.mask == old(channel.mask) - mask
      ensures var x := old(View());
              var es := x.entries[i := Entry(channel.fd, channel.mask)];
              View() == Index(es, ClearBits(x.sets, channel.fd, mask), x.maxFd, true)
    {
      ghost var es, cs := EntriesOf(Registered()), Registered();
      var originMask := channel.mask;
      channel.SetMask(mask);
      io.RemoveFd(channel);
      channel.SetMask(originMask);
      channel.RemoveMask(mask);
      OthersAreOther(cs, i);
      assert EntriesOf(cs) == es[i := channel.Current()];
    }

    /** The same for a channel found by its descriptor, which is unregistered with its last
        interest. */
    method DropOne(channel: Channel, mask: Mask, ghost i: nat) returns (isDelete: bool)
      requires Valid() && Distinct(Registered()) && i < |Registered()| && Registered()[i] == channel
      requires Mapped(View().entries, channel.fd) && i == SearchPos(View().entries, channel.fd)
      modifies io, ecMap.list, ecMap.list.Repr, channel
      ensures Valid() && ecMap.list.Repr == old(ecMap.list.Repr)
      ensures View() == InterestIndex.RemoveFd(old(View()), channel.fd, mask)
      ensures isDelete == Empties(old(View()), channel.fd, mask)
      ensures if isDelete then IsDelete(old(ecMap.list.nodes), i, ecMap.list.nodes)
              else ecMap.list.nodes == old(ecMap.list.nodes)
    {
      ghost var es := EntriesOf(Registered());
      DropBits(channel, mask, i);
      DropThenUnmap(es, channel.fd, i, channel.mask);
      isDelete := channel.mask == FD_MASK_NONE;
      if isDelete {
        Unmap(channel.fd);
      }
    }

    /** Unregisters some interests of a descriptor, and the channel with its last one. */
    method RemoveFd(fd: int, mask: Mask) returns (ret: int, isDelete: bool)
      requires Valid() && Distinct(Registered())
      modifies io, ecMap.list, ecMap.list.Repr, Members()
      ensures Valid() && ecMap.list.Repr == old(ecMap.list.Repr)
      ensures View() == InterestIndex.RemoveFd(old(View()), fd, mask)
      ensures ret == if Mapped(old(View()).entries, fd) then 0 else -1
      ensures isDelete == Empties(old(View()), fd, mask)
      ensures if isDelete then IsDelete(old(ecMap.list.nodes), SearchPos(old(View()).entries, fd), ecMap.list.nodes)
              else ecMap.list.nodes == old(ecMap.list.nodes)
    {
      isDelete := false;
      var channel := ecMap.Find(fd);
      if channel != null {
        isDelete := DropOne(channel, mask, SearchPos(View().entries, fd));
      }
      ret := if channel != null then 0 else -1;
    }

    /** What a poll does before it waits: a full scan if anything changed. */
    method RefreshMaxFd()
      requires Valid() && InSync(View()) && Registered() != []
      modifies io
      ensures Valid() && InSync(View())
      ensures View() == Refresh(old(View())) && Covers(io.maxFd + 1, io.Sets())
    {
      ghost var x := View();
      if io.isDirty {
        io.isDirty := false;
        io.maxFd := ecMap.GetMaxFd();
      }
      RefreshBounds(x);
    }

    /** Re-registers a channel after its mask changed. */
    method UpdateChannel(c: Channel) returns (ret: int)
      requires Valid()
      modifies io, c
      ensures Valid() && c.mask == old(c.mask)
      ensures View() == InterestIndex.UpdateChannel(old(View()), c.Current())
      ensures ret == 0
    {
      ResetBits(c);
      assert EntriesOf(Registered()) == old(EntriesOf(Registered()));
      ret := 0;
    }

    /** Takes a descriptor out of all sets and puts it back into those of its mask. */
    method ResetBits(c: Channel)
      modifies io, c
      ensures c.mask == old(c.mask) && io.isDirty && io.maxFd == old(io.maxFd)
      ensures io.Sets() == SetBits(ClearBits(old(io.Sets()), c.fd, FD_MASK_ALL), c.fd, c.mask)
    {
      var originMask := c.mask;
      c.SetMask(FD_MASK_READ + FD_MASK_WRITE + FD_MASK_ERROR);
      assert c.mask == FD_MASK_ALL;
      io.RemoveFd(c);
      c.SetMask(originMask);
      io.AddFd(c);
    }

    /** Gives a registered channel another mask and re-registers it, as marking and
        unmarking for writing do. */
    method SetInterest(c: Channel, mask: Mask)
      requires Valid() && InSync(View()) && c in Registered()
      modifies io, c
      ensures Valid() && InSync(View()) && c.mask == mask
      ensures View() == InterestIndex.UpdateChannel(ChangeMask(old(View()), c.Current()), c.Current())
    {
      ghost var x, cs := View(), Registered();
      ghost var i :| 0 <= i < |cs| && cs[i] == c;
      UniqueAreDistinct(x.entries, cs);
      OthersAreOther(cs, i);
      UniqueSearch(x.entries, i);
      RemaskKeepsSync(x, Entry(c.fd, mask));
      c.SetMask(mask);
      assert EntriesOf(cs) == x.entries[i := c.Current()];
      var _ := UpdateChannel(c);
    }
  }

  lemma UniqueSearch(es: seq<Entry>, i: nat)
    requires UniqueFds(es) && i < |es|
    ensures Mapped(es, es[i].fd) && SearchPos(es, es[i].fd) == i
  {
    assert es[i] in es;
    var j := SearchPos(es, es[i].fd);
    assert FdPair(es, i, j) && FdPair(es, j, i);
  }

  lemma EmptyInSync(x: Index)
    requires x.entries == [] && x.sets == FdSets({}, {}, {}) && x.isDirty
    ensures InSync(x)
  {
    assert forall fd, k :: Agrees(x, fd, k);
    assert forall i, j :: FdPair(x.entries, i, j);
  }

  /** Channels with different descriptors are different objects. */
  lemma UniqueAreDistinct(es: seq<Entry>, cs: seq<Channel>)
    requires UniqueFds(es) && |es| == |cs| && forall j :: 0 <= j < |cs| ==> es[j].fd == cs[j].fd
    ensures Distinct(cs)
  {
    forall i, j | 0 <= i < j < |cs|
      ensures cs[i] != cs[j]
    {
      assert FdPair(es, i, j);
    }
  }

  lemma OthersAreOther(cs: seq<Channel>, i: nat)
    requires Distinct(cs) && i < |cs|
    ensures forall j :: 0 <= j < |cs| && j != i ==> cs[j] != cs[i]
  {
  }

  lemma EntriesOfDelete(cs: seq<Channel>, i: nat)
    requires i < |cs|
    ensures EntriesOf(DeleteAt(cs, i)) == DeleteAt(EntriesOf(cs), i)
  {
  }

  /** Changing the mask of an entry does not change where the search ends, nor what is
      left when it is taken out. */
  lemma DropThenUnmap(es: seq<Entry>, fd: int, i: nat, left: Mask)
    requires i < |es| && i == SearchPos(es, fd) && es[i].fd == fd
    ensures MapRemove(es[i := Entry(fd, left)], fd) == MapRemove(es, fd)
    ensures es[i := Entry(fd, left)] != MapRemove(es, fd)
  {
    var r := es[i := Entry(fd, left)];
    assert r[i] in r;
    assert SearchPos(r, fd) == i;
    assert DeleteAt(r, i) == DeleteAt(es, i);
    assert |r| != |DeleteAt(es, i)|;
  }
}
