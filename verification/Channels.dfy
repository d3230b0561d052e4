/** Channels, the select backend that waits for them, and the map that lists them. */
module Channels {
  import opened Sequences
  import opened HeapList
  import opened InterestIndex
  import opened BufferPipe

  class Channel {
    const fd: int
    var mask: Mask
    const pipeRecv: Pipe
    const pipeSend: Pipe

    constructor (fd: int, mask: Mask)
      ensures this.fd == fd && this.mask == mask
      ensures PipesReady() && fresh(pipeRecv) && fresh(pipeSend) && fresh(pipeRecv.data) && fresh(pipeSend.data)
    {
      this.fd, this.mask := fd, mask;
      pipeRecv := new Pipe();
      pipeSend := new Pipe();
    }

    /** Two empty pipes that share nothing. */
    ghost predicate PipesReady()
      reads this, pipeRecv, pipeSend
    {
      && pipeRecv.Valid() && pipeSend.Valid() && pipeRecv.length == 0 && pipeSend.length == 0
      && pipeRecv != pipeSend && pipeRecv.data != pipeSend.data
    }

    function Current(): Entry
      reads this
    {
      Entry(fd, mask)
    }

    predicate IsExistMask(m: Mask)
      reads this
    {
      mask * m == m
    }

    method SetMask(m: Mask)
      modifies this
      ensures mask == m
    {
      mask := m;
    }

    method RemoveMask(m: Mask)
      modifies this
      ensures mask == old(mask) - m
    {
      mask := mask - m;
    }
  }

  class EventIo {
    var fdsRead: set<int>
    var fdsWrite: set<int>
    var fdsExp: set<int>
    var maxFd: int
    var isDirty: bool

    constructor ()
      ensures Sets() == FdSets({}, {}, {}) && maxFd == -1 && isDirty
    {
      fdsRead, fdsWrite, fdsExp := {}, {}, {};
      maxFd, isDirty := -1, true;
    }

    function Sets(): FdSets
      reads this
    {
      FdSets(fdsRead, fdsWrite, fdsExp)
    }

    method AddFd(c: Channel)
      modifies this
      ensures Sets() == SetBits(old(Sets()), c.fd, c.mask) && isDirty && maxFd == old(maxFd)
    {
      if c.IsExistMask(FD_MASK_READ) {
        fdsRead := fdsRead + {c.fd};
      }
      if c.IsExistMask(FD_MASK_WRITE) {
        fdsWrite := fdsWrite + {c.fd};
      }
      if c.IsExistMask(FD_MASK_ERROR) {
        fdsExp := fdsExp + {c.fd};
      }
      isDirty := true;
    }

    method RemoveFd(c: Channel)
      modifies this
      ensures Sets() == ClearBits(old(Sets()), c.fd, c.mask) && isDirty && maxFd == old(maxFd)
    {
      if c.IsExistMask(FD_MASK_READ) {
        fdsRead := fdsRead - {c.fd};
      }
      if c.IsExistMask(FD_MASK_WRITE) {
        fdsWrite := fdsWrite - {c.fd};
      }
      if c.IsExistMask(FD_MASK_ERROR) {
        fdsExp := fdsExp - {c.fd};
      }
      isDirty := true;
    }
  }

  // ----- the map -----

  function EntriesOf(cs: seq<Channel>): (es: seq<Entry>)
    reads cs
    ensures |es| == |cs| && forall i :: 0 <= i < |cs| ==> es[i] == cs[i].Current()
  {
    seq(|cs|, i requires 0 <= i < |cs| reads cs => cs[i].Current())
  }

  class ChannelMap {
    const list: List<Channel>

    ghost function Channels(): seq<Channel>
      reads this, list
    {
      list.Contents()
    }

    ghost predicate Valid()
      reads this, list, list.Repr
    {
      list.Valid()
    }

    constructor ()
      ensures Valid() && fresh(list) && list.Repr == {} && Channels() == []
    {
      list := new List();
    }

    method Add(c: Channel) returns (ret: int)
      requires Valid()
      modifies list, list.Repr
      ensures Valid() && (forall n :: n in list.Repr ==> n in old(list.Repr) || fresh(n))
      ensures Channels() == old(Channels()) + [c] && ret == 0
      ensures old(list.nodes) <= list.nodes
    {
      ghost var was := list.nodes;
      ghost var n;
      ret, n := list.Append(c);
      DataOfInsert(was, |was|, n, list.nodes);
    }

    /** `_map_find`: `node` is where the search ends, found or not. */
    method Search(fd: int) returns (channel: Channel?, node: Node?<Channel>)
      requires Valid()
      ensures node == null <==> Channels() == []
      ensures node != null ==> list.Has(node) && node.index == SearchPos(EntriesOf(Channels()), fd)
      ensures channel != null <==> Mapped(EntriesOf(Channels()), fd)
      ensures channel != null ==> node != null && channel == node.data && channel.fd == fd
    {
      ghost var es, i := EntriesOf(Channels()), 0;
      var cursor := list.head;
      node, channel := null, null;
      while cursor != null
        invariant 0 <= i <= |es| && cursor == NextOf(list.nodes, i - 1) && node == PrevOf(list.nodes, i)
        invariant forall j :: 0 <= j < i ==> es[j].fd != fd
        decreases |es| - i
      {
        node := cursor;
        if cursor.data.fd == fd {
          channel := cursor.data;
          assert es[i] in es;
          return;
        }
        assert cursor.next == NextOf(list.nodes, i);
        cursor := cursor.next;
        i := i + 1;
      }
    }

    method Remove(fd: int) returns (ret: int)
      requires Valid()
      modifies list, list.Repr
      ensures Valid() && list.Repr == old(list.Repr)
      ensures if old(Channels()) == [] then ret == 0 && Channels() == []
              else ret == 1 && IsDelete(old(list.nodes), SearchPos(old(EntriesOf(Channels())), fd), list.nodes)
                   && Channels() == DeleteAt(old(Channels()), SearchPos(old(EntriesOf(Channels())), fd))
    {
      var _, node := Search(fd);
      ghost var was, i := list.nodes, if node == null then 0 else node.index;
      ret := list.RemoveNode(node);
      if node != null {
        DataOfDelete(was, i, list.nodes);
      }
    }

    method Find(fd: int) returns (channel: Channel?)
      requires Valid()
      ensures channel != null <==> Mapped(EntriesOf(Channels()), fd)
      ensures channel != null ==> Channels() != [] && channel.fd == fd
      ensures channel != null ==> channel == Channels()[SearchPos(EntriesOf(Channels()), fd)]
    {
      var node;
      channel, node := Search(fd);
    }

    method GetMaxFd() returns (ret: int)
      requires Valid()
      ensures ret == MaxFd(EntriesOf(Channels()))
    {
      ret := -1;
      ghost var es, i := EntriesOf(Channels()), 0;
      var node := list.head;
      while node != null
        invariant 0 <= i <= |es| && node == NextOf(list.nodes, i - 1)
        invariant ret == MaxFd(es[..i])
        decreases |es| - i
      {
        assert es[..i + 1][..i] == es[..i];
        if node.data.fd > ret {
          ret := node.data.fd;
        }
        assert node.next == NextOf(list.nodes, i);
        node := node.next;
        i := i + 1;
      }
      assert es[..i] == es;
    }
  }
}
