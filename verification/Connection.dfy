/** A connection: a registered channel with a pipe for each direction, the loops that
    move bytes between the pipes and the socket, and the interest in writing that lasts
    as long as there is something to send. */
module Connection {
  import opened InterestIndex
  import opened Channels
  import opened ChannelLoop
  import opened BufferPipe
  import opened Pump

  /** What a read handler appends to the send pipe, if it answers. */
  datatype Reply = None | Some(bs: seq<byte>, canGrow: bool) {
    function To(v: View): View {
      if None? then v else Append(v, bs, canGrow)
    }
  }

  /** A call of a read handler: how much it takes from the receive pipe, what it answers,
      whether it deletes the connection, and what it returns. One that deletes the
      connection has to return 1, or the connection would be closed once more. */
  datatype ReadHandler = ReadHandler(takes: nat, reply: Reply, deletes: bool, ret: int) {
    predicate Careful() {
      deletes ==> ret == 1
    }
  }

  class Connection {
    const channel: Channel
    const eLoop: ChannelLoop
    const pipeSend: Pipe
    const pipeRecv: Pipe

    ghost predicate Valid()
      reads this, pipeSend, pipeRecv
      reads eLoop, eLoop.io, eLoop.ecMap, eLoop.ecMap.list, eLoop.ecMap.list.Repr, eLoop.Registered()
    {
      && eLoop.Valid() && InSync(eLoop.View()) && channel in eLoop.Registered()
      && pipeSend.Valid() && pipeRecv.Valid()
      && pipeSend != pipeRecv && pipeSend.data != pipeRecv.data
    }

    /** While something waits to be sent, the connection waits for writing, by its mask
        and in the descriptor set. */
    ghost predicate Armed()
      reads this, channel, eLoop, eLoop.io, pipeSend
    {
      pipeSend.length > 0 ==> Wanted(channel.mask, InterestIndex.Write) && channel.fd in eLoop.io.fdsWrite
    }

    ghost function Queued(): seq<byte>
      requires pipeSend.Valid()
      reads this, pipeSend, pipeSend.data
    {
      pipeSend.Now().contents
    }

    constructor (c: Channel, l: ChannelLoop)
      requires l.Valid() && c in l.Registered() && c.PipesReady()
      ensures channel == c && eLoop == l && (Valid() <==> InSync(l.View()))
      ensures Armed() && pipeSend.Valid() && Queued() == []
    {
      channel, eLoop := c, l;
      pipeSend, pipeRecv := c.pipeSend, c.pipeRecv;
    }

    /** `tcp_connect_create`: a channel that waits for reading and for errors, registered
        with the loop, and two empty pipes. The loop stays in step exactly for a descriptor
        that is valid and new. */
    static method Create(fd: int, l: ChannelLoop) returns (c: Connection)
      requires l.Valid() && InSync(l.View())
      modifies l.io, l.ecMap.list, l.ecMap.list.Repr
      ensures c.Valid() <==> fd >= 0 && !Mapped(old(l.View()).entries, fd)
      ensures c.Armed() && c.pipeSend.Valid() && c.Queued() == [] && c.eLoop == l
      ensures c.channel.fd == fd && c.channel.mask == FD_MASK_READ + FD_MASK_ERROR
      ensures l.Registered() == old(l.Registered()) + [c.channel]
    {
      var channel := new Channel(fd, FD_MASK_READ + FD_MASK_ERROR);
      Enroll(l, channel);
      c := new Connection(channel, l);
    }

    // ----- interest in writing -----

    method MarkWrite()
      requires Valid()
      modifies eLoop.io, channel
      ensures Valid() && Armed() && channel.mask == old(channel.mask) + FD_MASK_WRITE
    {
      eLoop.SetInterest(channel, channel.mask + FD_MASK_WRITE);
      RegisteredAgrees(eLoop, channel, InterestIndex.Write);
    }

    method UnmarkWrite()
      requires Valid()
      modifies eLoop.io, channel
      ensures Valid() && channel.mask == old(channel.mask) - FD_MASK_WRITE
      ensures channel.fd !in eLoop.io.fdsWrite
    {
      eLoop.SetInterest(channel, channel.mask - FD_MASK_WRITE);
      RegisteredAgrees(eLoop, channel, InterestIndex.Write);
    }

    /** Appends to the send pipe and then marks for writing, as a handler that answers
        does; the result of the append is not looked at. */
    method Send(src: array<byte>, n: nat, canGrow: bool)
      requires Valid() && n <= src.Length && src != pipeSend.data && src != pipeRecv.data
      modifies eLoop.io, channel, pipeSend, pipeSend.data
      ensures Valid() && Armed() && (pipeSend.data == old(pipeSend.data) || fresh(pipeSend.data))
      ensures pipeSend.Now() == Append(old(pipeSend.Now()), src[..n], canGrow)
    {
      var _ := pipeSend.Write(src, n, canGrow);
      MarkWrite();
    }

    // ----- sending -----

    /** The send loop of `tcp_connect_write`. */
    method SendLoop(outcomes: seq<SendOutcome>, canGrow: bool)
      returns (ret: int, remainData: bool, close: bool, ghost r: Drained)
      requires pipeSend.Valid()
      modifies pipeSend, pipeSend.data
      ensures pipeSend.Valid() && pipeSend.data == old(pipeSend.data)
      ensures r == Drain(old(Queued()), outcomes, 0, 0) && Queued() == r.left
      ensures close == r.close && (!close ==> ret == r.ret && remainData == (Queued() != []))
    {
      var buffer := new byte[CHUNK](_ => 0);
      ghost var sent, dropped := [], [];
      r := Drain(Queued(), outcomes, 0, 0);
      PrependNothing(r);
      var k, going := 0, true;
      ret, remainData, close := 0, true, false;
      while going
        invariant pipeSend.Valid() && pipeSend.data == old(pipeSend.data) && fresh(buffer) && k >= 0
        invariant going ==> remainData && !close && r == Prepended(sent, dropped, Drain(Queued(), outcomes, k, ret))
        invariant !going ==> Queued() == r.left && close == r.close
        invariant !going && !close ==> ret == r.ret && remainData == (Queued() != [])
        decreases going, pipeSend.length
      {
        ghost var q, last := Queued(), ret;
        var length, n, stop;
        length, n, stop, close := SendChunk(buffer, AnswerTo(outcomes, k), canGrow);
        sent, dropped := AfterRound(r, sent, dropped, q, outcomes, k, last);
        if length > 0 {
          ret, going, k := n, !stop, k + 1;
        } else {
          remainData, going := false, false;
        }
      }
    }

    /** One round of the send loop: take a chunk, offer it to the socket, and put back
        what a short send left. The put-back always fits, whether or not memory is left. */
    method SendChunk(buffer: array<byte>, answer: SendOutcome, canGrow: bool)
      returns (length: nat, ret: int, stop: bool, close: bool)
      requires pipeSend.Valid() && buffer != pipeSend.data && buffer.Length == CHUNK
      modifies pipeSend, pipeSend.data, buffer
      ensures pipeSend.Valid() && pipeSend.data == old(pipeSend.data)
      ensures length == |Chunk(old(Queued()))|
      ensures length == 0 ==> Queued() == [] && !stop && !close
      ensures stop && !close ==> 0 < ret < length
      ensures length > 0 ==>
                && Queued() == old(Queued())[if stop && !close then ret else length..]
                && close == (answer == Accepted(0) || answer == Refused(false))
                && stop == (close || (answer.Accepted? && answer.n < length))
                && (!close ==> ret == if answer.Refused? then EAGAIN else Min(answer.n, length))
    {
      ghost var before := pipeSend.Now();
      length := pipeSend.Read(buffer, CHUNK);
      ret, stop, close := 0, false, false;
      if length > 0 {
        match answer
        case Accepted(n) =>
          ret := if n < length then n else length;
          if 0 < ret < length {
            PutBackUndoesRead(before, CHUNK, ret, canGrow);
            assert buffer[ret..length] == before.contents[ret..length];
            var _ := pipeSend.WriteHead(buffer, ret, length - ret, canGrow);
            stop := true;
          } else if ret == 0 {
            stop, close := true, true;
          }
        case Refused(again) =>
          if again {
            ret := EAGAIN;
          } else {
            stop, close := true, true;
          }
      }
    }

    /** `tcp_connect_write`: -1 when the connection has to be closed. Otherwise it stops
        waiting for writing exactly when everything was taken from the pipe. */
    method Write(outcomes: seq<SendOutcome>, canGrow: bool) returns (ret: int, ghost r: Drained)
      requires Valid() && Armed()
      modifies eLoop.io, channel, pipeSend, pipeSend.data
      ensures Valid() && Armed() && pipeSend.data == old(pipeSend.data)
      ensures r == Drain(old(Queued()), outcomes, 0, 0) && Queued() == r.left && ret == r.ret
      ensures ret == -1 ==> channel.mask == old(channel.mask) && eLoop.View() == old(eLoop.View())
      ensures ret != -1 ==>
                && (Wanted(channel.mask, InterestIndex.Write) <==> Queued() != [])
                && (channel.fd in eLoop.io.fdsWrite <==> Queued() != [])
    {
      var remainData, close;
      DrainEnds(Queued(), outcomes, 0, 0);
      ret, remainData, close, r := SendLoop(outcomes, canGrow);
      if close {
        ret := -1;
      } else if !remainData {
        UnmarkWrite();
      }
    }


    // ----- receiving -----

    /** `recv` into the buffer: how many bytes came, or -1. */
    method NetRead(buffer: array<byte>, outcome: RecvOutcome) returns (ret: int)
      requires buffer.Length == CHUNK
      modifies buffer
      ensures ret == if outcome.Failed? then -1 else |Chunk(outcome.bs)|
      ensures outcome.Data? ==> buffer[..ret] == Chunk(outcome.bs)
    {
      if outcome.Failed? {
        return -1;
      }
      ret := Min(|outcome.bs|, CHUNK);
      forall i | 0 <= i < ret {
        buffer[i] := outcome.bs[i];
      }
    }

    /** The receive loop of `_tcp_connec_on_read`. */
    method RecvLoop(script: seq<RecvOutcome>) returns (ret: int, hasData: bool, needClose: bool, ghost r: Filled)
      requires pipeRecv.Valid()
      modifies pipeRecv, pipeRecv.data
      ensures pipeRecv.Valid() && (pipeRecv.data == old(pipeRecv.data) || fresh(pipeRecv.data))
      ensures r == Fill(old(pipeRecv.Now()), script, 0) && pipeRecv.Now() == r.v
      ensures ret == r.ret && needClose == r.needClose && hasData == (r.received != [])
    {
      var buffer := new byte[CHUNK](_ => 0);
      ghost var received := [];
      r := Fill(pipeRecv.Now(), script, 0);
      assert [] + r.received == r.received;
      var k, reading := 0, true;
      ret, hasData, needClose := 0, false, false;
      while reading
        invariant pipeRecv.Valid() && (pipeRecv.data == old(pipeRecv.data) || fresh(pipeRecv.data))
        invariant fresh(buffer) && buffer != pipeRecv.data && k >= 0
        invariant hasData == (received != [])
        invariant reading ==> !needClose && r == AfterReceived(received, Fill(pipeRecv.Now(), script, k))
        invariant !reading ==> pipeRecv.Now() == r.v && ret == r.ret
        invariant !reading ==> needClose == r.needClose && received == r.received
        decreases reading, |script| - k
      {
        var outcome := ReceivedAt(script, k);
        FillsOn(received, pipeRecv.Now(), script, k);
        ret := NetRead(buffer, outcome);
        if ret > 0 {
          ghost var chunk := Chunk(outcome.bs);
          ret := pipeRecv.Write(buffer, ret, outcome.canGrow);
          if ret == 0 {
            hasData := true;
            received := received + chunk;
          } else {
            reading, needClose := false, true;
          }
        } else if ret == 0 {
          reading, needClose := false, true;
        } else {
          needClose := !outcome.again;
          reading := false;
        }
        k := k + 1;
      }
    }

    /** A read handler takes bytes from the receive pipe. */
    method Take(n: nat)
      requires Valid() && Armed()
      modifies pipeRecv, pipeRecv.data
      ensures Valid() && Armed() && pipeRecv.data == old(pipeRecv.data)
      ensures pipeRecv.Now() == Drop(old(pipeRecv.Now()), n) && pipeSend.Now() == old(pipeSend.Now())
    {
      ReadApart(pipeRecv, n, eLoop);
      LoopStays(eLoop);
    }

    /** It may append to the send pipe and mark for writing. */
    method Answer(reply: Reply)
      requires Valid() && Armed()
      modifies eLoop.io, channel, pipeSend, pipeSend.data
      ensures Valid() && Armed()
      ensures pipeSend.data == old(pipeSend.data) || fresh(pipeSend.data)
      ensures pipeSend.Now() == reply.To(old(pipeSend.Now())) && pipeRecv.Now() == old(pipeRecv.Now())
    {
      if reply.Some? {
        var src := new byte[|reply.bs|](j requires 0 <= j < |reply.bs| => reply.bs[j]);
        assert src[..|reply.bs|] == reply.bs;
        Send(src, |reply.bs|, reply.canGrow);
      }
    }

    /** After the connection was deleted: its channel is unregistered, and the loop in
        step. */
    ghost predicate Gone()
      reads this, eLoop, eLoop.io, eLoop.ecMap, eLoop.ecMap.list, eLoop.ecMap.list.Repr, eLoop.Registered()
    {
      && eLoop.Valid() && InSync(eLoop.View())
      && channel !in eLoop.Registered() && !Mapped(eLoop.View().entries, channel.fd)
    }

    /** `tcp_connect_delete`, as far as the loop is concerned. */
    method Delete()
      requires Valid()
      modifies eLoop.io, eLoop.ecMap.list, eLoop.ecMap.list.Repr
      ensures Gone() && eLoop.View() == RemoveChannel(old(eLoop.View()), channel.Current())
      ensures eLoop.ecMap.list.Repr == old(eLoop.ecMap.list.Repr)
      ensures pipeSend.Valid() && pipeSend.Now() == old(pipeSend.Now())
      ensures pipeRecv.Valid() && pipeRecv.Now() == old(pipeRecv.Now())
    {
      RemovedIsGone(eLoop, channel);
      var _ := eLoop.RemoveChannel(channel);
    }

    method CallReadHandler(handler: ReadHandler)
      requires Valid() && Armed()
      modifies eLoop.io, channel, pipeSend, pipeSend.data, pipeRecv, pipeRecv.data
      ensures Valid() && Armed() && pipeRecv.data == old(pipeRecv.data)
      ensures pipeSend.data == old(pipeSend.data) || fresh(pipeSend.data)
      ensures pipeRecv.Now() == Drop(old(pipeRecv.Now()), handler.takes)
      ensures pipeSend.Now() == handler.reply.To(old(pipeSend.Now()))
    {
      Answer(handler.reply);
      Take(handler.takes);
    }

    /** The receive loop in a connection: only the receive pipe changes. */
    method ReceiveAll(script: seq<RecvOutcome>) returns (ret: int, hasData: bool, needClose: bool, ghost r: Filled)
      requires Valid() && Armed()
      modifies pipeRecv, pipeRecv.data
      ensures Valid() && Armed() && pipeSend.Now() == old(pipeSend.Now())
      ensures pipeRecv.data == old(pipeRecv.data) || fresh(pipeRecv.data)
      ensures r == Fill(old(pipeRecv.Now()), script, 0) && pipeRecv.Now() == r.v && -1 <= r.ret <= 0
      ensures ret == r.ret && needClose == r.needClose && hasData == (r.received != [])
    {
      FillEnds(pipeRecv.Now(), script, 0);
      ret, hasData, needClose, r := RecvLoop(script);
    }

    /** `_tcp_connec_on_read`: fills the receive pipe, calls the read handler, if there is
        one, when anything came, and closes the connection when the loop asked for it: a
        handler that returns 1 has taken care of that. The connection is deleted at most
        once. */
    method OnRead(script: seq<RecvOutcome>, hasHandler: bool, handler: ReadHandler)
      returns (ret: int, gone: bool, ghost r: Filled)
      requires Valid() && Armed() && handler.Careful()
      modifies eLoop.io, eLoop.ecMap.list, eLoop.ecMap.list.Repr, channel
      modifies pipeSend, pipeSend.data, pipeRecv, pipeRecv.data
      ensures if gone then Gone() else Valid() && Armed()
      ensures eLoop.ecMap.list.Repr == old(eLoop.ecMap.list.Repr)
      ensures pipeSend.Valid() && (pipeSend.data == old(pipeSend.data) || fresh(pipeSend.data))
      ensures pipeRecv.Valid() && (pipeRecv.data == old(pipeRecv.data) || fresh(pipeRecv.data))
      ensures r == Fill(old(pipeRecv.Now()), script, 0)
      ensures var called := r.received != [] && hasHandler;
              && pipeRecv.Now() == (if called then Drop(r.v, handler.takes) else r.v)
              && pipeSend.Now() == (if called then handler.reply.To(old(pipeSend.Now())) else old(pipeSend.Now()))
              && gone == (if called && handler.ret == 1 then handler.deletes else r.needClose)
              && ret == if called then (if handler.ret < 0 then -1 else handler.ret) else r.ret
    {
      var needClose;
      ret, needClose, gone, r := ReadAndCall(script, hasHandler, handler);
      gone := needClose || gone;
      DeleteIf(gone);
      if ret < 0 {
        ret := -1;
      }
    }

    method DeleteIf(gone: bool)
      requires Valid() && Armed()
      modifies eLoop.io, eLoop.ecMap.list, eLoop.ecMap.list.Repr
      ensures if gone then Gone() else Valid() && Armed()
      ensures eLoop.ecMap.list.Repr == old(eLoop.ecMap.list.Repr)
      ensures pipeSend.Valid() && pipeSend.Now() == old(pipeSend.Now())
      ensures pipeRecv.Valid() && pipeRecv.Now() == old(pipeRecv.Now())
    {
      if gone {
        Delete();
      }
    }

    /** The receive loop and the read handler, up to the deletion of the connection by the
        one or the other. */
    method ReadAndCall(script: seq<RecvOutcome>, hasHandler: bool, handler: ReadHandler)
      returns (ret: int, needClose: bool, deletes: bool, ghost r: Filled)
      requires Valid() && Armed() && handler.Careful()
      modifies eLoop.io, channel, pipeSend, pipeSend.data, pipeRecv, pipeRecv.data
      ensures Valid() && Armed()
      ensures pipeSend.data == old(pipeSend.data) || fresh(pipeSend.data)
      ensures pipeRecv.data == old(pipeRecv.data) || fresh(pipeRecv.data)
      ensures r == Fill(old(pipeRecv.Now()), script, 0) && -1 <= r.ret <= 0 && !(needClose && deletes)
      ensures var called := r.received != [] && hasHandler;
              && pipeRecv.Now() == (if called then Drop(r.v, handler.takes) else r.v)
              && pipeSend.Now() == (if called then handler.reply.To(old(pipeSend.Now())) else old(pipeSend.Now()))
              && deletes == (called && handler.deletes)
              && needClose == (r.needClose && !(called && handler.ret == 1))
              && ret == if called then handler.ret else r.ret
    {
      var hasData;
      ret, hasData, needClose, r := ReceiveAll(script);
      deletes := false;
      if hasData {
        if hasHandler {
          CallReadHandler(handler);
          ret, deletes := handler.ret, handler.deletes;
        }
        if ret == 1 {
          needClose := false;
        }
      }
    }

    /** A write handler that closes the connection when the send call fails. */
    method OnWrite(outcomes: seq<SendOutcome>, canGrow: bool) returns (gone: bool)
      requires Valid() && Armed()
      modifies eLoop.io, eLoop.ecMap.list, eLoop.ecMap.list.Repr, channel, pipeSend, pipeSend.data
      ensures if gone then Gone() else Valid() && Armed()
      ensures eLoop.ecMap.list.Repr == old(eLoop.ecMap.list.Repr)
      ensures gone == Drain(old(Queued()), outcomes, 0, 0).close
      ensures pipeSend.data == old(pipeSend.data) && pipeRecv.data == old(pipeRecv.data)
    {
      DrainEnds(Queued(), outcomes, 0, 0);
      var ret, _ := Write(outcomes, canGrow);
      gone := ret == -1;
      DeleteIf(gone);
    }
  }

  /** A registered channel that is unregistered is gone from the map. */
  lemma RemovedIsGone(l: ChannelLoop, c: Channel)
    requires l.Valid() && InSync(l.View()) && c in l.Registered()
    ensures var y := RemoveChannel(l.View(), c.Current());
            InSync(y) && !Mapped(y.entries, c.fd)
  {
    var i :| 0 <= i < |l.Registered()| && l.Registered()[i] == c;
    var es, e := l.View().entries, c.Current();
    assert es[i] == e;
    RegisteredClearsGone(es, e);
    RemoveChannelKeepsSync(l.View(), e);
    UniqueEntry(es, e, es[SearchPos(es, e.fd)]);
    UniqueDelete(es, SearchPos(es, e.fd));
  }

  /** A loop whose objects did not change is as it was. */
  twostate lemma LoopStays(l: ChannelLoop)
    requires old(l.Valid())
    requires unchanged(old(l.Objects()))
    ensures l.Valid() && l.View() == old(l.View()) && l.Registered() == old(l.Registered())
  {
  }

  /** Reading does not touch a loop. */
  method ReadApart(pipe: Pipe, n: nat, ghost l: ChannelLoop)
    requires pipe.Valid()
    modifies pipe, pipe.data
    ensures pipe.Valid() && pipe.data == old(pipe.data) && pipe.Now() == Drop(old(pipe.Now()), n)
    ensures unchanged(old(l.Objects()))
  {
    ghost var objects := l.Objects();
    assert pipe !in objects && pipe.data !in objects;
    ReadAway(pipe, n);
  }

  /** Reads into a buffer of the caller. */
  method ReadAway(pipe: Pipe, n: nat)
    requires pipe.Valid()
    modifies pipe, pipe.data
    ensures pipe.Valid() && pipe.data == old(pipe.data) && pipe.Now() == Drop(old(pipe.Now()), n)
  {
    var buffer := new byte[n](_ => 0);
    var _ := pipe.Read(buffer, n);
  }

  // ----- runs -----

  datatype Event =
    | Queue(reply: Reply)
    | Flush(outcomes: seq<SendOutcome>, canGrow: bool)
    | Receive(script: seq<RecvOutcome>, hasHandler: bool, handler: ReadHandler)

  /** Over any run of appending handlers, send calls and receive calls, whatever the
      socket answers, a connection with something to send waits for writing until it is
      deleted, and then nothing of it is left in the loop. */
  method Drive(c: Connection, events: seq<Event>) returns (gone: bool)
    requires c.Valid() && c.Armed() && forall e :: e in events && e.Receive? ==> e.handler.Careful()
    modifies c.eLoop.io, c.eLoop.ecMap.list, c.eLoop.ecMap.list.Repr, c.channel
    modifies c.pipeSend, c.pipeSend.data, c.pipeRecv, c.pipeRecv.data
    ensures if gone then c.Gone() else c.Valid() && c.Armed()
  {
    var i := 0;
    gone := false;
    while i < |events| && !gone
      invariant 0 <= i <= |events|
      invariant if gone then c.Gone() else c.Valid() && c.Armed()
      invariant c.eLoop.ecMap.list.Repr == old(c.eLoop.ecMap.list.Repr)
      invariant c.pipeSend.data == old(c.pipeSend.data) || fresh(c.pipeSend.data)
      invariant c.pipeRecv.data == old(c.pipeRecv.data) || fresh(c.pipeRecv.data)
    {
      assert events[i] in events;
      gone := Happen(c, events[i]);
      i := i + 1;
    }
  }

  method Happen(c: Connection, event: Event) returns (gone: bool)
    requires c.Valid() && c.Armed() && (event.Receive? ==> event.handler.Careful())
    modifies c.eLoop.io, c.eLoop.ecMap.list, c.eLoop.ecMap.list.Repr, c.channel
    modifies c.pipeSend, c.pipeSend.data, c.pipeRecv, c.pipeRecv.data
    ensures if gone then c.Gone() else c.Valid() && c.Armed()
    ensures c.eLoop.ecMap.list.Repr == old(c.eLoop.ecMap.list.Repr)
    ensures c.pipeSend.data == old(c.pipeSend.data) || fresh(c.pipeSend.data)
    ensures c.pipeRecv.data == old(c.pipeRecv.data) || fresh(c.pipeRecv.data)
  {
    gone := false;
    match event
    case Queue(reply) =>
      c.Answer(reply);
    case Flush(outcomes, canGrow) =>
      gone := c.OnWrite(outcomes, canGrow);
    case Receive(script, hasHandler, handler) =>
      var _, g, _ := c.OnRead(script, hasHandler, handler);
      gone := g;
  }

  method Enroll(l: ChannelLoop, c: Channel)
    requires l.Valid() && InSync(l.View())
    modifies l.io, l.ecMap.list, l.ecMap.list.Repr
    ensures l.Valid() && c in l.Registered() && l.Registered() == old(l.Registered()) + [c]
    ensures InSync(l.View()) <==> c.fd >= 0 && !Mapped(old(l.View()).entries, c.fd)
  {
    AddKeepsSync(l.View(), c.Current());
    var _ := l.AddChannel(c);
    assert l.Registered()[|old(l.Registered())|] == c;
  }

  /** A registered channel is in the set of a kind exactly when its mask says so. */
  lemma RegisteredAgrees(l: ChannelLoop, c: Channel, k: Kind)
    requires l.Valid() && InSync(l.View()) && c in l.Registered()
    ensures c.fd in l.io.Sets().Get(k) <==> Wanted(c.mask, k)
  {
    var i :| 0 <= i < |l.Registered()| && l.Registered()[i] == c;
    assert l.View().entries[i] == c.Current();
    assert Agrees(l.View(), c.fd, k);
    OnlyEntry(l.View().entries, c.Current(), k);
  }
}
