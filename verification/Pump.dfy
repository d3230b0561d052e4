/** What the send and receive loops of a connection do to the bytes, for any answers of
    the socket. */
module Pump {
  import opened BufferPipe

  const CHUNK := 1024
  const EAGAIN := 11

  // ----- sending -----

  /** The result of one `send`: a count, or -1 with an error that asks to try again or
      does not. */
  datatype SendOutcome = Accepted(n: nat) | Refused(again: bool)

  /** The answer to the `k`-th send; after the script the socket takes everything. */
  function AnswerTo(outcomes: seq<SendOutcome>, k: nat): SendOutcome {
    if k < |outcomes| then outcomes[k] else Accepted(CHUNK)
  }

  /** Where the bytes went: accepted by the socket, dropped by the retry arm, in the
      chunk at hand when the connection failed, or still queued; with the number of
      sends, whether to close, and the value returned otherwise. */
  datatype Drained = Drained(
    sent: seq<byte>,
    dropped: seq<byte>,
    inHand: seq<byte>,
    left: seq<byte>,
    sends: nat,
    close: bool,
    ret: int)

  function Chunk(q: seq<byte>): seq<byte> {
    q[..Min(|q|, CHUNK)]
  }

  function Drain(q: seq<byte>, outcomes: seq<SendOutcome>, k: nat, ret: int): Drained
    decreases |q|
  {
    if q == [] then Drained([], [], [], [], k, false, ret)
    else
      var chunk, rest := Chunk(q), q[Min(|q|, CHUNK)..];
      match AnswerTo(outcomes, k)
      case Accepted(n) =>
        if n == 0 then Drained([], [], chunk, rest, k + 1, true, -1)
        else if n < |chunk| then Drained(chunk[..n], [], [], q[n..], k + 1, false, n)
        else
          var r := Drain(rest, outcomes, k + 1, |chunk|);
          r.(sent := chunk + r.sent)
      case Refused(again) =>
        if again then
          var r := Drain(rest, outcomes, k + 1, EAGAIN);
          r.(dropped := chunk + r.dropped)
        else Drained([], [], chunk, rest, k + 1, true, -1)
  }

  /** What happened before some point of the loop, and what happens from there on. */
  function Prepended(sent: seq<byte>, dropped: seq<byte>, r: Drained): Drained {
    r.(sent := sent + r.sent, dropped := dropped + r.dropped)
  }

  lemma PrependNothing(r: Drained)
    ensures r == Prepended([], [], r)
  {
    assert [] + r.sent == r.sent && [] + r.dropped == r.dropped;
  }

  /** One round of the loop: it ends on an empty queue, a short send or a failure. */
  lemma AfterRound(r: Drained, sent: seq<byte>, dropped: seq<byte>, q: seq<byte>,
                   outcomes: seq<SendOutcome>, k: nat, ret: int)
    returns (sent': seq<byte>, dropped': seq<byte>)
    requires r == Prepended(sent, dropped, Drain(q, outcomes, k, ret))
    ensures q == [] ==> r.left == [] && !r.close && r.ret == ret
    ensures q != [] ==>
              var answer, n := AnswerTo(outcomes, k), |Chunk(q)|;
              if answer == Accepted(0) || answer == Refused(false) then r.close && r.left == q[n..]
              else if answer.Accepted? && answer.n < n then !r.close && r.left == q[answer.n..] && r.ret == answer.n
              else
                var next := if answer.Refused? then EAGAIN else n;
                r == Prepended(sent', dropped', Drain(q[n..], outcomes, k + 1, next))
  {
    sent', dropped' := sent, dropped;
    if q != [] {
      var answer, chunk := AnswerTo(outcomes, k), Chunk(q);
      if answer == Refused(true) {
        dropped' := dropped + chunk;
        var rest := Drain(q[|chunk|..], outcomes, k + 1, EAGAIN);
        assert dropped + (chunk + rest.dropped) == dropped' + rest.dropped;
      } else if answer.Accepted? && answer.n >= |chunk| {
        sent' := sent + chunk;
        var rest := Drain(q[|chunk|..], outcomes, k + 1, |chunk|);
        assert sent + (chunk + rest.sent) == sent' + rest.sent;
      }
    }
  }

  /** Every byte is accounted for. */
  lemma {:induction false} DrainCounts(q: seq<byte>, outcomes: seq<SendOutcome>, k: nat, ret: int)
    ensures var r := Drain(q, outcomes, k, ret);
            |r.sent| + |r.dropped| + |r.inHand| + |r.left| == |q| && k <= r.sends
    decreases |q|
  {
    if q != [] {
      DrainCounts(q[Min(|q|, CHUNK)..], outcomes, k + 1, |Chunk(q)|);
      DrainCounts(q[Min(|q|, CHUNK)..], outcomes, k + 1, EAGAIN);
    }
  }

  ghost predicate NoneAskedAgain(outcomes: seq<SendOutcome>, k: nat, n: nat) {
    forall i: nat :: k <= i < n ==> AnswerTo(outcomes, i) != Refused(true)
  }

  /** Bytes are dropped exactly when some send asks to try again. */
  lemma {:induction false} DropsOnAgain(q: seq<byte>, outcomes: seq<SendOutcome>, k: nat, ret: int)
    ensures var r := Drain(q, outcomes, k, ret);
            r.dropped == [] <==> NoneAskedAgain(outcomes, k, r.sends)
    decreases |q|
  {
    if q != [] {
      var rest, chunk := q[Min(|q|, CHUNK)..], Chunk(q);
      assert |chunk| > 0;
      DrainCounts(q, outcomes, k, ret);
      match AnswerTo(outcomes, k) {
        case Accepted(n) =>
          if n >= |chunk| {
            DropsOnAgain(rest, outcomes, k + 1, |chunk|);
          }
        case Refused(again) =>
          if again {
            DrainCounts(rest, outcomes, k + 1, EAGAIN);
          }
      }
    }
  }

  /** In the absence of drops the bytes sent, the chunk at hand and the bytes left are the
      original queue, in order. */
  lemma {:induction false} KeepsOrder(q: seq<byte>, outcomes: seq<SendOutcome>, k: nat, ret: int)
    ensures var r := Drain(q, outcomes, k, ret);
            r.dropped == [] ==> r.sent + r.inHand + r.left == q
    decreases |q|
  {
    if q != [] {
      var rest, chunk := q[Min(|q|, CHUNK)..], Chunk(q);
      assert chunk + rest == q;
      match AnswerTo(outcomes, k) {
        case Accepted(n) =>
          if 0 < n < |chunk| {
            assert chunk[..n] + [] + q[n..] == q;
          } else if n >= |chunk| {
            KeepsOrder(rest, outcomes, k + 1, |chunk|);
            var r := Drain(rest, outcomes, k + 1, |chunk|);
            assert (chunk + r.sent) + r.inHand + r.left == chunk + (r.sent + r.inHand + r.left);
          } else {
            assert [] + chunk + rest == q;
          }
        case Refused(_) =>
          assert [] + chunk + rest == q;
      }
    }
  }

  /** For any answers of the socket, the bytes sent, then the chunk at hand on a failure,
      then the bytes still queued are the original queue in order, exactly when no send
      asked to try again: that arm goes on without the chunk it has in hand. */
  lemma SendConserves(q: seq<byte>, outcomes: seq<SendOutcome>)
    ensures var r := Drain(q, outcomes, 0, 0);
            r.sent + r.inHand + r.left == q <==> NoneAskedAgain(outcomes, 0, r.sends)
  {
    DrainCounts(q, outcomes, 0, 0);
    DropsOnAgain(q, outcomes, 0, 0);
    KeepsOrder(q, outcomes, 0, 0);
  }

  /** Send number `j`, counted from the `k`-th answer on, takes its whole chunk. */
  predicate TakesChunk(q: seq<byte>, outcomes: seq<SendOutcome>, k: nat, j: nat) {
    var answer := AnswerTo(outcomes, k + j);
    answer.Accepted? && answer.n > 0 && (answer.n >= CHUNK || j * CHUNK + answer.n >= |q|)
  }

  /** Send number `i` is made, those before it having taken their chunks, and asks to try
      again. */
  ghost predicate AsksAgain(q: seq<byte>, outcomes: seq<SendOutcome>, k: nat, i: nat) {
    && i * CHUNK < |q| && AnswerTo(outcomes, k + i) == Refused(true)
    && forall j: nat :: j < i ==> TakesChunk(q, outcomes, k, j)
  }

  lemma AsksLater(q: seq<byte>, rest: seq<byte>, outcomes: seq<SendOutcome>, k: nat, m: nat, i: nat)
    requires |q| > CHUNK && rest == q[CHUNK..] && m == k + 1 && i > 0
    ensures AsksAgain(q, outcomes, k, i) <==> TakesChunk(q, outcomes, k, 0) && AsksAgain(rest, outcomes, m, i - 1)
  {
    if TakesChunk(q, outcomes, k, 0) && AsksAgain(rest, outcomes, m, i - 1) {
      forall j: nat | j < i
        ensures TakesChunk(q, outcomes, k, j)
      {
        assert j > 0 ==> TakesChunk(rest, outcomes, m, j - 1);
      }
    }
    if AsksAgain(q, outcomes, k, i) {
      assert TakesChunk(q, outcomes, k, 0);
      forall j: nat | j < i - 1
        ensures TakesChunk(rest, outcomes, m, j)
      {
        assert TakesChunk(q, outcomes, k, j + 1);
      }
    }
  }

  lemma {:induction false} DropsWhenAsked(q: seq<byte>, outcomes: seq<SendOutcome>, k: nat, ret: int)
    ensures Drain(q, outcomes, k, ret).dropped == [] <==> forall i: nat :: !AsksAgain(q, outcomes, k, i)
    decreases |q|
  {
    if q != [] {
      assert AsksAgain(q, outcomes, k, 0) <==> AnswerTo(outcomes, k) == Refused(true);
      if |q| > CHUNK {
        DropsWhenAsked(q[CHUNK..], outcomes, k + 1, CHUNK);
        AsksFirstOrLater(q, q[CHUNK..], outcomes, k, k + 1);
      } else {
        assert forall i: nat :: AsksAgain(q, outcomes, k, i) ==> i == 0;
      }
    }
  }

  lemma AsksFirstOrLater(q: seq<byte>, rest: seq<byte>, outcomes: seq<SendOutcome>, k: nat, m: nat)
    requires |q| > CHUNK && rest == q[CHUNK..] && m == k + 1
    ensures (forall i: nat :: !AsksAgain(q, outcomes, k, i)) <==>
              && !AsksAgain(q, outcomes, k, 0)
              && (TakesChunk(q, outcomes, k, 0) ==> forall i: nat :: !AsksAgain(rest, outcomes, m, i))
  {
    if i: nat :| AsksAgain(q, outcomes, k, i) {
      if i > 0 {
        AsksLater(q, rest, outcomes, k, m, i);
      }
    }
    if TakesChunk(q, outcomes, k, 0) {
      if i: nat :| AsksAgain(rest, outcomes, m, i) {
        AsksLater(q, rest, outcomes, k, m, i + 1);
      }
    }
  }

  /** The same condition on the queue and the answers alone: no send that is reached, all
      those before it having taken their whole chunk, asks to try again. */
  lemma SendConservesUnlessAsked(q: seq<byte>, outcomes: seq<SendOutcome>)
    ensures var r := Drain(q, outcomes, 0, 0);
            r.sent + r.inHand + r.left == q <==> forall i: nat :: !AsksAgain(q, outcomes, 0, i)
  {
    DrainCounts(q, outcomes, 0, 0);
    KeepsOrder(q, outcomes, 0, 0);
    DropsWhenAsked(q, outcomes, 0, 0);
  }

  /** Two bytes and one retry: the bytes are gone. */
  lemma AgainLosesBytes()
    ensures var r := Drain([1, 2], [Refused(true)], 0, 0);
            r.sent == [] && r.inHand == [] && r.left == [] && !r.close
  {
    assert [1, 2][Min(2, CHUNK)..] == [];
  }

  /** How a send call ends: drained, or with the rest of a chunk put back, or failed. */
  lemma {:induction false} DrainEnds(q: seq<byte>, outcomes: seq<SendOutcome>, k: nat, ret: int)
    requires ret >= 0
    ensures var r := Drain(q, outcomes, k, ret);
            && (r.close <==> r.ret == -1) && (r.close ==> r.inHand != []) && (!r.close ==> r.inHand == [])
            && (q == [] ==> r.left == [] && !r.close)
    decreases |q|
  {
    if q != [] {
      DrainEnds(q[Min(|q|, CHUNK)..], outcomes, k + 1, |Chunk(q)|);
      DrainEnds(q[Min(|q|, CHUNK)..], outcomes, k + 1, EAGAIN);
    }
  }

  /** How much of a chunk an answer accepts. */
  function AcceptedOf(answer: SendOutcome, length: nat): nat {
    if answer.Accepted? then Min(answer.n, length) else 0
  }

  /** How many bytes the socket accepts in the sends `k` to `n - 1`, each of which offers
      the next chunk. */
  function AcceptedBetween(q: seq<byte>, outcomes: seq<SendOutcome>, k: nat, n: nat): nat
    decreases |q|
  {
    if k >= n || q == [] then 0
    else AcceptedOf(AnswerTo(outcomes, k), |Chunk(q)|) + AcceptedBetween(q[|Chunk(q)|..], outcomes, k + 1, n)
  }

  /** What counts as sent is what the socket accepted, no more and no less. */
  lemma {:induction false} SentIsAccepted(q: seq<byte>, outcomes: seq<SendOutcome>, k: nat, ret: int)
    ensures var r := Drain(q, outcomes, k, ret);
            k <= r.sends && |r.sent| == AcceptedBetween(q, outcomes, k, r.sends)
    decreases |q|
  {
    if q != [] {
      var rest, n := q[|Chunk(q)|..], |Chunk(q)|;
      DrainCounts(q, outcomes, k, ret);
      SentIsAccepted(rest, outcomes, k + 1, n);
      SentIsAccepted(rest, outcomes, k + 1, EAGAIN);
      NothingLater(rest, outcomes, k + 1);
    }
  }

  lemma NothingLater(q: seq<byte>, outcomes: seq<SendOutcome>, k: nat)
    ensures AcceptedBetween(q, outcomes, k, k) == 0
  {
  }

  /** A send goes on: its whole chunk was taken, or it is to be tried again. */
  predicate Continues(answer: SendOutcome) {
    answer == Refused(true) || (answer.Accepted? && answer.n >= CHUNK)
  }

  /** The loop goes on exactly as long as something is queued and sends take their chunks or
      ask to try again; it closes exactly when the last one accepted nothing or failed. */
  lemma {:induction false} DrainStops(q: seq<byte>, outcomes: seq<SendOutcome>, k: nat, ret: int)
    ensures var r := Drain(q, outcomes, k, ret);
            && k <= r.sends && (r.sends == k <==> q == [])
            && (forall i: nat :: k <= i < r.sends - 1 ==> Continues(AnswerTo(outcomes, i)))
            && (r.sends > k ==>
                  var last := AnswerTo(outcomes, r.sends - 1);
                  && (r.close <==> last == Accepted(0) || last == Refused(false))
                  && (r.left == [] || !Continues(last))
                  && (last == Refused(true) ==> r.ret == 11)
                  && (last.Accepted? && last.n > 0 ==> 0 < r.ret <= last.n))
    decreases |q|
  {
    if q != [] {
      var rest := q[|Chunk(q)|..];
      DrainStops(rest, outcomes, k + 1, |Chunk(q)|);
      DrainStops(rest, outcomes, k + 1, EAGAIN);
    }
  }

  // ----- receiving -----

  /** The result of one `recv`, and whether the pipe could grow if it had to. */
  datatype RecvOutcome = Data(bs: seq<byte>, canGrow: bool) | Failed(again: bool)

  /** The answer to the `k`-th receive; after the script there is nothing more. */
  function ReceivedAt(script: seq<RecvOutcome>, k: nat): RecvOutcome {
    if k < |script| then script[k] else Failed(true)
  }

  /** The pipe afterwards, what came into it, the chunk for which it could not grow, the
      number of receives, whether to close, and the last result. */
  datatype Filled = Filled(v: View, received: seq<byte>, lost: seq<byte>, recvs: nat, needClose: bool, ret: int)

  function Fill(v: View, script: seq<RecvOutcome>, k: nat): Filled
    decreases |script| - k
  {
    match ReceivedAt(script, k)
    case Failed(again) => Filled(v, [], [], k + 1, !again, -1)
    case Data(bs, canGrow) =>
      var chunk := Chunk(bs);
      if chunk == [] then Filled(v, [], [], k + 1, true, 0)
      else if !Room(v, |chunk|, canGrow).0 then Filled(v, [], chunk, k + 1, true, -1)
      else
        var r := Fill(Append(v, chunk, canGrow), script, k + 1);
        r.(received := chunk + r.received)
  }

  function AfterReceived(received: seq<byte>, r: Filled): Filled {
    r.(received := received + r.received)
  }

  /** A round of the receive loop. */
  lemma FillsOn(received: seq<byte>, v: View, script: seq<RecvOutcome>, k: nat)
    ensures var chunk := if ReceivedAt(script, k).Data? then Chunk(ReceivedAt(script, k).bs) else [];
            var goesOn := chunk != [] && Room(v, |chunk|, ReceivedAt(script, k).canGrow).0;
            var now := AfterReceived(received, Fill(v, script, k));
            if goesOn then
              var w := Append(v, chunk, ReceivedAt(script, k).canGrow);
              now == AfterReceived(received + chunk, Fill(w, script, k + 1))
            else now.received == received
  {
    assert received + [] == received;
    if ReceivedAt(script, k).Data? {
      var bs, canGrow := ReceivedAt(script, k).bs, ReceivedAt(script, k).canGrow;
      var r := Fill(Append(v, Chunk(bs), canGrow), script, k + 1);
      assert received + (Chunk(bs) + r.received) == (received + Chunk(bs)) + r.received;
    }
  }

  /** What the answers `k` to `n - 1` of the socket brought. */
  function Brought(script: seq<RecvOutcome>, k: nat, n: nat): seq<byte>
    requires k <= n
    decreases n - k
  {
    if k == n then []
    else (if ReceivedAt(script, k).Data? then Chunk(ReceivedAt(script, k).bs) else []) + Brought(script, k + 1, n)
  }

  /** The socket has more to say after this answer. */
  predicate BringsData(answer: RecvOutcome) {
    answer.Data? && answer.bs != []
  }

  /** What the socket brought is appended in order, except the last chunk when the pipe
      could not grow for it. */
  lemma {:induction false} FillAppends(v: View, script: seq<RecvOutcome>, k: nat)
    ensures var r := Fill(v, script, k);
            && r.v.contents == v.contents + r.received
            && k < r.recvs && r.received + r.lost == Brought(script, k, r.recvs)
    decreases |script| - k
  {
    var r := Fill(v, script, k);
    assert v.contents + [] == v.contents;
    if BringsData(ReceivedAt(script, k)) {
      var chunk, canGrow := Chunk(ReceivedAt(script, k).bs), ReceivedAt(script, k).canGrow;
      if Room(v, |chunk|, canGrow).0 {
        var w := Append(v, chunk, canGrow);
        FillAppends(w, script, k + 1);
        var rest := Fill(w, script, k + 1);
        assert (v.contents + chunk) + rest.received == v.contents + (chunk + rest.received);
        assert (chunk + rest.received) + rest.lost == chunk + (rest.received + rest.lost);
      } else {
        assert chunk + [] == chunk && [] + chunk == chunk;
      }
    }
  }

  /** The loop ends with the first answer that brings nothing or that does not fit, and
      asks to close exactly when the peer is done, the socket failed or a chunk was
      lost. */
  lemma {:induction false} FillEnds(v: View, script: seq<RecvOutcome>, k: nat)
    ensures var r := Fill(v, script, k);
            && k < r.recvs && EndsWith(r, ReceivedAt(script, r.recvs - 1))
            && forall i: nat :: k <= i < r.recvs - 1 ==> BringsData(ReceivedAt(script, i))
    decreases |script| - k
  {
    if BringsData(ReceivedAt(script, k)) {
      var chunk, canGrow := Chunk(ReceivedAt(script, k).bs), ReceivedAt(script, k).canGrow;
      if Room(v, |chunk|, canGrow).0 {
        FillEnds(Append(v, chunk, canGrow), script, k + 1);
      }
    }
  }

  ghost predicate EndsWith(r: Filled, last: RecvOutcome) {
    && (BringsData(last) <==> r.lost != [])
    && (r.lost != [] ==> r.lost == Chunk(last.bs) && !Room(r.v, |r.lost|, last.canGrow).0)
    && (r.needClose <==> r.lost != [] || last == Failed(false) || (last.Data? && last.bs == []))
    && r.ret == if last.Data? && last.bs == [] then 0 else -1
  }
}
