/** A growable byte queue in one buffer: appending, putting back at the head and taking
    from the head all move bytes in place. */
module BufferPipe {

  const BUCKET_LENGTH := 4096

  newtype byte = x: int | 0 <= x < 256

  // ----- what the operations mean -----

  /** The queued bytes, and the size of the buffer that holds them. */
  datatype View = View(contents: seq<byte>, capacity: nat)

  function Min(a: nat, b: nat): nat {
    if a < b then a else b
  }

  /** Whether `n` more bytes fit, in the buffer as it is or as it can grow, and the size of
      the buffer then. */
  function Room(v: View, n: nat, canGrow: bool): (r: (bool, nat))
    ensures r.0 <==> |v.contents| + n <= v.capacity || canGrow
    ensures if r.0 then |v.contents| + n <= r.1 && v.capacity <= r.1 else r.1 == v.capacity
    ensures |v.contents| + n <= v.capacity ==> r.1 == v.capacity
    ensures r.1 != v.capacity ==> r.1 == |v.contents| + n + 4096
  {
    if |v.contents| + n <= v.capacity then (true, v.capacity)
    else if canGrow then (true, |v.contents| + n + BUCKET_LENGTH)
    else (false, v.capacity)
  }

  function Append(v: View, bs: seq<byte>, canGrow: bool): View {
    var (ok, capacity) := Room(v, |bs|, canGrow);
    if ok then View(v.contents + bs, capacity) else v
  }

  function PutBack(v: View, bs: seq<byte>, canGrow: bool): View {
    var (ok, capacity) := Room(v, |bs|, canGrow);
    if ok then View(bs + v.contents, capacity) else v
  }

  function Drop(v: View, n: nat): View {
    v.(contents := v.contents[Min(|v.contents|, n)..])
  }

  // ----- the buffer -----

  /** `memmove`: the source is read before anything is overwritten, so the two
      stretches may overlap. */
  method MemMove(dst: array<byte>, d: nat, src: array<byte>, s: nat, n: nat)
    requires d + n <= dst.Length && s + n <= src.Length
    modifies dst
    ensures dst[d..d + n] == old(src[s..s + n])
    ensures forall i :: 0 <= i < dst.Length && !(d <= i < d + n) ==> dst[i] == old(dst[i])
  {
    forall i | 0 <= i < n {
      dst[d + i] := src[s + i];
    }
  }

  /** `realloc`: null when there is no memory, and otherwise a buffer that begins with
      the old bytes. */
  method Realloc(a: array<byte>, n: nat, canGrow: bool) returns (b: array?<byte>)
    ensures b == null <==> !canGrow
    ensures b != null ==> fresh(b) && b.Length == n && forall i :: 0 <= i < Min(a.Length, n) ==> b[i] == a[i]
  {
    if !canGrow {
      return null;
    }
    b := new byte[n](_ => 0);
    forall i | 0 <= i < Min(a.Length, n) {
      b[i] := a[i];
    }
  }

  lemma Join(s: seq<byte>, n: nat, m: nat)
    requires n <= m <= |s|
    ensures s[..m] == s[..n] + s[n..m]
  {
  }

  class Pipe {
    var data: array<byte>
    var length: nat

    ghost predicate Valid()
      reads this
    {
      length <= data.Length
    }

    ghost function Now(): View
      requires Valid()
      reads this, data
    {
      View(data[..length], data.Length)
    }

    constructor ()
      ensures Valid() && fresh(data) && Now() == View([], 0)
    {
      data, length := new byte[0], 0;
    }

    method Expand(n: nat, canGrow: bool) returns (ret: int)
      requires Valid()
      modifies `data
      ensures Valid() && (data == old(data) || fresh(data))
      ensures ret == if canGrow then 0 else -1
      ensures canGrow ==> fresh(data) && Now() == View(old(Now()).contents, length + n + BUCKET_LENGTH)
      ensures !canGrow ==> data == old(data) && Now() == old(Now())
    {
      ret := 0;
      var newLength := length + n + BUCKET_LENGTH;
      var newAddr := Realloc(data, newLength, canGrow);
      if newAddr != null {
        data := newAddr;
      } else {
        ret := -1;
      }
    }

    /** Makes room for `n` more bytes. */
    method Reserve(n: nat, canGrow: bool) returns (ret: int)
      requires Valid()
      modifies `data
      ensures Valid() && (data == old(data) || fresh(data)) && length == old(length)
      ensures ret == if Room(old(Now()), n, canGrow).0 then 0 else -1
      ensures Now() == View(old(Now()).contents, Room(old(Now()), n, canGrow).1)
      ensures old(length + n <= data.Length) ==> data == old(data)
    {
      ret := 0;
      if length + n > data.Length {
        ret := Expand(n, canGrow);
      }
    }

    method Write(src: array<byte>, n: nat, canGrow: bool) returns (ret: int)
      requires Valid() && src != data && n <= src.Length
      modifies this, data
      ensures Valid() && (data == old(data) || fresh(data))
      ensures ret == if old(length + n <= data.Length) || canGrow then 0 else -1
      ensures Now().contents == old(Now()).contents + if ret == 0 then src[..n] else []
      ensures Now() == Append(old(Now()), src[..n], canGrow)
      ensures old(length + n <= data.Length) ==> data == old(data)
    {
      ret := Reserve(n, canGrow);
      if ret == 0 {
        MemMove(data, length, src, 0, n);
        length := length + n;
        Join(data[..], length - n, length);
      }
    }

    /** Puts `n` bytes of `src`, from `off` on, in front of the queued ones. */
    method WriteHead(src: array<byte>, off: nat, n: nat, canGrow: bool) returns (ret: int)
      requires Valid() && src != data && off + n <= src.Length
      modifies this, data
      ensures Valid() && (data == old(data) || fresh(data))
      ensures ret == if old(length + n <= data.Length) || canGrow then 0 else -1
      ensures Now().contents == (if ret == 0 then src[off..off + n] else []) + old(Now()).contents
      ensures Now() == PutBack(old(Now()), src[off..off + n], canGrow)
      ensures old(length + n <= data.Length) ==> data == old(data)
    {
      ret := Reserve(n, canGrow);
      if ret == 0 {
        Shove(src, off, n);
      }
    }

    /** The two moves of a put-back: the queued bytes back by `n`, the new ones in front. */
    method Shove(src: array<byte>, off: nat, n: nat)
      requires Valid() && src != data && off + n <= src.Length && length + n <= data.Length
      modifies `length, data
      ensures Valid() && data == old(data)
      ensures Now() == View(src[off..off + n] + old(Now()).contents, data.Length)
    {
      MemMove(data, n, data, 0, length);
      ghost var moved := data[n..];
      assert moved[..length] == old(data[..length]);
      FillFront(src, off, n);
      assert data[n..n + length] == moved[..length];
      length := length + n;
      Join(data[..], n, length);
    }

    method FillFront(src: array<byte>, off: nat, n: nat)
      requires src != data && off + n <= src.Length && n <= data.Length
      modifies data
      ensures data[..n] == src[off..off + n] && data[n..] == old(data[n..])
    {
      MemMove(data, 0, src, off, n);
    }

    /** Takes up to `n` bytes from the head into `dst`. */
    method Read(dst: array<byte>, n: nat) returns (ret: nat)
      requires Valid() && dst != data && n <= dst.Length
      modifies this, data, dst
      ensures Valid() && data == old(data)
      ensures ret == Min(|old(Now()).contents|, n)
      ensures ret <= n && ret <= old(length) && (ret == n || ret == old(length))
      ensures dst[..ret] == old(Now()).contents[..ret]
      ensures Now() == Drop(old(Now()), n)
    {
      ret := if length < n then length else n;
      if ret > 0 {
        MemMove(dst, 0, data, 0, ret);
        MemMove(data, 0, data, ret, length - ret);
        length := length - ret;
      }
    }

    /** The first position of a byte. */
    method FindChr(mark: byte) returns (ret: int, pos: nat)
      requires Valid()
      ensures ret == if mark in Now().contents then 0 else -1
      ensures ret == 0 ==> pos < length && Now().contents[pos] == mark && mark !in Now().contents[..pos]
    {
      ret, pos := -1, 0;
      for i := 0 to length
        invariant mark !in Now().contents[..i]
      {
        if data[i] == mark {
          return 0, i;
        }
      }
    }
  }

  // ----- what holds over runs -----

  datatype Op = Push(bs: seq<byte>, canGrow: bool) | Take(n: nat) | Unread(k: nat, canGrow: bool)

  /** A pipe with what it accepted, what was taken from it for good, and the most bytes
      it ever held. */
  datatype Run = Run(v: View, accepted: seq<byte>, taken: seq<byte>, peak: nat)

  /** Only bytes that were taken can be put back. */
  predicate Allowed(r: Run, op: Op) {
    op.Unread? ==> op.k <= |r.taken|
  }

  function Max(a: nat, b: nat): nat {
    if a < b then b else a
  }

  function Step(r: Run, op: Op): Run
    requires Allowed(r, op)
  {
    match op
    case Push(bs, canGrow) =>
      var v := Append(r.v, bs, canGrow);
      Run(v, if Room(r.v, |bs|, canGrow).0 then r.accepted + bs else r.accepted, r.taken, Max(r.peak, |v.contents|))
    case Take(n) =>
      r.(v := Drop(r.v, n), taken := r.taken + r.v.contents[..Min(|r.v.contents|, n)])
    case Unread(k, canGrow) =>
      var cut := |r.taken| - k;
      var v := PutBack(r.v, r.taken[cut..], canGrow);
      Run(v, r.accepted, if Room(r.v, k, canGrow).0 then r.taken[..cut] else r.taken, Max(r.peak, |v.contents|))
  }

  /** What the writes of a run were given. */
  function Pushed(ops: seq<Op>): seq<byte> {
    if ops == [] then [] else (if ops[0].Push? then ops[0].bs else []) + Pushed(ops[1..])
  }

  ghost predicate Fifo(r: Run) {
    && r.taken + r.v.contents == r.accepted
    && |r.v.contents| <= r.v.capacity <= r.peak + BUCKET_LENGTH
    && |r.v.contents| <= r.peak
  }

  ghost predicate AllAllowed(r: Run, ops: seq<Op>)
    decreases ops
  {
    ops == [] || (Allowed(r, ops[0]) && AllAllowed(Step(r, ops[0]), ops[1..]))
  }

  ghost function Steps(r: Run, ops: seq<Op>): Run
    requires AllAllowed(r, ops)
    decreases ops
  {
    if ops == [] then r else Steps(Step(r, ops[0]), ops[1..])
  }

  lemma StepKeepsFifo(r: Run, op: Op)
    requires Fifo(r) && Allowed(r, op)
    ensures Fifo(Step(r, op))
  {
    match op
    case Push(bs, _) =>
      assert r.taken + (r.v.contents + bs) == r.accepted + bs;
    case Take(n) =>
      var m := Min(|r.v.contents|, n);
      assert r.v.contents[..m] + r.v.contents[m..] == r.v.contents;
      assert (r.taken + r.v.contents[..m]) + r.v.contents[m..] == r.taken + r.v.contents;
    case Unread(k, _) =>
      var cut := |r.taken| - k;
      assert r.taken[..cut] + (r.taken[cut..] + r.v.contents) == r.taken + r.v.contents;
  }

  /** Over any interleaving of writes, reads and put-backs, with any failures to grow,
      the bytes taken followed by those queued are the bytes accepted, in order, and the
      buffer is never more than 4096 bytes larger than the most it ever held. */
  lemma {:induction false} RunsAreFifo(r: Run, ops: seq<Op>)
    requires Fifo(r) && AllAllowed(r, ops)
    ensures Fifo(Steps(r, ops))
    decreases ops
  {
    if ops != [] {
      StepKeepsFifo(r, ops[0]);
      RunsAreFifo(Step(r, ops[0]), ops[1..]);
    }
  }

  /** With memory for every write, everything written is accepted, in order. */
  lemma {:induction false} WritesAreAccepted(r: Run, ops: seq<Op>)
    requires AllAllowed(r, ops) && forall op :: op in ops && op.Push? ==> op.canGrow
    ensures Steps(r, ops).accepted == r.accepted + Pushed(ops)
    decreases ops
  {
    if ops == [] {
      assert r.accepted + [] == r.accepted;
    } else {
      assert ops[0] in ops;
      var now := if ops[0].Push? then ops[0].bs else [];
      WritesAreAccepted(Step(r, ops[0]), ops[1..]);
      assert Step(r, ops[0]).accepted == r.accepted + now;
      assert (r.accepted + now) + Pushed(ops[1..]) == r.accepted + (now + Pushed(ops[1..]));
    }
  }

  /** A read takes as much as it asks for, or everything. */
  lemma ReadTakesAll(r: Run, n: nat)
    ensures var s := Step(r, Take(n));
            |s.taken| <= |r.taken| + n && (|s.taken| == |r.taken| + n || s.v.contents == [])
  {
  }

  /** The same from a pipe that has just been created. */
  lemma NewPipesAreFifo(ops: seq<Op>)
    requires AllAllowed(Run(View([], 0), [], [], 0), ops)
    ensures var r := Steps(Run(View([], 0), [], [], 0), ops);
            r.taken + r.v.contents == r.accepted && r.v.capacity <= r.peak + BUCKET_LENGTH
  {
    RunsAreFifo(Run(View([], 0), [], [], 0), ops);
  }

  /** Putting back the rest of a chunk after using `used` bytes of it undoes that part of
      the read, and never has to grow the buffer. */
  lemma PutBackUndoesRead(v: View, n: nat, used: nat, canGrow: bool)
    requires |v.contents| <= v.capacity && used <= Min(|v.contents|, n)
    ensures var m := Min(|v.contents|, n);
            && PutBack(Drop(v, n), v.contents[used..m], canGrow) == View(v.contents[used..], v.capacity)
            && Room(Drop(v, n), m - used, canGrow) == (true, v.capacity)
  {
    var m := Min(|v.contents|, n);
    assert v.contents[used..m] + v.contents[m..] == v.contents[used..];
  }
}
