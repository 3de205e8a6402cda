/** Positioned and vectored reads of a file. */
module Io {
  import opened Core
  import opened Format

  /** A destination window: `len` bytes of one of the two caller buffers, from `start`. */
  datatype Iov = Iov(toSink: bool, start: nat, len: nat)

  /** One byte of a caller buffer. */
  datatype Loc = Loc(toSink: bool, index: nat)

  function Total(iovs: seq<Iov>): nat {
    if iovs == [] then 0 else iovs[0].len + Total(iovs[1..])
  }

  /** Where byte `p` of the contiguous read goes. */
  function Locate(iovs: seq<Iov>, p: nat): Loc
    requires p < Total(iovs)
  {
    if p < iovs[0].len then Loc(iovs[0].toSink, iovs[0].start + p)
    else Locate(iovs[1..], p - iovs[0].len)
  }

  lemma {:induction false} TotalJoins(a: seq<Iov>, b: seq<Iov>)
    ensures Total(a + b) == Total(a) + Total(b)
  {
    if a == [] {
      assert a + b == b;
    } else {
      TotalJoins(a[1..], b);
      assert (a + b)[1..] == a[1..] + b;
    }
  }

  /** A window takes the bytes that follow those of the windows before it, front to back. */
  lemma {:induction false} LocateIs(before: seq<Iov>, iov: Iov, after: seq<Iov>, o: nat)
    requires o < iov.len
    ensures Total(before) + o < Total(before + [iov] + after)
    ensures Locate(before + [iov] + after, Total(before) + o) == Loc(iov.toSink, iov.start + o)
  {
    TotalJoins(before + [iov], after);
    TotalJoins(before, [iov]);
    if before == [] {
      assert before + [iov] + after == [iov] + after;
    } else {
      LocateIs(before[1..], iov, after, o);
      assert (before + [iov] + after)[1..] == before[1..] + [iov] + after;
    }
  }

  ghost predicate InBuffer(loc: Loc, slots: nat, sink: nat) {
    loc.index < if loc.toSink then sink else slots
  }

  /** The windows are disjoint parts of the two buffers. */
  ghost predicate Disjoint(iovs: seq<Iov>, slots: nat, sink: nat) {
    && (forall p: nat :: p < Total(iovs) ==> InBuffer(Locate(iovs, p), slots, sink))
    && (forall p: nat, q: nat :: p < q < Total(iovs) ==> Locate(iovs, p) != Locate(iovs, q))
  }

  /** Drop the first `n` bytes of the windows (`IoSliceMut::advance_slices`). */
  function Advance(iovs: seq<Iov>, n: nat): (r: seq<Iov>)
    requires n <= Total(iovs)
    ensures Total(r) == Total(iovs) - n
  {
    if iovs == [] then []
    else if n >= iovs[0].len then Advance(iovs[1..], n - iovs[0].len)
    else
      var head := Iov(iovs[0].toSink, iovs[0].start + n, iovs[0].len - n);
      assert ([head] + iovs[1..])[1..] == iovs[1..];
      [head] + iovs[1..]
  }

  lemma {:induction false} AdvanceLocates(iovs: seq<Iov>, n: nat, p: nat)
    requires n <= Total(iovs) && p < Total(iovs) - n
    ensures p < Total(Advance(iovs, n)) && Locate(Advance(iovs, n), p) == Locate(iovs, n + p)
  {
    if n >= iovs[0].len {
      AdvanceLocates(iovs[1..], n - iovs[0].len, p);
    } else {
      var r := Advance(iovs, n);
      assert r[1..] == iovs[1..];
    }
  }

  /** No zero-length window. */
  ghost predicate NonEmpty(iovs: seq<Iov>) {
    forall i :: 0 <= i < |iovs| ==> iovs[i].len > 0
  }

  /** Advancing drops finished windows, empty ones with them: bytes remain whenever windows do. */
  lemma {:induction false} AdvanceLeavesBytes(iovs: seq<Iov>, n: nat)
    requires n <= Total(iovs)
    ensures Advance(iovs, n) != [] ==> Total(Advance(iovs, n)) > 0
  {
    if iovs != [] && n >= iovs[0].len {
      AdvanceLeavesBytes(iovs[1..], n - iovs[0].len);
    }
  }

  function ByteAt(slots: array<byte>, sink: array<byte>, loc: Loc): byte
    requires InBuffer(loc, slots.Length, sink.Length)
    reads slots, sink
  {
    if loc.toSink then sink[loc.index] else slots[loc.index]
  }

  /** The first `n` bytes of the read have reached their windows. */
  ghost predicate Delivered(file: seq<byte>, offset: nat, iovs: seq<Iov>, n: nat, slots: array<byte>, sink: array<byte>)
    requires Disjoint(iovs, slots.Length, sink.Length) && n <= Total(iovs) && offset + n <= |file|
    reads slots, sink
  {
    forall p: nat :: p < n ==> ByteAt(slots, sink, Locate(iovs, p)) == file[offset + p]
  }

  /** What one `preadv` does with its windows: bytes `done..done + n` of the whole read arrive. */
  method Transfer(file: seq<byte>, offset: nat, iovs: seq<Iov>, done: nat, n: nat,
                  slots: array<byte>, sink: array<byte>)
    requires slots != sink && Disjoint(iovs, slots.Length, sink.Length)
    requires done + n <= Total(iovs) && offset + done + n <= |file|
    requires Delivered(file, offset, iovs, done, slots, sink)
    modifies slots, sink
    ensures Delivered(file, offset, iovs, done + n, slots, sink)
  {
    for p := done to done + n
      invariant Delivered(file, offset, iovs, p, slots, sink)
    {
      var loc := Locate(iovs, p);
      assert InBuffer(loc, slots.Length, sink.Length);
      if loc.toSink {
        sink[loc.index] := file[offset + p];
      } else {
        slots[loc.index] := file[offset + p];
      }
    }
  }

  /** The windows still to fill are the original windows past `done`. */
  ghost predicate Remaining(iovs: seq<Iov>, left: seq<Iov>, done: nat) {
    && done + Total(left) == Total(iovs)
    && forall p: nat :: p < Total(left) ==> Locate(left, p) == Locate(iovs, done + p)
  }

  lemma RemainingAdvances(iovs: seq<Iov>, left: seq<Iov>, done: nat, n: nat)
    requires Remaining(iovs, left, done) && n <= Total(left)
    ensures Remaining(iovs, Advance(left, n), done + n)
  {
    forall p: nat | p < Total(Advance(left, n)) ensures Locate(Advance(left, n), p) == Locate(iovs, done + n + p) {
      AdvanceLocates(left, n, p);
    }
  }

  /** The system call's return value: whatever it says, at most the bytes asked for. */
  function Returned(answer: int, asked: nat): int {
    if answer > asked then asked else answer
  }

  /** How a read of `left` bytes ends whose next system call is the k-th: a negative answer is an I/O error, an answer of
      zero an unexpected end of file, and any other brings that many bytes. */
  ghost function Outcome(preadv: nat -> int, left: nat, k: nat): Result<()>
    decreases left
  {
    var n := preadv(k);
    if left == 0 then Ok(())
    else if n < 0 then Err(Io)
    else if n == 0 then Err(Corrupt)
    else if n >= left then Ok(())
    else Outcome(preadv, left - n, k + 1)
  }

  /** The positioned-read backend's vectored read: one `preadv` per round, rounds absorbing short reads.
      `preadv(k)` is what the k-th system call reports. */
  method ReadVectored(file: seq<byte>, offset: nat, iovs: seq<Iov>, slots: array<byte>, sink: array<byte>,
                      preadv: nat -> int) returns (r: Result<()>)
    requires slots != sink && Disjoint(iovs, slots.Length, sink.Length)
    modifies slots, sink
    ensures offset + Total(iovs) > |file| ==> r == Err(Corrupt)
    ensures r.Ok? ==> offset + Total(iovs) <= |file| && Delivered(file, offset, iovs, Total(iovs), slots, sink)
    ensures (forall k: nat :: preadv(k) > 0) ==>
              (r.Ok? <==> offset + Total(iovs) <= |file| && (iovs == [] || Total(iovs) > 0))
    ensures r.Err? ==> r == Err(Corrupt) || r == Err(Io)
    ensures offset <= |file| && iovs == [] ==> r == Ok(())
    ensures offset + Total(iovs) <= |file| && Total(iovs) > 0 ==> r == Outcome(preadv, Total(iovs), 0)
    ensures offset <= |file| && Total(iovs) == 0 && iovs != [] ==> r == Err(if preadv(0) < 0 then Io else Corrupt)
  {
    var total := Total(iovs);
    if offset + total > |file| {
      return Err(Corrupt);
    }
    var left, done, calls := iovs, 0, 0;
    while left != []
      invariant Remaining(iovs, left, done)
      invariant Delivered(file, offset, iovs, done, slots, sink)
      invariant iovs == [] ==> left == []
      invariant Total(iovs) == 0 && iovs != [] ==> left == iovs
      invariant left != [] && Total(iovs) > 0 ==> Total(left) > 0
      invariant Total(iovs) > 0 ==> Outcome(preadv, Total(iovs), 0) == Outcome(preadv, Total(left), calls)
      invariant Total(iovs) == 0 ==> calls == 0
      decreases Total(left)
    {
      var n := Returned(preadv(calls), Total(left));
      calls := calls + 1;
      if n < 0 {
        return Err(Io);
      }
      if n == 0 {
        return Err(Corrupt);
      }
      Transfer(file, offset, iovs, done, n, slots, sink);
      RemainingAdvances(iovs, left, done, n);
      AdvanceLeavesBytes(left, n);
      left := Advance(left, n);
      done := done + n;
    }
    r := Ok(());
  }

  // ---- the default implementation: one exact read per window ----

  lemma FirstWindow(iovs: seq<Iov>)
    requires iovs != []
    ensures iovs[0].len <= Total(iovs) && Advance(iovs, iovs[0].len) == Advance(iovs[1..], 0)
    ensures |Advance(iovs, iovs[0].len)| < |iovs|
  {
    AdvanceShortens(iovs[1..]);
  }

  lemma {:induction false} AdvanceShortens(iovs: seq<Iov>)
    ensures |Advance(iovs, 0)| <= |iovs|
  {
    if iovs != [] && iovs[0].len == 0 {
      AdvanceShortens(iovs[1..]);
    }
  }

  /** The default vectored read, window by window. When every system call makes progress it differs from the
      positioned-read backend only on an empty window list past the end of the file, which it accepts, and on lists
      holding nothing but empty windows, which it accepts inside the file. */
  method ReadVectoredDefault(file: seq<byte>, offset: nat, iovs: seq<Iov>, slots: array<byte>, sink: array<byte>)
    returns (r: Result<()>)
    requires slots != sink && Disjoint(iovs, slots.Length, sink.Length)
    modifies slots, sink
    ensures r == if iovs != [] && offset + Total(iovs) > |file| then Err(Corrupt) else Ok(())
    ensures r.Ok? && iovs != [] ==> Delivered(file, offset, iovs, Total(iovs), slots, sink)
  {
    var left, done := iovs, 0;
    while left != []
      invariant Remaining(iovs, left, done)
      invariant iovs != [] ==> (left == iovs && done == 0) || offset + done <= |file|
      invariant iovs != [] && offset + done <= |file| ==> Delivered(file, offset, iovs, done, slots, sink)
      decreases |left|
    {
      FirstWindow(left);
      var n := left[0].len;
      if offset + done + n > |file| {
        return Err(Corrupt);
      }
      Transfer(file, offset, iovs, done, n, slots, sink);
      RemainingAdvances(iovs, left, done, n);
      left := Advance(left, n);
      done := done + n;
    }
    r := Ok(());
  }
}
