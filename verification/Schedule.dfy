/** The elevator scheduler: sort, deduplicate and coalesce a batch of vector reads. */
module Schedule {
  import opened Layout
  import opened IdLists

  datatype FetchSchedule = FetchSchedule(order: seq<nat>, seeks: nat, runs: nat, bytes: nat, spanBytes: nat)

  /** A window of the swept order: `count` indices from position `start`. */
  type Window = (nat, nat)

  /** Two swept indices share a run: same block or the next one. */
  predicate Continues(layout: BlockLayout, a: nat, b: nat)
    requires layout.vectorsPerBlock > 0
  {
    layout.BlockOf(b) == layout.BlockOf(a) || layout.BlockOf(b) == layout.BlockOf(a) + 1
  }

  /** Runs among the first `i` swept indices. */
  ghost function Runs(layout: BlockLayout, order: seq<nat>, i: nat): nat
    requires layout.vectorsPerBlock > 0 && i <= |order|
  {
    if i == 0 then 0
    else if i > 1 && Continues(layout, order[i - 2], order[i - 1]) then Runs(layout, order, i - 1)
    else Runs(layout, order, i - 1) + 1
  }

  /** The coalesced windows of the first `i` swept indices. */
  ghost function Windows(layout: BlockLayout, order: seq<nat>, i: nat): (w: seq<Window>)
    requires layout.vectorsPerBlock > 0 && i <= |order|
    ensures |w| == Runs(layout, order, i) && (i > 0 ==> |w| > 0)
  {
    if i == 0 then []
    else
      var before := Windows(layout, order, i - 1);
      if i > 1 && Continues(layout, order[i - 2], order[i - 1]) then
        var last := before[|before| - 1];
        before[..|before| - 1] + [(last.0, last.1 + 1)]
      else before + [(i - 1, 1)]
  }

  /** Bytes streamed for the first `i` swept indices. */
  ghost function SpanTotal(layout: BlockLayout, order: seq<nat>, i: nat): int
    requires layout.vectorsPerBlock > 0 && i <= |order|
  {
    if i == 0 then 0
    else if i > 1 && Continues(layout, order[i - 2], order[i - 1]) then
      SpanTotal(layout, order, i - 1) + layout.VectorOffset(order[i - 1]) - layout.VectorOffset(order[i - 2])
    else SpanTotal(layout, order, i - 1) + layout.vectorBytes
  }

  lemma PlannedOrder(indices: seq<nat>)
    ensures var order := Dedup(SortedIds(indices));
            StrictlyAscending(order) && forall x :: x in order <==> x in indices
  {
    var sorted := SortedIds(indices);
    forall x ensures x in sorted <==> x in indices {
      assert x in sorted <==> x in multiset(sorted);
      assert x in indices <==> x in multiset(indices);
    }
  }

  /** Bytes of the closed runs plus the open one. */
  ghost predicate Sweeping(layout: BlockLayout, order: seq<nat>, i: nat, runs: nat, closed: int, first: nat, last: nat)
    requires layout.vectorsPerBlock > 0 && i <= |order|
  {
    && runs == Runs(layout, order, i)
    && (i > 0 ==> last == order[i - 1] && closed + layout.RunSpan(first, last).1 == SpanTotal(layout, order, i))
    && (i == 0 ==> closed == 0)
  }

  lemma SweepExtends(layout: BlockLayout, order: seq<nat>, i: nat, runs: nat, closed: int, first: nat, last: nat)
    requires layout.vectorsPerBlock > 0 && 0 < i < |order| && Sweeping(layout, order, i, runs, closed, first, last)
    requires Continues(layout, order[i - 1], order[i])
    ensures Sweeping(layout, order, i + 1, runs, closed, first, order[i])
  {
  }

  lemma SweepBreaks(layout: BlockLayout, order: seq<nat>, i: nat, runs: nat, closed: int, first: nat, last: nat)
    requires layout.vectorsPerBlock > 0 && i < |order| && Sweeping(layout, order, i, runs, closed, first, last)
    requires i > 0 ==> !Continues(layout, order[i - 1], order[i])
    ensures Sweeping(layout, order, i + 1, runs + 1,
                     if i > 0 then closed + layout.RunSpan(first, last).1 else closed, order[i], order[i])
  {
  }

  /** `FetchSchedule::plan`. */
  method Plan(layout: BlockLayout, indices: seq<nat>) returns (plan: FetchSchedule)
    requires layout.Valid()
    ensures StrictlyAscending(plan.order) && forall x :: x in plan.order <==> x in indices
    ensures layout.vectorsPerBlock > 0
    ensures plan.runs == plan.seeks == Runs(layout, plan.order, |plan.order|)
    ensures |Windows(layout, plan.order, |plan.order|)| == plan.seeks
    ensures Coalesced(layout, plan.order, Windows(layout, plan.order, |plan.order|))
    ensures plan.bytes == |plan.order| * layout.vectorBytes
    ensures plan.spanBytes == SpanTotal(layout, plan.order, |plan.order|)
  {
    ValidHasSlots(layout);
    if indices == [] {
      WindowsCoalesced(layout, []);
      return FetchSchedule([], 0, 0, 0, 0);
    }
    hide Runs, SpanTotal, StrictlyAscending, IsPowerOfTwo, Coalesced;
    PlannedOrder(indices);
    WindowsCoalesced(layout, Dedup(SortedIds(indices)));
    var order := Dedup(SortedIds(indices));
    assert indices[0] in order;
    var runs, spanBytes := Sweep(layout, order);
    SpanCoversPayload(layout, order, |order|);
    plan := FetchSchedule(order, runs, runs, |order| * layout.vectorBytes, spanBytes);
  }

  /** Count the runs of a swept order and the bytes they stream. */
  method Sweep(layout: BlockLayout, order: seq<nat>) returns (runs: nat, spanBytes: int)
    requires layout.vectorsPerBlock > 0 && order != []
    ensures runs == Runs(layout, order, |order|) && spanBytes == SpanTotal(layout, order, |order|)
  {
    var runFirst, runLast := order[0], order[0];
    runs, spanBytes := 0, 0;
    for i := 0 to |order|
      invariant Sweeping(layout, order, i, runs, spanBytes, runFirst, runLast)
    {
      hide Sweeping, Continues;
      if i > 0 && Continues(layout, order[i - 1], order[i]) {
        SweepExtends(layout, order, i, runs, spanBytes, runFirst, runLast);
        runLast := order[i];
      } else {
        SweepBreaks(layout, order, i, runs, spanBytes, runFirst, runLast);
        if i > 0 {
          spanBytes := spanBytes + layout.RunSpan(runFirst, runLast).1;
        }
        runs := runs + 1;
        runFirst, runLast := order[i], order[i];
      }
    }
    spanBytes := spanBytes + layout.RunSpan(runFirst, runLast).1;
  }

  /** `FetchSchedule::run_spans`. */
  method RunSpans(layout: BlockLayout, order: seq<nat>) returns (spans: seq<Window>)
    requires layout.Valid()
    ensures layout.vectorsPerBlock > 0 && spans == Windows(layout, order, |order|)
    ensures StrictlyAscending(order) ==> Coalesced(layout, order, spans)
  {
    ValidHasSlots(layout);
    hide Coalesced, StrictlyAscending, IsPowerOfTwo;
    spans := [];
    for pos := 0 to |order|
      invariant spans == Windows(layout, order, pos)
    {
      if pos > 0 && Continues(layout, order[pos - 1], order[pos]) {
        var last := spans[|spans| - 1];
        spans := spans[..|spans| - 1] + [(last.0, last.1 + 1)];
      } else {
        spans := spans + [(pos, 1)];
      }
    }
    if StrictlyAscending(order) {
      WindowsCoalesced(layout, order);
    }
  }

  // ---- what a split into windows is ----

  /** The windows cover positions `0..n` consecutively, none empty. */
  ghost predicate Splits(windows: seq<Window>, n: nat)
    decreases |windows|
  {
    if windows == [] then n == 0
    else
      var last := windows[|windows| - 1];
      last.1 > 0 && last.0 + last.1 == n && Splits(windows[..|windows| - 1], last.0)
  }

  /** Neighbours inside a window share or follow a block, so one seek serves it. */
  ghost predicate OneSeek(layout: BlockLayout, order: seq<nat>, w: Window)
    requires layout.vectorsPerBlock > 0
  {
    && w.0 + w.1 <= |order|
    && forall i :: w.0 < i < w.0 + w.1 ==> 0 <= layout.BlockOf(order[i]) - layout.BlockOf(order[i - 1]) <= 1
  }

  /** A window starts at least two blocks after the index before it. */
  ghost predicate Apart(layout: BlockLayout, order: seq<nat>, w: Window)
    requires layout.vectorsPerBlock > 0
  {
    0 < w.0 < |order| ==> layout.BlockOf(order[w.0]) >= layout.BlockOf(order[w.0 - 1]) + 2
  }

  /** The windows split the swept order into the stretches one seek serves, no two of which could be joined. */
  ghost predicate Coalesced(layout: BlockLayout, order: seq<nat>, windows: seq<Window>)
    requires layout.vectorsPerBlock > 0
  {
    && Splits(windows, |order|)
    && forall k :: 0 <= k < |windows| ==> OneSeek(layout, order, windows[k]) && Apart(layout, order, windows[k])
  }

  lemma {:induction false} WindowsApart(layout: BlockLayout, order: seq<nat>, i: nat)
    requires layout.vectorsPerBlock > 0 && StrictlyAscending(order) && i <= |order|
    ensures forall k :: 0 <= k < |Windows(layout, order, i)| ==> Apart(layout, order, Windows(layout, order, i)[k])
  {
    if i > 0 {
      WindowsApart(layout, order, i - 1);
      if i > 1 {
        DivMonotone(order[i - 2], order[i - 1], layout.vectorsPerBlock);
      }
    }
  }

  /** There is one such split, so its seeks and bytes are the order's own. */
  lemma {:induction false} CoalescedUnique(layout: BlockLayout, order: seq<nat>, a: seq<Window>, b: seq<Window>, n: nat)
    requires layout.vectorsPerBlock > 0 && n <= |order| && Splits(a, n) && Splits(b, n)
    requires forall k :: 0 <= k < |a| ==> OneSeek(layout, order, a[k]) && Apart(layout, order, a[k])
    requires forall k :: 0 <= k < |b| ==> OneSeek(layout, order, b[k]) && Apart(layout, order, b[k])
    ensures a == b
    decreases |a|
  {
    hide OneSeek, Apart;
    if a != [] && b != [] {
      var x, y := a[|a| - 1], b[|b| - 1];
      assert OneSeek(layout, order, x) && Apart(layout, order, x);
      assert OneSeek(layout, order, y) && Apart(layout, order, y);
      SameStart(layout, order, x, y);
      SameStart(layout, order, y, x);
      CoalescedUnique(layout, order, a[..|a| - 1], b[..|b| - 1], x.0);
      assert a == a[..|a| - 1] + [x] && b == b[..|b| - 1] + [y];
    }
  }

  /** A window cannot start inside another. */
  lemma SameStart(layout: BlockLayout, order: seq<nat>, x: Window, y: Window)
    requires layout.vectorsPerBlock > 0 && x.1 > 0 && y.1 > 0 && x.0 + x.1 == y.0 + y.1 <= |order|
    requires OneSeek(layout, order, x) && Apart(layout, order, y)
    ensures x.0 >= y.0
  {
    hide BlockLayout.BlockOf;
  }

  lemma WindowsCoalesced(layout: BlockLayout, order: seq<nat>)
    requires layout.vectorsPerBlock > 0 && StrictlyAscending(order)
    ensures Coalesced(layout, order, Windows(layout, order, |order|))
  {
    WindowsSplit(layout, order, |order|);
    WindowsApart(layout, order, |order|);
    hide Windows, OneSeek, Apart;
  }

  ghost predicate AllOneSeek(layout: BlockLayout, order: seq<nat>, windows: seq<Window>)
    requires layout.vectorsPerBlock > 0
  {
    forall k :: 0 <= k < |windows| ==> OneSeek(layout, order, windows[k])
  }

  /** The open window of the sweep: `w` is `rest` followed by the window from `start` of `count`. */
  ghost predicate EndsWith(w: seq<Window>, rest: seq<Window>, start: nat, count: nat) {
    w == rest + [(start, count)] && count > 0
  }

  lemma SplitsAppend(rest: seq<Window>, start: nat, count: nat)
    requires count > 0
    ensures Splits(rest + [(start, count)], start + count) <==> Splits(rest, start)
  {
    assert (rest + [(start, count)])[..|rest|] == rest;
  }

  /** How the windows change when one more index is swept. */
  lemma WindowsStep(layout: BlockLayout, order: seq<nat>, i: nat) returns (rest: seq<Window>, start: nat, count: nat)
    requires layout.vectorsPerBlock > 0 && 1 < i <= |order|
    requires Splits(Windows(layout, order, i - 1), i - 1)
    ensures EndsWith(Windows(layout, order, i - 1), rest, start, count) && start + count == i - 1
    ensures Continues(layout, order[i - 2], order[i - 1]) ==>
              Windows(layout, order, i) == rest + [(start, count + 1)]
    ensures !Continues(layout, order[i - 2], order[i - 1]) ==>
              Windows(layout, order, i) == Windows(layout, order, i - 1) + [(i - 1, 1)]
  {
    hide Continues;
    var before := Windows(layout, order, i - 1);
    var last := before[|before| - 1];
    rest, start, count := before[..|before| - 1], last.0, last.1;
  }

  lemma FirstWindow(layout: BlockLayout, order: seq<nat>)
    requires layout.vectorsPerBlock > 0 && order != []
    ensures Windows(layout, order, 1) == [] + [(0, 1)]
    ensures SpanTotal(layout, order, 1) == layout.vectorBytes
  {
  }

  lemma ExtendWindow(layout: BlockLayout, order: seq<nat>, start: nat, count: nat)
    requires layout.vectorsPerBlock > 0 && count > 0 && start + count < |order|
    requires OneSeek(layout, order, (start, count)) && Continues(layout, order[start + count - 1], order[start + count])
    ensures OneSeek(layout, order, (start, count + 1))
  {
  }

  lemma AllOneSeekAppend(layout: BlockLayout, order: seq<nat>, rest: seq<Window>, w: Window)
    requires layout.vectorsPerBlock > 0
    ensures AllOneSeek(layout, order, rest + [w]) <==> AllOneSeek(layout, order, rest) && OneSeek(layout, order, w)
  {
    hide OneSeek;
    var all := rest + [w];
    assert all[|rest|] == w;
    assert forall k :: 0 <= k < |rest| ==> all[k] == rest[k];
  }

  lemma {:induction false} WindowsSplit(layout: BlockLayout, order: seq<nat>, i: nat)
    requires layout.vectorsPerBlock > 0 && i <= |order|
    ensures Splits(Windows(layout, order, i), i) && AllOneSeek(layout, order, Windows(layout, order, i))
  {
    if i == 1 {
      FirstWindow(layout, order);
      SplitsAppend([], 0, 1);
    } else if i > 1 {
      WindowsSplit(layout, order, i - 1);
      var rest, start, count := WindowsStep(layout, order, i);
      SplitsAppend(rest, start, count);
      AllOneSeekAppend(layout, order, rest, (start, count));
      if Continues(layout, order[i - 2], order[i - 1]) {
        ExtendWindow(layout, order, start, count);
        SplitsAppend(rest, start, count + 1);
        AllOneSeekAppend(layout, order, rest, (start, count + 1));
      } else {
        SplitsAppend(Windows(layout, order, i - 1), i - 1, 1);
        AllOneSeekAppend(layout, order, Windows(layout, order, i - 1), (i - 1, 1));
      }
      hide *;
    }
  }

  lemma {:induction false} RunsInWindow(layout: BlockLayout, order: seq<nat>, start: nat, i: nat)
    requires layout.vectorsPerBlock > 0 && start < i <= |order|
    requires forall k :: start < k < i ==> 0 <= layout.BlockOf(order[k]) - layout.BlockOf(order[k - 1]) <= 1
    ensures Runs(layout, order, i) <= Runs(layout, order, start) + 1
  {
    if i > start + 1 {
      RunsInWindow(layout, order, start, i - 1);
      assert Continues(layout, order[i - 2], order[i - 1]);
    }
  }

  /** No split of the swept order into one-seek windows uses fewer windows than the plan. */
  lemma {:induction false} PlanIsOptimal(layout: BlockLayout, order: seq<nat>, windows: seq<Window>, n: nat)
    requires layout.vectorsPerBlock > 0 && n <= |order|
    requires Splits(windows, n) && AllOneSeek(layout, order, windows)
    ensures Runs(layout, order, n) <= |windows|
    decreases |windows|
  {
    if windows != [] {
      var last := windows[|windows| - 1];
      assert OneSeek(layout, order, last);
      PlanIsOptimal(layout, order, windows[..|windows| - 1], last.0);
      RunsInWindow(layout, order, last.0, n);
    }
  }

  // ---- bytes ----

  /** Useful payload never exceeds the bytes streamed. */
  lemma {:induction false} SpanCoversPayload(layout: BlockLayout, order: seq<nat>, i: nat)
    requires layout.Valid() && StrictlyAscending(order) && i <= |order|
    ensures layout.vectorsPerBlock > 0 && 0 <= i * layout.vectorBytes <= SpanTotal(layout, order, i)
  {
    ValidHasSlots(layout);
    if i > 0 {
      SpanCoversPayload(layout, order, i - 1);
      if i > 1 {
        SlotsOrdered(layout, order[i - 2], order[i - 1]);
      }
      assert i * layout.vectorBytes == (i - 1) * layout.vectorBytes + layout.vectorBytes;
    }
  }

  /** The distinct blocks touched by the first `i` swept indices. */
  ghost function Blocks(layout: BlockLayout, order: seq<nat>, i: nat): set<nat>
    requires layout.vectorsPerBlock > 0 && i <= |order|
  {
    if i == 0 then {} else Blocks(layout, order, i - 1) + {layout.BlockOf(order[i - 1])}
  }

  lemma {:induction false} BlocksBounded(layout: BlockLayout, order: seq<nat>, i: nat)
    requires layout.vectorsPerBlock > 0 && 0 < i <= |order| && StrictlyAscending(order)
    ensures forall b :: b in Blocks(layout, order, i) ==> b <= layout.BlockOf(order[i - 1])
    ensures layout.BlockOf(order[i - 1]) in Blocks(layout, order, i)
  {
    if i > 1 {
      BlocksBounded(layout, order, i - 1);
      DivMonotone(order[i - 2], order[i - 1], layout.vectorsPerBlock);
    }
  }

  /** Where the swept index ends inside its block. */
  ghost function EndInBlock(layout: BlockLayout, i: nat): int
    requires layout.vectorsPerBlock > 0
  {
    layout.SlotOf(i) * layout.vectorBytes + layout.vectorBytes
  }

  lemma BlocksStep(layout: BlockLayout, order: seq<nat>, i: nat)
    requires layout.Valid() && layout.vectorsPerBlock > 0 && 1 < i <= |order| && StrictlyAscending(order)
    ensures var a, b := layout.BlockOf(order[i - 2]), layout.BlockOf(order[i - 1]);
            a <= b && |Blocks(layout, order, i)| == |Blocks(layout, order, i - 1)| + (if a == b then 0 else 1)
  {
    BlocksBounded(layout, order, i - 1);
    DivMonotone(order[i - 2], order[i - 1], layout.vectorsPerBlock);
    var b := layout.BlockOf(order[i - 1]);
    if layout.BlockOf(order[i - 2]) == b {
      assert Blocks(layout, order, i) == Blocks(layout, order, i - 1);
    } else {
      assert b !in Blocks(layout, order, i - 1);
    }
  }

  lemma SpanTotalStep(layout: BlockLayout, order: seq<nat>, i: nat)
    requires layout.Valid() && layout.vectorsPerBlock > 0 && 1 < i <= |order| && StrictlyAscending(order)
    ensures SpanTotal(layout, order, i) - SpanTotal(layout, order, i - 1) <=
              (if layout.BlockOf(order[i - 2]) == layout.BlockOf(order[i - 1]) then 0 else layout.blockSize)
                + EndInBlock(layout, order[i - 1]) - EndInBlock(layout, order[i - 2])
  {
    var a, b := order[i - 2], order[i - 1];
    DivMonotone(a, b, layout.vectorsPerBlock);
    hide EndInBlock;
    SpanStep(layout, a, b);
  }

  lemma SpanOfFirst(layout: BlockLayout, order: seq<nat>)
    requires layout.vectorsPerBlock > 0 && order != []
    ensures SpanTotal(layout, order, 1) <= EndInBlock(layout, order[0])
    ensures |Blocks(layout, order, 1)| == 1
  {
    assert SpanTotal(layout, order, 1) == layout.vectorBytes;
    assert layout.SlotOf(order[0]) * layout.vectorBytes >= 0;
    assert Blocks(layout, order, 1) == {layout.BlockOf(order[0])};
  }

  lemma {:induction false} SpanWithinBlocks(layout: BlockLayout, order: seq<nat>, i: nat)
    requires layout.Valid() && layout.vectorsPerBlock > 0 && 0 < i <= |order| && StrictlyAscending(order)
    ensures |Blocks(layout, order, i)| >= 1
    ensures SpanTotal(layout, order, i) <=
              (|Blocks(layout, order, i)| - 1) * layout.blockSize + EndInBlock(layout, order[i - 1])
  {
    hide SpanTotal, EndInBlock, Blocks, StrictlyAscending;
    if i == 1 {
      SpanOfFirst(layout, order);
    } else {
      SpanWithinBlocks(layout, order, i - 1);
      BlocksStep(layout, order, i);
      SpanTotalStep(layout, order, i);
      var n, n' := |Blocks(layout, order, i - 1)|, |Blocks(layout, order, i)|;
      assert n' == n + 1 ==> (n' - 1) * layout.blockSize == (n - 1) * layout.blockSize + layout.blockSize;
    }
  }

  /** What one more swept index adds to the span, against the room its block gives. */
  lemma SpanStep(layout: BlockLayout, a: nat, b: nat)
    requires layout.Valid() && layout.vectorsPerBlock > 0 && a < b && layout.BlockOf(a) <= layout.BlockOf(b)
    ensures layout.BlockOf(a) == layout.BlockOf(b) ==>
              layout.VectorOffset(b) - layout.VectorOffset(a) == EndInBlock(layout, b) - EndInBlock(layout, a)
    ensures layout.BlockOf(a) + 1 == layout.BlockOf(b) ==>
              layout.VectorOffset(b) - layout.VectorOffset(a) ==
                layout.blockSize + EndInBlock(layout, b) - EndInBlock(layout, a)
    ensures layout.vectorBytes <= layout.blockSize + EndInBlock(layout, b) - EndInBlock(layout, a)
  {
    SlotsFit(layout.blockSize, layout.vectorBytes, layout.SlotOf(a));
    assert layout.SlotOf(b) * layout.vectorBytes >= 0;
    assert (layout.BlockOf(a) + 1) * layout.blockSize == layout.BlockOf(a) * layout.blockSize + layout.blockSize;
  }

  lemma EndFits(layout: BlockLayout, i: nat)
    requires layout.Valid() && layout.vectorsPerBlock > 0
    ensures EndInBlock(layout, i) <= layout.blockSize
  {
    SlotsFit(layout.blockSize, layout.vectorBytes, layout.SlotOf(i));
  }

  lemma OneMore(n: int, c: int)
    ensures (n - 1) * c + c == n * c
  {
  }

  /** The span never exceeds the distinct blocks times the block size. */
  lemma SpanAtMostBlocks(layout: BlockLayout, order: seq<nat>)
    requires layout.Valid() && layout.vectorsPerBlock > 0 && StrictlyAscending(order)
    ensures SpanTotal(layout, order, |order|) <= |Blocks(layout, order, |order|)| * layout.blockSize
  {
    if order != [] {
      SpanWithinBlocks(layout, order, |order|);
      EndFits(layout, order[|order| - 1]);
      OneMore(|Blocks(layout, order, |order|)|, layout.blockSize);
      hide *;
    }
  }

  ghost predicate InBounds(windows: seq<Window>, n: nat) {
    forall k :: 0 <= k < |windows| ==> windows[k].1 > 0 && windows[k].0 + windows[k].1 <= n
  }

  /** Bytes read by executing the windows one positioned read each. */
  ghost function WindowBytes(layout: BlockLayout, order: seq<nat>, windows: seq<Window>): int
    requires layout.vectorsPerBlock > 0 && InBounds(windows, |order|)
  {
    if windows == [] then 0
    else
      var last := windows[|windows| - 1];
      WindowBytes(layout, order, windows[..|windows| - 1]) +
        layout.RunSpan(order[last.0], order[last.0 + last.1 - 1]).1
  }

  lemma {:induction false} SplitBounds(windows: seq<Window>, n: nat)
    requires Splits(windows, n)
    ensures InBounds(windows, n)
    decreases |windows|
  {
    if windows != [] {
      SplitBounds(windows[..|windows| - 1], windows[|windows| - 1].0);
    }
  }

  lemma InBoundsRest(rest: seq<Window>, w: Window, n: nat)
    requires InBounds(rest + [w], n)
    ensures InBounds(rest, n)
  {
    assert forall k :: 0 <= k < |rest| ==> (rest + [w])[k] == rest[k];
  }

  lemma LastWindowGrows(layout: BlockLayout, order: seq<nat>, rest: seq<Window>, start: nat, count: nat)
    requires layout.vectorsPerBlock > 0 && count > 0 && start + count < |order|
    requires InBounds(rest, |order|)
    ensures InBounds(rest + [(start, count + 1)], |order|) && InBounds(rest + [(start, count)], |order|)
    ensures WindowBytes(layout, order, rest + [(start, count + 1)]) ==
              WindowBytes(layout, order, rest + [(start, count)]) +
                layout.VectorOffset(order[start + count]) - layout.VectorOffset(order[start + count - 1])
  {
    hide BlockLayout.VectorOffset;
    assert (rest + [(start, count + 1)])[..|rest|] == rest;
    assert (rest + [(start, count)])[..|rest|] == rest;
  }

  lemma NewWindowAdds(layout: BlockLayout, order: seq<nat>, rest: seq<Window>, start: nat)
    requires layout.vectorsPerBlock > 0 && start < |order|
    requires InBounds(rest, |order|)
    ensures InBounds(rest + [(start, 1)], |order|)
    ensures WindowBytes(layout, order, rest + [(start, 1)]) == WindowBytes(layout, order, rest) + layout.vectorBytes
  {
    assert (rest + [(start, 1)])[..|rest|] == rest;
  }

  /** The plan's byte charge is exactly what executing its windows reads. */
  lemma {:induction false} SpanIsWindowBytes(layout: BlockLayout, order: seq<nat>, i: nat)
    requires layout.vectorsPerBlock > 0 && i <= |order|
    ensures var w := Windows(layout, order, i);
            InBounds(w, |order|) && WindowBytes(layout, order, w) == SpanTotal(layout, order, i)
  {
    hide *;
    if i == 0 {
      NothingSpanned(layout, order);
    } else if i == 1 {
      FirstWindow(layout, order);
      NothingSpanned(layout, order);
      NewWindowAdds(layout, order, [], 0);
    } else {
      SpanIsWindowBytes(layout, order, i - 1);
      WindowsSplit(layout, order, i - 1);
      SpanUnrolls(layout, order, i);
      var rest, start, count := WindowsStep(layout, order, i);
      OpenWindow(Windows(layout, order, i - 1), rest, start, count);
      InBoundsRest(rest, (start, count), |order|);
      if Continues(layout, order[i - 2], order[i - 1]) {
        LastWindowGrows(layout, order, rest, start, count);
      } else {
        NewWindowAdds(layout, order, Windows(layout, order, i - 1), i - 1);
      }
    }
  }

  lemma NothingSpanned(layout: BlockLayout, order: seq<nat>)
    requires layout.vectorsPerBlock > 0
    ensures InBounds([], |order|) && WindowBytes(layout, order, []) == 0
    ensures Windows(layout, order, 0) == [] && SpanTotal(layout, order, 0) == 0
  {
  }

  lemma SpanUnrolls(layout: BlockLayout, order: seq<nat>, i: nat)
    requires layout.vectorsPerBlock > 0 && 1 < i <= |order|
    ensures SpanTotal(layout, order, i) == SpanTotal(layout, order, i - 1) +
              if Continues(layout, order[i - 2], order[i - 1])
              then layout.VectorOffset(order[i - 1]) - layout.VectorOffset(order[i - 2]) else layout.vectorBytes
  {
  }

  lemma OpenWindow(w: seq<Window>, rest: seq<Window>, start: nat, count: nat)
    requires EndsWith(w, rest, start, count)
    ensures w == rest + [(start, count)] && count > 0
  {
  }

  /** The byte spans of two windows are disjoint, the earlier window first. */
  lemma {:induction false} WindowsDisjoint(layout: BlockLayout, order: seq<nat>, windows: seq<Window>, n: nat, j: nat, k: nat)
    requires layout.Valid() && layout.vectorsPerBlock > 0 && StrictlyAscending(order) && n <= |order|
    requires Splits(windows, n) && j < k < |windows|
    ensures InBounds(windows, n)
    ensures var a, b := windows[j], windows[k];
            layout.VectorOffset(order[a.0 + a.1 - 1]) + layout.vectorBytes <= layout.VectorOffset(order[b.0])
    decreases |windows|
  {
    SplitBounds(windows, n);
    var last := windows[|windows| - 1];
    SplitBounds(windows[..|windows| - 1], last.0);
    if k < |windows| - 1 {
      WindowsDisjoint(layout, order, windows[..|windows| - 1], last.0, j, k);
    } else {
      var a := windows[..|windows| - 1][j];
      SlotsOrdered(layout, order[a.0 + a.1 - 1], order[last.0]);
    }
  }
}
