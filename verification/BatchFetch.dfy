/** Fetching a batch of vectors by the elevator plan and scoring them exactly. */
module BatchFetch {
  import opened Core
  import opened Nearest
  import opened IdLists
  import opened Layout
  import opened Format
  import opened Schedule
  import opened Reader

  /** `want.clamp(1, fetch_batch_size)` with the batch size itself at least one. */
  function Budget(want: nat, fetchBatchSize: nat): (b: nat)
    ensures b >= 1
  {
    var cap := if fetchBatchSize < 1 then 1 else fetchBatchSize;
    if want < 1 then 1 else if want > cap then cap else want
  }

  /** The budget in numbers: what is wanted, but at least one and at most a batch, which holds at least one. */
  lemma BudgetIs(want: nat, fetchBatchSize: nat)
    ensures 1 <= want <= fetchBatchSize ==> Budget(want, fetchBatchSize) == want
    ensures want == 0 || fetchBatchSize <= 1 ==> Budget(want, fetchBatchSize) == 1
    ensures 1 <= fetchBatchSize <= want ==> Budget(want, fetchBatchSize) == fetchBatchSize
  {
  }

  /** `visits` lists the exact scores of the planned vectors, in plan order. */
  ghost predicate ScoredVisits(sc: seq<real>, order: seq<nat>, visits: seq<(nat, real)>) {
    && |visits| == |order|
    && forall i :: 0 <= i < |order| ==> order[i] < |sc| && visits[i] == (order[i], sc[order[i]])
  }

  lemma VisitsAreScored(store: VectorStore, distance: seq<byte> -> real, order: seq<nat>, visits: seq<(nat, real)>)
    requires store.Valid() && Listed(store.Len(), order)
    requires Visited(store, order, distance, visits) && |visits| == |order|
    ensures ScoredVisits(ScoresOf(store, distance), order, visits)
  {
    hide SlotBytes, VectorStore.Valid, InFile;
  }

  lemma ListedInFile(store: VectorStore, order: seq<nat>)
    requires store.Valid() && Listed(store.Len(), order)
    ensures AllInFile(store, order)
  {
    forall i | 0 <= i < |order| ensures InFile(store, order[i]) {
      StoredInFile(store, order[i]);
    }
  }

  lemma PlannedBatch(batch: seq<nat>, order: seq<nat>, n: nat)
    requires Listed(n, batch) && Distinct(batch)
    requires StrictlyAscending(order) && forall x :: x in order <==> x in batch
    ensures Listed(n, order) && Distinct(order) && Members(order) == Members(batch) && |order| == |batch|
  {
    forall j | 0 <= j < |order| ensures order[j] < n {
      assert order[j] in batch;
    }
    assert Members(order) == Members(batch);
    MembersSize(order);
    MembersSize(batch);
  }

  lemma {:induction false} RunsAtMost(layout: BlockLayout, order: seq<nat>, i: nat)
    requires layout.vectorsPerBlock > 0 && i <= |order|
    ensures Runs(layout, order, i) <= i
  {
    if i > 0 {
      RunsAtMost(layout, order, i - 1);
    }
  }

  /** Every system call of a batch transfers something; how much is its own affair. */
  ghost predicate BatchProgress(preadv: nat -> nat -> int) {
    forall i, c: nat :: preadv(i)(c) > 0
  }

  /** Seeks and bytes of one planned read of an ascending list: a seek per window, each window read whole. */
  ghost predicate PaidFor(layout: BlockLayout, order: seq<nat>, seeks: nat, bytes: int) {
    && layout.vectorsPerBlock > 0 && StrictlyAscending(order)
    && exists windows ::
         && Coalesced(layout, order, windows) && InBounds(windows, |order|)
         && seeks == |windows| && bytes == WindowBytes(layout, order, windows)
  }

  /** Seeks and bytes of fetching the batches one planned read each. */
  ghost predicate Paid(layout: BlockLayout, batches: seq<set<nat>>, seeks: nat, bytes: int)
    decreases |batches|
  {
    if batches == [] then seeks == 0 && bytes == 0
    else
      exists order, s: nat, b: int ::
        && Members(order) == batches[|batches| - 1] && PaidFor(layout, order, s, b)
        && s <= seeks && Paid(layout, batches[..|batches| - 1], seeks - s, bytes - b)
  }

  lemma PayNext(layout: BlockLayout, batches: seq<set<nat>>, seeks: nat, bytes: int, order: seq<nat>, s: nat, b: int)
    requires Paid(layout, batches, seeks, bytes) && PaidFor(layout, order, s, b)
    ensures Paid(layout, batches + [Members(order)], seeks + s, bytes + b)
  {
    hide PaidFor;
    var more := batches + [Members(order)];
    assert more[..|batches|] == batches;
    assert seeks + s - s == seeks && bytes + b - b == bytes;
  }

  lemma PlanPays(layout: BlockLayout, order: seq<nat>)
    requires layout.Valid() && StrictlyAscending(order)
    ensures layout.vectorsPerBlock > 0
    ensures PaidFor(layout, order, Runs(layout, order, |order|), SpanTotal(layout, order, |order|))
  {
    ValidHasSlots(layout);
    WindowsCoalesced(layout, order);
    SpanIsWindowBytes(layout, order, |order|);
    hide Coalesced, SpanTotal, WindowBytes, StrictlyAscending, Windows, Runs;
  }

  /** Plan a duplicate-free batch and compute the exact distances with one read per coalesced run. */
  method FetchBatch(store: VectorStore, sc: seq<real>, distance: seq<byte> -> real, batch: seq<nat>,
                    preadv: nat -> nat -> int)
    returns (r: Result<seq<(nat, real)>>, plan: FetchSchedule)
    requires store.Valid() && sc == ScoresOf(store, distance) && Listed(|sc|, batch) && Distinct(batch)
    ensures StrictlyAscending(plan.order) && Members(plan.order) == Members(batch) && |plan.order| == |batch|
    ensures plan.seeks == plan.runs <= |batch| && plan.spanBytes >= |batch| * store.layout.vectorBytes
    ensures PaidFor(store.layout, plan.order, plan.seeks, plan.spanBytes)
    ensures r.Ok? ==> ScoredVisits(sc, plan.order, r.value)
    ensures BatchProgress(preadv) ==> r.Ok?
  {
    hide ScoredVisits, Visited, VectorStore.Valid, Listed, StrictlyAscending, Distinct, IsPowerOfTwo, Runs, SpanTotal, AllInFile;
    hide PaidFor, Coalesced;
    LayoutIsValid(store);
    plan := Plan(store.layout, batch);
    PlannedBatch(batch, plan.order, |sc|);
    RunsAtMost(store.layout, plan.order, |plan.order|);
    PlanPays(store.layout, plan.order);
    SpanCoversPayload(store.layout, plan.order, |plan.order|);
    ListedInFile(store, plan.order);
    var status, visits, _ := FetchScheduled(store, plan, store.header.dimensions, distance, preadv);
    if status.Err? {
      return Err(status.error), plan;
    }
    VisitsAreScored(store, distance, plan.order, visits);
    r := Ok(visits);
  }

  lemma LayoutIsValid(store: VectorStore)
    requires store.Valid()
    ensures store.layout.Valid()
  {
  }
}
