/** The edits of a frozen index, as a value and as an object, and what any run of them leaves live. */
module UpdateLog {
  import opened Graph
  import opened Distance

  datatype Edit = Delete(id: nat) | Insert(vector: Vector)

  /** The log as a value. */
  datatype Log = Log(tombstones: set<nat>, inserts: seq<Vector>, nextId: nat)
  {
    /** Ids handed out so far that were not retracted. */
    ghost function Live(): (ids: set<nat>)
      ensures ids == Range(nextId) - tombstones
    {
      Range(nextId) - tombstones
    }

    /** The log belongs to a store of `baseLen` vectors. */
    predicate Over(baseLen: nat) {
      nextId == baseLen + |inserts|
    }
  }

  function Fresh(baseLen: nat): Log {
    Log({}, [], baseLen)
  }

  function Apply(log: Log, e: Edit): Log {
    match e
    case Delete(id) => log.(tombstones := log.tombstones + {id})
    case Insert(v) => log.(inserts := log.inserts + [v], nextId := log.nextId + 1)
  }

  function Run(log: Log, edits: seq<Edit>): Log {
    if edits == [] then log else Apply(Run(log, edits[..|edits| - 1]), edits[|edits| - 1])
  }

  /** The ids handed out along a run, in order. */
  function Issued(log: Log, edits: seq<Edit>): seq<nat> {
    if edits == [] then []
    else
      var before, e := edits[..|edits| - 1], edits[|edits| - 1];
      Issued(log, before) + (if e.Insert? then [Run(log, before).nextId] else [])
  }

  /** The vectors inserted along a run, in order. */
  function Inserted(edits: seq<Edit>): seq<Vector> {
    if edits == [] then []
    else Inserted(edits[..|edits| - 1]) + (if edits[|edits| - 1].Insert? then [edits[|edits| - 1].vector] else [])
  }

  /** The vectors of a run are those of its inserts, in order: an insert's vector stands after those before it. */
  lemma {:induction false} InsertedIs(before: seq<Edit>, vector: Vector, after: seq<Edit>)
    ensures var all := Inserted(before + [Insert(vector)] + after);
            && |Inserted(before)| < |all| && all[|Inserted(before)|] == vector
    ensures |Inserted(before + [Insert(vector)] + after)| == |Inserted(before)| + 1 + |Inserted(after)|
    decreases |after|
  {
    var edits := before + [Insert(vector)] + after;
    if after == [] {
      assert edits[..|edits| - 1] == before;
    } else {
      var rest := after[..|after| - 1];
      InsertedIs(before, vector, rest);
      assert edits[..|edits| - 1] == before + [Insert(vector)] + rest;
      assert edits[|edits| - 1] == after[|after| - 1];
    }
  }

  class UpdateLog {
    var tombstones: set<nat>
    var inserts: seq<Vector>
    var nextId: nat

    ghost function Value(): Log
      reads this
    {
      Log(tombstones, inserts, nextId)
    }

    constructor (baseLen: nat)
      ensures Value() == Fresh(baseLen)
    {
      tombstones, inserts, nextId := {}, [], baseLen;
    }

    /** Idempotent, and accepts any id, issued or not. */
    method Delete(id: nat)
      modifies this
      ensures Value() == Apply(old(Value()), Edit.Delete(id))
    {
      tombstones := tombstones + {id};
    }

    method Insert(vector: Vector) returns (id: nat)
      modifies this
      ensures Value() == Apply(old(Value()), Edit.Insert(vector))
      ensures id == old(nextId)
    {
      id := nextId;
      nextId := nextId + 1;
      inserts := inserts + [vector];
    }

    predicate IsTombstoned(id: nat)
      reads this
    {
      id in tombstones
    }

    predicate IsEmpty()
      reads this
    {
      tombstones == {} && inserts == []
    }

    function FirstInsertId(): int
      reads this
    {
      nextId - |inserts|
    }
  }

  // ---- whole runs ----

  lemma {:induction false} RunStaysOver(log: Log, edits: seq<Edit>, baseLen: nat)
    requires log.Over(baseLen)
    ensures Run(log, edits).Over(baseLen) && Run(log, edits).nextId == log.nextId + |Issued(log, edits)|
    ensures log.tombstones <= Run(log, edits).tombstones
  {
    if edits != [] {
      RunStaysOver(log, edits[..|edits| - 1], baseLen);
    }
  }

  /** Ids are handed out consecutively from the store's length, so none is ever reissued, and each names its own
      vector for the rest of the run. */
  lemma {:induction false} IdsAreConsecutive(baseLen: nat, edits: seq<Edit>)
    ensures var ids, log := Issued(Fresh(baseLen), edits), Run(Fresh(baseLen), edits);
            && |ids| == |log.inserts| == |Inserted(edits)| && log.inserts == Inserted(edits)
            && log.nextId == baseLen + |ids|
            && forall i :: 0 <= i < |ids| ==> ids[i] == baseLen + i
  {
    if edits != [] {
      IdsAreConsecutive(baseLen, edits[..|edits| - 1]);
    }
  }

  /** After any run an id is live exactly when it was issued (or stored) and never deleted, before or after. */
  lemma {:induction false} LiveAfterRun(baseLen: nat, edits: seq<Edit>, id: nat)
    ensures id in Run(Fresh(baseLen), edits).tombstones <==> Delete(id) in edits
    ensures id in Run(Fresh(baseLen), edits).Live() <==>
              id < baseLen + |Issued(Fresh(baseLen), edits)| && Delete(id) !in edits
  {
    if edits != [] {
      var before, e := edits[..|edits| - 1], edits[|edits| - 1];
      LiveAfterRun(baseLen, before, id);
      assert edits == before + [e];
    }
    RunStaysOver(Fresh(baseLen), edits, baseLen);
  }

  /** A new vector is live exactly when its id was not deleted in advance, which the log allows. */
  lemma InsertIsLiveIff(log: Log, vector: Vector)
    ensures log.nextId in Apply(log, Insert(vector)).Live() <==> log.nextId !in log.tombstones
    ensures Apply(log, Insert(vector)).Live() - {log.nextId} == log.Live()
  {
  }

  /** Deleting an id ahead of its issue retracts the vector that later receives it. */
  lemma DeletedInAdvance(baseLen: nat, vector: Vector)
    ensures baseLen !in Run(Fresh(baseLen), [Delete(baseLen), Insert(vector)]).Live()
    ensures baseLen in Run(Fresh(baseLen), [Insert(vector)]).Live()
  {
    assert [Delete(baseLen), Insert(vector)][..1] == [Delete(baseLen)];
    assert [Delete(baseLen)][..0] == [] && [Insert(vector)][..0] == [];
  }
}
