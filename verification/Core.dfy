/** Vocabulary shared by every component: errors, results, query counters. */
module Core {

  datatype Error =
    | DimensionMismatch(expected: nat, got: nat)
    | InvalidConfig
    | NotFound(id: nat)
    | Corrupt
    | Unsupported
    | Io

  datatype Result<+T> = Ok(value: T) | Err(error: Error)

  datatype Option<+T> = None | Some(value: T)

  /** Physical work of one query, the quantities the storage cost model prices. */
  datatype QueryCounters = QueryCounters(
    nodesVisited: nat,
    approxDistances: nat,
    exactDistances: nat,
    seeks: nat,
    bytesRead: nat,
    sequentialRuns: nat)
  {
    function AddApprox(n: nat): QueryCounters {
      this.(approxDistances := approxDistances + n)
    }

    function AddExact(n: nat): QueryCounters {
      this.(exactDistances := exactDistances + n)
    }

    function AddRead(bytes: nat, positionings: nat, runs: nat): QueryCounters {
      this.(bytesRead := bytesRead + bytes, seeks := seeks + positionings, sequentialRuns := sequentialRuns + runs)
    }
  }

  const ZERO_COUNTERS := QueryCounters(0, 0, 0, 0, 0, 0)
}
