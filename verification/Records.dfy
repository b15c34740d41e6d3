/** Event records as the encoder sees them (eprecord.h). */
module Records {
  import opened ExecPoints

  datatype EventType = LOAD | STORE | RMW | BRANCHDIR

  /** One direction of a branch: the point of the branch and the index of the direction in it. */
  datatype BranchChoice = BranchChoice(branch: Point, index: nat)

  /** A loop exit or a jump that, when its branch direction is taken, skips later records. */
  datatype Skip = Skip(ep: Point, choice: BranchChoice)

  /** A memory operation or a branch: its execution point, the addresses it may touch, the values it
      may write, the branch directions it sits in (innermost first), and what may skip it. */
  datatype EPRecord = EPRecord(
    ep: Point,
    etype: EventType,
    addrs: seq<nat>,
    storevals: seq<nat>,
    branches: seq<BranchChoice>,
    skippedBy: seq<Skip>)
  {
    function Tid(): nat { ep.tid }
  }

  /** ExecPoint::compare between the points of two records. */
  function CompareRecords(a: EPRecord, b: EPRecord): CompareResult {
    Compare(a.ep.pairs, b.ep.pairs)
  }

  predicate Writes(r: EPRecord) {
    r.etype == STORE || r.etype == RMW
  }

  /** isAlwaysExecuted. */
  predicate AlwaysExecuted(r: EPRecord) {
    r.branches == [] && r.skippedBy == []
  }
}
