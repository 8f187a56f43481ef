/** The check messages exchanged by the API and an agent. */
module Checks {
  import Ids

  type Id = Ids.int64

  datatype CheckType = Scripted | MultiHttp | Other(code: nat)

  /** A check as the API sends it. `valid` is the outcome of Validate. */
  datatype Check = Check(id: Id, enabled: bool, probes: seq<int>, modified: real, kind: CheckType, valid: bool) {
    /** ConfigVersion: the modification time in nanoseconds, truncated. */
    function Version(): int {
      var ns := modified * 1000000000.0;
      if ns >= 0.0 then ns.Floor else -(-ns).Floor
    }
  }

  /** The version counts whole nanoseconds, so times a nanosecond apart differ in it. */
  lemma VersionIsNanoseconds(a: Check, b: Check)
    requires a.modified >= 0.0 && b.modified >= 0.0
    ensures a.Version() as real <= a.modified * 1000000000.0 < a.Version() as real + 1.0
    ensures a.Version() == b.Version() ==> -1.0 < (a.modified - b.modified) * 1000000000.0 < 1.0
  {
  }

  /** A check of which only the id is set. */
  function Stub(id: Id): Check { Check(id, false, [], 0.0, Other(0), false) }

  datatype Op = ADD | UPDATE | DELETE

  datatype Change = Change(op: Op, check: Check)

  /** The key under which an agent runs a check: its id split by FromSM and
      packed again by GlobalID. */
  function Key(id: Id): Id {
    var (local, region) := Ids.GetLocalAndRegionIDs(id);
    Ids.GlobalID(local, region)
  }

  lemma KeyIsId(id: Id)
    ensures Key(id) == id
  {
    Ids.SplitThenPack(id);
  }
}
