/** The sampler object, remembering the processes it follows. */
module Sampler {
  import opened Prelude
  import opened Reachability
  import opened ProcessTree

  class ProcessTreeSampler {
    const rootPid: int
    const rootPgid: int
    var knownPids: set<int>

    constructor (rootPid: int, rootPgid: int)
      ensures this.rootPid == rootPid && this.rootPgid == rootPgid && knownPids == {rootPid}
    {
      this.rootPid, this.rootPgid := rootPid, rootPgid;
      knownPids := {rootPid};
    }

    /** One sample. The known processes are updated even when the footprint probe fails. */
    method Sample(records: Snapshot, footprints: Footprints) returns (sample: Option<MemorySample>)
      requires WellKeyed(records)
      modifies this
      ensures knownPids == Tracked(rootPid, rootPgid, old(knownPids), records)
      ensures sample.None? <==> footprints.Unavailable?
      ensures sample.Some? ==> Reports(sample.value, records, knownPids, footprints)
    {
      var children := GroupByParent(records);
      var selected := Seeds(rootPid, rootPgid, knownPids, records);
      selected := Spread(records, children, selected);
      ClosureUnique(ChildrenOf(records), Seeds(rootPid, rootPgid, knownPids, records), selected,
                    Tracked(rootPid, rootPgid, knownPids, records));
      knownPids := selected;
      var members := SortedMembers(records, selected);
      if footprints.Unavailable? {
        return None;
      }
      var rss := Total(members, selected, records, RssWeights(records));
      var footprint: Option<nat> := None;
      if footprints.Measured? {
        var total := Total(members, selected, records, FootprintWeights(records, footprints.bytes));
        footprint := Some(total);
      }
      sample := Some(MemorySample(rss, members, footprint));
    }
  }
}
