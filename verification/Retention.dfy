/** What the sampler keeps over a sequence of snapshots, and over a watchdog's run. */
module Retention {
  import opened Reachability
  import opened ProcessTree
  import opened Watchdog
  import opened WatchdogSafety

  /** The known processes after a sequence of samples. */
  ghost function KnownAfter(rootPid: int, rootPgid: int, snapshots: seq<Snapshot>): set<int> {
    if snapshots == [] then {rootPid}
    else
      var last := |snapshots| - 1;
      Tracked(rootPid, rootPgid, KnownAfter(rootPid, rootPgid, snapshots[..last]), snapshots[last])
  }

  lemma VisibleKnownIsKept(rootPid: int, rootPgid: int, known: set<int>, records: Snapshot, pid: int)
    requires pid in known && pid in records
    ensures pid in Tracked(rootPid, rootPgid, known, records)
  {
  }

  /**
   * Once selected, a process that stays visible stays selected, whatever its parent and
   * group become.
   */
  lemma {:induction false} Retained(rootPid: int, rootPgid: int, snapshots: seq<Snapshot>, since: nat, pid: int)
    requires since <= |snapshots|
    requires pid in KnownAfter(rootPid, rootPgid, snapshots[..since])
    requires forall j :: since <= j < |snapshots| ==> pid in snapshots[j]
    ensures pid in KnownAfter(rootPid, rootPgid, snapshots)
  {
    hide IsClosure, Seeds, Tracked;
    if since < |snapshots| {
      var last := |snapshots| - 1;
      assert snapshots[..last][..since] == snapshots[..since];
      Retained(rootPid, rootPgid, snapshots[..last], since, pid);
      VisibleKnownIsKept(rootPid, rootPgid, KnownAfter(rootPid, rootPgid, snapshots[..last]), snapshots[last], pid);
    } else {
      assert snapshots[..since] == snapshots;
    }
  }

  /** Every visible descendant of a retained process is selected with it. */
  lemma RetainedDescendants(rootPid: int, rootPgid: int, snapshots: seq<Snapshot>, since: nat, pid: int, path: seq<int>)
    requires since < |snapshots|
    requires pid in KnownAfter(rootPid, rootPgid, snapshots[..since])
    requires forall j :: since <= j < |snapshots| ==> pid in snapshots[j]
    requires Walk(ChildrenOf(snapshots[|snapshots| - 1]), path) && path[0] == pid
    ensures path[|path| - 1] in KnownAfter(rootPid, rootPgid, snapshots)
  {
    Retained(rootPid, rootPgid, snapshots, since, pid);
    WalkStays(ChildrenOf(snapshots[|snapshots| - 1]), KnownAfter(rootPid, rootPgid, snapshots), path);
  }

  /**
   * Which processes a sample selects: exactly those with a visible ancestor chain to a
   * known process, a member of the root group, or the root.
   */
  lemma SelectedByAncestry(rootPid: int, rootPgid: int, known: set<int>, records: Snapshot, pid: int)
    ensures pid in Tracked(rootPid, rootPgid, known, records)
       <==> Reached(ChildrenOf(records), Seeds(rootPid, rootPgid, known, records), pid)
  {
    ClosureIsReachability(ChildrenOf(records), Seeds(rootPid, rootPgid, known, records),
                          Tracked(rootPid, rootPgid, known, records), pid);
  }

  /** A chain of visible processes, each the parent of the next. */
  ghost predicate Chain(records: Snapshot, path: seq<int>) {
    && path != [] && (forall i :: 0 <= i < |path| ==> path[i] in records)
    && forall i :: 0 <= i < |path| - 1 ==> records[path[i + 1]].ppid == path[i]
  }

  lemma ChildListed(records: Snapshot, child: int)
    requires child in records
    ensures var parent := records[child].ppid; parent in ChildrenOf(records) && child in ChildrenOf(records)[parent]
  {
  }

  lemma ChainIsWalk(records: Snapshot, path: seq<int>)
    requires path != [] && path[0] in records
    ensures Chain(records, path) <==> Walk(ChildrenOf(records), path)
  {
    var edges := ChildrenOf(records);
    if Chain(records, path) {
      forall i | 0 <= i < |path| - 1 ensures path[i] in edges && path[i + 1] in edges[path[i]] {
        ChildListed(records, path[i + 1]);
      }
    }
    if Walk(edges, path) {
      forall i | 0 <= i < |path| ensures path[i] in records {
        if i > 0 {
          assert path[i - 1 + 1] in edges[path[i - 1]];
        }
      }
      forall i | 0 <= i < |path| - 1 ensures records[path[i + 1]].ppid == path[i] {
        assert path[i + 1] in edges[path[i]];
      }
    }
  }

  /** A sample selects a process exactly when a chain of visible processes leads to it from a
      known process, a member of the root group, or the root. */
  lemma SelectedExactly(rootPid: int, rootPgid: int, known: set<int>, records: Snapshot, pid: int)
    ensures pid in Tracked(rootPid, rootPgid, known, records)
       <==> exists path :: && Chain(records, path) && path[|path| - 1] == pid
                           && (path[0] in known || records[path[0]].pgid == rootPgid || path[0] == rootPid)
  {
    hide Tracked, ChildrenOf;
    SelectedByAncestry(rootPid, rootPgid, known, records, pid);
    if pid in Tracked(rootPid, rootPgid, known, records) {
      var path :| && Walk(ChildrenOf(records), path) && path[0] in Seeds(rootPid, rootPgid, known, records)
                  && path[|path| - 1] == pid;
      ChainIsWalk(records, path);
    }
    if path :| && Chain(records, path) && path[|path| - 1] == pid
               && (path[0] in known || records[path[0]].pgid == rootPgid || path[0] == rootPid)
    {
      ChainIsWalk(records, path);
      assert path[0] in Seeds(rootPid, rootPgid, known, records);
    }
  }

  // ----- exactly what is retained

  /** The sample after `n` snapshots selects the process for a reason other than having
      followed it before. */
  ghost predicate SelectedAfresh(rootPid: int, rootPgid: int, snapshots: seq<Snapshot>, n: nat, pid: int)
    requires n < |snapshots|
  {
    pid in Tracked(rootPid, rootPgid, KnownAfter(rootPid, rootPgid, snapshots[..n]) - {pid}, snapshots[n])
  }

  /** One sample follows a visible process exactly when it was followed before or is
      selected afresh. */
  lemma TrackedSplits(rootPid: int, rootPgid: int, known: set<int>, records: Snapshot, pid: int)
    ensures pid in Tracked(rootPid, rootPgid, known, records)
       <==> pid in records && (pid in known || pid in Tracked(rootPid, rootPgid, known - {pid}, records))
  {
    var fewer, all := Tracked(rootPid, rootPgid, known - {pid}, records), Tracked(rootPid, rootPgid, known, records);
    assert Seeds(rootPid, rootPgid, known - {pid}, records) <= Seeds(rootPid, rootPgid, known, records);
    assert fewer <= all;
    if pid !in known {
      assert known - {pid} == known;
    }
  }

  lemma FollowedAfterSample(rootPid: int, rootPgid: int, snapshots: seq<Snapshot>, pid: int)
    requires snapshots != []
    ensures var last := |snapshots| - 1; var before := snapshots[..last];
            (pid in KnownAfter(rootPid, rootPgid, snapshots)
             <==> && pid in snapshots[last]
                  && (|| pid in KnownAfter(rootPid, rootPgid, before)
                      || SelectedAfresh(rootPid, rootPgid, snapshots, last, pid)))
  {
    hide Tracked;
    var last := |snapshots| - 1;
    TrackedSplits(rootPid, rootPgid, KnownAfter(rootPid, rootPgid, snapshots[..last]), snapshots[last], pid);
  }

  /** Since some sample that selected it afresh, the process was visible in every snapshot. */
  ghost predicate VisibleSinceSelected(rootPid: int, rootPgid: int, snapshots: seq<Snapshot>, pid: int) {
    exists n: nat :: && n < |snapshots|
                     && SelectedAfresh(rootPid, rootPgid, snapshots, n, pid)
                     && forall j :: n <= j < |snapshots| ==> pid in snapshots[j]
  }

  /**
   * What is followed, exactly: after any snapshots, a process is followed if and only if
   * some sample selected it for a reason other than having followed it, and it was visible
   * in every snapshot since.
   */
  lemma {:induction false} FollowedExactly(rootPid: int, rootPgid: int, snapshots: seq<Snapshot>, pid: int)
    requires snapshots != []
    ensures pid in KnownAfter(rootPid, rootPgid, snapshots) <==> VisibleSinceSelected(rootPid, rootPgid, snapshots, pid)
  {
    hide SelectedAfresh, VisibleSinceSelected;
    FollowedAfterSample(rootPid, rootPgid, snapshots, pid);
    FollowedStep(rootPid, rootPgid, snapshots, pid);
    if |snapshots| > 1 {
      FollowedExactly(rootPid, rootPgid, snapshots[..|snapshots| - 1], pid);
    } else {
      FirstSample(rootPid, rootPgid, snapshots, pid);
    }
  }

  /** The condition on a longer sequence from that on the sequence before. */
  lemma FollowedStep(rootPid: int, rootPgid: int, snapshots: seq<Snapshot>, pid: int)
    requires snapshots != []
    ensures var last := |snapshots| - 1;
            (VisibleSinceSelected(rootPid, rootPgid, snapshots, pid)
             <==> && pid in snapshots[last]
                  && (|| SelectedAfresh(rootPid, rootPgid, snapshots, last, pid)
                      || VisibleSinceSelected(rootPid, rootPgid, snapshots[..last], pid)))
  {
    hide Tracked;
    var last := |snapshots| - 1;
    var before := snapshots[..last];
    forall n: nat | n < last
      ensures SelectedAfresh(rootPid, rootPgid, before, n, pid)
         <==> SelectedAfresh(rootPid, rootPgid, snapshots, n, pid)
    {
      assert before[..n] == snapshots[..n];
    }
  }

  /** The first sample follows the root, if visible, on its own account. */
  lemma FirstSample(rootPid: int, rootPgid: int, snapshots: seq<Snapshot>, pid: int)
    requires |snapshots| == 1
    ensures KnownAfter(rootPid, rootPgid, snapshots[..0]) == {rootPid}
    ensures pid == rootPid && pid in snapshots[0] ==> SelectedAfresh(rootPid, rootPgid, snapshots, 0, pid)
    ensures !VisibleSinceSelected(rootPid, rootPgid, snapshots[..0], pid)
  {
    if pid == rootPid && pid in snapshots[0] {
      assert pid in Seeds(rootPid, rootPgid, KnownAfter(rootPid, rootPgid, snapshots[..0]) - {pid}, snapshots[0]);
    }
  }

  /**
   * So a process that only its own past keeps selected, as one that has re-parented out of
   * the tree and its group, stays selected exactly while every snapshot shows it.
   */
  lemma {:induction false} KeptExactlyWhileVisible(rootPid: int, rootPgid: int, snapshots: seq<Snapshot>, since: nat,
                                                   pid: int)
    requires since <= |snapshots| && pid in KnownAfter(rootPid, rootPgid, snapshots[..since])
    requires forall n: nat :: since <= n < |snapshots| ==> !SelectedAfresh(rootPid, rootPgid, snapshots, n, pid)
    ensures pid in KnownAfter(rootPid, rootPgid, snapshots)
       <==> forall j :: since <= j < |snapshots| ==> pid in snapshots[j]
  {
    hide Tracked, SelectedAfresh;
    if since < |snapshots| {
      var last := |snapshots| - 1;
      var before := snapshots[..last];
      assert before[..since] == snapshots[..since];
      forall n: nat | since <= n < last ensures !SelectedAfresh(rootPid, rootPgid, before, n, pid) {
        SamePast(rootPid, rootPgid, snapshots, n, pid);
      }
      KeptExactlyWhileVisible(rootPid, rootPgid, before, since, pid);
      FollowedAfterSample(rootPid, rootPgid, snapshots, pid);
    } else {
      assert snapshots[..since] == snapshots;
    }
  }

  lemma SamePast(rootPid: int, rootPgid: int, snapshots: seq<Snapshot>, n: nat, pid: int)
    requires n < |snapshots| - 1
    ensures SelectedAfresh(rootPid, rootPgid, snapshots[..|snapshots| - 1], n, pid)
       <==> SelectedAfresh(rootPid, rootPgid, snapshots, n, pid)
  {
    hide Tracked;
    assert snapshots[..|snapshots| - 1][..n] == snapshots[..n];
  }

  /** A process that left its group and lost its parent is forgotten when one snapshot
      misses it. */
  lemma OneMissedSnapshotForgets()
    ensures var orphan := ProcessInfo(7, 1, 7, 5);
            var snapshots := [map[7 := ProcessInfo(7, 2, 2, 5)], map[], map[7 := orphan]];
            && 7 in KnownAfter(2, 2, snapshots[..1])
            && 7 !in KnownAfter(2, 2, snapshots)
  {
  }

  // ----- the same over the ticks of a run

  /** The snapshots a run of the watchdog was shown; failed ones are skipped. */
  function SnapshotsOf(ticks: seq<Tick>): seq<Snapshot> {
    if ticks == [] then []
    else
      var probe := ticks[|ticks| - 1].probe;
      SnapshotsOf(ticks[..|ticks| - 1]) + if probe.Observed? then [probe.records] else []
  }

  /** What a watchdog follows is what a sampler follows over its snapshots, whichever
      snapshots or footprint probes failed in between. */
  lemma {:induction false} KnownFromSnapshots(cfg: Config, ticks: seq<Tick>)
    ensures KnownAt(cfg, ticks) == KnownAfter(cfg.rootPid, cfg.rootPid, SnapshotsOf(ticks))
  {
    hide Tracked;
    if ticks != [] {
      var before, probe := ticks[..|ticks| - 1], ticks[|ticks| - 1].probe;
      KnownFromSnapshots(cfg, before);
      if probe.Observed? {
        assert SnapshotsOf(ticks)[..|SnapshotsOf(before)|] == SnapshotsOf(before);
      } else {
        assert SnapshotsOf(ticks) == SnapshotsOf(before);
      }
    }
  }

  /** A process followed after some tick and visible in every later snapshot is still
      followed, even when snapshots or footprint probes in between fail. */
  lemma {:induction false} RetainedThroughFailures(cfg: Config, ticks: seq<Tick>, since: nat, pid: int)
    requires since <= |ticks| && pid in KnownAt(cfg, ticks[..since])
    requires forall j :: since <= j < |ticks| && ticks[j].probe.Observed? ==> pid in ticks[j].probe.records
    ensures pid in KnownAt(cfg, ticks)
  {
    hide Tracked;
    if since < |ticks| {
      var before, probe := ticks[..|ticks| - 1], ticks[|ticks| - 1].probe;
      assert before[..since] == ticks[..since];
      RetainedThroughFailures(cfg, before, since, pid);
      if probe.Observed? {
        VisibleKnownIsKept(cfg.rootPid, cfg.rootPid, KnownAt(cfg, before), probe.records, pid);
      }
    } else {
      assert ticks[..since] == ticks;
    }
  }
}
