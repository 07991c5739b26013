/**
 * The process-tree sampler of the memory watchdog: a stateful closure over process
 * snapshots that keeps following descendants after they re-parent.
 */
module ProcessTree {
  import opened Prelude
  import opened Reachability

  datatype ProcessInfo = ProcessInfo(pid: int, ppid: int, pgid: int, rss: nat)

  type Snapshot = map<int, ProcessInfo>

  /** The physical-footprint probe of one sample: not configured, failing, or a reading. */
  datatype Footprints = NotRequested | Unavailable | Measured(bytes: map<int, nat>)

  datatype MemorySample = MemorySample(rss: nat, members: seq<ProcessInfo>, footprint: Option<nat>)

  /** Snapshots are keyed by the process id of their records. */
  predicate WellKeyed(records: Snapshot) {
    forall pid :: pid in records ==> records[pid].pid == pid
  }

  // ----- what a sample selects

  ghost function ChildrenOf(records: Snapshot): map<int, set<int>> {
    var parents := set c | c in records :: records[c].ppid;
    map p | p in parents :: set c | c in records && records[c].ppid == p
  }

  /** The known live processes, the members of the root group, and the root. */
  function Seeds(rootPid: int, rootPgid: int, known: set<int>, records: Snapshot): set<int> {
    set pid | pid in records && (pid in known || records[pid].pgid == rootPgid || pid == rootPid)
  }

  lemma RecordsClosed(records: Snapshot)
    ensures Closed(ChildrenOf(records), records.Keys)
  {
  }

  /** The processes selected by a sample: the seeds and all their visible descendants. */
  ghost function Tracked(rootPid: int, rootPgid: int, known: set<int>, records: Snapshot): (s: set<int>)
    ensures IsClosure(ChildrenOf(records), Seeds(rootPid, rootPgid, known, records), s)
    ensures s <= records.Keys
  {
    RecordsClosed(records);
    Closure(ChildrenOf(records), Seeds(rootPid, rootPgid, known, records), records.Keys)
  }

  // ----- totals over a set of processes

  ghost function SetSum(s: set<int>, weight: map<int, nat>): nat
    requires s <= weight.Keys
  {
    if s == {} then 0
    else
      var pid := AnyOf(s);
      weight[pid] + SetSum(s - {pid}, weight)
  }

  /** The total does not depend on the order of summation. */
  lemma {:induction false} SetSumRemove(s: set<int>, weight: map<int, nat>, pid: int)
    requires s <= weight.Keys && pid in s
    ensures SetSum(s, weight) == weight[pid] + SetSum(s - {pid}, weight)
    decreases s
  {
    var first := AnyOf(s);
    if first != pid {
      SetSumRemove(s - {first}, weight, pid);
      SetSumRemove(s - {pid}, weight, first);
      assert s - {first} - {pid} == s - {pid} - {first};
    }
  }

  function RssWeights(records: Snapshot): map<int, nat> {
    map pid | pid in records :: records[pid].rss
  }

  /** A member missing from the footprint reading counts with its resident size. */
  function FootprintWeights(records: Snapshot, bytes: map<int, nat>): map<int, nat> {
    map pid | pid in records :: if pid in bytes then bytes[pid] else records[pid].rss
  }

  /** The records of a set of processes in increasing order of process id. */
  ghost predicate ListsMembers(members: seq<ProcessInfo>, records: Snapshot, pids: set<int>)
    requires pids <= records.Keys
  {
    && (forall i, j :: 0 <= i < j < |members| ==> members[i].pid < members[j].pid)
    && (forall i :: 0 <= i < |members| ==> members[i].pid in pids && members[i] == records[members[i].pid])
    && (forall pid :: pid in pids ==> exists i :: 0 <= i < |members| && members[i].pid == pid)
  }

  /** What a successful sample reports about the selected processes. */
  ghost predicate Reports(sample: MemorySample, records: Snapshot, pids: set<int>, footprints: Footprints)
    requires pids <= records.Keys && !footprints.Unavailable?
  {
    && ListsMembers(sample.members, records, pids)
    && sample.rss == SetSum(pids, RssWeights(records))
    && sample.footprint == (match footprints
                            case NotRequested => None
                            case Unavailable => None
                            case Measured(bytes) => Some(SetSum(pids, FootprintWeights(records, bytes))))
  }

  // ----- totals member by member

  function ResidentTotal(members: seq<ProcessInfo>): nat {
    if members == [] then 0 else ResidentTotal(members[..|members| - 1]) + members[|members| - 1].rss
  }

  /** The footprints read, and the resident size of a member without one. */
  function FootprintTotal(members: seq<ProcessInfo>, bytes: map<int, nat>): nat {
    if members == [] then 0
    else
      var last := members[|members| - 1];
      FootprintTotal(members[..|members| - 1], bytes) + if last.pid in bytes then bytes[last.pid] else last.rss
  }

  lemma LastMember(members: seq<ProcessInfo>, records: Snapshot, pids: set<int>)
    requires pids <= records.Keys && ListsMembers(members, records, pids) && members != []
    ensures var last := members[|members| - 1];
            && last.pid in pids && last == records[last.pid]
            && ListsMembers(members[..|members| - 1], records, pids - {last.pid})
  {
    var last, fewer := members[|members| - 1].pid, members[..|members| - 1];
    forall pid | pid in pids - {last} ensures exists i :: 0 <= i < |fewer| && fewer[i].pid == pid {
      var i :| 0 <= i < |members| && members[i].pid == pid;
      assert fewer[i].pid == pid;
    }
  }

  lemma NoMembers(records: Snapshot, pids: set<int>)
    requires pids <= records.Keys && ListsMembers([], records, pids)
    ensures pids == {}
  {
    assert forall pid :: pid !in pids;
  }

  lemma {:induction false} TotalsByMember(members: seq<ProcessInfo>, records: Snapshot, pids: set<int>,
                                          bytes: map<int, nat>)
    requires pids <= records.Keys && ListsMembers(members, records, pids)
    ensures SetSum(pids, RssWeights(records)) == ResidentTotal(members)
    ensures SetSum(pids, FootprintWeights(records, bytes)) == FootprintTotal(members, bytes)
  {
    hide ListsMembers, SetSum;
    if members == [] {
      NoMembers(records, pids);
      EmptySum(RssWeights(records));
      EmptySum(FootprintWeights(records, bytes));
    } else {
      var last := members[|members| - 1].pid;
      LastMember(members, records, pids);
      TotalsByMember(members[..|members| - 1], records, pids - {last}, bytes);
      SetSumRemove(pids, RssWeights(records), last);
      SetSumRemove(pids, FootprintWeights(records, bytes), last);
    }
  }

  lemma EmptySum(weight: map<int, nat>)
    ensures SetSum({}, weight) == 0
  {
  }

  /** A sample's totals are the sums over its listed members. */
  lemma ReportedTotals(sample: MemorySample, records: Snapshot, pids: set<int>, footprints: Footprints)
    requires pids <= records.Keys && !footprints.Unavailable? && Reports(sample, records, pids, footprints)
    ensures sample.rss == ResidentTotal(sample.members)
    ensures sample.footprint == if footprints.Measured? then Some(FootprintTotal(sample.members, footprints.bytes))
                                else None
  {
    TotalsByMember(sample.members, records, pids, if footprints.Measured? then footprints.bytes else map[]);
  }

  // ----- the steps of a sample

  /** The child lists by parent, in arbitrary order. */
  method GroupByParent(records: Snapshot) returns (children: map<int, seq<int>>)
    ensures forall p, c :: (p in children && c in children[p]) <==> (c in records && records[c].ppid == p)
  {
    children := map[];
    var rest := records.Keys;
    while rest != {}
      invariant rest <= records.Keys
      invariant forall p, c :: (p in children && c in children[p])
                          <==> (c in records && c !in rest && records[c].ppid == p)
      decreases rest
    {
      var pid := PickAny(rest);
      var parent := records[pid].ppid;
      var siblings := if parent in children then children[parent] else [];
      assert forall c :: c in siblings <==> c in records && c !in rest && records[c].ppid == parent;
      children := children[parent := siblings + [pid]];
      rest := rest - {pid};
    }
  }

  /** The worklist: add children of selected processes until nothing changes. */
  method Spread(records: Snapshot, children: map<int, seq<int>>, seeds: set<int>) returns (selected: set<int>)
    requires seeds <= records.Keys
    requires forall p, c :: (p in children && c in children[p]) <==> (c in records && records[c].ppid == p)
    ensures IsClosure(ChildrenOf(records), seeds, selected)
  {
    ghost var edges := ChildrenOf(records);
    selected := seeds;
    var pending := ListOf(selected);
    while pending != []
      invariant seeds <= selected <= records.Keys
      invariant forall n :: n in pending ==> n in selected
      invariant forall n, c :: n in selected && n !in pending && n in edges && c in edges[n] ==> c in selected
      invariant forall t :: seeds <= t && Closed(edges, t) ==> selected <= t
      decreases records.Keys - selected, |pending|
    {
      var parent := pending[|pending| - 1];
      ghost var before := pending;
      pending := pending[..|pending| - 1];
      assert forall n :: n in before ==> n in pending || n == parent;
      if parent in children {
        ghost var was, popped := selected, pending;
        for i := 0 to |children[parent]|
          invariant was <= selected <= records.Keys
          invariant selected == was ==> pending == popped
          invariant forall n :: n in popped ==> n in pending
          invariant forall n :: n in pending ==> n in selected
          invariant forall n :: n in selected && n !in pending ==> n in was && n !in popped
          invariant forall k :: 0 <= k < i ==> children[parent][k] in selected
          invariant forall t :: seeds <= t && Closed(edges, t) ==> selected <= t
        {
          var child := children[parent][i];
          assert child in children[parent];
          assert parent in edges && child in edges[parent];
          if child !in selected {
            selected := selected + {child};
            pending := pending + [child];
          }
        }
        assert forall c :: parent in edges && c in edges[parent] ==> c in children[parent];
      }
    }
    forall n | n in selected && n in edges ensures edges[n] <= selected {
      forall c | c in edges[n] ensures c in selected {
        assert n !in pending;
      }
    }
  }

  /** A list of the elements of a set, in arbitrary order. */
  method ListOf(s: set<int>) returns (list: seq<int>)
    ensures forall n :: n in list <==> n in s
  {
    list := [];
    var rest := s;
    while rest != {}
      invariant rest <= s
      invariant forall n :: n in list <==> n in s && n !in rest
      decreases rest
    {
      var n := PickAny(rest);
      list := list + [n];
      rest := rest - {n};
    }
  }

  method SortedMembers(records: Snapshot, pids: set<int>) returns (members: seq<ProcessInfo>)
    requires WellKeyed(records) && pids <= records.Keys
    ensures ListsMembers(members, records, pids)
  {
    members := [];
    var rest := pids;
    while rest != {}
      invariant rest <= pids
      invariant ListsMembers(members, records, pids - rest)
      invariant forall i, n :: 0 <= i < |members| && n in rest ==> members[i].pid < n
      decreases rest
    {
      var least := Least(rest);
      MembersExtend(members, records, pids - rest, least);
      members := members + [records[least]];
      rest := rest - {least};
      assert pids - (rest + {least}) + {least} == pids - rest;
    }
    assert pids - rest == pids;
  }

  lemma MembersExtend(members: seq<ProcessInfo>, records: Snapshot, pids: set<int>, next: int)
    requires WellKeyed(records) && pids <= records.Keys && next in records
    requires ListsMembers(members, records, pids) && forall i :: 0 <= i < |members| ==> members[i].pid < next
    ensures ListsMembers(members + [records[next]], records, pids + {next})
  {
    var longer := members + [records[next]];
    assert longer[|members|].pid == next;
    forall pid | pid in pids + {next} ensures exists i :: 0 <= i < |longer| && longer[i].pid == pid {
      if pid != next {
        var i :| 0 <= i < |members| && members[i].pid == pid;
        assert longer[i].pid == pid;
      }
    }
  }

  method Least(s: set<int>) returns (least: int)
    requires s != {}
    ensures least in s && forall n :: n in s ==> least <= n
  {
    least := PickAny(s);
    var rest := s - {least};
    while rest != {}
      invariant rest <= s && least in s
      invariant forall n :: n in s && n !in rest ==> least <= n
      decreases rest
    {
      var n := PickAny(rest);
      if n < least {
        least := n;
      }
      rest := rest - {n};
    }
  }

  method Total(members: seq<ProcessInfo>, pids: set<int>, records: Snapshot, weight: map<int, nat>) returns (total: nat)
    requires pids <= records.Keys && weight.Keys == records.Keys
    requires ListsMembers(members, records, pids)
    ensures total == SetSum(pids, weight)
  {
    total := 0;
    ghost var rest := pids;
    for i := 0 to |members|
      invariant rest <= pids
      invariant forall pid :: pid in rest <==> exists k :: i <= k < |members| && members[k].pid == pid
      invariant total + SetSum(rest, weight) == SetSum(pids, weight)
    {
      var pid := members[i].pid;
      assert pid in rest;
      SetSumRemove(rest, weight, pid);
      total := total + weight[pid];
      rest := rest - {pid};
    }
    assert rest == {};
  }
}
