/**
 * The Python runtime lock: the checks of the whole file and of its dependency graph,
 * including reachability from the direct packages.
 */
module RuntimeLock {
  import opened Prelude
  import opened Text
  import opened Reachability
  import opened LockEntry

  /** The decoded file. A schema version counts by its value. */
  datatype RawLock = RawLock(schemaVersion: Option<int>, requiresPython: Option<string>,
                             supportedPython: Option<seq<Option<string>>>, packages: Option<seq<Option<RawPackage>>>)

  datatype Lock = Lock(requiresPython: string, supportedPython: seq<string>, packages: seq<Package>)

  datatype LockError =
    | WrongSchema | BadField(fault: Fault) | NoPackages | InPackage(index: nat, fault: Fault) | UnsortedPackages
    | MissingDependencies(name: string) | SelfDependency(name: string) | Unreachable | RepeatedWheel

  // ----- the packages of a file

  /** The packages up to the first faulty one. */
  function Packages(items: seq<Option<RawPackage>>): Result<seq<Package>, LockError> {
    if items == [] then Ok([])
    else
      var last := |items| - 1;
      match Packages(items[..last])
      case Err(e) => Err(e)
      case Ok(before) =>
        match PackageOf(items[last])
        case Err(e) => Err(InPackage(last, e))
        case Ok(package) => Ok(before + [package])
  }

  function Names(packages: seq<Package>): (names: seq<string>)
    ensures |names| == |packages| && forall i :: 0 <= i < |names| ==> names[i] == packages[i].Name()
  {
    seq(|packages|, i requires 0 <= i < |packages| => packages[i].Name())
  }

  function NameSet(packages: seq<Package>): set<string> {
    set i | 0 <= i < |packages| :: packages[i].Name()
  }

  function DirectSet(packages: seq<Package>): set<string> {
    set i | 0 <= i < |packages| && packages[i].direct :: packages[i].Name()
  }

  function Elements(texts: seq<string>): set<string> {
    set i | 0 <= i < |texts| :: texts[i]
  }

  lemma DirectSetIs(packages: seq<Package>)
    ensures forall name :: name in DirectSet(packages)
                      <==> exists package :: package in packages && package.direct && package.Name() == name
  {
    forall name | exists package :: package in packages && package.direct && package.Name() == name
      ensures name in DirectSet(packages)
    {
      var package :| package in packages && package.direct && package.Name() == name;
      var i :| 0 <= i < |packages| && packages[i] == package;
    }
  }

  predicate DependenciesKnown(packages: seq<Package>) {
    forall i :: 0 <= i < |packages| ==>
      Elements(packages[i].dependencies) <= NameSet(packages) && packages[i].Name() !in packages[i].dependencies
  }

  /** The dependency graph, by name. */
  function Graph(packages: seq<Package>): map<string, set<string>> {
    if packages == [] then map[]
    else
      var last := packages[|packages| - 1];
      Graph(packages[..|packages| - 1])[last.Name() := Elements(last.dependencies)]
  }

  function AllWheels(packages: seq<Package>): seq<string> {
    if packages == [] then [] else AllWheels(packages[..|packages| - 1]) + Filenames(packages[|packages| - 1].artifacts)
  }

  /** Every package is reached from a direct one: the names are the least closed set. */
  ghost predicate FullyReachable(packages: seq<Package>) {
    IsClosure(Graph(packages), DirectSet(packages), NameSet(packages))
  }

  /** What is wrong with the dependencies of one package. */
  function DependencyError(packages: seq<Package>, i: nat): Option<LockError>
    requires i < |packages|
  {
    if !(Elements(packages[i].dependencies) <= NameSet(packages)) then Some(MissingDependencies(packages[i].Name()))
    else if packages[i].Name() in packages[i].dependencies then Some(SelfDependency(packages[i].Name()))
    else None
  }

  /** The error of the first package with one, among the first `n`. */
  function FirstDependencyError(packages: seq<Package>, n: nat): Option<LockError>
    requires n <= |packages|
  {
    if n == 0 then None
    else
      match FirstDependencyError(packages, n - 1)
      case Some(e) => Some(e)
      case None => DependencyError(packages, n - 1)
  }

  /** The graph checks, in the order in which they are made. */
  ghost function GraphError(packages: seq<Package>): Option<LockError> {
    if !(Sorted(Names(packages)) && NoRepeats(Names(packages))) then Some(UnsortedPackages)
    else if FirstDependencyError(packages, |packages|).Some? then FirstDependencyError(packages, |packages|)
    else if !FullyReachable(packages) then Some(Unreachable)
    else if !NoRepeats(AllWheels(packages)) then Some(RepeatedWheel)
    else None
  }

  /** The whole file: the checks in order, and the typed lock when none fails. */
  ghost function LockOf(raw: RawLock): Result<Lock, LockError> {
    if raw.schemaVersion != Some(1) then Err(WrongSchema)
    else
      match (RequiredString(raw.requiresPython, "requires_python"), StringList(raw.supportedPython, "supported_python"))
      case (Err(e), _) => Err(BadField(e))
      case (Ok(_), Err(e)) => Err(BadField(e))
      case (Ok(requires'), Ok(supported)) =>
        if !Sorted(supported) then Err(BadField(Unsorted("supported_python")))
        else if raw.packages.None? || raw.packages.value == [] then Err(NoPackages)
        else
          match Packages(raw.packages.value)
          case Err(e) => Err(e)
          case Ok(packages) =>
            if GraphError(packages).Some? then Err(GraphError(packages).value)
            else Ok(Lock(requires', supported, packages))
  }

  // ----- the graph

  lemma {:induction false} GraphKeys(packages: seq<Package>)
    ensures Graph(packages).Keys == NameSet(packages)
  {
    if packages != [] {
      var before, last := packages[..|packages| - 1], packages[|packages| - 1];
      GraphKeys(before);
      NamesPrefix(packages);
    }
  }

  lemma NamesPrefix(packages: seq<Package>)
    requires packages != []
    ensures NameSet(packages) == NameSet(packages[..|packages| - 1]) + {packages[|packages| - 1].Name()}
    ensures NoRepeats(Names(packages)) ==> NoRepeats(Names(packages[..|packages| - 1]))
  {
  }

  lemma {:induction false} GraphAt(packages: seq<Package>, i: nat)
    requires NoRepeats(Names(packages)) && i < |packages|
    ensures packages[i].Name() in Graph(packages)
    ensures Graph(packages)[packages[i].Name()] == Elements(packages[i].dependencies)
  {
    hide Elements, NameSet;
    if i < |packages| - 1 {
      var before, last := packages[..|packages| - 1], packages[|packages| - 1];
      NamesPrefix(packages);
      GraphAt(before, i);
      assert packages[i] == before[i];
      assert Names(packages)[i] != Names(packages)[|before|];
    }
  }

  lemma GraphClosed(packages: seq<Package>)
    requires NoRepeats(Names(packages)) && DependenciesKnown(packages)
    ensures Graph(packages).Keys == NameSet(packages)
    ensures Closed(Graph(packages), NameSet(packages)) && DirectSet(packages) <= NameSet(packages)
  {
    hide Elements, Graph;
    GraphKeys(packages);
    forall name | name in NameSet(packages) ensures Graph(packages)[name] <= NameSet(packages) {
      var i :| 0 <= i < |packages| && packages[i].Name() == name;
      GraphAt(packages, i);
    }
  }

  /** The reachability worklist: it ends on every graph, cyclic ones included. */
  method Reach(packages: seq<Package>) returns (reachable: set<string>)
    requires NoRepeats(Names(packages)) && DependenciesKnown(packages)
    ensures IsClosure(Graph(packages), DirectSet(packages), reachable)
  {
    hide Elements, NameSet, DirectSet, Graph, Names, NoRepeats, DependenciesKnown;
    var graph := Graph(packages);
    ghost var all, seeds := NameSet(packages), DirectSet(packages);
    GraphClosed(packages);
    var pending := DirectNames(packages);
    reachable := {};
    while pending != []
      invariant reachable <= all
      invariant forall n :: n in pending ==> n in all
      invariant forall n :: n in seeds ==> n in reachable || n in pending
      invariant forall n, m :: n in reachable && n in graph && m in graph[n] ==> m in reachable || m in pending
      invariant forall t :: seeds <= t && Closed(graph, t) ==> reachable <= t && (forall n :: n in pending ==> n in t)
      decreases all - reachable, |pending|
    {
      var name := pending[|pending| - 1];
      ghost var before := pending;
      pending := pending[..|pending| - 1];
      assert forall n :: n in before ==> n in pending || n == name;
      if name !in reachable {
        reachable := reachable + {name};
        var next := DependenciesOf(packages, name);
        pending := pending + next;
      }
    }
    forall n | n in reachable && n in graph ensures graph[n] <= reachable {
      forall m | m in graph[n] ensures m in reachable {
      }
    }
  }

  method DirectNames(packages: seq<Package>) returns (names: seq<string>)
    ensures forall name :: name in names <==> name in DirectSet(packages)
  {
    names := [];
    for i := 0 to |packages|
      invariant forall name :: name in names
                          <==> exists k :: 0 <= k < i && packages[k].direct && packages[k].Name() == name
    {
      ghost var before := names;
      if packages[i].direct {
        names := names + [packages[i].Name()];
      }
      assert forall name :: name in names <==> name in before || (packages[i].direct && name == packages[i].Name());
    }
  }

  method DependenciesOf(packages: seq<Package>, name: string) returns (dependencies: seq<string>)
    requires NoRepeats(Names(packages)) && name in NameSet(packages)
    ensures name in Graph(packages)
    ensures forall n :: n in dependencies <==> n in Graph(packages)[name]
  {
    var i :| 0 <= i < |packages| && packages[i].Name() == name;
    GraphAt(packages, i);
    dependencies := packages[i].dependencies;
  }

  // ----- loading

  lemma {:induction false} FirstPackageFault(items: seq<Option<RawPackage>>, n: nat)
    requires n <= |items| && Packages(items[..n]).Err?
    ensures Packages(items) == Packages(items[..n])
  {
    hide PackageOf;
    if n < |items| {
      assert items[..|items| - 1][..n] == items[..n];
      FirstPackageFault(items[..|items| - 1], n);
    } else {
      assert items[..n] == items;
    }
  }

  method ParsePackages(items: seq<Option<RawPackage>>) returns (result: Result<seq<Package>, LockError>)
    ensures result == Packages(items)
  {
    hide PackageOf;
    var packages: seq<Package> := [];
    for index := 0 to |items|
      invariant Packages(items[..index]) == Ok(packages)
    {
      assert items[..index + 1][..index] == items[..index];
      var package := ParsePackage(items[index]);
      if package.Err? {
        FirstPackageFault(items, index + 1);
        return Err(InPackage(index, package.error));
      }
      packages := packages + [package.value];
    }
    assert items[..|items|] == items;
    result := Ok(packages);
  }

  lemma {:induction false} FirstErrorStays(packages: seq<Package>, m: nat, n: nat)
    requires m <= n <= |packages| && FirstDependencyError(packages, m).Some?
    ensures FirstDependencyError(packages, n) == FirstDependencyError(packages, m)
  {
    if m < n {
      FirstErrorStays(packages, m, n - 1);
    }
  }

  lemma {:induction false} NoDependencyError(packages: seq<Package>, n: nat)
    requires n <= |packages|
    ensures FirstDependencyError(packages, n).None? <==> forall i :: 0 <= i < n ==> DependencyError(packages, i).None?
  {
    hide DependencyError;
    if n > 0 {
      NoDependencyError(packages, n - 1);
    }
  }

  /** The checks of the dependency graph, with the worklist for reachability. */
  method CheckGraph(packages: seq<Package>) returns (error: Option<LockError>)
    ensures error == GraphError(packages)
  {
    hide Sorted, NoRepeats, DependencyError, DependenciesKnown, IsClosure, Closed;
    if !(Sorted(Names(packages)) && NoRepeats(Names(packages))) {
      return Some(UnsortedPackages);
    }
    for i := 0 to |packages|
      invariant FirstDependencyError(packages, i).None?
    {
      var wrong := DependencyError(packages, i);
      if wrong.Some? {
        FirstErrorStays(packages, i + 1, |packages|);
        return wrong;
      }
    }
    KnownWithoutErrors(packages);
    var reachable := Reach(packages);
    if FullyReachable(packages) {
      ClosureUnique(Graph(packages), DirectSet(packages), reachable, NameSet(packages));
    }
    if reachable != NameSet(packages) {
      return Some(Unreachable);
    }
    if !NoRepeats(AllWheels(packages)) {
      return Some(RepeatedWheel);
    }
    error := None;
  }

  lemma KnownWithoutErrors(packages: seq<Package>)
    ensures FirstDependencyError(packages, |packages|).None? <==> DependenciesKnown(packages)
  {
    hide Elements, NameSet;
    NoDependencyError(packages, |packages|);
    forall i: nat | i < |packages|
      ensures DependencyError(packages, i).None?
         <==> && Elements(packages[i].dependencies) <= NameSet(packages)
              && packages[i].Name() !in packages[i].dependencies
    {
    }
  }

  /** Loading a decoded file: the first failing check, or the typed lock. */
  method LoadLock(raw: RawLock) returns (result: Result<Lock, LockError>)
    ensures result == LockOf(raw)
  {
    hide Sorted, GraphError, StringList;
    if raw.schemaVersion != Some(1) {
      return Err(WrongSchema);
    }
    var requiresPython := RequiredString(raw.requiresPython, "requires_python");
    if requiresPython.Err? {
      return Err(BadField(requiresPython.error));
    }
    var supportedPython := StringList(raw.supportedPython, "supported_python");
    if supportedPython.Err? {
      return Err(BadField(supportedPython.error));
    }
    if !Sorted(supportedPython.value) {
      return Err(BadField(Unsorted("supported_python")));
    }
    if raw.packages.None? || raw.packages.value == [] {
      return Err(NoPackages);
    }
    var packages := ParsePackages(raw.packages.value);
    if packages.Err? {
      return Err(packages.error);
    }
    var error := CheckGraph(packages.value);
    if error.Some? {
      return Err(error.value);
    }
    result := Ok(Lock(requiresPython.value, supportedPython.value, packages.value));
  }

  // ----- accepted locks

  /** The typed entries of good raw ones. */
  function Typed(items: seq<Option<RawPackage>>): seq<Package>
    requires forall i :: 0 <= i < |items| ==> GoodEntry(items[i])
  {
    seq(|items|, i requires 0 <= i < |items| => EntryAcceptedExactly(items[i]); PackageOf(items[i]).value)
  }

  lemma {:induction false} PackagesMeaning(items: seq<Option<RawPackage>>)
    ensures Packages(items).Ok? <==> forall i :: 0 <= i < |items| ==> GoodEntry(items[i])
    ensures Packages(items).Ok? ==> Packages(items).value == Typed(items)
  {
    hide PackageOf, GoodEntry;
    if items != [] {
      PackagesMeaning(items[..|items| - 1]);
      EntryAcceptedExactly(items[|items| - 1]);
      assert forall i :: 0 <= i < |items| - 1 ==> items[..|items| - 1][i] == items[i];
    }
  }

  /** Strictly increasing names, known dependencies other than the package itself, every
      package reached from a direct one along dependencies, and no wheel listed twice. */
  ghost predicate GoodGraph(packages: seq<Package>) {
    && StrictlyIncreasing(Names(packages))
    && DependenciesKnown(packages)
    && (forall name :: name in NameSet(packages) ==> Reached(Graph(packages), DirectSet(packages), name))
    && DistinctWheels(packages)
  }

  /** No two places list the same wheel. */
  ghost predicate DistinctWheels(packages: seq<Package>) {
    forall i, j, k, l ::
      (&& 0 <= i < |packages| && 0 <= j < |packages[i].artifacts|
       && 0 <= k < |packages| && 0 <= l < |packages[k].artifacts|
       && packages[i].artifacts[j].filename == packages[k].artifacts[l].filename) ==> i == k && j == l
  }

  lemma {:induction false} WheelListed(packages: seq<Package>, i: nat, j: nat)
    requires i < |packages| && j < |packages[i].artifacts|
    ensures packages[i].artifacts[j].filename in AllWheels(packages)
  {
    var before, last := packages[..|packages| - 1], Filenames(packages[|packages| - 1].artifacts);
    if i < |before| {
      WheelListed(before, i, j);
    } else {
      assert last[j] == packages[i].artifacts[j].filename;
    }
  }

  lemma {:induction false} ListedWheel(packages: seq<Package>, name: string) returns (i: nat, j: nat)
    requires name in AllWheels(packages)
    ensures i < |packages| && j < |packages[i].artifacts| && packages[i].artifacts[j].filename == name
  {
    var before, last := packages[..|packages| - 1], Filenames(packages[|packages| - 1].artifacts);
    if name in AllWheels(before) {
      i, j := ListedWheel(before, name);
    } else {
      i := |packages| - 1;
      j :| 0 <= j < |last| && last[j] == name;
    }
  }

  lemma NoRepeatsSplit(a: seq<string>, b: seq<string>)
    ensures NoRepeats(a + b) <==> NoRepeats(a) && NoRepeats(b) && forall name :: name in a ==> name !in b
  {
    var all := a + b;
    if NoRepeats(all) {
      forall i, j | 0 <= i < j < |b| ensures b[i] != b[j] {
        assert all[|a| + i] != all[|a| + j];
      }
      forall i, j | 0 <= i < j < |a| ensures a[i] != a[j] {
        assert all[i] != all[j];
      }
      forall name | name in a ensures name !in b {
        var i :| 0 <= i < |a| && a[i] == name;
        forall j | 0 <= j < |b| ensures b[j] != name {
          assert all[i] != all[|a| + j];
        }
      }
    }
    if NoRepeats(a) && NoRepeats(b) && forall name :: name in a ==> name !in b {
      forall i, j | 0 <= i < j < |all| ensures all[i] != all[j] {
        if i < |a| {
          assert a[i] in a;
        }
      }
    }
  }

  lemma {:induction false} WheelsRepeat(packages: seq<Package>)
    ensures NoRepeats(AllWheels(packages)) <==> DistinctWheels(packages)
  {
    if packages != [] {
      var before, own := packages[..|packages| - 1], Filenames(packages[|packages| - 1].artifacts);
      WheelsRepeat(before);
      NoRepeatsSplit(AllWheels(before), own);
      if NoRepeats(AllWheels(packages)) {
        LastDistinct(packages);
      } else if DistinctWheels(packages) {
        DistinctLast(packages);
        assert false;
      }
    }
  }

  lemma WheelApart(packages: seq<Package>, i: nat, j: nat, l: nat)
    requires i < |packages| - 1 && j < |packages[i].artifacts| && l < |packages[|packages| - 1].artifacts|
    requires var own := Filenames(packages[|packages| - 1].artifacts);
             forall name :: name in AllWheels(packages[..|packages| - 1]) ==> name !in own
    ensures packages[i].artifacts[j].filename != packages[|packages| - 1].artifacts[l].filename
  {
    var before, own := packages[..|packages| - 1], Filenames(packages[|packages| - 1].artifacts);
    assert before[i] == packages[i];
    WheelListed(before, i, j);
    assert own[l] in own;
  }

  lemma LastDistinct(packages: seq<Package>)
    requires packages != [] && DistinctWheels(packages[..|packages| - 1])
    requires var own := Filenames(packages[|packages| - 1].artifacts);
             NoRepeats(own) && forall name :: name in AllWheels(packages[..|packages| - 1]) ==> name !in own
    ensures DistinctWheels(packages)
  {
    var n := |packages| - 1;
    var before, own := packages[..n], Filenames(packages[n].artifacts);
    forall i, j, k, l | && 0 <= i < |packages| && 0 <= j < |packages[i].artifacts|
                        && 0 <= k < |packages| && 0 <= l < |packages[k].artifacts|
                        && packages[i].artifacts[j].filename == packages[k].artifacts[l].filename
      ensures i == k && j == l
    {
      if i < n && k < n {
        assert before[i] == packages[i] && before[k] == packages[k];
      } else if i < n {
        WheelApart(packages, i, j, l);
      } else if k < n {
        WheelApart(packages, k, l, j);
      } else {
        assert own[j] == own[l];
      }
    }
  }

  lemma DistinctLast(packages: seq<Package>)
    requires packages != [] && DistinctWheels(packages)
    ensures DistinctWheels(packages[..|packages| - 1])
    ensures var own := Filenames(packages[|packages| - 1].artifacts);
            NoRepeats(own) && forall name :: name in AllWheels(packages[..|packages| - 1]) ==> name !in own
  {
    var n := |packages| - 1;
    var before, own := packages[..n], Filenames(packages[n].artifacts);
    forall i, j | 0 <= i < j < |own| ensures own[i] != own[j] {
      assert packages[n].artifacts[i].filename == own[i] && packages[n].artifacts[j].filename == own[j];
    }
    forall name | name in AllWheels(before) ensures name !in own {
      var i, j := ListedWheel(before, name);
      assert packages[i] == before[i];
      forall l | 0 <= l < |own| ensures own[l] != name {
        assert packages[n].artifacts[l].filename == own[l];
      }
    }
  }

  lemma GraphAcceptedExactly(packages: seq<Package>)
    ensures GraphError(packages).None? <==> GoodGraph(packages)
  {
    hide Sorted, NoRepeats, DistinctWheels, StrictlyIncreasing, DependenciesKnown, IsClosure, Closed, Reached,
         FirstDependencyError, Graph;
    StrictTexts(Names(packages));
    KnownWithoutErrors(packages);
    WheelsRepeat(packages);
    if Sorted(Names(packages)) && NoRepeats(Names(packages)) && DependenciesKnown(packages) {
      var all, seeds := NameSet(packages), DirectSet(packages);
      GraphClosed(packages);
      var reached := Closure(Graph(packages), seeds, all);
      forall name ensures name in reached <==> Reached(Graph(packages), seeds, name) {
        ClosureIsReachability(Graph(packages), seeds, reached, name);
      }
      if FullyReachable(packages) {
        ClosureUnique(Graph(packages), seeds, reached, all);
      }
      if GoodGraph(packages) {
        assert all <= reached;
        assert all == reached;
      }
    }
  }

  /** The texts never decrease. */
  ghost predicate InOrder(items: seq<Option<string>>)
    requires forall i :: 0 <= i < |items| ==> items[i].Some?
  {
    forall i :: 0 < i < |items| ==> items[i - 1] == items[i] || Before(items[i - 1].value, items[i].value)
  }

  lemma OrderKept(items: seq<Option<string>>)
    requires AllTexts(items)
    ensures Sorted(Texts(items)) <==> InOrder(items)
  {
    hide Before;
    assert forall i :: 0 <= i < |items| ==> Texts(items)[i] == items[i].value;
  }

  ghost predicate GoodLock(raw: RawLock) {
    && raw.schemaVersion == Some(1)
    && Present(raw.requiresPython)
    && GoodList(raw.supportedPython) && InOrder(raw.supportedPython.value)
    && raw.packages.Some? && raw.packages.value != []
    && (forall i :: 0 <= i < |raw.packages.value| ==> GoodEntry(raw.packages.value[i]))
    && GoodGraph(Typed(raw.packages.value))
  }

  /**
   * A lock is accepted exactly when its fields and all its entries are good, and its typed
   * entries form a good graph; the typed lock then holds those entries.
   */
  lemma LockAcceptedExactly(raw: RawLock)
    ensures LockOf(raw).Ok? <==> GoodLock(raw)
    ensures LockOf(raw).Ok? ==> LockOf(raw).value.packages == Typed(raw.packages.value)
  {
    hide Sorted, NoRepeats, AllTexts, PackageOf, GoodEntry, GraphError, GoodGraph, Typed, StringList, InOrder;
    ListMeans(raw.supportedPython, "supported_python");
    if GoodList(raw.supportedPython) {
      OrderKept(raw.supportedPython.value);
    }
    if raw.packages.Some? {
      PackagesMeaning(raw.packages.value);
      if Packages(raw.packages.value).Ok? {
        GraphAcceptedExactly(Packages(raw.packages.value).value);
      }
    }
  }

  /**
   * In an accepted lock every package, and nothing else, is reached from a direct package
   * along dependencies, and all wheels are plain and digested.
   */
  lemma AcceptedLock(raw: RawLock)
    requires LockOf(raw).Ok?
    ensures var packages := LockOf(raw).value.packages;
            && packages != [] && GoodGraph(packages)
            && (forall name :: name in NameSet(packages) <==> Reached(Graph(packages), DirectSet(packages), name))
            && (forall i, j :: 0 <= i < |packages| && 0 <= j < |packages[i].artifacts| ==>
                  GoodArtifact(Some(RawArtifact(Some(packages[i].artifacts[j].filename),
                                                Some(packages[i].artifacts[j].sha256)))))
  {
    hide Before, PackageOf, GoodEntry, IsClosure, Reached, NoRepeats, Sorted, StringList, FirstDependencyError,
         GoodArtifact;
    var packages := LockOf(raw).value.packages;
    var items := raw.packages.value;
    PackagesMeaning(items);
    GraphAcceptedExactly(packages);
    forall i | 0 <= i < |packages|
      ensures forall j :: 0 <= j < |packages[i].artifacts| ==>
                GoodArtifact(Some(RawArtifact(Some(packages[i].artifacts[j].filename),
                                              Some(packages[i].artifacts[j].sha256))))
    {
      EntryAcceptedExactly(items[i]);
      AcceptedEntry(items[i]);
    }
    forall name ensures name in NameSet(packages) <==> Reached(Graph(packages), DirectSet(packages), name) {
      ClosureIsReachability(Graph(packages), DirectSet(packages), NameSet(packages), name);
    }
  }
}
