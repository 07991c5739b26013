/** Least sets closed under a finite successor relation, and their description by paths. */
module Reachability {

  /** `s` contains every successor of its members. */
  ghost predicate Closed<T(!new)>(edges: map<T, set<T>>, s: set<T>) {
    forall n :: n in s && n in edges ==> edges[n] <= s
  }

  /** `s` is the least closed set containing the seeds. */
  ghost predicate IsClosure<T(!new)>(edges: map<T, set<T>>, seeds: set<T>, s: set<T>) {
    && seeds <= s
    && Closed(edges, s)
    && forall t :: seeds <= t && Closed(edges, t) ==> s <= t
  }

  lemma ClosureUnique<T(!new)>(edges: map<T, set<T>>, seeds: set<T>, a: set<T>, b: set<T>)
    requires IsClosure(edges, seeds, a) && IsClosure(edges, seeds, b)
    ensures a == b
  {
  }

  /** A non-empty walk along the edges, from its first to its last node. */
  predicate Walk<T>(edges: map<T, set<T>>, path: seq<T>) {
    path != [] && forall i :: 0 <= i < |path| - 1 ==> path[i] in edges && path[i + 1] in edges[path[i]]
  }

  ghost predicate Reached<T(!new)>(edges: map<T, set<T>>, seeds: set<T>, n: T) {
    exists path :: Walk(edges, path) && path[0] in seeds && path[|path| - 1] == n
  }

  lemma {:induction false} WalkStays<T(!new)>(edges: map<T, set<T>>, s: set<T>, path: seq<T>)
    requires Walk(edges, path) && path[0] in s && Closed(edges, s)
    ensures path[|path| - 1] in s
  {
    if |path| > 1 {
      WalkStays(edges, s, path[..|path| - 1]);
    }
  }

  lemma ReachedStep<T(!new)>(edges: map<T, set<T>>, seeds: set<T>, n: T, m: T)
    requires Reached(edges, seeds, n) && n in edges && m in edges[n]
    ensures Reached(edges, seeds, m)
  {
    var path :| Walk(edges, path) && path[0] in seeds && path[|path| - 1] == n;
    var longer := path + [m];
    assert Walk(edges, longer) && longer[0] in seeds && longer[|longer| - 1] == m;
  }

  /** Membership in the least closed set is exactly reachability from a seed. */
  lemma ClosureIsReachability<T(!new)>(edges: map<T, set<T>>, seeds: set<T>, s: set<T>, n: T)
    requires IsClosure(edges, seeds, s)
    ensures n in s <==> Reached(edges, seeds, n)
  {
    if Reached(edges, seeds, n) {
      var path :| Walk(edges, path) && path[0] in seeds && path[|path| - 1] == n;
      WalkStays(edges, s, path);
    }
    var reached := set m | m in s && Reached(edges, seeds, m);
    forall m | m in seeds ensures m in reached {
      assert Walk(edges, [m]) && [m][0] in seeds && [m][|[m]| - 1] == m;
    }
    forall m, k | m in reached && m in edges && k in edges[m] ensures k in reached {
      ReachedStep(edges, seeds, m, k);
    }
    assert Closed(edges, reached);
  }

  /** The least closed set inside a closed universe. */
  ghost function Closure<T(!new)>(edges: map<T, set<T>>, seeds: set<T>, universe: set<T>): (s: set<T>)
    requires seeds <= universe && Closed(edges, universe)
    ensures IsClosure(edges, seeds, s) && s <= universe
  {
    var s := set n | n in universe && InEveryClosed(edges, seeds, n);
    assert Closed(edges, s) by {
      forall n, m | n in s && n in edges && m in edges[n] ensures m in s {
        EveryClosedStep(edges, seeds, n, m);
      }
    }
    assert forall t :: seeds <= t && Closed(edges, t) ==> s <= t;
    s
  }

  ghost predicate InEveryClosed<T(!new)>(edges: map<T, set<T>>, seeds: set<T>, n: T) {
    forall t :: seeds <= t && Closed(edges, t) ==> n in t
  }

  lemma EveryClosedStep<T(!new)>(edges: map<T, set<T>>, seeds: set<T>, n: T, m: T)
    requires InEveryClosed(edges, seeds, n) && n in edges && m in edges[n]
    ensures InEveryClosed(edges, seeds, m)
  {
  }
}
