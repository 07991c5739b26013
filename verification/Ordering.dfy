/** Lexicographic order on sequences of integers, and the uniqueness of sorted listings. */
module Ordering {

  predicate Less(a: seq<int>, b: seq<int>) {
    if b == [] then false
    else if a == [] then true
    else a[0] < b[0] || (a[0] == b[0] && Less(a[1..], b[1..]))
  }

  lemma {:induction false} LessIrreflexive(a: seq<int>)
    ensures !Less(a, a)
  {
    if a != [] {
      LessIrreflexive(a[1..]);
    }
  }

  lemma {:induction false} LessTransitive(a: seq<int>, b: seq<int>, c: seq<int>)
    requires Less(a, b) && Less(b, c)
    ensures Less(a, c)
  {
    if a != [] && a[0] == b[0] == c[0] {
      LessTransitive(a[1..], b[1..], c[1..]);
    }
  }

  lemma {:induction false} LessTotal(a: seq<int>, b: seq<int>)
    ensures a == b || Less(a, b) || Less(b, a)
  {
    if a != [] && b != [] && a[0] == b[0] {
      LessTotal(a[1..], b[1..]);
      assert a == [a[0]] + a[1..] && b == [b[0]] + b[1..];
    }
  }

  predicate StrictlySorted(keys: seq<seq<int>>) {
    forall i, j :: 0 <= i < j < |keys| ==> Less(keys[i], keys[j])
  }

  /** A strictly sorted listing is determined by its elements. */
  lemma {:induction false} SortedListingUnique(a: seq<seq<int>>, b: seq<seq<int>>)
    requires StrictlySorted(a) && StrictlySorted(b)
    requires forall key :: key in a <==> key in b
    ensures a == b
  {
    if a == [] {
      assert forall i :: 0 <= i < |b| ==> b[i] in a;
    } else {
      SameFirst(a, b);
      forall key ensures key in a[1..] <==> key in b[1..] {
        TailMembers(a, key);
        TailMembers(b, key);
      }
      SortedListingUnique(a[1..], b[1..]);
      assert a == [a[0]] + a[1..] && b == [b[0]] + b[1..];
    }
  }

  lemma SameFirst(a: seq<seq<int>>, b: seq<seq<int>>)
    requires StrictlySorted(a) && StrictlySorted(b) && a != []
    requires forall key :: key in a <==> key in b
    ensures b != [] && a[0] == b[0]
  {
    assert a[0] in a;
    assert b[0] in b;
    var i :| 0 <= i < |b| && b[i] == a[0];
    var j :| 0 <= j < |a| && a[j] == b[0];
    if i > 0 && j > 0 {
      LessTransitive(a[0], a[j], b[i]);
      LessIrreflexive(a[0]);
    }
  }

  lemma TailMembers(a: seq<seq<int>>, key: seq<int>)
    requires StrictlySorted(a) && a != []
    ensures key in a[1..] <==> key in a && key != a[0]
  {
    LessIrreflexive(a[0]);
    if key in a && key != a[0] {
      var i :| 0 <= i < |a| && a[i] == key;
      assert a[1..][i - 1] == key;
    }
  }

  // ----- the order in words

  /** `a` is below `b` when, where they first differ, it ends or has the smaller element. */
  ghost predicate FirstDifferenceBelow(a: seq<int>, b: seq<int>) {
    exists k: nat :: k <= |a| && k < |b| && a[..k] == b[..k] && (k == |a| || a[k] < b[k])
  }

  lemma BelowBehind(a: seq<int>, b: seq<int>)
    requires a != [] && b != [] && a[0] == b[0]
    ensures FirstDifferenceBelow(a, b) <==> FirstDifferenceBelow(a[1..], b[1..])
  {
    if FirstDifferenceBelow(a, b) {
      var k: nat :| k <= |a| && k < |b| && a[..k] == b[..k] && (k == |a| || a[k] < b[k]);
      assert k > 0;
      assert a[1..][..k - 1] == a[1..k] && b[1..][..k - 1] == b[1..k];
      assert a[..k][1..] == a[1..k] && b[..k][1..] == b[1..k];
      assert k < |a| ==> a[1..][k - 1] == a[k];
      assert b[1..][k - 1] == b[k];
    }
    if FirstDifferenceBelow(a[1..], b[1..]) {
      var k: nat :| && k <= |a[1..]| && k < |b[1..]| && a[1..][..k] == b[1..][..k]
                    && (k == |a[1..]| || a[1..][k] < b[1..][k]);
      assert a[..k + 1] == [a[0]] + a[1..][..k] == [b[0]] + b[1..][..k] == b[..k + 1];
    }
  }

  lemma SameHeads(a: seq<int>, b: seq<int>, k: nat)
    requires 0 < k <= |a| && k <= |b| && a[..k] == b[..k]
    ensures a[0] == b[0]
  {
    assert a[..k][0] == b[..k][0];
  }

  lemma BelowAtOnce(a: seq<int>, b: seq<int>)
    requires a != [] && b != [] && a[0] != b[0]
    ensures FirstDifferenceBelow(a, b) <==> a[0] < b[0]
  {
    assert a[..0] == b[..0];
    if FirstDifferenceBelow(a, b) {
      var k: nat :| k <= |a| && k < |b| && a[..k] == b[..k] && (k == |a| || a[k] < b[k]);
      if k > 0 {
        SameHeads(a, b, k);
      }
    }
  }

  lemma {:induction false} LessMeaning(a: seq<int>, b: seq<int>)
    ensures Less(a, b) <==> FirstDifferenceBelow(a, b)
  {
    if a == [] || b == [] {
      assert b != [] ==> a[..0] == b[..0];
    } else if a[0] == b[0] {
      LessMeaning(a[1..], b[1..]);
      BelowBehind(a, b);
    } else {
      BelowAtOnce(a, b);
    }
  }
}
