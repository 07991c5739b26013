/** The order of the hashed paths and the digits of the frame lengths. */
module PathOrder {
  import opened Ordering
  import opened BuildIdentity

  // ----- paths compare part by part

  /** The parts of a path between its slashes. */
  function Parts(path: Bytes): (parts: seq<seq<int>>)
    ensures parts != []
  {
    if path == [] then [[]]
    else
      var rest := Parts(path[1..]);
      if path[0] == 47 then [[]] + rest else [[path[0] as int] + rest[0]] + rest[1..]
  }

  /** Part lists compare by their first different part; a shorter list is below its extensions. */
  predicate LessParts(a: seq<seq<int>>, b: seq<seq<int>>) {
    if b == [] then false
    else if a == [] then true
    else Less(a[0], b[0]) || (a[0] == b[0] && LessParts(a[1..], b[1..]))
  }

  lemma SameFirstByte(c: int, x: seq<int>, restA: seq<seq<int>>, y: seq<int>, restB: seq<seq<int>>)
    ensures LessParts([[c] + x] + restA, [[c] + y] + restB) <==> LessParts([x] + restA, [y] + restB)
  {
    assert ([c] + x)[1..] == x && ([c] + y)[1..] == y;
    assert ([[c] + x] + restA)[1..] == restA && ([[c] + y] + restB)[1..] == restB;
    assert ([x] + restA)[1..] == restA && ([y] + restB)[1..] == restB;
    assert [c] + x == [c] + y <==> x == y;
  }

  lemma Unfold(path: Bytes)
    requires path != []
    ensures PathKey(path)[1..] == PathKey(path[1..])
    ensures PathKey(path)[0] == if path[0] == 47 then 0 else path[0] as int + 1
    ensures var rest := Parts(path[1..]);
            && rest == [rest[0]] + rest[1..]
            && Parts(path) == if path[0] == 47 then [[]] + rest else [[path[0] as int] + rest[0]] + rest[1..]
  {
  }

  /** The order of the stream's paths is that of their part lists. */
  lemma {:induction false} KeyOrderIsPartOrder(a: Bytes, b: Bytes)
    ensures Less(PathKey(a), PathKey(b)) <==> LessParts(Parts(a), Parts(b))
  {
    hide PathKey, Parts, LessParts;
    if a == [] || b == [] {
      EmptyPath(a, b);
    } else {
      Unfold(a);
      Unfold(b);
      KeyOrderIsPartOrder(a[1..], b[1..]);
      var restA, restB := Parts(a[1..]), Parts(b[1..]);
      if a[0] == b[0] == 47 {
        EmptyHeads(restA, restB);
      } else if a[0] == b[0] {
        SameFirstByte(a[0] as int, restA[0], restA[1..], restB[0], restB[1..]);
      } else {
        FirstParts(a, b);
        DifferentHeads(Parts(a), Parts(b));
      }
    }
  }

  lemma EmptyPath(a: Bytes, b: Bytes)
    requires a == [] || b == []
    ensures Less(PathKey(a), PathKey(b)) <==> LessParts(Parts(a), Parts(b))
  {
  }

  /** Paths that differ at once have different first parts. */
  lemma FirstParts(a: Bytes, b: Bytes)
    requires a != [] && b != [] && a[0] != b[0]
    ensures Parts(a)[0] != Parts(b)[0]
    ensures Less(Parts(a)[0], Parts(b)[0]) <==> Less(PathKey(a), PathKey(b))
  {
  }

  lemma EmptyHeads(a: seq<seq<int>>, b: seq<seq<int>>)
    ensures LessParts([[]] + a, [[]] + b) <==> LessParts(a, b)
  {
    assert ([[]] + a)[1..] == a && ([[]] + b)[1..] == b;
  }

  lemma DifferentHeads(a: seq<seq<int>>, b: seq<seq<int>>)
    requires a != [] && b != [] && a[0] != b[0]
    ensures LessParts(a, b) <==> Less(a[0], b[0])
  {
  }

  // ----- lengths

  lemma DivideTwice(n: nat, k: nat)
    requires k >= 1
    ensures n / 256 / k == n / (256 * k)
  {
    var q, r := n / 256 / k, n / 256 % k;
    assert n == 256 * (q * k + r) + n % 256;
    var rest: nat := 256 * r + n % 256;
    assert n == (256 * k) * q + rest;
    QuotientIs(n, 256 * k, q, rest);
  }

  lemma QuotientIs(n: nat, d: nat, q: nat, r: nat)
    requires d >= 1 && n == d * q + r && r < d
    ensures n / d == q
  {
    var p, m := n / d, n % d;
    assert n == d * p + m;
    var x: int := p as int - q as int;
    assert d * x == r as int - m;
    SmallMultiple(d, x);
  }

  lemma SmallMultiple(d: int, x: int)
    requires d >= 1 && -d < d * x < d
    ensures x == 0
  {
  }

  lemma {:induction false} PowerPositive(k: nat)
    ensures Power256(k) >= 1
  {
    if k > 0 {
      PowerPositive(k - 1);
    }
  }

  /** The bytes of a length are its digits to the base 256, the least significant first. */
  lemma {:induction false} LittleEndianDigits(n: nat, k: nat, i: nat)
    requires i < k
    ensures Power256(i) >= 1 && LittleEndian(n, k)[i] as int == n / Power256(i) % 256
  {
    PowerPositive(i);
    if i > 0 {
      LittleEndianDigits(n / 256, k - 1, i - 1);
      PowerPositive(i - 1);
      DivideTwice(n, Power256(i - 1));
    }
  }

  /** A framed byte string is eight digits of its length and then the bytes; lengths below 2^64
      can be framed. */
  lemma FrameIs(bytes: Bytes)
    ensures |Frame(bytes)| == 8 + |bytes| && Frame(bytes)[8..] == bytes
    ensures forall i: nat :: i < 8 ==> Power256(i) >= 1 && Frame(bytes)[i] as int == |bytes| / Power256(i) % 256
    ensures Representable(bytes) <==> |bytes| < 18446744073709551616
  {
    hide LittleEndian;
    forall i: nat | i < 8
      ensures Power256(i) >= 1 && Frame(bytes)[i] as int == |bytes| / Power256(i) % 256
    {
      LittleEndianDigits(|bytes|, 8, i);
      assert Frame(bytes)[i] == LittleEndian(|bytes|, 8)[i];
    }
    assert Power256(4) == 4294967296 by {
      assert Power256(2) == 65536;
    }
    assert Power256(6) == 281474976710656;
    assert Power256(8) == 18446744073709551616;
  }
}
