/** Host-independent form of the patch paths in a candidate Cargo configuration. */
module CheckoutPath {
  import opened Prelude
  import opened Text

  const FIXED := "TMP_FIXED_SYMJIT"
  const MARKER := "/dependencies/checkouts/"
  const PREFIX := "dependencies/checkouts/"

  function ForwardSlashes(raw: string): (path: string)
    ensures |path| == |raw| && forall i :: 0 <= i < |raw| ==> path[i] == if raw[i] == '\\' then '/' else raw[i]
  {
    seq(|raw|, i requires 0 <= i < |raw| => if raw[i] == '\\' then '/' else raw[i])
  }

  function StripSlashes(path: string): (stripped: string)
    ensures stripped <= path
    ensures stripped == "" || stripped[|stripped| - 1] != '/'
  {
    if path != "" && path[|path| - 1] == '/' then StripSlashes(path[..|path| - 1]) else path
  }

  function Normalize(raw: string): string {
    StripSlashes(ForwardSlashes(raw))
  }

  /** The canonical path of a normalized one, if it lies below the checkouts. */
  function Decide(path: string): Option<string> {
    if path == FIXED || path == "./" + FIXED || EndsWith(path, "/" + FIXED) then Some(FIXED)
    else
      match LastOccurrence(path, MARKER, |path|)
      case Some(i) =>
        var suffix := path[i + |MARKER|..];
        if suffix != "" then Some(PREFIX + suffix) else DecidePrefix(path)
      case None => DecidePrefix(path)
  }

  function DecidePrefix(path: string): Option<string> {
    if StartsWith(path, PREFIX) && |path| > |PREFIX| then Some(path) else None
  }

  function CanonicalCheckoutPath(raw: string): Option<string> {
    Decide(Normalize(raw))
  }

  /** Nothing left to normalize. */
  predicate Normal(path: string) {
    && (forall i :: 0 <= i < |path| ==> path[i] != '\\')
    && (path == "" || path[|path| - 1] != '/')
  }

  lemma NormalizeIsNormal(raw: string)
    ensures Normal(Normalize(raw))
  {
  }

  lemma NormalIsFixed(path: string)
    requires Normal(path)
    ensures Normalize(path) == path
  {
  }

  lemma FixedIsNormal()
    ensures Normal(FIXED)
  {
  }

  lemma OccurrenceInTail(path: string, from: nat, part: string, i: int)
    requires from <= |path| && OccursAt(path[from..], part, i)
    ensures OccursAt(path, part, from + i)
  {
  }

  /** Behind its own slash the marker is the plain prefix. */
  lemma MarkerTail(path: string, last: int)
    requires OccursAt(path, MARKER, last)
    ensures path[last + 1..] == PREFIX + path[last + |MARKER|..]
  {
    var found := path[last..last + |MARKER|];
    assert MARKER == "/" + PREFIX;
    assert found[1..] == PREFIX;
    assert path[last + 1..] == found[1..] + path[last + |MARKER|..];
  }

  /** A tail that starts with the prefix and contains neither marker is canonical. */
  lemma PrefixedIsCanonical(path: string)
    requires StartsWith(path, PREFIX) && |path| > |PREFIX|
    requires !EndsWith(path, "/" + FIXED)
    requires forall i :: !OccursAt(path, MARKER, i)
    ensures Decide(path) == Some(path)
  {
  }

  /** The part behind the last marker, put behind the plain prefix, is canonical. */
  lemma SuffixIsCanonical(path: string, last: int, canonical: string)
    requires Normal(path) && !EndsWith(path, "/" + FIXED)
    requires LastOccurrence(path, MARKER, |path|) == Some(last) && 0 <= last && last + |MARKER| < |path|
    requires canonical == PREFIX + path[last + |MARKER|..]
    ensures Normal(canonical) && Decide(canonical) == Some(canonical)
  {
    hide OccursAt, Normal, Decide, EndsWith;
    MarkerTail(path, last);
    TailIsNormal(path, last + 1);
    TailEnds(path, last + 1, "/" + FIXED);
    forall i ensures !OccursAt(canonical, MARKER, i) {
      if OccursAt(canonical, MARKER, i) {
        OccurrenceInside(canonical, MARKER, i);
        OccurrenceInTail(path, last + 1, MARKER, i);
        OccurrenceInside(path, MARKER, last + 1 + i);
        assert false;
      }
    }
    PrefixedStarts(path[last + |MARKER|..]);
    PrefixedIsCanonical(canonical);
  }

  lemma TailIsNormal(path: string, from: nat)
    requires Normal(path) && from < |path|
    ensures Normal(path[from..])
  {
  }

  lemma TailEnds(path: string, from: nat, suffix: string)
    requires from <= |path|
    ensures EndsWith(path[from..], suffix) ==> EndsWith(path, suffix)
  {
  }

  lemma OccurrenceInside(path: string, part: string, i: int)
    requires OccursAt(path, part, i)
    ensures 0 <= i <= |path|
  {
  }

  lemma PrefixedStarts(suffix: string)
    ensures StartsWith(PREFIX + suffix, PREFIX)
  {
  }

  /** Canonicalizing a canonical path changes nothing. */
  lemma CanonicalIsIdempotent(raw: string)
    requires CanonicalCheckoutPath(raw).Some?
    ensures var canonical := CanonicalCheckoutPath(raw).value;
            CanonicalCheckoutPath(canonical) == Some(canonical)
  {
    var path := Normalize(raw);
    var canonical := CanonicalCheckoutPath(raw).value;
    NormalizeIsNormal(raw);
    if canonical == FIXED {
      FixedIsNormal();
      NormalIsFixed(FIXED);
    } else {
      var last := LastOccurrence(path, MARKER, |path|);
      if last.Some? && path[last.value + |MARKER|..] != "" {
        SuffixIsCanonical(path, last.value, canonical);
        NormalIsFixed(canonical);
      } else {
        NormalIsFixed(path);
      }
    }
  }

  // ----- which form a path has

  /** The name of the fixed checkout, on its own, in the current directory or below another. */
  ghost predicate IsFixed(path: string) {
    path == "TMP_FIXED_SYMJIT" || exists head :: path == head + "/TMP_FIXED_SYMJIT"
  }

  /** `suffix` is what follows the last "/dependencies/checkouts/" of a path. */
  ghost predicate BehindMarker(path: string, suffix: string) {
    && (exists head :: path == head + "/dependencies/checkouts/" + suffix)
    && forall head, rest :: path == head + "/dependencies/checkouts/" + rest ==> |suffix| <= |rest|
  }

  lemma EndsMeans(path: string, suffix: string)
    ensures EndsWith(path, suffix) <==> exists head :: path == head + suffix
  {
    if EndsWith(path, suffix) {
      assert path == path[..|path| - |suffix|] + suffix;
    }
    if exists head :: path == head + suffix {
      var head :| path == head + suffix;
      assert path[|head|..|head| + |suffix|] == suffix;
    }
  }

  lemma OccursMeans(path: string, part: string, i: int)
    requires OccursAt(path, part, i)
    ensures path == path[..i] + part + path[i + |part|..]
  {
  }

  lemma OccursHere(head: string, part: string, rest: string)
    ensures OccursAt(head + part + rest, part, |head|) && (head + part + rest)[|head| + |part|..] == rest
  {
    assert (head + part + rest)[|head|..|head| + |part|] == part;
  }

  lemma LastMeansBehind(path: string, last: int)
    requires LastOccurrence(path, MARKER, |path|) == Some(last)
    ensures OccursAt(path, MARKER, last) && BehindMarker(path, path[last + |MARKER|..])
  {
    var suffix := path[last + |MARKER|..];
    OccursMeans(path, MARKER, last);
    assert path == path[..last] + "/dependencies/checkouts/" + suffix;
    forall head: string, rest: string | path == head + "/dependencies/checkouts/" + rest ensures |suffix| <= |rest| {
      OccursHere(head, MARKER, rest);
    }
  }

  lemma NoneMeansNothingBehind(path: string, suffix: string)
    requires LastOccurrence(path, MARKER, |path|).None?
    ensures !BehindMarker(path, suffix)
  {
    if BehindMarker(path, suffix) {
      var head :| path == head + "/dependencies/checkouts/" + suffix;
      OccursHere(head, MARKER, suffix);
      assert false;
    }
  }

  lemma BehindIsUnique(path: string, a: string, b: string)
    requires BehindMarker(path, a) && BehindMarker(path, b)
    ensures a == b
  {
    var headA :| path == headA + "/dependencies/checkouts/" + a;
    var headB :| path == headB + "/dependencies/checkouts/" + b;
    assert |a| == |b|;
    assert path[|path| - |a|..] == a;
    assert path[|path| - |b|..] == b;
  }

  /**
   * The answer for a path with forward slashes and none at its end: the fixed checkout keeps
   * its name; else what follows the last checkout directory, if anything, is put behind the
   * relative one; else a path already below the relative one stays; and nothing else is
   * accepted.
   */
  lemma DecidedExactly(path: string)
    ensures IsFixed(path) ==> Decide(path) == Some("TMP_FIXED_SYMJIT")
    ensures !IsFixed(path) ==>
              forall suffix :: suffix != "" && BehindMarker(path, suffix) ==>
                Decide(path) == Some("dependencies/checkouts/" + suffix)
    ensures !IsFixed(path) && !(exists suffix :: suffix != "" && BehindMarker(path, suffix)) ==>
              Decide(path) == if "dependencies/checkouts/" < path then Some(path) else None
  {
    hide BehindMarker, IsFixed, OccursAt;
    FixedMeans(path);
    StartsMeans(path);
    var last := LastOccurrence(path, MARKER, |path|);
    if last.Some? {
      LastMeansBehind(path, last.value);
      OccurrenceInside(path, MARKER, last.value);
      forall suffix | BehindMarker(path, suffix) ensures suffix == path[last.value + |MARKER|..] {
        BehindIsUnique(path, suffix, path[last.value + |MARKER|..]);
      }
    } else {
      forall suffix ensures !BehindMarker(path, suffix) {
        NoneMeansNothingBehind(path, suffix);
      }
    }
  }

  lemma FixedMeans(path: string)
    ensures IsFixed(path) <==> path == FIXED || path == "./" + FIXED || EndsWith(path, "/" + FIXED)
  {
    hide EndsWith;
    EndsMeans(path, "/" + FIXED);
    assert "./" + FIXED == "." + ("/" + FIXED);
    assert "/" + FIXED == "/TMP_FIXED_SYMJIT";
  }

  lemma StartsMeans(path: string)
    ensures StartsWith(path, PREFIX) && |path| > |PREFIX| <==> "dependencies/checkouts/" < path
  {
  }

  /** A raw path is decided after its backslashes become slashes and trailing ones go. */
  lemma NormalizedExactly(raw: string)
    ensures var path := Normalize(raw);
            && CanonicalCheckoutPath(raw) == Decide(path)
            && |path| <= |raw| && (path == "" || path[|path| - 1] != '/')
            && (forall i :: 0 <= i < |path| ==> path[i] == if raw[i] == '\\' then '/' else raw[i])
            && forall i :: |path| <= i < |raw| ==> raw[i] == '/' || raw[i] == '\\'
  {
    StrippedAreSlashes(ForwardSlashes(raw));
  }

  lemma {:induction false} StrippedAreSlashes(path: string)
    ensures forall i :: |StripSlashes(path)| <= i < |path| ==> path[i] == '/'
  {
    if path != "" && path[|path| - 1] == '/' {
      StrippedAreSlashes(path[..|path| - 1]);
    }
  }
}
