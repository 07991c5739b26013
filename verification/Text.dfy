/** Strings: searching, lower case and repetition. */
module Text {
  import opened Prelude

  predicate OccursAt(text: string, part: string, i: int) {
    0 <= i <= |text| - |part| && text[i..i + |part|] == part
  }

  predicate StartsWith(text: string, prefix: string) {
    OccursAt(text, prefix, 0)
  }

  predicate EndsWith(text: string, suffix: string) {
    OccursAt(text, suffix, |text| - |suffix|)
  }

  predicate Contains(text: string, part: string) {
    exists i :: 0 <= i <= |text| && OccursAt(text, part, i)
  }

  predicate NoRepeats(texts: seq<string>) {
    forall i, j :: 0 <= i < j < |texts| ==> texts[i] != texts[j]
  }

  /** ASCII lower case. */
  function LowerChar(c: char): char {
    if 'A' <= c <= 'Z' then c - 'A' + 'a' else c
  }

  function Lower(text: string): (lower: string)
    ensures |lower| == |text| && forall i :: 0 <= i < |text| ==> lower[i] == LowerChar(text[i])
  {
    seq(|text|, i requires 0 <= i < |text| => LowerChar(text[i]))
  }

  /** The largest position up to `from` at which `part` occurs. */
  function LastOccurrence(text: string, part: string, from: int): (r: Option<int>)
    ensures r.Some? ==> OccursAt(text, part, r.value) && r.value <= from
    ensures forall i :: OccursAt(text, part, i) && i <= from ==> r.Some? && i <= r.value
    decreases from + 1
  {
    if from < 0 then None
    else if OccursAt(text, part, from) then Some(from)
    else LastOccurrence(text, part, from - 1)
  }
}
