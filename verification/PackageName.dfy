/** Normalized distribution names, as package indexes use them. */
module PackageName {
  import opened Text

  predicate IsSeparator(c: char) {
    c == '-' || c == '_' || c == '.'
  }

  function SkipSeparators(name: string): (rest: string)
    ensures |rest| <= |name|
    ensures rest != "" ==> !IsSeparator(rest[0])
  {
    if name != "" && IsSeparator(name[0]) then SkipSeparators(name[1..]) else name
  }

  /** Every run of separators replaced by one hyphen. */
  function CollapseRuns(name: string): string
    decreases |name|
  {
    if name == "" then ""
    else if IsSeparator(name[0]) then "-" + CollapseRuns(SkipSeparators(name[1..]))
    else [name[0]] + CollapseRuns(name[1..])
  }

  function CanonicalizeName(name: string): string {
    Lower(CollapseRuns(name))
  }

  /** Equal up to letter case and up to the length and spelling of separator runs. */
  predicate SameName(a: string, b: string)
    decreases |a|
  {
    if a == "" || b == "" then a == b
    else if IsSeparator(a[0]) || IsSeparator(b[0]) then
      IsSeparator(a[0]) && IsSeparator(b[0]) && SameName(SkipSeparators(a[1..]), SkipSeparators(b[1..]))
    else LowerChar(a[0]) == LowerChar(b[0]) && SameName(a[1..], b[1..])
  }

  lemma CanonicalUnfolds(name: string)
    ensures name == "" ==> CanonicalizeName(name) == ""
    ensures name != "" && IsSeparator(name[0])
        ==> CanonicalizeName(name) == "-" + CanonicalizeName(SkipSeparators(name[1..]))
    ensures name != "" && !IsSeparator(name[0])
        ==> CanonicalizeName(name) == [LowerChar(name[0])] + CanonicalizeName(name[1..])
  {
  }

  lemma HeadsCancel(c: char, d: char, a: string, b: string)
    ensures [c] + a == [d] + b <==> c == d && a == b
  {
    if [c] + a == [d] + b {
      assert ([c] + a)[0] == c && ([d] + b)[0] == d;
      assert ([c] + a)[1..] == a && ([d] + b)[1..] == b;
    }
  }

  /** Two names are normalized alike exactly when they are the same name. */
  lemma {:induction false} CanonicalIdentifies(a: string, b: string)
    ensures CanonicalizeName(a) == CanonicalizeName(b) <==> SameName(a, b)
    decreases |a|
  {
    hide CanonicalizeName;
    CanonicalUnfolds(a);
    CanonicalUnfolds(b);
    if a != "" && b != "" {
      if IsSeparator(a[0]) && IsSeparator(b[0]) {
        CanonicalIdentifies(SkipSeparators(a[1..]), SkipSeparators(b[1..]));
        HeadsCancel('-', '-', CanonicalizeName(SkipSeparators(a[1..])), CanonicalizeName(SkipSeparators(b[1..])));
      } else if !IsSeparator(a[0]) && !IsSeparator(b[0]) {
        CanonicalIdentifies(a[1..], b[1..]);
        HeadsCancel(LowerChar(a[0]), LowerChar(b[0]), CanonicalizeName(a[1..]), CanonicalizeName(b[1..]));
      } else {
        assert CanonicalizeName(a)[0] != CanonicalizeName(b)[0];
      }
    }
  }

  lemma {:induction false} CanonicalIsSame(name: string)
    ensures SameName(CanonicalizeName(name), name)
    decreases |name|
  {
    hide CanonicalizeName;
    CanonicalUnfolds(name);
    if name != "" {
      if IsSeparator(name[0]) {
        var rest := SkipSeparators(name[1..]);
        CanonicalIsSame(rest);
        CanonicalUnfolds(rest);
        assert CanonicalizeName(name)[1..] == CanonicalizeName(rest);
        assert SkipSeparators(CanonicalizeName(rest)) == CanonicalizeName(rest);
      } else {
        CanonicalIsSame(name[1..]);
        assert CanonicalizeName(name)[1..] == CanonicalizeName(name[1..]);
      }
    }
  }

  /** Normalizing a normalized name changes nothing. */
  lemma CanonicalIdempotent(name: string)
    ensures CanonicalizeName(CanonicalizeName(name)) == CanonicalizeName(name)
  {
    CanonicalIsSame(name);
    CanonicalIdentifies(CanonicalizeName(name), name);
  }

  // ----- the normal form

  /** No capital letters, hyphens as the only separators, and never two in a row. */
  predicate InNormalForm(name: string) {
    && (forall i :: 0 <= i < |name| ==> !('A' <= name[i] <= 'Z') && name[i] != '_' && name[i] != '.')
    && (forall i :: 0 < i < |name| ==> !(name[i - 1] == '-' && name[i] == '-'))
  }

  lemma NormalCons(c: char, rest: string)
    requires InNormalForm(rest) && !('A' <= c <= 'Z') && c != '_' && c != '.'
    requires c == '-' && rest != "" ==> rest[0] != '-'
    ensures InNormalForm([c] + rest)
  {
  }

  /** A normalized name is the one spelling in normal form of its name. */
  lemma {:induction false} CanonicalIsNormal(name: string)
    ensures InNormalForm(CanonicalizeName(name)) && SameName(CanonicalizeName(name), name)
    decreases |name|
  {
    hide InNormalForm, CanonicalizeName, SameName;
    CanonicalIsSame(name);
    CanonicalUnfolds(name);
    if name == "" {
      EmptyIsNormal();
    } else if IsSeparator(name[0]) {
      var rest := SkipSeparators(name[1..]);
      CanonicalIsNormal(rest);
      CanonicalUnfolds(rest);
      NormalCons('-', CanonicalizeName(rest));
    } else {
      CanonicalIsNormal(name[1..]);
      NormalCons(LowerChar(name[0]), CanonicalizeName(name[1..]));
    }
  }

  lemma EmptyIsNormal()
    ensures InNormalForm("")
  {
  }

  /** Letters are compared without their case, and nothing else is changed. */
  lemma LowerCase(c: char)
    ensures LowerChar(c) == if 'A' <= c <= 'Z' then (c as int + 32) as char else c
  {
  }
}
