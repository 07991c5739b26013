/** The checks of a single package entry of the Python runtime lock. */
module LockEntry {
  import opened Prelude
  import opened Text
  import opened Ordering
  import opened PackageName

  // ----- raw tables

  /** Decoded fields; one that is absent or has another type than expected is `None`. */
  datatype RawArtifact = RawArtifact(filename: Option<string>, sha256: Option<string>)

  datatype RawArtifacts = Absent | NotAList | Listed(items: seq<Option<RawArtifact>>)

  datatype RawPackage = RawPackage(distribution: Option<string>, version: Option<string>, license: Option<string>,
                                   direct: Option<bool>, dependencies: Option<seq<Option<string>>>,
                                   artifacts: RawArtifacts)

  // ----- checked entries

  datatype Artifact = Artifact(filename: string, sha256: string)

  datatype Package = Package(distribution: string, version: string, license: string, direct: bool,
                             dependencies: seq<string>, artifacts: seq<Artifact>)
  {
    function Name(): string {
      CanonicalizeName(distribution)
    }
  }

  datatype Fault =
    | NotATable | MissingString(key: string) | NotABoolean(key: string)
    | NotAStringList(key: string) | Duplicates(key: string) | Unsorted(key: string)
    | NotAWheel | NotADigest | NotATableList | InArtifact(index: nat, fault: Fault)

  // ----- order of texts

  function Codes(text: string): (codes: seq<int>)
    ensures |codes| == |text| && forall i :: 0 <= i < |text| ==> codes[i] == text[i] as int
  {
    seq(|text|, i requires 0 <= i < |text| => text[i] as int)
  }

  predicate Before(a: string, b: string) {
    Less(Codes(a), Codes(b))
  }

  predicate Sorted(texts: seq<string>) {
    forall i :: 0 < i < |texts| ==> texts[i - 1] == texts[i] || Before(texts[i - 1], texts[i])
  }

  // ----- single fields

  function RequiredString(value: Option<string>, key: string): Result<string, Fault> {
    if value.Some? && value.value != "" then Ok(value.value) else Err(MissingString(key))
  }

  predicate AllTexts(items: seq<Option<string>>) {
    forall i :: 0 <= i < |items| ==> items[i].Some? && items[i].value != ""
  }

  function Texts(items: seq<Option<string>>): (texts: seq<string>)
    requires AllTexts(items)
    ensures |texts| == |items| && forall i :: 0 <= i < |texts| ==> texts[i] == items[i].value
  {
    seq(|items|, i requires 0 <= i < |items| => items[i].value)
  }

  function StringList(value: Option<seq<Option<string>>>, key: string): Result<seq<string>, Fault> {
    if value.None? || !AllTexts(value.value) then Err(NotAStringList(key))
    else if !NoRepeats(Texts(value.value)) then Err(Duplicates(key))
    else Ok(Texts(value.value))
  }

  // ----- artifacts

  /** A file name of its own, without a directory, that ends as wheels do. */
  predicate PlainWheel(filename: string) {
    '/' !in filename && EndsWith(filename, ".whl")
  }

  predicate IsSha256(digest: string) {
    |digest| == 64 && forall i :: 0 <= i < 64 ==> '0' <= digest[i] <= '9' || 'a' <= digest[i] <= 'f'
  }

  function ArtifactOf(raw: Option<RawArtifact>): Result<Artifact, Fault> {
    if raw.None? then Err(NotATable)
    else
      match (RequiredString(raw.value.filename, "filename"), RequiredString(raw.value.sha256, "sha256"))
      case (Err(e), _) => Err(e)
      case (Ok(_), Err(e)) => Err(e)
      case (Ok(filename), Ok(digest)) =>
        if !PlainWheel(filename) then Err(NotAWheel)
        else if !IsSha256(digest) then Err(NotADigest)
        else Ok(Artifact(filename, digest))
  }

  /** The artifacts up to the first faulty one. */
  function ArtifactList(items: seq<Option<RawArtifact>>): Result<seq<Artifact>, Fault> {
    if items == [] then Ok([])
    else
      var last := |items| - 1;
      match ArtifactList(items[..last])
      case Err(e) => Err(e)
      case Ok(before) =>
        match ArtifactOf(items[last])
        case Err(e) => Err(InArtifact(last, e))
        case Ok(artifact) => Ok(before + [artifact])
  }

  function Filenames(artifacts: seq<Artifact>): (names: seq<string>)
    ensures |names| == |artifacts| && forall i :: 0 <= i < |names| ==> names[i] == artifacts[i].filename
  {
    seq(|artifacts|, i requires 0 <= i < |artifacts| => artifacts[i].filename)
  }

  function ArtifactsOf(raw: RawArtifacts): Result<seq<Artifact>, Fault> {
    match raw
    case Absent => Ok([])
    case NotAList => Err(NotATableList)
    case Listed(items) =>
      match ArtifactList(items)
      case Err(e) => Err(e)
      case Ok(artifacts) =>
        if Sorted(Filenames(artifacts)) && NoRepeats(Filenames(artifacts)) then Ok(artifacts)
        else Err(Unsorted("artifacts"))
  }

  method ParseArtifacts(raw: RawArtifacts) returns (result: Result<seq<Artifact>, Fault>)
    ensures result == ArtifactsOf(raw)
  {
    hide ArtifactOf, Sorted, NoRepeats;
    if raw.Absent? {
      return Ok([]);
    }
    if raw.NotAList? {
      return Err(NotATableList);
    }
    var artifacts: seq<Artifact> := [];
    for index := 0 to |raw.items|
      invariant ArtifactList(raw.items[..index]) == Ok(artifacts)
    {
      assert raw.items[..index + 1][..index] == raw.items[..index];
      var artifact := ArtifactOf(raw.items[index]);
      if artifact.Err? {
        FirstFault(raw.items, index + 1);
        return Err(InArtifact(index, artifact.error));
      }
      artifacts := artifacts + [artifact.value];
    }
    assert raw.items[..|raw.items|] == raw.items;
    var filenames := Filenames(artifacts);
    if !(Sorted(filenames) && NoRepeats(filenames)) {
      return Err(Unsorted("artifacts"));
    }
    result := Ok(artifacts);
  }

  lemma {:induction false} FirstFault(items: seq<Option<RawArtifact>>, n: nat)
    requires n <= |items| && ArtifactList(items[..n]).Err?
    ensures ArtifactList(items) == ArtifactList(items[..n])
  {
    hide ArtifactOf;
    if n < |items| {
      assert items[..|items| - 1][..n] == items[..n];
      FirstFault(items[..|items| - 1], n);
    } else {
      assert items[..n] == items;
    }
  }

  // ----- whole entries

  function CanonicalNames(names: seq<string>): (r: seq<string>)
    ensures |r| == |names| && forall i :: 0 <= i < |r| ==> r[i] == CanonicalizeName(names[i])
  {
    seq(|names|, i requires 0 <= i < |names| => CanonicalizeName(names[i]))
  }

  function PackageOf(raw: Option<RawPackage>): Result<Package, Fault> {
    if raw.None? then Err(NotATable)
    else
      var item := raw.value;
      match (RequiredString(item.distribution, "distribution"), RequiredString(item.version, "version"),
             RequiredString(item.license, "license"))
      case (Err(e), _, _) => Err(e)
      case (Ok(_), Err(e), _) => Err(e)
      case (Ok(_), Ok(_), Err(e)) => Err(e)
      case (Ok(distribution), Ok(version), Ok(license)) =>
        if item.direct.None? then Err(NotABoolean("direct"))
        else
          match StringList(item.dependencies, "dependencies")
          case Err(e) => Err(e)
          case Ok(names) =>
            if !Sorted(CanonicalNames(names)) then Err(Unsorted("dependencies"))
            else
              match ArtifactsOf(item.artifacts)
              case Err(e) => Err(e)
              case Ok(artifacts) =>
                Ok(Package(distribution, version, license, item.direct.value, CanonicalNames(names), artifacts))
  }

  method ParsePackage(raw: Option<RawPackage>) returns (result: Result<Package, Fault>)
    ensures result == PackageOf(raw)
  {
    hide Sorted, ArtifactsOf, StringList;
    if raw.None? {
      return Err(NotATable);
    }
    var item := raw.value;
    var distribution := RequiredString(item.distribution, "distribution");
    if distribution.Err? {
      return Err(distribution.error);
    }
    var version := RequiredString(item.version, "version");
    if version.Err? {
      return Err(version.error);
    }
    var license := RequiredString(item.license, "license");
    if license.Err? {
      return Err(license.error);
    }
    if item.direct.None? {
      return Err(NotABoolean("direct"));
    }
    var names := StringList(item.dependencies, "dependencies");
    if names.Err? {
      return Err(names.error);
    }
    var dependencies := CanonicalNames(names.value);
    if !Sorted(dependencies) {
      return Err(Unsorted("dependencies"));
    }
    var artifacts := ParseArtifacts(item.artifacts);
    if artifacts.Err? {
      return Err(artifacts.error);
    }
    result := Ok(Package(distribution.value, version.value, license.value, item.direct.value, dependencies,
                         artifacts.value));
  }

  // ----- which entries are accepted

  predicate StrictlyIncreasing(texts: seq<string>) {
    forall i :: 0 < i < |texts| ==> Before(texts[i - 1], texts[i])
  }

  /** Sorted without repetition is strictly increasing. */
  lemma StrictTexts(texts: seq<string>)
    ensures Sorted(texts) && NoRepeats(texts) <==> StrictlyIncreasing(texts)
  {
    hide Before;
    if StrictlyIncreasing(texts) {
      forall i, j | 0 <= i < j < |texts| ensures texts[i] != texts[j] {
        AllBefore(texts, i, j);
        BeforeIrreflexive(texts[i]);
      }
    }
  }

  lemma {:induction false} AllBefore(texts: seq<string>, i: nat, j: nat)
    requires StrictlyIncreasing(texts) && i < j < |texts|
    ensures Before(texts[i], texts[j])
  {
    if i < j - 1 {
      AllBefore(texts, i, j - 1);
      LessTransitive(Codes(texts[i]), Codes(texts[j - 1]), Codes(texts[j]));
    }
  }

  lemma BeforeIrreflexive(text: string)
    ensures !Before(text, text)
  {
    LessIrreflexive(Codes(text));
  }

  predicate Present(value: Option<string>) {
    value.Some? && value.value != ""
  }

  /** A list of texts, none of them empty and none repeated. */
  predicate GoodList(value: Option<seq<Option<string>>>) {
    && value.Some?
    && (forall i :: 0 <= i < |value.value| ==> Present(value.value[i]))
    && forall i, j :: 0 <= i < j < |value.value| ==> value.value[i] != value.value[j]
  }

  /** A file name without a directory that ends as wheels do, and a digest of 64 lower-case
      hexadecimal digits. */
  ghost predicate GoodArtifact(raw: Option<RawArtifact>) {
    && raw.Some? && raw.value.filename.Some? && raw.value.sha256.Some?
    && (exists stem: string :: raw.value.filename.value == stem + ".whl")
    && (forall i :: 0 <= i < |raw.value.filename.value| ==> raw.value.filename.value[i] != '/')
    && |raw.value.sha256.value| == 64
    && forall i :: 0 <= i < 64 ==> raw.value.sha256.value[i] in "0123456789abcdef"
  }

  /** No artifacts at all, or a list of good ones in strictly increasing order of file name. */
  ghost predicate GoodArtifacts(raw: RawArtifacts) {
    || raw.Absent?
    || (&& raw.Listed?
        && (forall i :: 0 <= i < |raw.items| ==> GoodArtifact(raw.items[i]))
        && forall i :: 0 < i < |raw.items| ==>
             Before(raw.items[i - 1].value.filename.value, raw.items[i].value.filename.value))
  }

  /** Normalized, the texts never decrease. */
  ghost predicate InCanonicalOrder(items: seq<Option<string>>)
    requires forall i :: 0 <= i < |items| ==> items[i].Some?
  {
    forall i :: 0 < i < |items| ==>
      var a, b := CanonicalizeName(items[i - 1].value), CanonicalizeName(items[i].value);
      a == b || Before(a, b)
  }

  ghost predicate GoodEntry(raw: Option<RawPackage>) {
    && raw.Some?
    && Present(raw.value.distribution) && Present(raw.value.version) && Present(raw.value.license)
    && raw.value.direct.Some?
    && GoodList(raw.value.dependencies) && InCanonicalOrder(raw.value.dependencies.value)
    && GoodArtifacts(raw.value.artifacts)
  }

  /** Why an artifact is refused: its table, name and digest, then their forms. */
  lemma ArtifactRefused(raw: Option<RawArtifact>)
    requires ArtifactOf(raw).Err?
    ensures ArtifactOf(raw).error
         == if raw.None? then NotATable
            else if !Present(raw.value.filename) then MissingString("filename")
            else if !Present(raw.value.sha256) then MissingString("sha256")
            else if !PlainWheel(raw.value.filename.value) then NotAWheel
            else NotADigest
  {
  }

  lemma {:induction false} ArtifactListMeaning(items: seq<Option<RawArtifact>>)
    ensures ArtifactList(items).Ok? <==> forall i :: 0 <= i < |items| ==> ArtifactOf(items[i]).Ok?
    ensures ArtifactList(items).Ok? ==>
              var artifacts := ArtifactList(items).value;
              |artifacts| == |items| && forall i :: 0 <= i < |items| ==> ArtifactOf(items[i]) == Ok(artifacts[i])
  {
    hide ArtifactOf;
    if items != [] {
      ArtifactListMeaning(items[..|items| - 1]);
      assert forall i :: 0 <= i < |items| - 1 ==> items[..|items| - 1][i] == items[i];
    }
  }

  lemma WheelMeans(filename: string)
    ensures PlainWheel(filename)
       <==> && (exists stem: string :: filename == stem + ".whl")
            && forall i :: 0 <= i < |filename| ==> filename[i] != '/'
  {
    if PlainWheel(filename) {
      assert filename == filename[..|filename| - 4] + ".whl";
    }
    if exists stem: string :: filename == stem + ".whl" {
      var stem: string :| filename == stem + ".whl";
      assert filename[|stem|..|stem| + 4] == ".whl";
    }
  }

  lemma DigestMeans(digest: string)
    ensures IsSha256(digest) <==> |digest| == 64 && forall i :: 0 <= i < 64 ==> digest[i] in "0123456789abcdef"
  {
    forall c: char ensures ('0' <= c <= '9' || 'a' <= c <= 'f') <==> c in "0123456789abcdef" {
      var digits := "0123456789abcdef";
      if '0' <= c <= '9' {
        assert digits[c as int - '0' as int] == c;
      }
      if 'a' <= c <= 'f' {
        assert digits[c as int - 'a' as int + 10] == c;
      }
    }
  }

  lemma ArtifactAccepted(raw: Option<RawArtifact>)
    ensures ArtifactOf(raw).Ok? <==> GoodArtifact(raw)
    ensures GoodArtifact(raw) ==>
              && raw.Some? && raw.value.filename.Some?
              && ArtifactOf(raw).value.filename == raw.value.filename.value
  {
    hide PlainWheel, IsSha256;
    if raw.Some? && raw.value.filename.Some? && raw.value.sha256.Some? {
      WheelMeans(raw.value.filename.value);
      DigestMeans(raw.value.sha256.value);
    }
  }

  lemma ArtifactsAccepted(raw: RawArtifacts)
    ensures ArtifactsOf(raw).Ok? <==> GoodArtifacts(raw)
  {
    hide ArtifactOf, GoodArtifact, Sorted, NoRepeats, Before;
    if raw.Listed? {
      ArtifactListMeaning(raw.items);
      forall i | 0 <= i < |raw.items|
        ensures ArtifactOf(raw.items[i]).Ok? <==> GoodArtifact(raw.items[i])
        ensures GoodArtifact(raw.items[i]) ==>
                  && raw.items[i].Some? && raw.items[i].value.filename.Some?
                  && ArtifactOf(raw.items[i]).value.filename == raw.items[i].value.filename.value
      {
        ArtifactAccepted(raw.items[i]);
      }
      if ArtifactList(raw.items).Ok? {
        StrictTexts(Filenames(ArtifactList(raw.items).value));
      }
    }
  }

  lemma ListMeans(value: Option<seq<Option<string>>>, key: string)
    ensures StringList(value, key).Ok? <==> GoodList(value)
    ensures GoodList(value) ==>
              value.Some? && AllTexts(value.value) && StringList(value, key).value == Texts(value.value)
  {
    if value.Some? && AllTexts(value.value) {
      var items, texts := value.value, Texts(value.value);
      assert forall i, j :: 0 <= i < j < |items| ==> (items[i] != items[j] <==> texts[i] != texts[j]);
    }
  }

  lemma OrderMeans(items: seq<Option<string>>)
    requires AllTexts(items)
    ensures Sorted(CanonicalNames(Texts(items))) <==> InCanonicalOrder(items)
  {
    hide Before, CanonicalizeName;
    var names := CanonicalNames(Texts(items));
    assert forall i :: 0 <= i < |items| ==> names[i] == CanonicalizeName(items[i].value);
  }

  /** An entry is accepted exactly when its raw fields are good. */
  lemma EntryAcceptedExactly(raw: Option<RawPackage>)
    ensures PackageOf(raw).Ok? <==> GoodEntry(raw)
  {
    hide Sorted, NoRepeats, ArtifactsOf, GoodArtifacts, StringList, GoodList, InCanonicalOrder, AllTexts;
    if raw.Some? {
      ArtifactsAccepted(raw.value.artifacts);
      ListMeans(raw.value.dependencies, "dependencies");
      if GoodList(raw.value.dependencies) {
        OrderMeans(raw.value.dependencies.value);
      }
    }
  }

  lemma TypedArtifactGood(raw: Option<RawArtifact>)
    requires ArtifactOf(raw).Ok?
    ensures var artifact := ArtifactOf(raw).value;
            GoodArtifact(Some(RawArtifact(Some(artifact.filename), Some(artifact.sha256))))
  {
    hide PlainWheel, IsSha256;
    WheelMeans(ArtifactOf(raw).value.filename);
    DigestMeans(ArtifactOf(raw).value.sha256);
  }

  /** An accepted entry names its fields, and lists plain wheels with lower-case SHA-256
      digests in strictly increasing order. */
  lemma AcceptedEntry(raw: Option<RawPackage>)
    requires PackageOf(raw).Ok?
    ensures var package := PackageOf(raw).value;
            && package.distribution != "" && package.version != "" && package.license != ""
            && Sorted(package.dependencies)
            && StrictlyIncreasing(Filenames(package.artifacts))
            && forall i :: 0 <= i < |package.artifacts| ==>
                 GoodArtifact(Some(RawArtifact(Some(package.artifacts[i].filename), Some(package.artifacts[i].sha256))))
  {
    hide Sorted, Before, NoRepeats, ArtifactOf, GoodArtifact, StringList;
    var package := PackageOf(raw).value;
    if raw.value.artifacts.Listed? {
      var items := raw.value.artifacts.items;
      ArtifactListMeaning(items);
      StrictTexts(Filenames(package.artifacts));
      forall i | 0 <= i < |package.artifacts|
        ensures GoodArtifact(Some(RawArtifact(Some(package.artifacts[i].filename), Some(package.artifacts[i].sha256))))
      {
        TypedArtifactGood(items[i]);
      }
    }
  }
}
