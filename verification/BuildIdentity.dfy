/**
 * The byte stream hashed into the native build identity: a domain prefix followed by the
 * length-framed path and data of every input file in path order.
 */
module BuildIdentity {
  import opened Prelude
  import opened Ordering

  newtype Byte = b: int | 0 <= b < 256

  type Bytes = seq<Byte>

  datatype File = File(path: Bytes, data: Bytes)

  const LENGTH_BYTES := 8
  const SLASH: Byte := 47

  // ----- lengths

  function Power256(k: nat): nat {
    if k == 0 then 1 else 256 * Power256(k - 1)
  }

  /** Little-endian representation on exactly `k` bytes of a number that fits. */
  function LittleEndian(n: nat, k: nat): (bytes: Bytes)
    ensures |bytes| == k
  {
    if k == 0 then [] else [(n % 256) as Byte] + LittleEndian(n / 256, k - 1)
  }

  function FromLittleEndian(bytes: Bytes): nat {
    if bytes == [] then 0 else bytes[0] as nat + 256 * FromLittleEndian(bytes[1..])
  }

  lemma {:induction false} LengthRoundTrip(n: nat, k: nat)
    requires n < Power256(k)
    ensures FromLittleEndian(LittleEndian(n, k)) == n
  {
    if k > 0 {
      LengthRoundTrip(n / 256, k - 1);
      assert LittleEndian(n, k)[1..] == LittleEndian(n / 256, k - 1);
    }
  }

  // ----- the stream

  predicate Representable(bytes: Bytes) {
    |bytes| < Power256(LENGTH_BYTES)
  }

  function Frame(bytes: Bytes): Bytes {
    LittleEndian(|bytes|, LENGTH_BYTES) + bytes
  }

  function Body(files: seq<File>): Bytes {
    if files == [] then [] else Frame(files[0].path) + (Frame(files[0].data) + Body(files[1..]))
  }

  predicate AllRepresentable(files: seq<File>) {
    forall i :: 0 <= i < |files| ==> Representable(files[i].path) && Representable(files[i].data)
  }

  // ----- the decoder

  datatype Frames = Frames(bytes: Bytes, rest: Bytes)

  /** One framed byte string off the front of a stream. */
  function ReadFrame(stream: Bytes): (r: Option<Frames>)
    ensures r.Some? ==> |r.value.rest| < |stream|
  {
    if |stream| < LENGTH_BYTES then None
    else
      var n := FromLittleEndian(stream[..LENGTH_BYTES]);
      if LENGTH_BYTES + n > |stream| then None
      else Some(Frames(stream[LENGTH_BYTES..LENGTH_BYTES + n], stream[LENGTH_BYTES + n..]))
  }

  function DecodeBody(stream: Bytes): Option<seq<File>>
    decreases |stream|
  {
    if stream == [] then Some([])
    else
      match ReadFrame(stream)
      case None => None
      case Some(path) =>
        match ReadFrame(path.rest)
        case None => None
        case Some(data) =>
          match DecodeBody(data.rest)
          case None => None
          case Some(files) => Some([File(path.bytes, data.bytes)] + files)
  }

  lemma ReadsFrame(bytes: Bytes, rest: Bytes)
    requires Representable(bytes)
    ensures ReadFrame(Frame(bytes) + rest) == Some(Frames(bytes, rest))
  {
    hide LittleEndian, FromLittleEndian, Power256;
    var stream := Frame(bytes) + rest;
    LengthRoundTrip(|bytes|, LENGTH_BYTES);
    assert stream[..LENGTH_BYTES] == LittleEndian(|bytes|, LENGTH_BYTES);
    assert stream[LENGTH_BYTES..LENGTH_BYTES + |bytes|] == bytes;
    assert stream[LENGTH_BYTES + |bytes|..] == rest;
  }

  /** The decoder recovers every file, in order, from the stream. */
  lemma {:induction false} DecodesBody(files: seq<File>)
    requires AllRepresentable(files)
    ensures DecodeBody(Body(files)) == Some(files)
  {
    hide ReadFrame, Frame, Representable;
    if files != [] {
      var rest := Body(files[1..]);
      DecodesBody(files[1..]);
      ReadsFrame(files[0].path, Frame(files[0].data) + rest);
      ReadsFrame(files[0].data, rest);
      FrameNonEmpty(files[0].path);
      assert Body(files) != [];
      assert files == [files[0]] + files[1..];
    }
  }

  lemma FrameNonEmpty(bytes: Bytes)
    ensures |Frame(bytes)| >= LENGTH_BYTES
  {
  }

  /** Equal streams come from equal file lists. */
  lemma FramingInjective(a: seq<File>, b: seq<File>)
    requires AllRepresentable(a) && AllRepresentable(b) && Body(a) == Body(b)
    ensures a == b
  {
    DecodesBody(a);
    DecodesBody(b);
  }

  // ----- path order

  /** Paths compare part by part: the separator ranks below every other byte. */
  function PathKey(path: Bytes): (key: seq<int>)
    ensures |key| == |path|
    ensures forall i :: 0 <= i < |path| ==> key[i] == if path[i] == SLASH then 0 else path[i] as int + 1
  {
    seq(|path|, i requires 0 <= i < |path| => if path[i] == SLASH then 0 else path[i] as int + 1)
  }

  lemma PathKeyInjective(a: Bytes, b: Bytes)
    requires PathKey(a) == PathKey(b)
    ensures a == b
  {
  }

  function Keys(paths: seq<Bytes>): (keys: seq<seq<int>>)
    ensures |keys| == |paths| && forall i :: 0 <= i < |paths| ==> keys[i] == PathKey(paths[i])
  {
    seq(|paths|, i requires 0 <= i < |paths| => PathKey(paths[i]))
  }

  predicate SortedPaths(paths: seq<Bytes>) {
    StrictlySorted(Keys(paths))
  }

  lemma SortedPathsUnique(a: seq<Bytes>, b: seq<Bytes>)
    requires SortedPaths(a) && SortedPaths(b)
    requires forall path :: path in a <==> path in b
    ensures a == b
  {
    forall key ensures key in Keys(a) <==> key in Keys(b) {
      KeyMembers(a, b, key);
      KeyMembers(b, a, key);
    }
    SortedListingUnique(Keys(a), Keys(b));
    forall i | 0 <= i < |a| ensures a[i] == b[i] {
      assert Keys(a)[i] == Keys(b)[i];
      PathKeyInjective(a[i], b[i]);
    }
  }

  lemma KeyMembers(a: seq<Bytes>, b: seq<Bytes>, key: seq<int>)
    requires forall path :: path in a ==> path in b
    ensures key in Keys(a) ==> key in Keys(b)
  {
    if key in Keys(a) {
      var i :| 0 <= i < |a| && Keys(a)[i] == key;
      assert a[i] in b;
      var j :| 0 <= j < |b| && b[j] == a[i];
      assert Keys(b)[j] == key;
    }
  }

  // ----- collecting the inputs

  /** Insertion of a path into a strictly sorted list, unless it is already there. */
  function Insert(paths: seq<Bytes>, path: Bytes): seq<Bytes> {
    if paths == [] then [path]
    else if paths[0] == path then paths
    else if Less(PathKey(path), PathKey(paths[0])) then [path] + paths
    else [paths[0]] + Insert(paths[1..], path)
  }

  /** The distinct paths of an enumeration in path order. */
  function SortedDistinct(paths: seq<Bytes>): seq<Bytes> {
    if paths == [] then [] else Insert(SortedDistinct(paths[1..]), paths[0])
  }

  lemma {:induction false} InsertMembers(paths: seq<Bytes>, path: Bytes)
    ensures forall p :: p in Insert(paths, path) <==> p in paths || p == path
  {
    if paths != [] {
      InsertMembers(paths[1..], path);
      assert paths == [paths[0]] + paths[1..];
    }
  }

  lemma {:induction false} SortedDistinctMembers(paths: seq<Bytes>)
    ensures forall p :: p in SortedDistinct(paths) <==> p in paths
  {
    if paths != [] {
      SortedDistinctMembers(paths[1..]);
      InsertMembers(SortedDistinct(paths[1..]), paths[0]);
      assert paths == [paths[0]] + paths[1..];
    }
  }

  /** A list is sorted when its head is below every other path and its tail is sorted. */
  lemma SortedCons(first: Bytes, rest: seq<Bytes>)
    requires SortedPaths(rest) && forall p :: p in rest ==> Less(PathKey(first), PathKey(p))
    ensures SortedPaths([first] + rest)
  {
  }

  lemma SortedTail(paths: seq<Bytes>)
    requires SortedPaths(paths) && paths != []
    ensures SortedPaths(paths[1..])
    ensures forall p :: p in paths[1..] ==> Less(PathKey(paths[0]), PathKey(p))
  {
  }

  lemma {:induction false} InsertSorts(paths: seq<Bytes>, path: Bytes)
    requires SortedPaths(paths)
    ensures SortedPaths(Insert(paths, path))
  {
    hide SortedPaths, Less, PathKey;
    if paths == [] {
      SingleSorted(path);
    } else {
      var rest := paths[1..];
      SortedTail(paths);
      if paths[0] == path {
      } else if Less(PathKey(path), PathKey(paths[0])) {
        forall p | p in paths ensures Less(PathKey(path), PathKey(p)) {
          if p != paths[0] {
            assert p in rest;
            LessTransitive(PathKey(path), PathKey(paths[0]), PathKey(p));
          }
        }
        SortedCons(path, paths);
      } else {
        InsertSorts(rest, path);
        InsertMembers(rest, path);
        LessTotal(PathKey(path), PathKey(paths[0]));
        if PathKey(path) == PathKey(paths[0]) {
          PathKeyInjective(path, paths[0]);
        }
        SortedCons(paths[0], Insert(rest, path));
      }
    }
  }

  lemma SingleSorted(path: Bytes)
    ensures SortedPaths([path])
  {
  }

  lemma {:induction false} SortedDistinctSorts(paths: seq<Bytes>)
    ensures SortedPaths(SortedDistinct(paths))
  {
    if paths == [] {
      assert SortedPaths([]);
    } else {
      SortedDistinctSorts(paths[1..]);
      InsertSorts(SortedDistinct(paths[1..]), paths[0]);
    }
  }

  /** The regular files among sorted paths, with their canonical data. */
  function Inputs(paths: seq<Bytes>, regular: map<Bytes, Bytes>): seq<File> {
    if paths == [] then []
    else (if paths[0] in regular then [File(paths[0], regular[paths[0]])] else []) + Inputs(paths[1..], regular)
  }

  /** The hashed stream, or nothing when a length does not fit its frame. */
  function IdentityStream(domain: Bytes, enumeration: seq<Bytes>, regular: map<Bytes, Bytes>): Option<Bytes> {
    var files := Inputs(SortedDistinct(enumeration), regular);
    if AllRepresentable(files) then Some(domain + Body(files)) else None
  }

  lemma BodyAppend(files: seq<File>, file: File)
    ensures Body(files + [file]) == Body(files) + (Frame(file.path) + Frame(file.data))
  {
    hide Frame;
    if files == [] {
      assert files + [file] == [file];
      assert [file][1..] == [];
      assert Frame(file.data) + [] == Frame(file.data);
    } else {
      BodyAppend(files[1..], file);
      assert (files + [file])[1..] == files[1..] + [file];
      var p, d := Frame(files[0].path), Frame(files[0].data);
      var b, e := Body(files[1..]), Frame(file.path) + Frame(file.data);
      assert p + (d + (b + e)) == (p + (d + b)) + e;
    }
  }

  lemma {:induction false} InputsAppend(paths: seq<Bytes>, path: Bytes, regular: map<Bytes, Bytes>)
    ensures Inputs(paths + [path], regular)
         == Inputs(paths, regular) + if path in regular then [File(path, regular[path])] else []
  {
    if paths == [] {
      assert paths + [path] == [path];
    } else {
      InputsAppend(paths[1..], path, regular);
      assert (paths + [path])[1..] == paths[1..] + [path];
    }
  }

  /** The update loop over the sorted paths. */
  method HashInputs(domain: Bytes, enumeration: seq<Bytes>, regular: map<Bytes, Bytes>) returns (stream: Option<Bytes>)
    ensures stream == IdentityStream(domain, enumeration, regular)
  {
    hide Frame, Representable;
    var paths := SortedDistinct(enumeration);
    var digest := domain;
    ghost var files: seq<File> := [];
    assert domain + [] == domain;
    for i := 0 to |paths|
      invariant files == Inputs(paths[..i], regular) && AllRepresentable(files)
      invariant digest == domain + Body(files)
    {
      assert paths[..i + 1] == paths[..i] + [paths[i]];
      InputsAppend(paths[..i], paths[i], regular);
      if paths[i] !in regular {
        continue;
      }
      var path, data := paths[i], regular[paths[i]];
      if !Representable(path) || !Representable(data) {
        NotAllRepresentable(paths, i, regular);
        return None;
      }
      BodyAppend(files, File(path, data));
      files := files + [File(path, data)];
      digest := digest + Frame(path);
      digest := digest + Frame(data);
    }
    assert paths[..|paths|] == paths;
    stream := Some(digest);
  }

  lemma {:induction false} NotAllRepresentable(paths: seq<Bytes>, i: nat, regular: map<Bytes, Bytes>)
    requires i < |paths| && paths[i] in regular
    requires !Representable(paths[i]) || !Representable(regular[paths[i]])
    ensures !AllRepresentable(Inputs(paths, regular))
  {
    hide Representable;
    InputContained(paths, i, regular);
  }

  lemma {:induction false} InputContained(paths: seq<Bytes>, i: nat, regular: map<Bytes, Bytes>)
    requires i < |paths| && paths[i] in regular
    ensures File(paths[i], regular[paths[i]]) in Inputs(paths, regular)
  {
    if i > 0 {
      InputContained(paths[1..], i - 1, regular);
    }
  }

  lemma {:induction false} InputsMembers(paths: seq<Bytes>, regular: map<Bytes, Bytes>, file: File)
    ensures file in Inputs(paths, regular)
       <==> file.path in paths && file.path in regular && file.data == regular[file.path]
  {
    if paths != [] {
      InputsMembers(paths[1..], regular, file);
      assert paths == [paths[0]] + paths[1..];
    }
  }

  /** The stream does not depend on how the files were enumerated. */
  lemma EnumerationIrrelevant(domain: Bytes, a: seq<Bytes>, b: seq<Bytes>, regular: map<Bytes, Bytes>)
    requires forall path :: path in a <==> path in b
    ensures IdentityStream(domain, a, regular) == IdentityStream(domain, b, regular)
  {
    SortedDistinctMembers(a);
    SortedDistinctMembers(b);
    SortedDistinctSorts(a);
    SortedDistinctSorts(b);
    SortedPathsUnique(SortedDistinct(a), SortedDistinct(b));
  }

  /**
   * Equal identity streams mean equal inventories: the same regular files were enumerated,
   * with the same canonical data.
   */
  lemma IdentityInjective(domain: Bytes, a: seq<Bytes>, filesA: map<Bytes, Bytes>,
                          b: seq<Bytes>, filesB: map<Bytes, Bytes>)
    requires IdentityStream(domain, a, filesA).Some?
    requires IdentityStream(domain, a, filesA) == IdentityStream(domain, b, filesB)
    ensures forall path :: path in a && path in filesA <==> path in b && path in filesB
    ensures forall path :: path in a && path in filesA ==> filesA[path] == filesB[path]
  {
    hide Body, AllRepresentable, Inputs, SortedDistinct;
    var inputsA, inputsB := Inputs(SortedDistinct(a), filesA), Inputs(SortedDistinct(b), filesB);
    DomainCancels(domain, Body(inputsA), Body(inputsB));
    FramingInjective(inputsA, inputsB);
    SortedDistinctMembers(a);
    SortedDistinctMembers(b);
    forall path
      ensures path in a && path in filesA <==> path in b && path in filesB
      ensures path in a && path in filesA ==> path in filesB && filesA[path] == filesB[path]
    {
      if path in filesA {
        InputsMembers(SortedDistinct(a), filesA, File(path, filesA[path]));
        InputsMembers(SortedDistinct(b), filesB, File(path, filesA[path]));
      }
      if path in filesB {
        InputsMembers(SortedDistinct(a), filesA, File(path, filesB[path]));
        InputsMembers(SortedDistinct(b), filesB, File(path, filesB[path]));
      }
    }
  }

  lemma DomainCancels(domain: Bytes, a: Bytes, b: Bytes)
    requires domain + a == domain + b
    ensures a == b
  {
    assert (domain + a)[|domain|..] == a;
    assert (domain + b)[|domain|..] == b;
  }
}
