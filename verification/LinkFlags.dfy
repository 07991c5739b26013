/** Native link arguments: the allowlisting parser of rustc's tokens and its printer. */
module LinkFlags {
  import opened Prelude
  import opened Text

  const COMMON_LIBRARIES := {"c", "dl", "m", "pthread", "resolv", "rt", "util"}
  const MACOS_LIBRARIES := COMMON_LIBRARIES + {"System", "gcc_s", "iconv"}
  const LINUX_LIBRARIES := COMMON_LIBRARIES + {"gcc_s"}
  const MACOS_FRAMEWORKS := {"CoreFoundation", "IOKit", "Security", "SystemConfiguration"}
  const FRAMEWORK := "-framework"

  datatype Link = Link(target: string, libraries: seq<string>, frameworks: seq<string>)

  datatype LinkError =
    | InvalidFrameworkToken | FrameworkNotAllowed(name: string) | LibraryNotAllowed(name: string)
    | NonRelocatable(token: string) | Unsupported(token: string) | WrongTarget

  predicate IsDarwin(target: string) {
    Contains(target, "apple-darwin")
  }

  function AllowedLibraries(target: string): set<string> {
    if IsDarwin(target) then MACOS_LIBRARIES else LINUX_LIBRARIES
  }

  predicate IsLibraryToken(token: string) {
    StartsWith(token, "-l") && |token| > 2
  }

  predicate IsRelocating(token: string) {
    StartsWith(token, "-L") || StartsWith(token, "-Wl,") || Contains(Lower(token), "rpath") || StartsWith(token, "/")
  }

  // ----- parsing

  /** The list with a name appended unless it is already there. */
  function Remember(names: seq<string>, name: string): seq<string> {
    if name in names then names else names + [name]
  }

  function ParseFrom(tokens: seq<string>, index: nat, libraries: seq<string>, frameworks: seq<string>, target: string)
    : Result<Link, LinkError>
    requires index <= |tokens|
    decreases |tokens| - index
  {
    if index == |tokens| then Ok(Link(target, libraries, frameworks))
    else
      var token := tokens[index];
      if token == FRAMEWORK then
        if !IsDarwin(target) || index + 1 >= |tokens| then Err(InvalidFrameworkToken)
        else if tokens[index + 1] !in MACOS_FRAMEWORKS then Err(FrameworkNotAllowed(tokens[index + 1]))
        else ParseFrom(tokens, index + 2, libraries, Remember(frameworks, tokens[index + 1]), target)
      else if IsLibraryToken(token) then
        if token[2..] !in AllowedLibraries(target) then Err(LibraryNotAllowed(token[2..]))
        else ParseFrom(tokens, index + 1, Remember(libraries, token[2..]), frameworks, target)
      else if IsRelocating(token) then Err(NonRelocatable(token))
      else Err(Unsupported(token))
  }

  method ParseTokens(tokens: seq<string>, target: string) returns (result: Result<Link, LinkError>)
    ensures result == ParseFrom(tokens, 0, [], [], target)
  {
    hide IsDarwin, AllowedLibraries, IsLibraryToken, IsRelocating;
    var libraries: seq<string> := [];
    var frameworks: seq<string> := [];
    var index := 0;
    while index < |tokens|
      invariant index <= |tokens|
      invariant ParseFrom(tokens, index, libraries, frameworks, target) == ParseFrom(tokens, 0, [], [], target)
    {
      var token := tokens[index];
      if token == FRAMEWORK {
        if !IsDarwin(target) || index + 1 >= |tokens| {
          return Err(InvalidFrameworkToken);
        }
        var framework := tokens[index + 1];
        if framework !in MACOS_FRAMEWORKS {
          return Err(FrameworkNotAllowed(framework));
        }
        if framework !in frameworks {
          frameworks := frameworks + [framework];
        }
        index := index + 2;
        continue;
      }
      if IsLibraryToken(token) {
        LibraryTokenLength(token);
        var library := token[2..];
        if library !in AllowedLibraries(target) {
          return Err(LibraryNotAllowed(library));
        }
        if library !in libraries {
          libraries := libraries + [library];
        }
        index := index + 1;
        continue;
      }
      if IsRelocating(token) {
        return Err(NonRelocatable(token));
      }
      return Err(Unsupported(token));
    }
    result := Ok(Link(target, libraries, frameworks));
  }

  lemma LibraryTokenLength(token: string)
    requires IsLibraryToken(token)
    ensures |token| > 2
  {
  }

  // ----- printing

  function LibraryFlags(libraries: seq<string>): (flags: seq<string>)
    ensures |flags| == |libraries| && forall i :: 0 <= i < |flags| ==> flags[i] == "-l" + libraries[i]
  {
    seq(|libraries|, i requires 0 <= i < |libraries| => "-l" + libraries[i])
  }

  function FrameworkFlags(frameworks: seq<string>): (flags: seq<string>)
    ensures |flags| == 2 * |frameworks|
  {
    if frameworks == [] then []
    else FrameworkFlags(frameworks[..|frameworks| - 1]) + [FRAMEWORK, frameworks[|frameworks| - 1]]
  }

  function Flags(link: Link): seq<string> {
    LibraryFlags(link.libraries) + FrameworkFlags(link.frameworks)
  }

  method PrintFlags(link: Link, target: string) returns (result: Result<seq<string>, LinkError>)
    ensures result == if link.target == target then Ok(Flags(link)) else Err(WrongTarget)
  {
    if link.target != target {
      return Err(WrongTarget);
    }
    var flags := LibraryFlags(link.libraries);
    for i := 0 to |link.frameworks|
      invariant flags == LibraryFlags(link.libraries) + FrameworkFlags(link.frameworks[..i])
    {
      assert link.frameworks[..i + 1][..i] == link.frameworks[..i];
      flags := flags + [FRAMEWORK, link.frameworks[i]];
    }
    assert link.frameworks[..|link.frameworks|] == link.frameworks;
    result := Ok(flags);
  }

  // ----- well-formed records

  /** Allowlisted names without repetition, and frameworks only on macOS. */
  ghost predicate WellFormed(link: Link) {
    && NoRepeats(link.libraries) && NoRepeats(link.frameworks)
    && (forall name :: name in link.libraries ==> name in AllowedLibraries(link.target))
    && (forall name :: name in link.frameworks ==> name in MACOS_FRAMEWORKS)
    && (link.frameworks != [] ==> IsDarwin(link.target))
  }

  lemma AllowedNonEmpty(name: string, target: string)
    requires name in AllowedLibraries(target)
    ensures name != ""
  {
  }

  lemma PrintedLibrary(name: string)
    requires name != ""
    ensures "-l" + name != FRAMEWORK && IsLibraryToken("-l" + name) && ("-l" + name)[2..] == name
  {
    assert ("-l" + name)[1] == 'l' && FRAMEWORK[1] == 'f';
  }

  lemma {:induction false} FrameworkFlagAt(frameworks: seq<string>, k: nat)
    requires k < |frameworks|
    ensures FrameworkFlags(frameworks)[2 * k] == FRAMEWORK && FrameworkFlags(frameworks)[2 * k + 1] == frameworks[k]
  {
    if k < |frameworks| - 1 {
      FrameworkFlagAt(frameworks[..|frameworks| - 1], k);
    }
  }

  lemma PrefixRemembered(names: seq<string>, k: nat)
    requires NoRepeats(names) && k < |names|
    ensures Remember(names[..k], names[k]) == names[..k + 1]
  {
  }

  /** Parsing the printed libraries from the k-th on continues behind them. */
  lemma {:induction false} ParsesLibraries(link: Link, k: nat)
    requires WellFormed(link) && k <= |link.libraries|
    ensures ParseFrom(Flags(link), k, link.libraries[..k], [], link.target)
         == ParseFrom(Flags(link), |link.libraries|, link.libraries, [], link.target)
    decreases |link.libraries| - k
  {
    hide AllowedLibraries, IsLibraryToken, IsDarwin, Remember, FrameworkFlags, IsRelocating;
    if k == |link.libraries| {
      assert link.libraries[..k] == link.libraries;
    } else {
      var name := link.libraries[k];
      assert Flags(link)[k] == "-l" + name;
      AllowedNonEmpty(name, link.target);
      PrintedLibrary(name);
      PrefixRemembered(link.libraries, k);
      ParsesLibraries(link, k + 1);
    }
  }

  /** Parsing the printed frameworks from the k-th on completes the record. */
  lemma {:induction false} ParsesFrameworks(link: Link, k: nat)
    requires WellFormed(link) && k <= |link.frameworks|
    ensures ParseFrom(Flags(link), |link.libraries| + 2 * k, link.libraries, link.frameworks[..k], link.target)
         == Ok(link)
    decreases |link.frameworks| - k
  {
    hide AllowedLibraries, IsLibraryToken, IsDarwin, Remember, FrameworkFlags, IsRelocating;
    if k == |link.frameworks| {
      assert link.frameworks[..k] == link.frameworks;
    } else {
      var n := |link.libraries| + 2 * k;
      FrameworkFlagAt(link.frameworks, k);
      assert Flags(link)[n] == FRAMEWORK && Flags(link)[n + 1] == link.frameworks[k];
      PrefixRemembered(link.frameworks, k);
      ParsesFrameworks(link, k + 1);
    }
  }

  /** Round trip: parsing the printed flags of a well-formed record returns the record. */
  lemma PrintThenParse(link: Link)
    requires WellFormed(link)
    ensures ParseFrom(Flags(link), 0, [], [], link.target) == Ok(link)
  {
    assert link.libraries[..0] == [] && link.frameworks[..0] == [];
    ParsesLibraries(link, 0);
    ParsesFrameworks(link, 0);
  }

  // ----- what an accepted token list means

  datatype Item = Library(name: string) | Framework(name: string)

  /** The libraries and frameworks named by an accepted token list, in order. */
  function Items(tokens: seq<string>, index: nat): seq<Item>
    requires index <= |tokens|
    decreases |tokens| - index
  {
    if index >= |tokens| then []
    else if tokens[index] == FRAMEWORK then
      if index + 1 < |tokens| then [Framework(tokens[index + 1])] + Items(tokens, index + 2) else []
    else if IsLibraryToken(tokens[index]) then [Library(tokens[index][2..])] + Items(tokens, index + 1)
    else []
  }

  function LibrariesOf(items: seq<Item>): seq<string> {
    if items == [] then []
    else (if items[0].Library? then [items[0].name] else []) + LibrariesOf(items[1..])
  }

  function FrameworksOf(items: seq<Item>): seq<string> {
    if items == [] then []
    else (if items[0].Framework? then [items[0].name] else []) + FrameworksOf(items[1..])
  }

  /** The first occurrence of every name, in order. */
  function FirstOccurrences(names: seq<string>): seq<string> {
    if names == [] then []
    else
      var last := |names| - 1;
      FirstOccurrences(names[..last]) + if names[last] in names[..last] then [] else [names[last]]
  }

  lemma {:induction false} FirstOccurrencesMembers(names: seq<string>)
    ensures forall name :: name in FirstOccurrences(names) <==> name in names
    ensures NoRepeats(FirstOccurrences(names))
  {
    if names != [] {
      FirstOccurrencesMembers(names[..|names| - 1]);
      assert names == names[..|names| - 1] + [names[|names| - 1]];
    }
  }

  lemma RememberNext(names: seq<string>, name: string)
    ensures Remember(FirstOccurrences(names), name) == FirstOccurrences(names + [name])
  {
    FirstOccurrencesMembers(names);
    assert (names + [name])[..|names|] == names;
  }

  lemma Regroup(before: seq<string>, name: string, after: seq<string>)
    ensures before + [name] + after == before + ([name] + after)
    ensures before + [] + after == before + after
  {
  }

  /** Accepted tokens from `index` on, after names already seen. */
  lemma {:induction false} ParseCollects(tokens: seq<string>, index: nat, libraries: seq<string>,
                                         frameworks: seq<string>, target: string)
    requires index <= |tokens|
    requires ParseFrom(tokens, index, FirstOccurrences(libraries), FirstOccurrences(frameworks), target).Ok?
    ensures ParseFrom(tokens, index, FirstOccurrences(libraries), FirstOccurrences(frameworks), target).value
         == Link(target, FirstOccurrences(libraries + LibrariesOf(Items(tokens, index))),
                 FirstOccurrences(frameworks + FrameworksOf(Items(tokens, index))))
    decreases |tokens| - index
  {
    hide IsLibraryToken, AllowedLibraries, IsDarwin, IsRelocating, FirstOccurrences;
    var items := Items(tokens, index);
    if index == |tokens| {
      assert libraries + [] == libraries && frameworks + [] == frameworks;
    } else if tokens[index] == FRAMEWORK {
      var name := tokens[index + 1];
      RememberNext(frameworks, name);
      ParseCollects(tokens, index + 2, libraries, frameworks + [name], target);
      assert items[1..] == Items(tokens, index + 2);
      Regroup(frameworks, name, FrameworksOf(items[1..]));
      assert LibrariesOf(items) == LibrariesOf(items[1..]);
    } else {
      LibraryTokenLength(tokens[index]);
      var name := tokens[index][2..];
      RememberNext(libraries, name);
      ParseCollects(tokens, index + 1, libraries + [name], frameworks, target);
      assert items[1..] == Items(tokens, index + 1);
      Regroup(libraries, name, LibrariesOf(items[1..]));
      assert FrameworksOf(items) == FrameworksOf(items[1..]);
    }
  }

  /** What the parser accepts is allowlisted. */
  lemma {:induction false} ParseAllows(tokens: seq<string>, index: nat, libraries: seq<string>, frameworks: seq<string>,
                                       target: string)
    requires index <= |tokens| && WellFormed(Link(target, libraries, frameworks))
    requires ParseFrom(tokens, index, libraries, frameworks, target).Ok?
    ensures WellFormed(ParseFrom(tokens, index, libraries, frameworks, target).value)
    decreases |tokens| - index
  {
    hide IsLibraryToken, AllowedLibraries, IsDarwin, IsRelocating;
    if index < |tokens| {
      if tokens[index] == FRAMEWORK {
        ParseAllows(tokens, index + 2, libraries, Remember(frameworks, tokens[index + 1]), target);
      } else {
        LibraryTokenLength(tokens[index]);
        ParseAllows(tokens, index + 1, Remember(libraries, tokens[index][2..]), frameworks, target);
      }
    }
  }

  /**
   * For every accepted token list, printing what was parsed gives each library and then
   * each framework once, in the order of first occurrence; parsing those flags gives the
   * same record, so a second pass changes nothing.
   */
  lemma ParseThenPrint(tokens: seq<string>, target: string)
    requires ParseFrom(tokens, 0, [], [], target).Ok?
    ensures var link := ParseFrom(tokens, 0, [], [], target).value; var items := Items(tokens, 0);
            && Flags(link) == LibraryFlags(FirstOccurrences(LibrariesOf(items)))
                              + FrameworkFlags(FirstOccurrences(FrameworksOf(items)))
            && ParseFrom(Flags(link), 0, [], [], target) == Ok(link)
  {
    hide ParseFrom, Items;
    assert FirstOccurrences([]) == [];
    ParseCollects(tokens, 0, [], [], target);
    var items := Items(tokens, 0);
    assert [] + LibrariesOf(items) == LibrariesOf(items) && [] + FrameworksOf(items) == FrameworksOf(items);
    ParseAllows(tokens, 0, [], [], target);
    PrintThenParse(ParseFrom(tokens, 0, [], [], target).value);
  }

  // ----- which token lists are accepted

  /** The libraries and frameworks a target may link. */
  ghost predicate Allowed(item: Item, target: string) {
    match item
    case Library(name) =>
      if IsDarwin(target) then
        name in {"c", "dl", "m", "pthread", "resolv", "rt", "util", "System", "gcc_s", "iconv"}
      else name in {"c", "dl", "m", "pthread", "resolv", "rt", "util", "gcc_s"}
    case Framework(name) =>
      IsDarwin(target) && name in {"CoreFoundation", "IOKit", "Security", "SystemConfiguration"}
  }

  /** Apple targets name apple-darwin. */
  lemma DarwinTargets(target: string)
    ensures IsDarwin(target) <==> exists head, rest :: target == head + "apple-darwin" + rest
  {
    if IsDarwin(target) {
      var i :| 0 <= i <= |target| && OccursAt(target, "apple-darwin", i);
      assert target == target[..i] + "apple-darwin" + target[i + |"apple-darwin"|..];
    }
    if exists head, rest :: target == head + "apple-darwin" + rest {
      var head, rest :| target == head + "apple-darwin" + rest;
      assert target[|head|..|head| + |"apple-darwin"|] == "apple-darwin";
      assert OccursAt(target, "apple-darwin", |head|);
    }
  }

  function TokensOf(item: Item): seq<string> {
    match item
    case Library(name) => ["-l" + name]
    case Framework(name) => ["-framework", name]
  }

  function Render(items: seq<Item>): seq<string> {
    if items == [] then [] else TokensOf(items[0]) + Render(items[1..])
  }

  ghost predicate AllAllowed(items: seq<Item>, target: string) {
    forall i :: 0 <= i < |items| ==> Allowed(items[i], target)
  }

  lemma AllowedLibrary(name: string, target: string)
    ensures Allowed(Library(name), target) <==> name in AllowedLibraries(target)
  {
  }

  lemma {:induction false} RenderAccepted(items: seq<Item>, before: seq<string>, libraries: seq<string>,
                                          frameworks: seq<string>, target: string, after: seq<string>)
    returns (l: seq<string>, f: seq<string>)
    requires AllAllowed(items, target)
    ensures ParseFrom(before + Render(items) + after, |before|, libraries, frameworks, target)
         == ParseFrom(before + Render(items) + after, |before| + |Render(items)|, l, f, target)
  {
    hide IsLibraryToken, IsDarwin, AllowedLibraries, Remember, IsRelocating;
    var tokens := before + Render(items) + after;
    if items == [] {
      assert |Render(items)| == 0;
      l, f := libraries, frameworks;
    } else {
      var first := TokensOf(items[0]);
      assert Allowed(items[0], target);
      assert tokens[|before|] == first[0];
      assert before + Render(items) + after == (before + first) + Render(items[1..]) + after;
      if items[0].Library? {
        AllowedLibrary(items[0].name, target);
        AllowedNonEmpty(items[0].name, target);
        PrintedLibrary(items[0].name);
        l, f := RenderAccepted(items[1..], before + first, Remember(libraries, items[0].name), frameworks, target,
                               after);
      } else {
        assert tokens[|before| + 1] == first[1];
        l, f := RenderAccepted(items[1..], before + first, libraries, Remember(frameworks, items[0].name), target,
                               after);
      }
    }
  }

  lemma {:induction false} AcceptedRenders(tokens: seq<string>, index: nat, libraries: seq<string>,
                                           frameworks: seq<string>, target: string)
    requires index <= |tokens| && ParseFrom(tokens, index, libraries, frameworks, target).Ok?
    ensures AllAllowed(Items(tokens, index), target) && Render(Items(tokens, index)) == tokens[index..]
    decreases |tokens| - index
  {
    hide IsLibraryToken, IsDarwin, AllowedLibraries, Remember, IsRelocating, Allowed;
    if index < |tokens| {
      var items := Items(tokens, index);
      if tokens[index] == FRAMEWORK {
        AcceptedRenders(tokens, index + 2, libraries, Remember(frameworks, tokens[index + 1]), target);
        assert items[1..] == Items(tokens, index + 2);
        AllowedFramework(tokens[index + 1], target);
        assert tokens[index..] == ["-framework", tokens[index + 1]] + tokens[index + 2..];
      } else {
        LibraryTokenLength(tokens[index]);
        LibraryTokenIs(tokens[index]);
        AcceptedRenders(tokens, index + 1, Remember(libraries, tokens[index][2..]), frameworks, target);
        assert items[1..] == Items(tokens, index + 1);
        AllowedLibrary(tokens[index][2..], target);
        assert tokens[index..] == [tokens[index]] + tokens[index + 1..];
      }
    }
  }

  lemma AllowedFramework(name: string, target: string)
    ensures Allowed(Framework(name), target) <==> IsDarwin(target) && name in MACOS_FRAMEWORKS
  {
  }

  lemma LibraryTokenIs(token: string)
    requires IsLibraryToken(token)
    ensures token == "-l" + token[2..]
  {
    assert token[0..2] == "-l";
  }

  /** A token list is accepted exactly when it spells allowed libraries and frameworks. */
  lemma AcceptedExactly(tokens: seq<string>, target: string)
    ensures ParseFrom(tokens, 0, [], [], target).Ok?
       <==> exists items :: AllAllowed(items, target) && tokens == Render(items)
  {
    hide ParseFrom, AllAllowed;
    if ParseFrom(tokens, 0, [], [], target).Ok? {
      AcceptedRenders(tokens, 0, [], [], target);
    }
    if exists items :: AllAllowed(items, target) && tokens == Render(items) {
      var items :| AllAllowed(items, target) && tokens == Render(items);
      var l, f := RenderAccepted(items, [], [], [], target, []);
      assert [] + Render(items) + [] == tokens;
      EndAccepted(tokens, l, f, target);
    }
  }

  lemma EndAccepted(tokens: seq<string>, libraries: seq<string>, frameworks: seq<string>, target: string)
    ensures ParseFrom(tokens, |tokens|, libraries, frameworks, target).Ok?
  {
  }

  /** What is wrong with a token that continues no accepted list. */
  ghost function Fault(tokens: seq<string>, target: string): Option<LinkError>
    requires tokens != []
  {
    var token := tokens[0];
    if token == "-framework" then
      if !IsDarwin(target) || |tokens| == 1 then Some(InvalidFrameworkToken)
      else if !Allowed(Framework(tokens[1]), target) then Some(FrameworkNotAllowed(tokens[1]))
      else None
    else if "-l" < token then
      if Allowed(Library(token[2..]), target) then None else Some(LibraryNotAllowed(token[2..]))
    else if "-L" <= token || "-Wl," <= token || "/" <= token || Contains(Lower(token), "rpath") then
      Some(NonRelocatable(token))
    else Some(Unsupported(token))
  }

  /** The first faulty token after allowed ones decides the error. */
  lemma RefusedExactly(items: seq<Item>, rest: seq<string>, target: string)
    requires AllAllowed(items, target) && rest != [] && Fault(rest, target).Some?
    ensures ParseFrom(Render(items) + rest, 0, [], [], target) == Err(Fault(rest, target).value)
  {
    hide AllAllowed, Fault, ParseFrom, Render;
    var l, f := RenderAccepted(items, [], [], [], target, rest);
    var tokens := Render(items) + rest;
    assert [] + Render(items) + rest == tokens;
    assert tokens[|Render(items)|..] == rest;
    FaultFound(tokens, |Render(items)|, l, f, target);
  }

  lemma FaultFound(tokens: seq<string>, index: nat, libraries: seq<string>, frameworks: seq<string>, target: string)
    requires index < |tokens| && Fault(tokens[index..], target).Some?
    ensures ParseFrom(tokens, index, libraries, frameworks, target) == Err(Fault(tokens[index..], target).value)
  {
    hide IsDarwin, Contains;
    AllowedLibrary(if |tokens[index]| >= 2 then tokens[index][2..] else "", target);
    LibraryStarts(tokens[index]);
    StartsAre(tokens[index]);
    if index + 1 < |tokens| {
      AllowedFramework(tokens[index + 1], target);
    }
  }

  lemma LibraryStarts(token: string)
    ensures IsLibraryToken(token) <==> "-l" < token
  {
  }

  lemma StartsAre(token: string)
    ensures IsRelocating(token)
       <==> "-L" <= token || "-Wl," <= token || "/" <= token || Contains(Lower(token), "rpath")
  {
    hide Contains;
  }
}
