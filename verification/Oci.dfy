/** OCI image references: the splitting parser, the printer, and the exact set
    of references on which they undo each other. */
module Oci {
  import opened Prelude
  import opened Text

  datatype Reference = Reference(
    registry: Option<string>,
    repository: string,
    tag: Option<string>,
    digest: Option<string>)

  datatype ParseError = EmptyReference | EmptyDigest | DigestWithoutAlgorithm | EmptyRepository

  // ----- parse -----

  /** What follows the last slash. */
  function AfterSlash(s: string): (r: string)
    ensures '/' !in r && |r| <= |s| && s[|s| - |r|..] == r
  {
    match RSplitOnce(s, '/')
    case None => s
    case Some(parts) => parts.1
  }

  /** The string is something, then the separator, then `tail`. */
  predicate EndsIn(s: string, c: char, tail: string) {
    |tail| < |s| && s[|s| - |tail| - 1] == c && s[|s| - |tail|..] == tail
  }

  lemma CutRejoins(s: string, tail: string, a: string, c: char, b: string)
    requires |tail| <= |s| && s[|s| - |tail|..] == tail && tail == a + [c] + b
    ensures EndsIn(s, c, b)
  {
    var n := |s| - |tail|;
    assert s == s[..n] + tail;
  }

  function Tagged(rest: string, tag: Option<string>): string {
    if tag.Some? then rest + [':'] + tag.value else rest
  }

  /** The tag after the last colon of the last path segment, if it has one. */
  function TagOf(input: string): (tag: Option<string>)
    ensures tag.Some? ==> TagLike(tag.value) && EndsIn(input, ':', tag.value)
  {
    match RSplitOnce(AfterSlash(input), ':')
    case None => None
    case Some(parts) =>
      if parts.1 != "" && '/' !in parts.1 then
        CutRejoins(input, AfterSlash(input), parts.0, ':', parts.1);
        Some(parts.1)
      else
        None
  }

  function SplitTag(input: string): (r: Result<(string, Option<string>), ParseError>)
    ensures r.Ok? ==> r.value.1 == TagOf(input)
    ensures r.Ok? && r.value.1.None? ==> r.value.0 == input
    ensures r.Ok? && r.value.1.Some? ==>
              var n := |r.value.0|;
              n < |input| && r.value.0 == input[..n] && input[n] == ':' && r.value.1.value == input[n + 1..]
  {
    if input == "" then
      Err(EmptyRepository)
    else
      match TagOf(input)
      case Some(tag) => Ok((input[..|input| - |tag| - 1], Some(tag)))
      case None => Ok((input, None))
  }

  predicate HostLike(s: string) {
    '.' in s || ':' in s
  }

  function SplitRegistry(input: string): (Option<string>, string) {
    match SplitOnce(input, '/')
    case Some(parts) => if HostLike(parts.0) then (Some(parts.0), parts.1) else (None, input)
    case None => (None, input)
  }

  function Digested(name: string, digest: Option<string>): string {
    if digest.Some? then name + ['@'] + digest.value else name
  }

  function SplitDigest(s: string): (r: Result<(string, Option<string>), ParseError>)
    ensures r.Ok? ==> s == Digested(r.value.0, r.value.1) && '@' !in r.value.0 && GoodDigest(r.value.1)
  {
    match SplitOnce(s, '@')
    case None => Ok((s, None))
    case Some(parts) =>
      if parts.1 == "" then
        Err(EmptyDigest)
      else
        match SplitOnce(parts.1, ':')
        case None => Err(DigestWithoutAlgorithm)
        case Some(algorithm) => if algorithm.0 == "" then Err(DigestWithoutAlgorithm) else Ok((parts.0, Some(parts.1)))
  }

  function Parse(reference: string): Result<Reference, ParseError> {
    var s := Trim(reference);
    if s == "" then
      Err(EmptyReference)
    else
      var digested :- SplitDigest(s);
      var tagged :- SplitTag(digested.0);
      var (registry, repository) := SplitRegistry(tagged.0);
      Ok(Reference(registry, repository, tagged.1, digested.1))
  }

  // ----- to_string -----

  /** Registry and repository. */
  function Path(registry: Option<string>, repository: string): string {
    if registry.Some? then registry.value + ['/'] + repository else repository
  }

  function Name(r: Reference): string {
    Tagged(Path(r.registry, r.repository), r.tag)
  }

  function Print(r: Reference): string {
    Digested(Name(r), r.digest)
  }

  method ToString(r: Reference) returns (s: string)
    ensures s == Print(r)
  {
    s := "";
    if r.registry.Some? {
      s := s + r.registry.value;
      s := s + "/";
    }
    s := s + r.repository;
    if r.tag.Some? {
      s := s + ":";
      s := s + r.tag.value;
    }
    if r.digest.Some? {
      s := s + "@";
      s := s + r.digest.value;
    }
  }

  method WithTag(registry: Option<string>, repository: string, tag: string) returns (s: string)
    ensures s == Print(Reference(registry, repository, Some(tag), None))
  {
    s := "";
    if registry.Some? {
      s := s + registry.value;
      s := s + "/";
    }
    s := s + repository;
    s := s + ":";
    s := s + tag;
  }

  method WithDigest(registry: Option<string>, repository: string, digest: string) returns (s: string)
    ensures s == Print(Reference(registry, repository, None, Some(digest)))
  {
    s := "";
    if registry.Some? {
      s := s + registry.value;
      s := s + "/";
    }
    s := s + repository;
    s := s + "@";
    s := s + digest;
  }

  // ----- Printing undoes parsing -----

  lemma PathRejoins(path: string)
    ensures Path(SplitRegistry(path).0, SplitRegistry(path).1) == path
  {
  }

  lemma TagRejoins(input: string)
    requires SplitTag(input).Ok?
    ensures Tagged(SplitTag(input).value.0, SplitTag(input).value.1) == input
  {
    var (rest, tag) := SplitTag(input).value;
    if tag.Some? {
      SplitAt(input, |rest|);
    }
  }

  lemma NameRejoins(input: string, digest: Option<string>)
    requires SplitTag(input).Ok?
    ensures var (rest, tag) := SplitTag(input).value;
            var (registry, repository) := SplitRegistry(rest);
            Name(Reference(registry, repository, tag, digest)) == input
  {
    PathRejoins(SplitTag(input).value.0);
    TagRejoins(input);
  }

  lemma ParsedPrints(s: string)
    requires Parse(s).Ok?
    ensures Print(Parse(s).value) == Trim(s)
  {
    var (name, digest) := SplitDigest(Trim(s)).value;
    NameRejoins(name, digest);
    assert Name(Parse(s).value) == name && Parse(s).value.digest == digest;
  }

  /** Whatever parses prints as it was written, up to surrounding whitespace,
      and parses again to the same reference. */
  lemma ParseThenPrint(s: string)
    ensures Parse(s).Ok? ==> Print(Parse(s).value) == Trim(s) && Parse(Print(Parse(s).value)) == Parse(s)
  {
    if Parse(s).Ok? {
      ParsedPrints(s);
      TrimIsTrimmed(s);
      TrimmedParsesAlike(Trim(s), s);
    }
  }

  lemma TrimmedParsesAlike(s: string, t: string)
    requires Trim(s) == Trim(t)
    ensures Parse(s) == Parse(t)
  {
  }

  // ----- Parsing undoes printing -----

  /** A host name with a dot, or one with a port. */
  predicate Registry(h: string) {
    ('.' in h || ':' in h) && '/' !in h
  }

  predicate GoodRegistry(r: Reference) {
    if r.registry.Some? then Registry(r.registry.value) else !LooksRegistered(r.repository)
  }

  predicate TagLike(t: string) {
    t != "" && '/' !in t && ':' !in t
  }

  predicate GoodTag(r: Reference) {
    if r.tag.Some? then TagLike(r.tag.value) else !LooksTagged(r.repository)
  }

  predicate GoodDigest(digest: Option<string>) {
    digest.Some? ==> ':' in digest.value && digest.value[0] != ':'
  }

  /** The references `parse` can produce: each clause guards one of its splits. */
  predicate WellFormed(r: Reference) {
    && GoodRegistry(r)
    && GoodTag(r)
    && GoodDigest(r.digest)
    && Name(r) != "" && '@' !in Name(r)
    && Trimmed(Print(r))
  }

  /** A repository that would be read as starting with a registry. */
  predicate LooksRegistered(repository: string) {
    exists i :: 0 <= i < |repository| && repository[i] == '/' && Registry(repository[..i])
  }

  /** A repository that would be read as ending in a tag. */
  predicate LooksTagged(repository: string) {
    exists i :: 0 <= i < |repository| && repository[i] == ':' && TagLike(repository[i + 1..])
  }

  /** The parser takes a host for a registry exactly if it has a dot or a port. */
  lemma RegistryIsSplit(h: string, rest: string)
    requires '/' !in h
    ensures SplitRegistry(h + ['/'] + rest)
            == if '.' in h || ':' in h then (Some(h), rest) else (None, h + ['/'] + rest)
  {
    SplitOnceIs(h, '/', rest);
  }

  lemma RegisteredIff(repository: string)
    ensures SplitRegistry(repository).0.Some? <==> LooksRegistered(repository)
  {
    if LooksRegistered(repository) {
      var i :| 0 <= i < |repository| && repository[i] == '/' && Registry(repository[..i]);
      SplitAt(repository, i);
      RegistryIsSplit(repository[..i], repository[i + 1..]);
    }
    if SplitRegistry(repository).0.Some? {
      var parts := SplitOnce(repository, '/').value;
      RegistryIsSplit(parts.0, parts.1);
      assert repository[..|parts.0|] == parts.0;
    }
  }

  lemma TaggedIff(repository: string)
    ensures TagOf(repository).Some? <==> LooksTagged(repository)
  {
    if LooksTagged(repository) {
      var i :| 0 <= i < |repository| && repository[i] == ':' && TagLike(repository[i + 1..]);
      SplitAt(repository, i);
      TagSplits(repository[..i], repository[i + 1..]);
    }
  }

  lemma DigestSplits(name: string, digest: Option<string>)
    requires '@' !in name && GoodDigest(digest)
    ensures SplitDigest(Digested(name, digest)) == Ok((name, digest))
  {
    if digest.Some? {
      var d := digest.value;
      SplitOnceIs(name, '@', d);
      var algorithm := SplitOnce(d, ':').value;
      assert d == algorithm.0 + [':'] + algorithm.1;
    }
  }

  lemma AfterSlashAppend(path: string, suffix: string)
    requires '/' !in suffix
    ensures AfterSlash(path + suffix) == AfterSlash(path) + suffix
  {
    match RSplitOnce(path, '/') {
      case None =>
      case Some(parts) =>
        assert path + suffix == parts.0 + ['/'] + (parts.1 + suffix);
        RSplitOnceIs(parts.0, '/', parts.1 + suffix);
    }
  }

  lemma AfterSlashOfPath(registry: string, repository: string)
    ensures AfterSlash(registry + ['/'] + repository) == AfterSlash(repository)
  {
    match RSplitOnce(repository, '/') {
      case None => RSplitOnceIs(registry, '/', repository);
      case Some(parts) =>
        assert registry + ['/'] + repository == (registry + ['/'] + parts.0) + ['/'] + parts.1;
        RSplitOnceIs(registry + ['/'] + parts.0, '/', parts.1);
    }
  }

  lemma TagSplits(path: string, tag: string)
    requires tag != "" && '/' !in tag && ':' !in tag
    ensures SplitTag(path + [':'] + tag) == Ok((path, Some(tag)))
  {
    var input := path + [':'] + tag;
    assert input == path + ([':'] + tag);
    AfterSlashAppend(path, [':'] + tag);
    assert AfterSlash(input) == AfterSlash(path) + [':'] + tag;
    RSplitOnceIs(AfterSlash(path), ':', tag);
    assert input[..|input| - |tag| - 1] == path;
  }

  lemma NameSplits(r: Reference)
    requires WellFormed(r)
    ensures SplitTag(Name(r)) == Ok((Path(r.registry, r.repository), r.tag))
  {
    if r.tag.Some? {
      TagSplits(Path(r.registry, r.repository), r.tag.value);
    } else {
      TaggedIff(r.repository);
      if r.registry.Some? {
        AfterSlashOfPath(r.registry.value, r.repository);
      }
    }
  }

  lemma WellFormedParses(r: Reference)
    requires WellFormed(r)
    ensures Parse(Print(r)) == Ok(r)
  {
    TrimIsTrimmed(Print(r));
    DigestSplits(Name(r), r.digest);
    NameSplits(r);
    if r.registry.Some? {
      RegistryIsSplit(r.registry.value, r.repository);
    } else {
      RegisteredIff(r.repository);
    }
  }

  lemma ParsedRegistry(path: string, tag: Option<string>, digest: Option<string>)
    ensures var (registry, repository) := SplitRegistry(path);
            GoodRegistry(Reference(registry, repository, tag, digest))
  {
    RegisteredIff(path);
    if SplitRegistry(path).0.Some? {
      var parts := SplitOnce(path, '/').value;
      RegistryIsSplit(parts.0, parts.1);
    }
  }

  lemma TagOfPath(path: string)
    ensures TagOf(SplitRegistry(path).1) == TagOf(path)
  {
    var (registry, repository) := SplitRegistry(path);
    if registry.Some? {
      PathRejoins(path);
      AfterSlashOfPath(registry.value, repository);
    }
  }

  lemma ParsedTag(name: string, digest: Option<string>)
    requires SplitTag(name).Ok?
    ensures var (path, tag) := SplitTag(name).value;
            var (registry, repository) := SplitRegistry(path);
            GoodTag(Reference(registry, repository, tag, digest))
  {
    var path := SplitTag(name).value.0;
    TagOfPath(path);
    TaggedIff(SplitRegistry(path).1);
  }

  lemma ParsedIsWellFormed(s: string)
    requires Parse(s).Ok?
    ensures WellFormed(Parse(s).value)
  {
    ParseThenPrint(s);
    TrimIsTrimmed(s);
    var (name, digest) := SplitDigest(Trim(s)).value;
    NameRejoins(name, digest);
    ParsedTag(name, digest);
    var (path, tag) := SplitTag(name).value;
    ParsedRegistry(path, tag, digest);
  }

  /** Parser and printer undo each other on exactly the well-formed references. */
  lemma PrintThenParseIff(r: Reference)
    ensures Parse(Print(r)) == Ok(r) <==> WellFormed(r)
  {
    if WellFormed(r) {
      WellFormedParses(r);
    }
    if Parse(Print(r)) == Ok(r) {
      ParsedIsWellFormed(Print(r));
    }
  }

  // ----- Hosts and ports -----

  lemma WithRegistry(h: string, rest: string, tag: Option<string>, digest: Option<string>)
    requires Registry(h) && (if tag.Some? then TagLike(tag.value) else !LooksTagged(rest))
    requires '@' !in Tagged(h + ['/'] + rest, tag) && GoodDigest(digest)
    requires Trimmed(Digested(Tagged(h + ['/'] + rest, tag), digest))
    ensures Parse(Digested(Tagged(h + ['/'] + rest, tag), digest)) == Ok(Reference(Some(h), rest, tag, digest))
  {
    var r := Reference(Some(h), rest, tag, digest);
    assert Name(r) == Tagged(h + ['/'] + rest, tag) && '/' in Name(r);
    WellFormedParses(r);
  }

  lemma WithoutRegistry(h: string, rest: string, tag: Option<string>, digest: Option<string>)
    requires '/' !in h && !Registry(h) && (if tag.Some? then TagLike(tag.value) else !LooksTagged(rest))
    requires '@' !in Tagged(h + ['/'] + rest, tag) && GoodDigest(digest)
    requires Trimmed(Digested(Tagged(h + ['/'] + rest, tag), digest))
    ensures Parse(Digested(Tagged(h + ['/'] + rest, tag), digest))
            == Ok(Reference(None, h + ['/'] + rest, tag, digest))
  {
    var path := h + ['/'] + rest;
    var r := Reference(None, path, tag, digest);
    assert Name(r) == Tagged(path, tag) && '/' in Name(r);
    UnregisteredPath(h, rest);
    PathTaggedIff(h, rest);
    WellFormedParses(r);
  }

  lemma UnregisteredPath(h: string, rest: string)
    requires '/' !in h && !Registry(h)
    ensures !LooksRegistered(h + ['/'] + rest)
  {
    RegistryIsSplit(h, rest);
    RegisteredIff(h + ['/'] + rest);
  }

  lemma PathTaggedIff(h: string, rest: string)
    ensures LooksTagged(h + ['/'] + rest) <==> LooksTagged(rest)
  {
    TaggedIff(h + ['/'] + rest);
    TaggedIff(rest);
    AfterSlashOfPath(h, rest);
    var at, path := AfterSlash(rest), h + ['/'] + rest;
    assert TagOf(path).Some? <==> TagOf(rest).Some?;
  }

  /** A host with a dot or a port before the first slash is the registry, whatever
      follows; with any other, the whole path is the repository. */
  lemma PathDecidesRegistry(h: string, rest: string, tag: Option<string>, digest: Option<string>)
    requires '/' !in h && (if tag.Some? then TagLike(tag.value) else !LooksTagged(rest))
    requires '@' !in Tagged(h + ['/'] + rest, tag) && GoodDigest(digest)
    requires Trimmed(Digested(Tagged(h + ['/'] + rest, tag), digest))
    ensures Parse(Digested(Tagged(h + ['/'] + rest, tag), digest))
            == Ok(if '.' in h || ':' in h then Reference(Some(h), rest, tag, digest)
                  else Reference(None, h + ['/'] + rest, tag, digest))
  {
    if Registry(h) {
      WithRegistry(h, rest, tag, digest);
    } else {
      WithoutRegistry(h, rest, tag, digest);
    }
  }

  /** `host:port/repository:tag`, with a digest or without, is read as such. */
  lemma HostAndPortParse(host: string, port: string, repository: string, tag: string, digest: Option<string>)
    requires '/' !in host && '/' !in port && TagLike(tag) && GoodDigest(digest)
    requires '@' !in host && '@' !in port && '@' !in repository && '@' !in tag
    requires Trimmed(Digested((host + [':'] + port) + ['/'] + repository + [':'] + tag, digest))
    ensures Parse(Digested((host + [':'] + port) + ['/'] + repository + [':'] + tag, digest))
            == Ok(Reference(Some(host + [':'] + port), repository, Some(tag), digest))
  {
    PathDecidesRegistry(host + [':'] + port, repository, Some(tag), digest);
  }

  lemma LocalhostParses()
    ensures Parse("localhost:5000/app:v1") == Ok(Reference(Some("localhost:5000"), "app", Some("v1"), None))
  {
    var s := "localhost:5000/app:v1";
    assert s == ("localhost" + [':'] + "5000") + ['/'] + "app" + [':'] + "v1";
    assert "localhost" + [':'] + "5000" == "localhost:5000";
    assert s[0] == 'l' && s[|s| - 1] == '1';
    HostAndPortParse("localhost", "5000", "app", "v1", None);
  }

  // ----- What is refused -----

  /** The name in front of a digest that begins after the first `@`. */
  predicate DigestAfter(s: string, name: string, digest: string) {
    s == name + ['@'] + digest && '@' !in name
  }

  predicate NamesAlgorithm(digest: string) {
    ':' in digest && digest[0] != ':'
  }

  lemma DigestAfterIs(s: string, name: string, digest: string)
    requires DigestAfter(s, name, digest)
    ensures SplitOnce(s, '@') == Some((name, digest))
  {
    SplitOnceIs(name, '@', digest);
  }

  lemma SplitDigestErrors(s: string)
    ensures SplitDigest(s) == Err(EmptyDigest) <==> exists name :: DigestAfter(s, name, "")
    ensures SplitDigest(s) == Err(DigestWithoutAlgorithm)
            <==> exists name, digest :: DigestAfter(s, name, digest) && digest != "" && !NamesAlgorithm(digest)
    ensures SplitDigest(s).Ok? && SplitDigest(s).value.0 == ""
            <==> s == "" || exists digest :: DigestAfter(s, "", digest) && NamesAlgorithm(digest)
  {
    forall name, digest | DigestAfter(s, name, digest)
      ensures SplitOnce(s, '@') == Some((name, digest))
    {
      DigestAfterIs(s, name, digest);
    }
    if SplitOnce(s, '@').Some? {
      var (name, digest) := SplitOnce(s, '@').value;
      assert DigestAfter(s, name, digest);
      AlgorithmNamed(digest);
    }
  }

  lemma AlgorithmNamed(digest: string)
    ensures SplitOnce(digest, ':').Some? && SplitOnce(digest, ':').value.0 != "" <==> NamesAlgorithm(digest)
  {
    if ':' in digest {
      var parts := SplitOnce(digest, ':').value;
      assert parts.0 != "" ==> parts.0[0] == digest[0] && parts.0[0] in parts.0;
    }
  }

  /** Exactly what `parse` refuses, and how: nothing at all, a digest that is empty
      or names no algorithm, and a digest alone. */
  lemma ParseFailsIff(reference: string)
    ensures var s := Trim(reference);
            && (Parse(reference) == Err(EmptyReference) <==> AllWhitespace(reference))
            && (Parse(reference) == Err(EmptyDigest) <==> exists name :: DigestAfter(s, name, ""))
            && (Parse(reference) == Err(DigestWithoutAlgorithm)
                <==> exists name, digest :: DigestAfter(s, name, digest) && digest != "" && !NamesAlgorithm(digest))
            && (Parse(reference) == Err(EmptyRepository)
                <==> exists digest :: DigestAfter(s, "", digest) && NamesAlgorithm(digest))
  {
    TrimsToNothingIff(reference);
    SplitDigestErrors(Trim(reference));
  }

  // ----- The missing repository -----

  ghost predicate BareTag(name: string) {
    exists t :: TagLike(t) && name == [':'] + t
  }

  ghost predicate BareRegistry(name: string) {
    exists h :: Registry(h) && name == h + ['/']
  }

  ghost predicate TaggedRegistry(name: string) {
    exists h, t :: Registry(h) && TagLike(t) && name == (h + ['/']) + [':'] + t
  }

  ghost predicate WithoutRepository(name: string) {
    BareTag(name) || BareRegistry(name) || TaggedRegistry(name)
  }

  /** What `parse` makes of the part before the digest. */
  function RepositoryOf(name: string): Result<string, ParseError> {
    var tagged :- SplitTag(name);
    Ok(SplitRegistry(tagged.0).1)
  }

  lemma RegistrySplits(h: string, repository: string)
    requires Registry(h)
    ensures SplitRegistry(h + ['/'] + repository) == (Some(h), repository)
  {
    SplitOnceIs(h, '/', repository);
  }

  lemma BareRegistrySplits(h: string)
    requires Registry(h)
    ensures RepositoryOf(h + ['/']) == Ok("")
  {
    AppendNothing(h + ['/']);
    RSplitOnceIs(h, '/', "");
    RegistrySplits(h, "");
  }

  lemma TaggedRegistrySplits(h: string, t: string)
    requires Registry(h) && TagLike(t)
    ensures RepositoryOf((h + ['/']) + [':'] + t) == Ok("")
  {
    TagSplits(h + ['/'], t);
    AppendNothing(h + ['/']);
    RegistrySplits(h, "");
  }

  lemma BareTagSplits(t: string)
    requires TagLike(t)
    ensures RepositoryOf([':'] + t) == Ok("")
  {
    var path: string := "";
    AppendNothing([':']);
    TagSplits(path, t);
    assert SplitRegistry(path) == (None, path);
  }

  lemma EmptyRepositoryPath(path: string)
    requires SplitRegistry(path).1 == ""
    ensures path == "" || BareRegistry(path)
  {
    var registry := SplitRegistry(path).0;
    if registry.Some? {
      AppendNothing(registry.value + ['/']);
      assert Registry(registry.value) && path == registry.value + ['/'];
    }
  }

  lemma EmptyRepositoryForms(name: string)
    requires RepositoryOf(name) == Ok("")
    ensures WithoutRepository(name)
  {
    TagRejoins(name);
    var (path, tag) := SplitTag(name).value;
    EmptyRepositoryPath(path);
    NamelessForms(path, tag);
  }

  lemma NamelessForms(path: string, tag: Option<string>)
    requires path == "" || BareRegistry(path)
    requires if tag.Some? then TagLike(tag.value) else path != ""
    ensures WithoutRepository(Tagged(path, tag))
  {
    if path == "" {
      AppendNothing([':']);
      assert BareTag(Tagged(path, tag));
    } else if tag.Some? {
      var h :| Registry(h) && path == h + ['/'];
      assert TaggedRegistry(Tagged(path, tag));
    }
  }

  /** The documentation lists a missing repository among the errors, but only an
      entirely empty name is refused: a repository-less name parses exactly when
      it is a bare tag, or a host-like registry with nothing or a tag behind it. */
  lemma MissingRepositoryParsesIff(s: string)
    requires SplitDigest(Trim(s)).Ok?
    ensures Parse(s).Ok? && Parse(s).value.repository == "" <==> WithoutRepository(SplitDigest(Trim(s)).value.0)
  {
    var name := SplitDigest(Trim(s)).value.0;
    RepositoryIsParsed(s);
    if RepositoryOf(name) == Ok("") {
      EmptyRepositoryForms(name);
    }
    if BareTag(name) {
      var t :| TagLike(t) && name == [':'] + t;
      BareTagSplits(t);
    } else if BareRegistry(name) {
      var h :| Registry(h) && name == h + ['/'];
      BareRegistrySplits(h);
    } else if TaggedRegistry(name) {
      var h, t :| Registry(h) && TagLike(t) && name == (h + ['/']) + [':'] + t;
      TaggedRegistrySplits(h, t);
    }
  }

  lemma RepositoryIsParsed(s: string)
    requires SplitDigest(Trim(s)).Ok?
    ensures Parse(s).Ok? && Parse(s).value.repository == "" <==> RepositoryOf(SplitDigest(Trim(s)).value.0) == Ok("")
  {
    if Trim(s) == "" {
      assert SplitOnce("", '@').None?;
    }
  }

  /** A tag alone is a reference. */
  lemma BareTagParses(tag: string)
    requires TagLike(tag) && '@' !in tag && !IsWhitespace(tag[|tag| - 1])
    ensures Parse([':'] + tag) == Ok(Reference(None, "", Some(tag), None))
  {
    var r := Reference(None, "", Some(tag), None);
    AppendNothing([':'] + tag);
    assert Name(r) == [':'] + tag && Print(r) == [':'] + tag;
    assert SplitOnce("", '/').None?;
    PrintThenParseIff(r);
  }

  /** ":latest" parses although it names no repository. */
  lemma LatestParses()
    ensures Parse(":latest") == Ok(Reference(None, "", Some("latest"), None))
  {
    assert ":latest" == [':'] + "latest";
    BareTagParses("latest");
  }
}
