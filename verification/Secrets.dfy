/** Secret references, and what a store of versioned secrets must hold after any
    history of writes. */
module Secrets {
  import opened Prelude
  import opened Text

  datatype SecretRef = SecretRef(namespace: string, name: string)

  datatype Secret = Secret(address: SecretRef, value: string, version: nat)

  datatype SecretError = Invalid | Missing | Transport

  /** `namespace/name`, or the bare name without a namespace: the key of both stores. */
  function Locator(r: SecretRef): string {
    if r.namespace == "" then r.name else r.namespace + ['/'] + r.name
  }

  /** The reference a key was made from, if its name has no slash. */
  function FromLocator(key: string): SecretRef {
    match RSplitOnce(key, '/')
    case None => SecretRef("", key)
    case Some(parts) => SecretRef(parts.0, parts.1)
  }

  lemma LocatorDecodes(r: SecretRef)
    requires '/' !in r.name
    ensures FromLocator(Locator(r)) == r
  {
    if r.namespace != "" {
      RSplitOnceIs(r.namespace, '/', r.name);
    }
  }

  /** Another reference can share the key: one side of some slash in it would be
      a different, non-empty namespace. */
  predicate Ambiguous(r: SecretRef) {
    r.namespace != "" || exists i :: 0 < i < |r.name| && r.name[i] == '/'
  }

  /** Moving the split of a reference into its name or out of it keeps the key. */
  lemma AmbiguousHasTwin(r: SecretRef) returns (q: SecretRef)
    requires Ambiguous(r)
    ensures q != r && Locator(q) == Locator(r)
  {
    if r.namespace != "" {
      q := SecretRef("", Locator(r));
    } else {
      var i :| 0 < i < |r.name| && r.name[i] == '/';
      q := SecretRef(r.name[..i], r.name[i + 1..]);
      SplitAt(r.name, i);
      assert q.namespace != "";
    }
  }

  lemma TwinIsAmbiguous(r: SecretRef, q: SecretRef)
    requires q != r && Locator(q) == Locator(r)
    ensures Ambiguous(r)
  {
    if r.namespace == "" {
      assert q.namespace != "";
      assert Locator(q)[|q.namespace|] == '/';
    }
  }

  /** Among names without slashes a key determines its reference. Without that
      restriction a reference shares its key with another one exactly when it has
      a namespace or a slash past the first character of its name. */
  lemma LocatorIsInjectiveOnSlashFreeNames(r: SecretRef)
    ensures '/' !in r.name ==> forall q: SecretRef :: '/' !in q.name && Locator(q) == Locator(r) ==> q == r
    ensures (exists q :: q != r && Locator(q) == Locator(r)) <==> Ambiguous(r)
  {
    forall q: SecretRef | '/' !in q.name
      ensures FromLocator(Locator(q)) == q
    {
      LocatorDecodes(q);
    }
    forall q: SecretRef | q != r && Locator(q) == Locator(r)
      ensures Ambiguous(r)
    {
      TwinIsAmbiguous(r, q);
    }
    if Ambiguous(r) {
      var q := AmbiguousHasTwin(r);
    }
  }

  // ----- What any history of writes means -----

  datatype Write = Put(address: SecretRef, value: string) | Delete(address: SecretRef)

  type Contents = map<string, Secret>

  function NextVersion(contents: Contents, key: string): nat {
    if key in contents then contents[key].version + 1 else 1
  }

  function Stored(contents: Contents, address: SecretRef, value: string): Secret {
    Secret(address, value, NextVersion(contents, Locator(address)))
  }

  function Step(contents: Contents, w: Write): Contents {
    match w
    case Put(address, value) => contents[Locator(address) := Stored(contents, address, value)]
    case Delete(address) => contents - {Locator(address)}
  }

  // ----- put, as it is and as it is documented -----

  datatype PutOutcome = PutOutcome(result: Result<Secret, SecretError>, contents: Contents)

  /** What `put` does in both stores, as long as nothing fails below it. */
  function PutOf(contents: Contents, secret: Secret): PutOutcome {
    if secret.address.name == "" then
      PutOutcome(Err(Invalid), contents)
    else
      PutOutcome(Ok(Stored(contents, secret.address, secret.value)), Step(contents, Put(secret.address, secret.value)))
  }

  /** The incoming version is the stored one, or the "create or overwrite" zero;
      where nothing is stored there is no version to contradict. */
  predicate VersionMatches(contents: Contents, secret: Secret) {
    var key := Locator(secret.address);
    key in contents ==> secret.version == 0 || secret.version == contents[key].version
  }

  /** The optimistic concurrency that the file adapter documents: a `put` whose
      version does not match is rejected, any other takes the next version. */
  function DocumentedPut(contents: Contents, secret: Secret): PutOutcome {
    if secret.address.name == "" || !VersionMatches(contents, secret) then
      PutOutcome(Err(Invalid), contents)
    else
      var key := Locator(secret.address);
      var version := if key in contents then contents[key].version + 1 else 1;
      var stored := Secret(secret.address, secret.value, version);
      PutOutcome(Ok(stored), contents[key := stored])
  }

  /** `put` does what is documented exactly when the version matches, or the name
      is refused before any version is looked at. */
  lemma PutIsDocumentedIff(contents: Contents, secret: Secret)
    ensures PutOf(contents, secret) == DocumentedPut(contents, secret)
            <==> secret.address.name == "" || VersionMatches(contents, secret)
  {
    assert PutOf(contents, secret).result.Ok? <==> secret.address.name != "";
  }

  /** A writer that still believes in version 1 overwrites version 2. */
  lemma StaleVersionIsAccepted(address: SecretRef, current: string, stale: string)
    requires address.name != ""
    ensures var contents := map[Locator(address) := Secret(address, current, 2)];
            var late := Secret(address, stale, 1);
            && PutOf(contents, late)
               == PutOutcome(Ok(Secret(address, stale, 3)), map[Locator(address) := Secret(address, stale, 3)])
            && DocumentedPut(contents, late) == PutOutcome(Err(Invalid), contents)
  {
    var contents := map[Locator(address) := Secret(address, current, 2)];
    assert contents[Locator(address) := Secret(address, stale, 3)]
      == map[Locator(address) := Secret(address, stale, 3)];
  }

  // ----- Histories -----

  /** The contents a log of writes leads to. */
  function Replay(start: Contents, log: seq<Write>): Contents {
    if log == [] then start else Step(Replay(start, log[..|log| - 1]), log[|log| - 1])
  }

  lemma ReplayNext(start: Contents, log: seq<Write>, w: Write)
    ensures Replay(start, log + [w]) == Step(Replay(start, log), w)
  {
    assert (log + [w])[..|log|] == log;
  }

  /** How often a reference was written since it was last deleted. */
  function PutsSinceDelete(log: seq<Write>, r: SecretRef): nat {
    if log == [] then
      0
    else
      var last := log[|log| - 1];
      var before := PutsSinceDelete(log[..|log| - 1], r);
      if last.address != r then before else if last.Delete? then 0 else before + 1
  }

  /** The value written last, if it has not been deleted since. */
  function LastValue(log: seq<Write>, r: SecretRef): Option<string> {
    if log == [] then
      None
    else
      var last := log[|log| - 1];
      if last.address != r then LastValue(log[..|log| - 1], r) else if last.Delete? then None else Some(last.value)
  }

  predicate SlashFree(log: seq<Write>) {
    forall w :: w in log ==> '/' !in w.address.name
  }

  /** How often a key was written since it was last deleted, under whatever
      references share it. */
  function PutsUnder(log: seq<Write>, key: string): nat {
    if log == [] then
      0
    else
      var last := log[|log| - 1];
      var before := PutsUnder(log[..|log| - 1], key);
      if Locator(last.address) != key then before else if last.Delete? then 0 else before + 1
  }

  /** The reference and value written last under a key, if not deleted since. */
  function LastUnder(log: seq<Write>, key: string): Option<(SecretRef, string)> {
    if log == [] then
      None
    else
      var last := log[|log| - 1];
      if Locator(last.address) != key then LastUnder(log[..|log| - 1], key)
      else if last.Delete? then None else Some((last.address, last.value))
  }

  /** From an empty store, whatever was written and deleted and however references
      share keys: a key holds what was written last under it, under a version that
      counts the writes since its last deletion, and nothing once deleted. */
  lemma {:induction false} KeysCountWrites(log: seq<Write>, key: string)
    ensures key in Replay(map[], log) <==> PutsUnder(log, key) > 0
    ensures LastUnder(log, key).Some? <==> PutsUnder(log, key) > 0
    ensures key in Replay(map[], log) ==>
              var (address, value) := LastUnder(log, key).value;
              Replay(map[], log)[key] == Secret(address, value, PutsUnder(log, key))
    decreases |log|
  {
    if log != [] {
      KeysCountWrites(log[..|log| - 1], key);
    }
  }

  /** Where names have no slash, counting by key is counting by reference. */
  lemma {:induction false} KeysAreReferences(log: seq<Write>, r: SecretRef)
    requires SlashFree(log) && '/' !in r.name
    ensures PutsUnder(log, Locator(r)) == PutsSinceDelete(log, r)
    ensures match LastValue(log, r)
            case None => LastUnder(log, Locator(r)).None?
            case Some(value) => LastUnder(log, Locator(r)) == Some((r, value))
    decreases |log|
  {
    if log != [] {
      var front := log[..|log| - 1];
      var last := log[|log| - 1];
      assert last in log && forall w :: w in front ==> w in log;
      KeysAreReferences(front, r);
      LocatorIsInjectiveOnSlashFreeNames(r);
    }
  }

  /** In terms of references: each holds the value written last, under a version
      that counts the writes since its last deletion, and nothing once deleted. */
  lemma VersionsCountWrites(log: seq<Write>, r: SecretRef)
    requires SlashFree(log) && '/' !in r.name
    ensures Locator(r) in Replay(map[], log) <==> PutsSinceDelete(log, r) > 0
    ensures LastValue(log, r).Some? <==> PutsSinceDelete(log, r) > 0
    ensures Locator(r) in Replay(map[], log) ==>
              Replay(map[], log)[Locator(r)] == Secret(r, LastValue(log, r).value, PutsSinceDelete(log, r))
  {
    KeysCountWrites(log, Locator(r));
    KeysAreReferences(log, r);
  }

  /** Every entry sits under its own locator. */
  predicate KeyedByLocator(contents: Contents) {
    forall k :: k in contents ==> k == Locator(contents[k].address)
  }

  lemma {:induction false} ReplayKeepsKeys(start: Contents, log: seq<Write>)
    requires KeyedByLocator(start)
    ensures KeyedByLocator(Replay(start, log))
    decreases |log|
  {
    if log != [] {
      ReplayKeepsKeys(start, log[..|log| - 1]);
    }
  }

  // ----- Listing a namespace -----

  /** The references of a namespace, in locator order. */
  ghost predicate ListsNamespace(contents: Contents, namespace: string, refs: seq<SecretRef>) {
    && (forall i, j :: 0 <= i < j < |refs| ==> LexLess(Locator(refs[i]), Locator(refs[j])))
    && (forall r :: r in refs <==> exists k :: k in contents && contents[k].address == r && r.namespace == namespace)
  }

  function KeysOf(contents: Contents, namespace: string): set<string> {
    set k | k in contents && contents[k].address.namespace == namespace
  }

  function AddressesOf(contents: Contents, keys: seq<string>): (refs: seq<SecretRef>)
    requires forall k :: k in keys ==> k in contents
    ensures |refs| == |keys| && forall i :: 0 <= i < |refs| ==> refs[i] == contents[keys[i]].address
  {
    seq(|keys|, i requires 0 <= i < |keys| => contents[keys[i]].address)
  }

  method ListNamespace(contents: Contents, namespace: string) returns (refs: seq<SecretRef>)
    requires KeyedByLocator(contents)
    ensures ListsNamespace(contents, namespace, refs)
  {
    var keys := KeysInOrder(KeysOf(contents, namespace));
    refs := AddressesOf(contents, keys);
    ListedMembers(contents, namespace, keys);
  }

  lemma ListedMembers(contents: Contents, namespace: string, keys: seq<string>)
    requires KeyedByLocator(contents) && StrictlySorted(keys)
    requires forall k :: k in keys <==> k in KeysOf(contents, namespace)
    ensures ListsNamespace(contents, namespace, AddressesOf(contents, keys))
  {
    var refs := AddressesOf(contents, keys);
    forall i, j | 0 <= i < j < |refs|
      ensures LexLess(Locator(refs[i]), Locator(refs[j]))
    {
      assert keys[i] in keys && keys[j] in keys;
    }
    forall k | k in contents && contents[k].address.namespace == namespace
      ensures contents[k].address in refs
    {
      assert k in KeysOf(contents, namespace) && k in keys;
      var i :| 0 <= i < |keys| && keys[i] == k;
      assert refs[i] == contents[k].address;
    }
    forall r | r in refs
      ensures exists k :: k in contents && contents[k].address == r && r.namespace == namespace
    {
      var i :| 0 <= i < |refs| && refs[i] == r;
      assert keys[i] in keys;
    }
  }

  // ----- The in-memory store -----

  class InMemorySecretStore {
    var inner: Contents

    constructor ()
      ensures inner == map[] && Valid()
    {
      inner := map[];
    }

    predicate Valid()
      reads this
    {
      KeyedByLocator(inner)
    }

    method Get(r: SecretRef) returns (result: Result<Secret, SecretError>)
      ensures result == if r.name == "" then Err(Invalid) else if Locator(r) in inner then Ok(inner[Locator(r)])
              else Err(Missing)
    {
      if r.name == "" {
        return Err(Invalid);
      }
      if Locator(r) !in inner {
        return Err(Missing);
      }
      return Ok(inner[Locator(r)]);
    }

    method PutSecret(secret: Secret) returns (result: Result<Secret, SecretError>)
      requires Valid()
      modifies this
      ensures Valid()
      ensures PutOutcome(result, inner) == PutOf(old(inner), secret)
      ensures PutOutcome(result, inner) == DocumentedPut(old(inner), secret)
              <==> secret.address.name == "" || VersionMatches(old(inner), secret)
    {
      if secret.address.name == "" {
        return Err(Invalid);
      }
      var key := Locator(secret.address);
      var next := if key in inner then inner[key].version + 1 else 1;
      var stored := Secret(secret.address, secret.value, next);
      PutIsDocumentedIff(inner, secret);
      inner := inner[key := stored];
      return Ok(stored);
    }

    method DeleteSecret(r: SecretRef) returns (result: Result<Unit, SecretError>)
      requires Valid()
      modifies this
      ensures Valid()
      ensures r.name == "" ==> result == Err(Invalid) && inner == old(inner)
      ensures r.name != "" ==> result == Ok(Unit) && inner == Step(old(inner), Delete(r))
    {
      if r.name == "" {
        return Err(Invalid);
      }
      inner := inner - {Locator(r)};
      return Ok(Unit);
    }

    method List(namespace: string) returns (refs: seq<SecretRef>)
      requires Valid()
      ensures ListsNamespace(inner, namespace, refs)
    {
      refs := ListNamespace(inner, namespace);
    }
  }
}
