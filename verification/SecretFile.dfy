/** The file-backed secret store: a map in memory, mirrored to one file through
    a temporary sibling and a rename. */
module SecretFile {
  import opened Prelude
  import opened Evidence
  import opened Secrets

  // ----- The two files -----

  /** A file's bytes, and whether they are on stable storage. */
  datatype FileData = FileData(bytes: seq<Byte>, synced: bool)

  datatype Disk = Disk(main: Option<FileData>, tmp: Option<FileData>)

  function CreateTmp(d: Disk): Disk {
    d.(tmp := Some(FileData([], false)))
  }

  function WriteTmp(d: Disk, bytes: seq<Byte>): Disk {
    d.(tmp := Some(FileData(bytes, false)))
  }

  function SyncTmp(d: Disk): Disk
    requires d.tmp.Some?
  {
    d.(tmp := Some(d.tmp.value.(synced := true)))
  }

  function RenameTmp(d: Disk): Disk {
    Disk(d.tmp, None)
  }

  /** A crash keeps synced bytes; others may be anything. */
  ghost predicate SurvivesCrash(d: Disk, left: Disk) {
    && (d.main.None? ==> left.main.None?)
    && (d.main.Some? && d.main.value.synced ==> left.main == d.main)
  }

  // ----- Reading the file -----

  datatype Codec = Codec(encode: Contents -> seq<Byte>, decode: seq<Byte> -> Option<Contents>)

  /** Decoding inverts encoding, and no document is empty. */
  ghost predicate Faithful(c: Codec) {
    forall contents :: c.decode(c.encode(contents)) == Some(contents) && c.encode(contents) != []
  }

  datatype FileError = ReadFailed | ParseFailed | WriteFailed | RenameFailed

  /** What `open` takes from the main file. */
  function ReadBack(c: Codec, d: Disk): Result<Contents, FileError> {
    if d.main.None? || d.main.value.bytes == [] then
      Ok(map[])
    else
      match c.decode(d.main.value.bytes)
      case None => Err(ParseFailed)
      case Some(contents) => Ok(contents)
  }

  /** What the main file stands for: nothing if it is absent or empty, otherwise what
      its bytes decode to. */
  ghost predicate StandsFor(c: Codec, d: Disk, contents: Contents) {
    match d.main
    case None => contents == map[]
    case Some(file) => if file.bytes == [] then contents == map[] else c.decode(file.bytes) == Some(contents)
  }

  /** Reading gives exactly that, or a parse error if there is nothing to give. */
  lemma ReadBackIs(c: Codec, d: Disk)
    ensures forall contents :: ReadBack(c, d) == Ok(contents) <==> StandsFor(c, d, contents)
    ensures ReadBack(c, d).Err? ==> ReadBack(c, d).error == ParseFailed
  {
  }

  /** The disk after a completed flush. */
  function Flushed(c: Codec, contents: Contents): Disk {
    Disk(Some(FileData(c.encode(contents), true)), None)
  }

  lemma FlushedReadsBack(c: Codec, contents: Contents)
    requires Faithful(c)
    ensures ReadBack(c, Flushed(c, contents)) == Ok(contents)
  {
    assert c.decode(c.encode(contents)) == Some(contents);
  }

  /** Renaming alone would not do: a file that was not synced before it took the
      main file's place can be empty after a crash, whatever was written. */
  lemma SyncIsNeeded(c: Codec, contents: Contents)
    requires contents != map[]
    ensures var unsynced := RenameTmp(WriteTmp(CreateTmp(Flushed(c, contents)), c.encode(contents)));
            exists left :: SurvivesCrash(unsynced, left) && ReadBack(c, left) == Ok(map[])
  {
    var unsynced := RenameTmp(WriteTmp(CreateTmp(Flushed(c, contents)), c.encode(contents)));
    var left := Disk(Some(FileData([], true)), None);
    assert SurvivesCrash(unsynced, left) && ReadBack(c, left) == Ok(map[]);
  }

  // ----- One process, one thread -----

  /** Where a flush fails, if it does. */
  datatype Fault = NoFault | AtSerialize | AtCreate | AtWrite(written: nat) | AtSync | AtRename

  function ToSecretError(e: FileError): SecretError {
    Transport
  }

  class FileSecretStore {
    var inner: Contents
    var disk: Disk
    var flushes: nat
    const codec: Codec
    const fault: nat -> Fault

    constructor (codec: Codec, fault: nat -> Fault, inner: Contents, disk: Disk)
      ensures this.codec == codec && this.fault == fault && this.inner == inner && this.disk == disk
              && this.flushes == 0
    {
      this.codec, this.fault, this.inner, this.disk, this.flushes := codec, fault, inner, disk, 0;
    }

    /** Replaces the main file by the contents in memory, or leaves it alone. */
    method Flush() returns (r: Result<Unit, FileError>)
      modifies this
      ensures inner == old(inner) && flushes == old(flushes) + 1
      ensures r.Ok? <==> fault(old(flushes)).NoFault?
      ensures r.Ok? ==> disk == Flushed(codec, inner)
      ensures r.Err? ==>
                disk.main == old(disk).main
                  && r.error == if fault(old(flushes)).AtRename? then RenameFailed else WriteFailed
    {
      var f := fault(flushes);
      flushes := flushes + 1;
      if f.AtSerialize? {
        return Err(WriteFailed);
      }
      var bytes := codec.encode(inner);
      if f.AtCreate? {
        return Err(WriteFailed);
      }
      disk := CreateTmp(disk);
      if f.AtWrite? {
        disk := WriteTmp(disk, bytes[..if f.written < |bytes| then f.written else |bytes|]);
        return Err(WriteFailed);
      }
      disk := WriteTmp(disk, bytes);
      if f.AtSync? {
        return Err(WriteFailed);
      }
      disk := SyncTmp(disk);
      if f.AtRename? {
        return Err(RenameFailed);
      }
      disk := RenameTmp(disk);
      return Ok(Unit);
    }

    method Get(r: SecretRef) returns (result: Result<Secret, SecretError>)
      ensures result == if r.name == "" then Err(Invalid) else if Locator(r) in inner then Ok(inner[Locator(r)])
              else Err(Missing)
    {
      if r.name == "" {
        return Err(Invalid);
      }
      if Locator(r) !in inner {
        return Err(Missing);
      }
      return Ok(inner[Locator(r)]);
    }

    /** The write always reaches memory; the answer says whether it reached disk.
        Without a failure the outcome is the documented one exactly when the
        version matches. */
    method PutSecret(secret: Secret) returns (result: Result<Secret, SecretError>)
      modifies this
      ensures secret.address.name == "" ==> result == Err(Invalid) && inner == old(inner) && disk == old(disk)
      ensures secret.address.name != "" ==>
                && inner == Step(old(inner), Put(secret.address, secret.value))
                && (if fault(old(flushes)).NoFault? then
                      result == Ok(inner[Locator(secret.address)]) && disk == Flushed(codec, inner)
                    else
                      result == Err(Transport) && disk.main == old(disk).main)
      ensures fault(old(flushes)).NoFault? ==>
                && PutOutcome(result, inner) == PutOf(old(inner), secret)
                && (PutOutcome(result, inner) == DocumentedPut(old(inner), secret)
                    <==> secret.address.name == "" || VersionMatches(old(inner), secret))
    {
      PutIsDocumentedIff(inner, secret);
      if secret.address.name == "" {
        return Err(Invalid);
      }
      var key := Locator(secret.address);
      var next := if key in inner then inner[key].version + 1 else 1;
      var stored := Secret(secret.address, secret.value, next);
      inner := inner[key := stored];
      var flushed := Flush();
      if flushed.Err? {
        return Err(ToSecretError(flushed.error));
      }
      return Ok(stored);
    }

    method DeleteSecret(r: SecretRef) returns (result: Result<Unit, SecretError>)
      modifies this
      ensures r.name == "" ==> result == Err(Invalid) && inner == old(inner) && disk == old(disk)
      ensures r.name != "" ==>
                && inner == Step(old(inner), Delete(r))
                && (if fault(old(flushes)).NoFault? then
                      result == Ok(Unit) && disk == Flushed(codec, inner)
                    else
                      result == Err(Transport) && disk.main == old(disk).main)
    {
      if r.name == "" {
        return Err(Invalid);
      }
      inner := inner - {Locator(r)};
      var flushed := Flush();
      if flushed.Err? {
        return Err(ToSecretError(flushed.error));
      }
      return Ok(Unit);
    }

    method List(namespace: string) returns (refs: seq<SecretRef>)
      requires KeyedByLocator(inner)
      ensures ListsNamespace(inner, namespace, refs)
    {
      refs := ListNamespace(inner, namespace);
    }
  }

  /** `open`: load what is there, or start empty, and flush it at once. */
  method Open(codec: Codec, disk: Disk, readFails: bool, fault: nat -> Fault)
    returns (r: Result<FileSecretStore, FileError>)
    ensures r.Ok? ==>
              fresh(r.value) && ReadBack(codec, disk) == Ok(r.value.inner) && r.value.codec == codec
                && r.value.fault == fault
    ensures r.Ok? ==> r.value.disk == Flushed(codec, r.value.inner)
    ensures r.Ok? ==> StandsFor(codec, disk, r.value.inner)
    ensures r.Ok? <==> (disk.main.Some? ==> !readFails) && ReadBack(codec, disk).Ok? && fault(0).NoFault?
    ensures r.Err? ==>
              r.error == if disk.main.Some? && readFails then ReadFailed
              else if forall contents :: !StandsFor(codec, disk, contents) then ParseFailed
              else if fault(0).AtRename? then RenameFailed else WriteFailed
  {
    ReadBackIs(codec, disk);
    var inner: Contents := map[];
    if disk.main.Some? {
      if readFails {
        return Err(ReadFailed);
      }
      if disk.main.value.bytes != [] {
        var decoded := codec.decode(disk.main.value.bytes);
        if decoded.None? {
          return Err(ParseFailed);
        }
        inner := decoded.value;
      }
    }
    var store := new FileSecretStore(codec, fault, inner, disk);
    var flushed := store.Flush();
    if flushed.Err? {
      return Err(flushed.error);
    }
    return Ok(store);
  }
}
