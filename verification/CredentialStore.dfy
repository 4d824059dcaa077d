/** The credential records, the file that holds them, and the operations of CredentialStore. */
module CredentialStore {
  import opened Bytes
  import B = Base64Url

  const STORE_FORMAT_VERSION := 1

  datatype Credential = Credential(
    credentialId: seq<Byte>, rpId: string, rpName: string,
    userHandle: seq<Byte>, userName: string, userDisplayName: string,
    cosePublicKey: seq<Byte>, keyRef: string,
    signCount: nat, resident: bool, credProtect: int, algorithm: int, createdAt: real)

  /** A credential as the file holds it: the byte strings are texts. */
  datatype Record = Record(
    credentialId: string, rpId: string, rpName: string,
    userHandle: string, userName: string, userDisplayName: string,
    cosePublicKey: string, keyRef: string,
    signCount: nat, resident: bool, credProtect: int, algorithm: int, createdAt: real)

  function ToDict(c: Credential): Record {
    Record(B.B64Encode(c.credentialId), c.rpId, c.rpName, B.B64Encode(c.userHandle), c.userName, c.userDisplayName,
           B.B64Encode(c.cosePublicKey), c.keyRef, c.signCount, c.resident, c.credProtect, c.algorithm, c.createdAt)
  }

  function FromDict(r: Record): Option<Credential> {
    var id, handle, key := B.B64Decode(r.credentialId), B.B64Decode(r.userHandle), B.B64Decode(r.cosePublicKey);
    if id.None? || handle.None? || key.None? then None
    else
      Some(Credential(id.value, r.rpId, r.rpName, handle.value, r.userName, r.userDisplayName,
                      key.value, r.keyRef, r.signCount, r.resident, r.credProtect, r.algorithm, r.createdAt))
  }

  /** Every credential survives being written and read back. */
  lemma DictRoundTrip(c: Credential)
    ensures FromDict(ToDict(c)) == Some(c)
  {
    hide B.B64Encode, B.B64Decode;
    B.B64RoundTrip(c.credentialId);
    B.B64RoundTrip(c.userHandle);
    B.B64RoundTrip(c.cosePublicKey);
  }

  /** What a reader of the store path finds. */
  datatype File = Missing | Unreadable | Stored(version: int, records: seq<Record>)

  function FromDicts(rs: seq<Record>): Option<seq<Credential>> {
    if rs == [] then Some([])
    else
      var init, last := FromDicts(rs[..|rs| - 1]), FromDict(rs[|rs| - 1]);
      if init.None? || last.None? then None else Some(init.value + [last.value])
  }

  function ToDicts(cs: seq<Credential>): seq<Record> {
    if cs == [] then [] else ToDicts(cs[..|cs| - 1]) + [ToDict(cs[|cs| - 1])]
  }

  /** load: None stands for the exceptions. */
  function Loaded(f: File): Option<seq<Credential>> {
    match f
    case Missing => Some([])
    case Unreadable => None
    case Stored(version, records) => if version != STORE_FORMAT_VERSION then None else FromDicts(records)
  }

  /** What _save leaves in the file. */
  function Saved(cs: seq<Credential>): File {
    Stored(STORE_FORMAT_VERSION, ToDicts(cs))
  }

  /** A saved list is loaded unchanged. */
  lemma {:induction false} LoadRestoresSaved(cs: seq<Credential>)
    ensures Loaded(Saved(cs)) == Some(cs)
  {
    hide FromDict, ToDict;
    if cs != [] {
      var n := |cs| - 1;
      LoadRestoresSaved(cs[..n]);
      DictRoundTrip(cs[n]);
      assert ToDicts(cs)[..|ToDicts(cs)| - 1] == ToDicts(cs[..n]);
      assert cs == cs[..n] + [cs[n]];
    }
  }

  // ---------- the operations on a list ----------

  predicate SameAccount(c: Credential, d: Credential) {
    c.rpId == d.rpId && c.userHandle == d.userHandle
  }

  /** The list without the credentials for the account of c. */
  function WithoutAccount(cs: seq<Credential>, c: Credential): seq<Credential> {
    if cs == [] then []
    else
      var last := cs[|cs| - 1];
      WithoutAccount(cs[..|cs| - 1], c) + if SameAccount(last, c) then [] else [last]
  }

  function Added(cs: seq<Credential>, c: Credential): seq<Credential> {
    WithoutAccount(cs, c) + [c]
  }

  function WithoutId(cs: seq<Credential>, id: seq<Byte>): seq<Credential> {
    if cs == [] then []
    else
      var last := cs[|cs| - 1];
      WithoutId(cs[..|cs| - 1], id) + if last.credentialId == id then [] else [last]
  }

  /** Where the first credential with this id is, or the length of the list. */
  function IndexOf(cs: seq<Credential>, id: seq<Byte>): (i: nat)
    ensures i <= |cs|
    ensures i < |cs| ==> cs[i].credentialId == id
    ensures forall j :: 0 <= j < i ==> cs[j].credentialId != id
  {
    if cs == [] || cs[0].credentialId == id then 0 else 1 + IndexOf(cs[1..], id)
  }

  function Incremented(cs: seq<Credential>, i: nat): seq<Credential>
    requires i < |cs|
  {
    cs[i := cs[i].(signCount := cs[i].signCount + 1)]
  }

  // ---------- the operations on the file ----------

  datatype Op = Add(credential: Credential) | Increment(id: seq<Byte>) | Remove(id: seq<Byte>) | DestroyAll
  datatype Reply = Done | Counter(value: nat) | Removed(found: bool) | Failed

  /** What an operation does to the loaded list; no new list means that nothing is saved. */
  function Mutated(cs: seq<Credential>, op: Op): (Option<seq<Credential>>, Reply) {
    match op
    case Add(c) => (Some(Added(cs, c)), Done)
    case Increment(id) =>
      var i := IndexOf(cs, id);
      if i == |cs| then (None, Failed) else (Some(Incremented(cs, i)), Counter(cs[i].signCount + 1))
    case Remove(id) =>
      if |WithoutId(cs, id)| == |cs| then (None, Removed(false)) else (Some(WithoutId(cs, id)), Removed(true))
    case DestroyAll => (Some([]), Done)
  }

  /** One operation on the file, as if nobody else were there. */
  function Apply(f: File, op: Op): (File, Reply) {
    if op.DestroyAll? then (Missing, Done)
    else
      match Loaded(f)
      case None => (f, Failed)
      case Some(cs) =>
        var (cs', reply) := Mutated(cs, op);
        (if cs'.Some? then Saved(cs'.value) else f, reply)
  }

  /** Whether the operation gets as far as writing or removing the file. */
  predicate Writes(f: File, op: Op) {
    op.DestroyAll? || (Loaded(f).Some? && Mutated(Loaded(f).value, op).0.Some?)
  }

  /** How far the file system lets an operation get: not to the lock, not to a written file, or to its end. */
  datatype Access = Unlockable | Unwritable | Full

  /** One operation that may fail: then the file stays, and the error is raised. */
  function Attempt(f: File, op: Op, access: Access): (File, Reply) {
    if access.Full? || (access.Unwritable? && !Writes(f, op)) then Apply(f, op) else (f, Failed)
  }

  /**
   The list an object holds after one of its operations found this file. Once the lock is held it is reloaded and
   changed, written or not; it is stale until the next operation.
   */
  function CacheAfter(cache: seq<Credential>, f: File, op: Op, access: Access): seq<Credential> {
    if access.Unlockable? then cache
    else if op.DestroyAll? then []
    else if Loaded(f).None? then cache
    else
      var changed := Mutated(Loaded(f).value, op).0;
      if changed.Some? then changed.value else Loaded(f).value
  }

  class Disk {
    var file: File

    constructor ()
      ensures file == Missing
    {
      file := Missing;
    }
  }

  class CredentialStore {
    const disk: Disk
    var credentials: seq<Credential>

    /** Opening a store reads the file; an unreadable one raises, and the caller gets no usable object. */
    constructor (disk: Disk)
      ensures this.disk == disk
      ensures Loaded(disk.file).Some? ==> credentials == Loaded(disk.file).value
    {
      this.disk := disk;
      credentials := [];
      new;
      var _ := Load();
    }

    method Load() returns (ok: bool)
      modifies `credentials
      ensures ok <==> Loaded(disk.file).Some?
      ensures credentials == if ok then Loaded(disk.file).value else old(credentials)
    {
      match disk.file
      case Missing =>
        credentials := [];
        ok := true;
      case Unreadable => ok := false;
      case Stored(version, records) =>
        if version != STORE_FORMAT_VERSION { return false; }
        var cs := ReadAll(records);
        ok := cs.Some?;
        if ok { credentials := cs.value; }
    }

    static method ReadAll(records: seq<Record>) returns (cs: Option<seq<Credential>>)
      ensures cs == FromDicts(records)
    {
      hide FromDict;
      var read := [];
      for i := 0 to |records|
        invariant FromDicts(records[..i]) == Some(read)
      {
        assert records[..i + 1][..i] == records[..i];
        var c := FromDict(records[i]);
        if c.None? {
          UnreadablePrefix(records, i + 1);
          return None;
        }
        read := read + [c.value];
      }
      assert records[..|records|] == records;
      cs := Some(read);
    }

    /** Writing the temporary file and renaming it may fail. */
    method Save(access: Access) returns (ok: bool)
      modifies disk
      ensures ok == access.Full? && disk.file == if ok then Saved(credentials) else old(disk.file)
    {
      hide ToDict;
      var records := [];
      for i := 0 to |credentials|
        invariant records == ToDicts(credentials[..i])
      {
        assert credentials[..i + 1][..i] == credentials[..i];
        records := records + [ToDict(credentials[i])];
      }
      assert credentials[..|credentials|] == credentials;
      ok := access.Full?;
      if ok { disk.file := Stored(STORE_FORMAT_VERSION, records); }
    }

    method FindById(id: seq<Byte>) returns (i: nat)
      ensures i == IndexOf(credentials, id)
    {
      i := 0;
      while i < |credentials|
        invariant i <= |credentials| && IndexOf(credentials, id) == i + IndexOf(credentials[i..], id)
      {
        assert credentials[i..][1..] == credentials[i + 1..];
        if credentials[i].credentialId == id { return; }
        i := i + 1;
      }
    }

    /** The cached list without the credentials for the account of c. */
    method KeepOthers(c: Credential) returns (kept: seq<Credential>)
      ensures kept == WithoutAccount(credentials, c)
    {
      kept := [];
      for i := 0 to |credentials|
        invariant kept == WithoutAccount(credentials[..i], c)
      {
        assert credentials[..i + 1][..i] == credentials[..i];
        if !(credentials[i].rpId == c.rpId && credentials[i].userHandle == c.userHandle) {
          kept := kept + [credentials[i]];
        }
      }
      assert credentials[..|credentials|] == credentials;
    }

    method KeepOtherIds(id: seq<Byte>) returns (kept: seq<Credential>)
      ensures kept == WithoutId(credentials, id)
    {
      kept := [];
      for i := 0 to |credentials|
        invariant kept == WithoutId(credentials[..i], id)
      {
        assert credentials[..i + 1][..i] == credentials[..i];
        if credentials[i].credentialId != id {
          kept := kept + [credentials[i]];
        }
      }
      assert credentials[..|credentials|] == credentials;
    }

    /** Each mutator runs under the file lock: reload, change, save. */
    method AddCredential(c: Credential, access: Access) returns (r: Reply)
      modifies `credentials, disk
      ensures (disk.file, r) == Attempt(old(disk.file), Add(c), access)
      ensures credentials == CacheAfter(old(credentials), old(disk.file), Add(c), access)
      ensures r != Failed ==> Loaded(disk.file) == Some(credentials)
    {
      hide Loaded, Saved, WithoutAccount;
      if access.Unlockable? { return Failed; }
      var ok := Load();
      if !ok { return Failed; }
      var kept := KeepOthers(c);
      credentials := kept + [c];
      ok := Save(access);
      if !ok { return Failed; }
      LoadRestoresSaved(credentials);
      r := Done;
    }

    method IncrementCounter(id: seq<Byte>, access: Access) returns (r: Reply)
      modifies `credentials, disk
      ensures (disk.file, r) == Attempt(old(disk.file), Increment(id), access)
      ensures credentials == CacheAfter(old(credentials), old(disk.file), Increment(id), access)
      ensures r != Failed ==> Loaded(disk.file) == Some(credentials)
    {
      hide Loaded, Saved, IndexOf;
      if access.Unlockable? { return Failed; }
      var ok := Load();
      if !ok { return Failed; }
      var i := FindById(id);
      if i == |credentials| { return Failed; }
      credentials := credentials[i := credentials[i].(signCount := credentials[i].signCount + 1)];
      ok := Save(access);
      if !ok { return Failed; }
      LoadRestoresSaved(credentials);
      r := Counter(credentials[i].signCount);
    }

    method RemoveCredential(id: seq<Byte>, access: Access) returns (r: Reply)
      modifies `credentials, disk
      ensures (disk.file, r) == Attempt(old(disk.file), Remove(id), access)
      ensures credentials == CacheAfter(old(credentials), old(disk.file), Remove(id), access)
      ensures r != Failed ==> Loaded(disk.file) == Some(credentials)
    {
      hide Loaded, Saved, WithoutId;
      if access.Unlockable? { return Failed; }
      var ok := Load();
      if !ok { return Failed; }
      var before := credentials;
      credentials := KeepOtherIds(id);
      NothingRemoved(before, id);
      if |credentials| == |before| { return Removed(false); }
      ok := Save(access);
      if !ok { return Failed; }
      LoadRestoresSaved(credentials);
      r := Removed(true);
    }

    method DestroyAllCredentials(access: Access) returns (r: Reply)
      modifies `credentials, disk
      ensures (disk.file, r) == Attempt(old(disk.file), DestroyAll, access)
      ensures credentials == CacheAfter(old(credentials), old(disk.file), DestroyAll, access)
      ensures r != Failed ==> Loaded(disk.file) == Some(credentials)
    {
      if access.Unlockable? { return Failed; }
      credentials := [];
      if access.Unwritable? { return Failed; }
      disk.file := Missing;
      r := Done;
    }
  }

  lemma {:induction false} NothingRemoved(cs: seq<Credential>, id: seq<Byte>)
    ensures |WithoutId(cs, id)| <= |cs|
    ensures |WithoutId(cs, id)| == |cs| ==> WithoutId(cs, id) == cs
  {
    if cs != [] {
      var init, last := cs[..|cs| - 1], cs[|cs| - 1];
      NothingRemoved(init, id);
      var kept := WithoutId(init, id);
      if last.credentialId == id {
        assert WithoutId(cs, id) == kept + [];
      } else {
        assert WithoutId(cs, id) == kept + [last];
        assert cs == init + [last];
      }
    }
  }

  lemma {:induction false} UnreadablePrefix(rs: seq<Record>, n: nat)
    requires n <= |rs| && FromDicts(rs[..n]).None?
    ensures FromDicts(rs).None?
  {
    if n < |rs| {
      assert rs[..|rs| - 1][..n] == rs[..n];
      UnreadablePrefix(rs[..|rs| - 1], n);
    } else {
      assert rs[..n] == rs;
    }
  }

  /** The record of a credential holds each field under its own name; the identifiers and the key are base64url text. */
  lemma DictFields(c: Credential)
    ensures var r := ToDict(c);
            && r.rpId == c.rpId && r.rpName == c.rpName && r.userName == c.userName
            && r.userDisplayName == c.userDisplayName && r.keyRef == c.keyRef && r.signCount == c.signCount
            && r.resident == c.resident && r.credProtect == c.credProtect && r.algorithm == c.algorithm
            && r.createdAt == c.createdAt && r.credentialId == B.B64Encode(c.credentialId)
            && r.userHandle == B.B64Encode(c.userHandle) && r.cosePublicKey == B.B64Encode(c.cosePublicKey)
  {
  }
}
