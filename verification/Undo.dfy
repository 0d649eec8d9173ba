/** Restoring a checkpoint as a guarded change, and undo: going back to the checkpoint of the
    last change, which is itself a change that can be undone. One machine and one Postgres
    database, whose other writers stand still. */
module Undo {
  import opened Wrappers
  import B = BackupStreams
  import opened SchemaReset
  import opened RestoreBackup
  import opened ChangeHistory

  // -------------------------------------------------------------------- what is saved

  // `checksum` and `fingerprint` as recorded; no list of schemas on a checkpoint of 1.3.0.
  datatype Manifest = Manifest(
    id: nat, target: nat, storageKey: string, checksum: Bytes, encrypted: bool, compressed: bool,
    fingerprint: Option<Bytes>, schemas: Option<seq<Schema>>)

  datatype StoredManifest = Garbled | Readable(manifest: Manifest)

  datatype Config = Config(
    tools: Tools, target: nat, key: Option<Bytes>, encrypt: bool, compress: bool,
    writeArchive: Content -> Bytes, pack: Bytes -> Bytes)

  function ReadProblem(c: Config, manifests: map<nat, StoredManifest>, id: nat): Option<Unreadable> {
    if id !in manifests then Some(NotOnThisMachine)
    else if manifests[id].Garbled? || manifests[id].manifest.id != id || manifests[id].manifest.target != c.target
    then Some(OtherProblem)
    else None
  }

  /** A checkpoint can be read exactly if its manifest is there, is sound, names itself and
      belongs to this database; a missing one is told apart from the others. */
  lemma ReadProblemIff(c: Config, manifests: map<nat, StoredManifest>, id: nat)
    ensures ReadProblem(c, manifests, id) == None
            <==> && id in manifests && manifests[id].Readable?
                 && manifests[id].manifest.id == id && manifests[id].manifest.target == c.target
    ensures ReadProblem(c, manifests, id) == Some(NotOnThisMachine) <==> id !in manifests
    ensures ReadProblem(c, manifests, id) == Some(OtherProblem)
            <==> && id in manifests
                 && (manifests[id].Garbled?
                     || manifests[id].manifest.id != id || manifests[id].manifest.target != c.target)
  {
  }

  /** What reading a checkpoint comes to, as a function of its identifier. */
  function Reader(c: Config, manifests: map<nat, StoredManifest>): nat -> Option<Unreadable> {
    (id: nat) => ReadProblem(c, manifests, id)
  }

  function SettingsOf(c: Config, m: Manifest): Settings {
    Settings(m.encrypted, c.key, m.compressed)
  }

  ghost predicate Holds(c: Config, files: map<string, Bytes>, m: Manifest, content: Content) {
    VerifiedAs(c.tools, SettingsOf(c, m), Stored(files, m.storageKey), Some(m.checksum), content)
  }

  /** A checkpoint holds what its file, sound by its checksum and decoded as the manifest says,
      archives. */
  lemma HoldsIff(c: Config, files: map<string, Bytes>, m: Manifest, content: Content)
    ensures Holds(c, files, m, content)
            <==> && m.storageKey in files && c.tools.sha256(files[m.storageKey]) == m.checksum
                 && var decoded := Decoded(c.tools, Settings(m.encrypted, c.key, m.compressed), files[m.storageKey]);
                    decoded.Some? && c.tools.readArchive(decoded.value) == Some(content)
  {
    hide Decoded;
  }

  /** If a checkpoint can be restored at all, its file holds exactly the schemas of its
      list. */
  ghost predicate InScope(c: Config, files: map<string, Bytes>, m: Manifest) {
    forall content :: Holds(c, files, m, content) ==>
      m.schemas.Some? && forall s :: s in content <==> s in m.schemas.value
  }

  /** Assumptions about the archive format, the compression and the cipher. */
  ghost predicate Sound(c: Config) {
    && B.Sound(c.tools.crypto)
    && (forall content :: c.tools.readArchive(c.writeArchive(content)) == Some(content))
    && (forall b :: c.tools.decompress(c.pack(b)) == Some(b))
    && (c.encrypt ==> c.key.Some? && |c.key.value| == KEY_LENGTH)
  }

  /** The file of a backup: archive, then compression, then encryption. */
  function BackupFile(c: Config, content: Content, salt: Bytes, iv: Bytes): Bytes {
    var archive := c.writeArchive(content);
    var packed := if c.compress then c.pack(archive) else archive;
    if c.encrypt && c.key.Some? then B.Encrypted(B.Versioned, c.tools.crypto, c.key.value, salt, iv, packed) else packed
  }

  /** What was saved can be restored. */
  lemma SavedCanBeRestored(c: Config, content: Content, salt: Bytes, iv: Bytes)
    requires Sound(c) && |salt| == B.SALT_LENGTH && |iv| == B.IV_LENGTH
    ensures var decoded := Decoded(c.tools, Settings(c.encrypt, c.key, c.compress), BackupFile(c, content, salt, iv));
      decoded.Some? && c.tools.readArchive(decoded.value) == Some(content)
  {
    var archive := c.writeArchive(content);
    var packed := if c.compress then c.pack(archive) else archive;
    var file := BackupFile(c, content, salt, iv);
    var settings := Settings(c.encrypt, c.key, c.compress);
    var unpack := if c.compress then [Decompress] else [];
    assert RunStages(c.tools, unpack, packed) == Some(archive) by {
      if c.compress {
        assert unpack[1..] == [];
      }
    }
    if c.encrypt {
      var key := c.key.value;
      B.DecodeOfEncrypted(B.Versioned, c.tools.crypto, key, salt, iv, packed);
      HeaderOfBackup(c, content, salt, iv);
      var stages := [DecryptVersioned(key)] + unpack;
      assert stages[1..] == unpack;
      assert RunStages(c.tools, stages, file) == RunStages(c.tools, unpack, packed);
    } else {
      assert [] + unpack == unpack;
    }
  }

  lemma HeaderOfBackup(c: Config, content: Content, salt: Bytes, iv: Bytes)
    requires Sound(c) && c.encrypt && |salt| == B.SALT_LENGTH && |iv| == B.IV_LENGTH
    ensures KeyFits(c.tools, c.key.value, BackupFile(c, content, salt, iv))
    ensures B.HasBackupHeader(Prefix(BackupFile(c, content, salt, iv)))
  {
    var file := BackupFile(c, content, salt, iv);
    var fingerprint := c.tools.crypto.fingerprint(c.key.value);
    assert |B.Header(B.Versioned, c.tools.crypto, c.key.value, salt, iv)| == 96;
    assert Prefix(file) == B.BACKUP_MAGIC + [B.BACKUP_VERSION_GCM_FP] + fingerprint;
  }

  // ------------------------------------------------------------- what a restore does

  /** The schemas emptied, or created, and filled from the checkpoint. */
  function Replaced(db: Database, schemas: seq<Schema>, content: Content): Database {
    Filled(Emptied(db, Existing(db, schemas)), content)
  }

  lemma ReplacedAt(db: Database, schemas: seq<Schema>, content: Content, s: Schema)
    requires forall t :: t in content <==> t in schemas
    ensures Get(Replaced(db, schemas, content), s)
            == if s !in schemas then Get(db, s)
               else if s in db then Some(db[s].(objects := content[s])) else Some(SchemaState(true, content[s], ""))
  {
    if s in schemas && s in db {
      assert [] + content[s] == content[s];
    }
  }

  lemma SameDatabase(a: Database, b: Database)
    requires forall s :: Get(a, s) == Get(b, s)
    ensures a == b
  {
    forall s ensures s in a <==> s in b
      ensures s in a ==> s in b && a[s] == b[s]
    {
      assert Get(a, s) == Get(b, s);
    }
  }

  /** Undoing an undo: every schema that the first undo saved is exactly as it was before it,
      and no other schema is touched by the second. Everything is as before if and only if
      the first undo did not have to create a schema. */
  lemma UndoOfUndo(before: Database, first: seq<Schema>, content: Content, second: seq<Schema>)
    requires RefusedSchemas(before, first) == [] && forall s :: s in content <==> s in first
    requires forall s :: s in second <==> s in Scope(before)
    ensures var between := Replaced(before, first, content);
      var after := Replaced(between, second, Captured(before));
      && (forall s :: s in Scope(before) ==> Get(after, s) == Get(before, s))
      && (forall s :: s !in Scope(before) ==> Get(after, s) == Get(between, s))
      && (forall s :: s !in first ==> Get(between, s) == Get(before, s))
      && (after == before <==> forall s :: s in first ==> s in before)
  {
    hide Replaced, Restorable;
    var between := Replaced(before, first, content);
    var after := Replaced(between, second, Captured(before));
    NothingRefusedIff(before, first);
    forall s
      ensures s !in first ==> Get(between, s) == Get(before, s)
      ensures Get(after, s) == Get(if s in Scope(before) then before else between, s)
      ensures s in first && s !in before ==> Get(after, s) != Get(before, s)
    {
      ReplacedAt(before, first, content, s);
      ReplacedAt(between, second, Captured(before), s);
    }
    if forall s :: s in first ==> s in before {
      SameDatabase(after, before);
    }
  }

  // -------------------------------------------------------------------- the machine

  datatype Names = Names(id: nat, storageKey: string, salt: Bytes, iv: Bytes)

  /** Lists the scope, in any order. */
  method ListScope(db: Database) returns (schemas: seq<Schema>)
    ensures forall s :: s in schemas <==> s in Scope(db)
  {
    hide Restorable;
    schemas := [];
    var todo := Scope(db);
    while todo != {}
      invariant todo <= Scope(db) && forall s :: s in schemas <==> s in Scope(db) && s !in todo
      decreases |todo|
    {
      var s :| s in todo;
      todo := todo - {s};
      schemas := schemas + [s];
    }
  }

  // Whether the person agreed to lose later writes: up front, or when asked.
  datatype Confirmation = NotGiven | UpFront | Asked(yes: bool)

  lemma CapturedIsScope(db: Database)
    ensures forall s :: s in Captured(db) <==> s in Scope(db)
  {
    hide Restorable;
  }

  lemma KeyIsThere(c: Config)
    requires Sound(c)
    ensures c.encrypt ==> c.key.Some?
  {
  }

  function ManifestFor(c: Config, names: Names, schemas: seq<Schema>, file: Bytes): Manifest {
    var fingerprint := if c.key.Some? then Some(c.tools.crypto.fingerprint(c.key.value)) else None;
    Manifest(names.id, c.target, names.storageKey, c.tools.sha256(file), c.encrypt, c.compress, fingerprint,
        Some(schemas))
  }

  lemma InScopeLists(c: Config, files: map<string, Bytes>, m: Manifest, content: Content)
    requires InScope(c, files, m) && Holds(c, files, m, content)
    ensures m.schemas.Some? && forall s :: s in m.schemas.value <==> s in content
  {
  }

  lemma InScopeKept(c: Config, files: map<string, Bytes>, more: map<string, Bytes>, m: Manifest)
    requires InScope(c, files, m) && Stored(more, m.storageKey) == Stored(files, m.storageKey)
    ensures InScope(c, more, m)
  {
    hide Decoded;
    forall content | Holds(c, more, m, content)
      ensures m.schemas.Some? && forall s :: s in content <==> s in m.schemas.value
    {
      assert Holds(c, files, m, content);
    }
  }

  lemma SavedIsInScope(c: Config, files: map<string, Bytes>, m: Manifest, content: Content, salt: Bytes, iv: Bytes)
    requires Sound(c) && |salt| == B.SALT_LENGTH && |iv| == B.IV_LENGTH
    requires Stored(files, m.storageKey) == Some(BackupFile(c, content, salt, iv))
    requires m.checksum == c.tools.sha256(BackupFile(c, content, salt, iv))
    requires SettingsOf(c, m) == Settings(c.encrypt, c.key, c.compress)
    requires m.schemas.Some? && forall s :: s in m.schemas.value <==> s in content
    ensures Holds(c, files, m, content) && InScope(c, files, m)
  {
    SavedCanBeRestored(c, content, salt, iv);
    hide Decoded;
    assert Holds(c, files, m, content);
  }

  class Machine {
    const config: Config
    const session: Session
    var files: map<string, Bytes>
    var manifests: map<nat, StoredManifest>
    var records: seq<LocalRecord>

    constructor (config: Config, session: Session)
      requires session.open.None? && Sound(config)
      ensures Valid() && this.config == config && this.session == session
      ensures files == map[] && manifests == map[] && records == []
    {
      this.config, this.session := config, session;
      files, manifests, records := map[], map[], [];
    }

    ghost predicate Valid()
      reads this, session
    {
      && session.open.None? && Sound(config)
      && forall id :: id in manifests && ReadProblem(config, manifests, id).None? ==>
           InScope(config, files, manifests[id].manifest)
    }

    ghost predicate IsFresh(names: Names)
      reads this
    {
      && |names.salt| == B.SALT_LENGTH && |names.iv| == B.IV_LENGTH
      && names.id !in manifests && names.storageKey !in files
      && forall id :: id in manifests && manifests[id].Readable? ==>
           manifests[id].manifest.storageKey != names.storageKey
    }

    /** A saved checkpoint that can be restored to `content`. */
    ghost predicate HasCheckpoint(id: nat, content: Content)
      reads this`manifests, this`files
    {
      && ReadProblem(config, manifests, id).None?
      && Holds(config, files, manifests[id].manifest, content)
      && manifests[id].manifest.schemas.Some? && KeyMatches(manifests[id].manifest)
      && forall s :: s in manifests[id].manifest.schemas.value <==> s in content
    }

    method Effect() returns (ok: bool)
      modifies session`faults
      ensures session.faults == old(session.faults) + if ok then 0 else 1
    {
      ok := session.Query();
    }

    /** The dump is complete before the manifest that names it is saved. */
    method SaveCheckpoint(schemas: seq<Schema>, names: Names) returns (ok: bool)
      requires Valid() && IsFresh(names) && forall s :: s in schemas <==> s in Captured(session.committed)
      modifies this`files, this`manifests, session`faults
      ensures session.faults >= old(session.faults) && (ok <==> session.faults == old(session.faults))
      ensures Valid() && Keeps(old(manifests), old(files), names)
      ensures ok ==> HasCheckpoint(names.id, Captured(session.committed))
    {
      hide Scope, Captured, Restorable, InScope, Holds, BackupFile, Sound, HasCheckpoint;
      var content := Captured(session.committed);
      var file := BackupFile(config, content, names.salt, names.iv);
      ok := WriteFile(names, file);
      if !ok {
        return;
      }
      var manifest := ManifestFor(config, names, schemas, file);
      SavedIsInScope(config, files, manifest, content, names.salt, names.iv);
      assert KeyMatches(manifest) by { KeyIsThere(config); }
      ok := WriteManifest(manifest, content);
    }

    method WriteManifest(manifest: Manifest, ghost content: Content) returns (ok: bool)
      requires Valid() && manifest.id !in manifests && manifest.target == config.target
      requires Holds(config, files, manifest, content) && InScope(config, files, manifest) && manifest.schemas.Some?
      requires KeyMatches(manifest)
      modifies this`manifests, session`faults
      ensures session.faults == old(session.faults) + if ok then 0 else 1
      ensures Valid() && (ok ==> HasCheckpoint(manifest.id, content))
      ensures manifests == if ok then old(manifests)[manifest.id := Readable(manifest)] else old(manifests)
    {
      hide Scope, Captured, Restorable, InScope, Holds, Sound;
      ok := Effect();
      if !ok {
        return;
      }
      assert forall s :: s in manifest.schemas.value <==> s in content by {
        InScopeLists(config, files, manifest, content);
      }
      manifests := manifests[manifest.id := Readable(manifest)];
    }

    method WriteFile(names: Names, file: Bytes) returns (ok: bool)
      requires Valid() && IsFresh(names)
      modifies this`files, session`faults
      ensures session.faults == old(session.faults) + if ok then 0 else 1
      ensures Valid() && Keeps(manifests, old(files), names)
      ensures files == if ok then old(files)[names.storageKey := file] else old(files)
    {
      hide InScope;
      ok := Effect();
      if !ok {
        return;
      }
      forall id | id in manifests && ReadProblem(config, manifests, id).None?
        ensures InScope(config, files[names.storageKey := file], manifests[id].manifest)
      {
        InScopeKept(config, files, files[names.storageKey := file], manifests[id].manifest);
      }
      files := files[names.storageKey := file];
    }

    ghost predicate Permits(before: Database, id: nat, confirm: Confirmation)
      reads this
    {
      && (confirm.UpFront? || confirm == Asked(true))
      && ReadProblem(config, manifests, id).None? && manifests[id].manifest.schemas.Some?
      && manifests[id].manifest.schemas.value != []
      && RefusedSchemas(before, manifests[id].manifest.schemas.value) == []
    }

    predicate KeyMatches(m: Manifest) {
      m.encrypted ==> config.key.Some? && m.fingerprint == Some(config.tools.crypto.fingerprint(config.key.value))
    }

    /** The conditions under which a restore goes through. */
    ghost predicate CanRestore(db: Database, id: nat, confirm: Confirmation)
      reads this
    {
      && Permits(db, id, confirm) && KeyMatches(manifests[id].manifest) && Scope(db) != {}
      && CanReplace(db, manifests[id].manifest)
    }

    ghost predicate CanReplace(db: Database, m: Manifest)
      reads this
    {
      && MayReset(db, m.schemas)
      && IsBackup(config.tools, SettingsOf(config, m), Stored(files, m.storageKey), Some(m.checksum))
    }

    /** Everything that is asked before a restore leaves a trace, in plain terms. */
    ghost predicate MayStart(db: Database, id: nat, confirm: Confirmation)
      reads this
    {
      && (confirm.UpFront? || confirm == Asked(true))
      && id in manifests && manifests[id].Readable?
      && var m := manifests[id].manifest;
         && m.id == id && m.target == config.target && m.schemas.Some? && |m.schemas.value| > 0
         && (m.encrypted ==>
               config.key.Some? && m.fingerprint == Some(config.tools.crypto.fingerprint(config.key.value)))
         && (forall s :: s in m.schemas.value ==> !IsReserved(s) && (s in db ==> db[s].owned))
         && exists s :: s in db && db[s].owned && !IsReserved(s)
    }

    lemma MayStartIff(db: Database, id: nat, confirm: Confirmation)
      ensures MayStart(db, id, confirm)
              <==> && Permits(db, id, confirm) && KeyMatches(manifests[id].manifest) && Scope(db) != {}
    {
      ReadProblemIff(config, manifests, id);
      hide ReadProblem, IsReserved, IsManagedSchema;
      if ReadProblem(config, manifests, id).None? && manifests[id].manifest.schemas.Some? {
        NothingRefusedIff(db, manifests[id].manifest.schemas.value);
      }
      forall s ensures (s in db ==> (Restorable(db, s) <==> db[s].owned && !IsReserved(s)))
        ensures IsManagedSchema(s) <==> IsReserved(s)
      {
        RestorableIff(db, s);
        ManagedIff(s);
      }
      assert forall s :: s in Scope(db) <==> s in db && Restorable(db, s);
    }

    /** The checks that leave no trace behind. */
    method Check(id: nat, confirm: Confirmation) returns (ok: bool)
      modifies session`faults
      ensures session.faults >= old(session.faults)
      ensures ok <==> && session.faults == old(session.faults) && Permits(session.committed, id, confirm)
                      && KeyMatches(manifests[id].manifest) && Scope(session.committed) != {}
      ensures ok <==> session.faults == old(session.faults) && MayStart(session.committed, id, confirm)
    {
      MayStartIff(session.committed, id, confirm);
      hide Restorable, MayStart;
      if confirm.NotGiven? || ReadProblem(config, manifests, id).Some? {
        return false;
      }
      var m := manifests[id].manifest;
      if m.schemas.None? || m.schemas.value == [] || !KeyMatches(m) {
        return false;
      }
      var locked := Effect();
      if !locked {
        return false;
      }
      var listed := Effect();
      if !listed || RefusedSchemas(session.committed, m.schemas.value) != [] || confirm == Asked(false) {
        return false;
      }
      ok := Effect();
      return ok && Scope(session.committed) != {};
    }

    ghost predicate Recorded(before: seq<LocalRecord>, names: Names, now: int)
      reads this
    {
      |records| == |before| + 1 && before <= records && records[|before|].record == Record(names.id, names.id, now)
    }

    /** What is saved before the restore starts. */
    ghost predicate CanBeUndone(db: Database, before: seq<LocalRecord>, names: Names, now: int)
      reads this
    {
      HasCheckpoint(names.id, Captured(db)) && Recorded(before, names, now)
    }

    /** The database is as the checkpoint has it in its schemas and unchanged elsewhere. */
    ghost predicate RestoredFrom(before: Database, id: nat)
      reads this, session
    {
      && ReadProblem(config, manifests, id).None? && manifests[id].manifest.schemas.Some?
      && exists content :: Holds(config, files, manifests[id].manifest, content)
           && session.committed == Replaced(before, manifests[id].manifest.schemas.value, content)
    }

    /** At most the new checkpoint has been added, and nothing has been changed. */
    ghost predicate Keeps(manifestsBefore: map<nat, StoredManifest>, filesBefore: map<string, Bytes>, names: Names)
      reads this
    {
      && (forall i :: i in manifestsBefore ==> i in manifests && manifests[i] == manifestsBefore[i])
      && (forall i :: i in manifests ==>
            i in manifestsBefore
            || (i == names.id && manifests[i].Readable? && manifests[i].manifest.storageKey == names.storageKey))
      && (forall k :: k in filesBefore ==> k in files && files[k] == filesBefore[k])
      && (forall k :: k in files ==> k in filesBefore || k == names.storageKey)
    }

    /** Restores a checkpoint as a guarded change: the checks that refuse it come first,
        then a checkpoint of the present state and its record are saved, and only then is
        anything replaced. */
    method RestoreCheckpoint(id: nat, confirm: Confirmation, now: int, names: Names) returns (ok: bool)
      requires Valid() && IsFresh(names)
      modifies this`files, this`manifests, this`records, session
      ensures Valid() && Keeps(old(manifests), old(files), names)
      ensures session.committed != old(session.committed) || ok ==>
                Permits(old(session.committed), id, confirm)
                && CanBeUndone(old(session.committed), old(records), names, now)
      // Nothing is changed or recorded for a checkpoint that is not this database's.
      ensures session.committed != old(session.committed) || records != old(records) || ok ==>
                old(MayStart(session.committed, id, confirm))
      ensures forall s :: Get(session.committed, s) != Get(old(session.committed), s) ==>
                s in manifests[id].manifest.schemas.value
      ensures ok ==> RestoredFrom(old(session.committed), id)
      ensures records == old(records) || Recorded(old(records), names, now)
      ensures session.faults >= old(session.faults)
      ensures ok <==> old(CanRestore(session.committed, id, confirm)) && session.faults == old(session.faults)
    {
      hide Restorable, Captured, Holds, Scope, RefusedSchemas, InScope, MayReset, IsBackup, Sound, HasCheckpoint,
          MayStart;
      ok := SaveBefore(id, confirm, now, names);
      if !ok {
        return;
      }
      var restored := Restore(id);
      // The record of the outcome is saved whether the restore succeeded or not.
      var saved, sent := FinishRecord();
      ok := restored && saved;
    }

    /** The checks, then the checkpoint of the present state, then its record. */
    method SaveBefore(id: nat, confirm: Confirmation, now: int, names: Names) returns (ok: bool)
      requires Valid() && IsFresh(names)
      modifies this`files, this`manifests, this`records, session`faults
      ensures Valid() && Keeps(old(manifests), old(files), names) && session.faults >= old(session.faults)
      ensures ok <==> && session.faults == old(session.faults) && old(Permits(session.committed, id, confirm))
                      && old(KeyMatches(manifests[id].manifest)) && Scope(session.committed) != {}
      ensures ok <==> session.faults == old(session.faults) && old(MayStart(session.committed, id, confirm))
      ensures ok ==> CanBeUndone(session.committed, old(records), names, now)
      ensures records == if ok then old(records) + [LocalRecord(Record(names.id, names.id, now), false)]
              else old(records)
      ensures records == old(records) || Recorded(old(records), names, now)
    {
      hide Restorable, Captured, Scope, RefusedSchemas, InScope, Sound, HasCheckpoint, MayStart;
      ok := Check(id, confirm);
      if !ok {
        return;
      }
      var scope := ListScope(session.committed);
      CapturedIsScope(session.committed);
      ok := SaveCheckpoint(scope, names);
      if !ok {
        return;
      }
      ok := StartRecord(Record(names.id, names.id, now));
    }

    /** The record of a change that is about to start, which the cloud does not know yet. */
    method StartRecord(record: Record) returns (ok: bool)
      modifies this`records, session`faults
      ensures session.faults == old(session.faults) + if ok then 0 else 1
      ensures records == if ok then old(records) + [LocalRecord(record, false)] else old(records)
    {
      ok := Effect();
      if ok {
        records := records + [LocalRecord(record, false)];
      }
    }

    /** The outcome is saved and then sent, and the record marked if it arrived. */
    method FinishRecord() returns (saved: bool, sent: bool)
      requires records != []
      modifies this`records, session`faults
      ensures session.faults == old(session.faults) + (if saved then 0 else 1) && (sent ==> saved)
      ensures |records| == |old(records)| && records[..|records| - 1] == old(records)[..|records| - 1]
      ensures records[|records| - 1] == old(records)[|records| - 1].(synced := sent)
    {
      saved := Effect();
      sent := *;
      sent := saved && sent;
      records := records[|records| - 1 := records[|records| - 1].(synced := sent)];
    }

    /** The change itself. */
    method Restore(id: nat) returns (ok: bool)
      requires Valid() && ReadProblem(config, manifests, id).None? && manifests[id].manifest.schemas.Some?
      modifies session
      ensures Valid() && session.faults >= old(session.faults)
      ensures ok <==>
                CanReplace(old(session.committed), manifests[id].manifest) && session.faults == old(session.faults)
      ensures ok ==> RestoredFrom(old(session.committed), id)
      ensures forall s :: Get(session.committed, s) != Get(old(session.committed), s) ==>
                s in manifests[id].manifest.schemas.value
    {
      hide Restorable, RefusedSchemas, Decoded, MayReset, IsBackup;
      var m := manifests[id].manifest;
      assert InScope(config, files, m);
      var problem := RestoreBackupStandalone(session, config.tools, SettingsOf(config, m), files, m.storageKey,
                                             Some(m.checksum), m.schemas);
      ok := problem.None?;
      if ok {
        ghost var content :| Holds(config, files, m, content)
          && session.committed
             == Filled(Emptied(old(session.committed), Targets(old(session.committed), m.schemas)), content);
        assert session.committed == Replaced(old(session.committed), m.schemas.value, content);
      }
      forall s | Get(session.committed, s) != Get(old(session.committed), s)
        ensures s in m.schemas.value
      {
        if s !in Targets(old(session.committed), m.schemas) {
          OnlyListed(config, files, m, s);
        }
      }
    }

    /** Restores the checkpoint saved before the newest change whose checkpoint this
        machine can read. */
    method Undo(cloud: Option<seq<Record>>, confirm: Confirmation, now: int, names: Names)
      returns (ok: bool, id: nat, search: UndoSearch, entries: seq<Entry>)
      requires Valid() && IsFresh(names)
      modifies this`files, this`manifests, this`records, session
      ensures Valid() && Keeps(old(manifests), old(files), names) && session.faults >= old(session.faults)
      // The search goes over the newest changes, newest first.
      ensures IsNewest(entries, History(old(records), cloud), 50)
      ensures Finds(entries, Reader(config, old(manifests)), search)
      ensures search.target.None? ==>
                !ok && session.committed == old(session.committed) && records == old(records)
                && manifests == old(manifests)
      ensures search.target.Some? ==>
                && id == search.target.value.checkpointId
                && (ok <==> old(CanRestore(session.committed, id, confirm)) && session.faults == old(session.faults))
      ensures session.committed != old(session.committed) || ok ==>
                Permits(old(session.committed), id, confirm)
                && CanBeUndone(old(session.committed), old(records), names, now)
      ensures session.committed != old(session.committed) || records != old(records) || ok ==>
                old(MayStart(session.committed, id, confirm))
      ensures ok ==> RestoredFrom(old(session.committed), id)
      ensures records == old(records) || Recorded(old(records), names, now)
    {
      hide CanRestore, CanBeUndone, Permits, RestoredFrom, IsNewest, Finds, Sound, InScope, MayStart;
      entries := ReadHistory(records, cloud, 50);
      search := FindUndoTarget(entries, Reader(config, manifests));
      if search.target.None? {
        return false, 0, search, entries;
      }
      id := search.target.value.checkpointId;
      ok := RestoreCheckpoint(id, confirm, now, names);
    }

    /** If the latest change's checkpoint can be read, that is the one undo takes. */
    lemma LatestIsTaken(latest: Record, local: seq<LocalRecord>, cloud: Option<seq<Record>>,
                        ms: map<nat, StoredManifest>, entries: seq<Entry>, search: UndoSearch)
      requires IsLatestOf(latest, History(local, cloud)) && ReadProblem(config, ms, latest.checkpointId).None?
      requires IsNewest(entries, History(local, cloud), 50) && Finds(entries, Reader(config, ms), search)
      ensures search.target == Some(latest)
    {
      LatestComesFirst(entries, History(local, cloud), 50, latest.id);
      ReadableFirstIsFound(entries, Reader(config, ms), search);
    }

    /** Undo, and then undo that. If both succeed, every schema that the first saved is as it
        was before, and everything is if and only if the first had no schema to create. Both
        do succeed when no effect fails, the first can be carried out, and every object in
        the way is of a type that can be dropped. */
    method UndoTwice(cloudBefore: Option<seq<Record>>, cloudBetween: Option<seq<Record>>, confirm: Confirmation,
                     now: int, later: int, names: Names, next: Names, ghost latest: Record) returns (both: bool)
      requires Valid() && IsFresh(names) && IsFresh(next)
      requires names.id != next.id && names.storageKey != next.storageKey
      requires IsLatestOf(latest, History(records, cloudBefore))
               && ReadProblem(config, manifests, latest.checkpointId).None?
      requires UniqueRecords(records)
      requires forall r :: r in records ==> r.record.id != names.id && r.record.occurredAt < now
      requires forall r :: r in cloudBetween.GetOr([]) ==> r.id == names.id || r.occurredAt < now
      modifies this`files, this`manifests, this`records, session
      ensures both ==> forall s :: s in Scope(old(session.committed)) ==>
                         Get(session.committed, s) == Get(old(session.committed), s)
      ensures both ==> (session.committed == old(session.committed)
                        <==> forall s :: s in old(SchemasOf(latest.checkpointId)) ==> s in old(session.committed))
      ensures session.faults == old(session.faults)
                && old(CanUndoTwice(session.committed, latest.checkpointId, confirm)) ==>
              both
    {
      hide Captured, Scope, Restorable, Holds, Replaced, FromMachine, WithCloud, RefusedSchemas, InScope, Sound,
           CanUndoTwice, CanRestore, HasCheckpoint, Recorded;
      ghost var before, recordsBefore, first := session.committed, records, SchemasOf(latest.checkpointId);
      ghost var certain := CanUndoTwice(before, latest.checkpointId, confirm);
      CertainlyOnce(before, latest.checkpointId, confirm);
      ghost var content;
      both, content := UndoOnce(cloudBefore, confirm, now, names, latest);
      if !both {
        return;
      }
      ghost var second := SchemasOf(names.id);
      CapturedIsScope(before);
      CheckpointLists(names.id, Captured(before));
      UndoOfUndo(before, first, content, second);
      ghost var record := IsLast(recordsBefore, names, now, cloudBetween);
      if certain {
        CanGoBack(before, first, content, names.id, confirm);
      }
      both := UndoLatest(cloudBetween, confirm, later, next, record, Captured(before));
    }

    /** Undo when the latest change's checkpoint can be read. */
    method UndoOnce(cloud: Option<seq<Record>>, confirm: Confirmation, now: int, names: Names, ghost latest: Record)
      returns (ok: bool, ghost content: Content)
      requires Valid() && IsFresh(names)
      requires IsLatestOf(latest, History(records, cloud)) && ReadProblem(config, manifests, latest.checkpointId).None?
      modifies this`files, this`manifests, this`records, session
      ensures Valid() && Keeps(old(manifests), old(files), names) && session.faults >= old(session.faults)
      ensures ok <==>
                && old(CanRestore(session.committed, latest.checkpointId, confirm))
                && session.faults == old(session.faults)
      ensures ok ==>
        var first := old(SchemasOf(latest.checkpointId));
        && session.committed == Replaced(old(session.committed), first, content)
        && (forall s :: s in content <==> s in first) && RefusedSchemas(old(session.committed), first) == []
        && HasCheckpoint(names.id, Captured(old(session.committed))) && Recorded(old(records), names, now)
        && (old(CanUndoTwice(session.committed, latest.checkpointId, confirm)) ==>
              CanEmptyAgain(old(session.committed), content, confirm))
    {
      hide Captured, Scope, Restorable, Holds, Replaced, FromMachine, WithCloud, RefusedSchemas, InScope, Sound,
          MayReset, IsBackup;
      content := map[];
      ghost var before, saved := session.committed, manifests[latest.checkpointId].manifest;
      ghost var filesBefore := files;
      ghost var recordsBefore, manifestsBefore := records, manifests;
      var id, search, entries;
      ok, id, search, entries := Undo(cloud, confirm, now, names);
      LatestIsTaken(latest, recordsBefore, cloud, manifestsBefore, entries, search);
      if ok {
        NothingWasRefused(before, id, confirm);
        content := ContentOf(before, id);
        assert Stored(files, saved.storageKey) == Stored(filesBefore, saved.storageKey);
        SameHolds(config, filesBefore, files, saved, content);
      }
    }

    /** The new record is the latest of all. */
    ghost method IsLast(before: seq<LocalRecord>, names: Names, now: int, cloud: Option<seq<Record>>)
      returns (record: Record)
      requires Recorded(before, names, now) && UniqueRecords(before)
      requires forall r :: r in before ==> r.record.id != names.id && r.record.occurredAt < now
      requires forall r :: r in cloud.GetOr([]) ==> r.id == names.id || r.occurredAt < now
      ensures record == Record(names.id, names.id, now) && IsLatestOf(record, History(records, cloud))
    {
      record := Record(names.id, names.id, now);
      OneMore(before, records, names, now);
      RecordedLastIsLatest(records, cloud.GetOr([]));
    }

    lemma CheckpointLists(id: nat, content: Content)
      requires HasCheckpoint(id, content)
      ensures ReadProblem(config, manifests, id).None? && SchemasOf(id) == manifests[id].manifest.schemas.value
      ensures forall s :: s in SchemasOf(id) <==> s in content
    {
    }

    /** What the first undo left can be replaced by the second. */
    lemma CanGoBack(before: Database, first: seq<Schema>, content: Content, id: nat, confirm: Confirmation)
      requires HasCheckpoint(id, Captured(before)) && RefusedSchemas(before, first) == []
      requires (forall s :: s in content <==> s in first) && CanEmptyAgain(before, content, confirm)
      requires session.committed == Replaced(before, first, content)
      ensures CanRestore(session.committed, id, confirm)
    {
      hide Captured, Scope, Restorable, Replaced, RefusedSchemas, MayReset;
      CapturedIsScope(before);
      RestoredCanBeReplaced(before, first, content, manifests[id].manifest.schemas.value);
    }

    ghost function SchemasOf(id: nat): seq<Schema>
      reads this
    {
      if ReadProblem(config, manifests, id).None? then manifests[id].manifest.schemas.GetOr([]) else []
    }

    /** The restore can be carried out, and what it leaves can be emptied again. */
    ghost predicate CanUndoTwice(db: Database, id: nat, confirm: Confirmation)
      reads this
    {
      && CanRestore(db, id, confirm) && (forall s :: s in Scope(db) ==> AllDroppable(db[s].objects))
      && forall content :: Holds(config, files, manifests[id].manifest, content) ==>
           forall s :: s in content ==> AllDroppable(content[s])
    }

    lemma CertainlyOnce(db: Database, id: nat, confirm: Confirmation)
      ensures CanUndoTwice(db, id, confirm) ==> CanRestore(db, id, confirm)
    {
    }

    /** Undo puts back what the checkpoint of the latest change holds. */
    method UndoLatest(cloud: Option<seq<Record>>, confirm: Confirmation, now: int, names: Names,
                      ghost latest: Record, ghost content: Content) returns (ok: bool)
      requires Valid() && IsFresh(names)
      requires IsLatestOf(latest, History(records, cloud)) && HasCheckpoint(latest.checkpointId, content)
      modifies this`files, this`manifests, this`records, session
      ensures Valid()
      ensures ok ==> session.committed == Replaced(old(session.committed),
                old(manifests[latest.checkpointId].manifest.schemas.value), content)
      ensures ok <==>
                && old(CanRestore(session.committed, latest.checkpointId, confirm))
                && session.faults == old(session.faults)
      ensures session.faults >= old(session.faults)
    {
      hide Captured, Scope, Restorable, Replaced, FromMachine, WithCloud, RefusedSchemas, InScope, Holds, Permits,
          Sound;
      ghost var before, filesBefore, saved := session.committed, files, manifests[latest.checkpointId].manifest;
      ghost var recordsBefore, manifestsBefore := records, manifests;
      var id, search, entries;
      ok, id, search, entries := Undo(cloud, confirm, now, names);
      LatestIsTaken(latest, recordsBefore, cloud, manifestsBefore, entries, search);
      if ok {
        SameStored(config, filesBefore, files, saved, content);
        OneContent(config, files, saved);
      }
    }

    lemma NothingWasRefused(before: Database, id: nat, confirm: Confirmation)
      requires Permits(before, id, confirm)
      ensures ReadProblem(config, manifests, id).None? && manifests[id].manifest.schemas.Some?
      ensures RefusedSchemas(before, manifests[id].manifest.schemas.value) == []
    {
    }

    /** The content that the restore put into the database. */
    ghost method ContentOf(before: Database, id: nat) returns (content: Content)
      requires Valid() && RestoredFrom(before, id)
      ensures Holds(config, files, manifests[id].manifest, content)
      ensures session.committed == Replaced(before, manifests[id].manifest.schemas.value, content)
      ensures forall s :: s in content <==> s in manifests[id].manifest.schemas.value
    {
      content :| Holds(config, files, manifests[id].manifest, content)
                 && session.committed == Replaced(before, manifests[id].manifest.schemas.value, content);
      assert InScope(config, files, manifests[id].manifest);
    }
  }

  /** Every object in the way of the second undo can be dropped. */
  ghost predicate CanEmptyAgain(before: Database, content: Content, confirm: Confirmation) {
    && (confirm.UpFront? || confirm == Asked(true)) && Scope(before) != {}
    && (forall s :: s in Scope(before) ==> AllDroppable(before[s].objects))
    && (forall s :: s in content ==> AllDroppable(content[s]))
  }

  lemma RestoredCanBeReplaced(before: Database, first: seq<Schema>, content: Content, second: seq<Schema>)
    requires RefusedSchemas(before, first) == [] && forall s :: s in content <==> s in first
    requires forall s :: s in second <==> s in Scope(before)
    requires Scope(before) != {}
    requires forall s :: s in Scope(before) ==> AllDroppable(before[s].objects)
    requires forall s :: s in content ==> AllDroppable(content[s])
    ensures var between := Replaced(before, first, content);
      second != [] && Scope(between) != {} && RefusedSchemas(between, second) == [] && MayReset(between, Some(second))
  {
    hide Replaced, AllDroppable, IsManagedSchema;
    var between := Replaced(before, first, content);
    forall s | s in Scope(before)
      ensures Restorable(between, s) && s in Scope(between) && AllDroppable(between[s].objects)
    {
      ReplacedAt(before, first, content, s);
      assert Get(between, s).Some? && Get(before, s) == Some(before[s]);
    }
    var s :| s in Scope(before);
    assert s in second && s in Scope(between);
    NothingRefusedIff(between, second);
  }

  lemma SameHolds(c: Config, files: map<string, Bytes>, more: map<string, Bytes>, m: Manifest, content: Content)
    requires Holds(c, more, m, content) && Stored(files, m.storageKey) == Stored(more, m.storageKey)
    ensures Holds(c, files, m, content)
  {
  }

  lemma OneMore(before: seq<LocalRecord>, after: seq<LocalRecord>, names: Names, now: int)
    requires UniqueRecords(before) && forall r :: r in before ==> r.record.id != names.id && r.record.occurredAt < now
    requires |after| == |before| + 1 && before <= after && after[|before|].record == Record(names.id, names.id, now)
    ensures UniqueRecords(after)
    ensures forall i :: 0 <= i < |before| ==> after[i].record.occurredAt < now
  {
    forall i | 0 <= i < |before| ensures after[i] in before {
      assert after[i] == before[i];
    }
  }

  lemma SameStored(c: Config, files: map<string, Bytes>, more: map<string, Bytes>, m: Manifest, content: Content)
    requires Holds(c, files, m, content) && forall k :: k in files ==> k in more && more[k] == files[k]
    ensures Holds(c, more, m, content)
  {
  }

  lemma OneContent(c: Config, files: map<string, Bytes>, m: Manifest)
    ensures forall a, b :: Holds(c, files, m, a) && Holds(c, files, m, b) ==> a == b
  {
  }

  lemma OnlyListed(c: Config, files: map<string, Bytes>, m: Manifest, s: Schema)
    requires InScope(c, files, m) && m.schemas.Some?
    requires Verified(c.tools, SettingsOf(c, m), Stored(files, m.storageKey), Some(m.checksum))
    requires Archived(c.tools, SettingsOf(c, m), files, m.storageKey, s)
    ensures s in m.schemas.value
  {
    var content := c.tools.readArchive(Decoded(c.tools, SettingsOf(c, m), files[m.storageKey]).value).value;
    assert Holds(c, files, m, content);
  }
}
