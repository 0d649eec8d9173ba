/** Restoring a saved file: nothing in the target is touched before the whole file has been
    checked against its checksum and decoded to the end. Hashing, decompression, the legacy
    cipher and the archive format are parameters; any effect may fail. */
module RestoreBackup {
  import opened Wrappers
  import opened Chunks
  import B = BackupStreams
  import opened SchemaReset

  type Bytes = B.Bytes

  datatype Tools = Tools(
    crypto: B.Crypto, legacyDecrypt: (Bytes, Bytes) -> Option<Bytes>, decompress: Bytes -> Option<Bytes>,
    sha256: Bytes -> Bytes, readArchive: Bytes -> Option<Content>)

  datatype Settings = Settings(encrypted: bool, key: Option<Bytes>, compressed: bool)

  const KEY_LENGTH := 32

  datatype Stage = DecryptVersioned(key: Bytes) | DecryptLegacy(key: Bytes) | Decompress

  /** The bytes of the file that are looked at before decrypting. */
  function Prefix(file: Bytes): Bytes {
    file[..if |file| < 16 then |file| else 16]
  }

  predicate KeyFits(tools: Tools, key: Bytes, file: Bytes) {
    && |key| == KEY_LENGTH
    && (B.ReadBackupVersion(Prefix(file)) == Some(B.BACKUP_VERSION_GCM_FP) ==>
          Prefix(file)[8..] == tools.crypto.fingerprint(key))
  }

  /** The stages a file goes through, or none if it is refused at once. */
  function DecodeStages(tools: Tools, settings: Settings, file: Bytes): Option<seq<Stage>> {
    if settings.encrypted && (settings.key.None? || !KeyFits(tools, settings.key.value, file)) then None
    else
      var decrypt :=
        if !settings.encrypted then []
        else if B.HasBackupHeader(Prefix(file)) then [DecryptVersioned(settings.key.value)]
        else [DecryptLegacy(settings.key.value)];
      Some(decrypt + if settings.compressed then [Decompress] else [])
  }

  ghost function RunStage(tools: Tools, stage: Stage, data: Bytes): Option<Bytes> {
    match stage
    case DecryptVersioned(key) =>
      var outcome := B.Decode(B.Versioned, tools.crypto, key, data);
      if outcome.Finished? then Some(outcome.plain) else None
    case DecryptLegacy(key) => tools.legacyDecrypt(key, data)
    case Decompress => tools.decompress(data)
  }

  ghost function RunStages(tools: Tools, stages: seq<Stage>, data: Bytes): Option<Bytes> {
    if stages == [] then Some(data)
    else
      var next := RunStage(tools, stages[0], data);
      if next.None? then None else RunStages(tools, stages[1..], next.value)
  }

  /** What a file contains for the given settings, if it can be decoded to the end. */
  ghost function Decoded(tools: Tools, settings: Settings, file: Bytes): Option<Bytes> {
    var stages := DecodeStages(tools, settings, file);
    if stages.None? then None else RunStages(tools, stages.value, file)
  }

  method RunPipeline(tools: Tools, stages: seq<Stage>, file: Bytes) returns (decoded: Option<Bytes>)
    ensures decoded == RunStages(tools, stages, file)
  {
    var data := file;
    for i := 0 to |stages|
      invariant RunStages(tools, stages[i..], data) == RunStages(tools, stages, file)
    {
      var next: Option<Bytes>;
      match stages[i] {
        case DecryptVersioned(key) =>
          var outcome := B.Decrypt(B.Versioned, tools.crypto, key, [data]);
          assert Flatten([data]) == data;
          next := if outcome.Finished? then Some(outcome.plain) else None;
        case DecryptLegacy(key) => next := tools.legacyDecrypt(key, data);
        case Decompress => next := tools.decompress(data);
      }
      assert next == RunStage(tools, stages[i], data);
      if next.None? {
        return None;
      }
      assert stages[i..][1..] == stages[i + 1..];
      data := next.value;
    }
    return Some(data);
  }

  /** The plaintext of an authentic file. */
  ghost function PlainOf(tools: Tools, key: Bytes, salt: Bytes, iv: Bytes, text: Bytes): Bytes {
    B.Mask(tools.crypto, tools.crypto.deriveKey(key, salt), iv, 0, text)
  }

  /** The file is authentic for the key, and its plaintext decompresses if it has to. */
  ghost predicate IsGoodFile(tools: Tools, key: Bytes, compressed: bool, header: Bytes, salt: Bytes, iv: Bytes,
                             text: Bytes, file: Bytes)
  {
    && B.IsAuthentic(B.Versioned, tools.crypto, key, header, salt, iv, text, file)
    && (compressed ==> tools.decompress(PlainOf(tools, key, salt, iv, text)).Some?)
  }

  /** An encrypted versioned backup gets past the verification exactly if it is an authentic
      file for a key of 32 bytes and, where compressed, decompresses: a changed or cut off
      file never gets as far as the reset. */
  lemma VersionedDecodesIff(tools: Tools, settings: Settings, file: Bytes)
    requires B.Sound(tools.crypto) && settings.encrypted && B.HasBackupHeader(Prefix(file))
    ensures Decoded(tools, settings, file).Some?
            <==> && settings.key.Some? && |settings.key.value| == 32
                 && exists header, salt, iv, text ::
                      IsGoodFile(tools, settings.key.value, settings.compressed, header, salt, iv, text, file)
  {
    if settings.key.Some? && |settings.key.value| == KEY_LENGTH {
      var key := settings.key.value;
      DecodedIsTwoStages(tools, settings, file);
      B.FinishesIff(B.Versioned, tools.crypto, key, file);
      hide Decoded;
      var outcome := B.Decode(B.Versioned, tools.crypto, key, file);
      forall header, salt, iv, text | B.IsAuthentic(B.Versioned, tools.crypto, key, header, salt, iv, text, file)
        ensures outcome == B.Finished(PlainOf(tools, key, salt, iv, text))
      {
        B.AuthenticFinishes(B.Versioned, tools.crypto, key, header, salt, iv, text, file);
      }
      if outcome.Finished? {
        var header, salt, iv, text :| B.IsAuthentic(B.Versioned, tools.crypto, key, header, salt, iv, text, file);
        assert outcome == B.Finished(PlainOf(tools, key, salt, iv, text));
        assert Decoded(tools, settings, file).Some? ==>
            IsGoodFile(tools, key, settings.compressed, header, salt, iv, text, file);
      }
    }
  }

  /** What such a file then decodes to. */
  lemma GoodFileDecodes(tools: Tools, settings: Settings, file: Bytes, header: Bytes, salt: Bytes, iv: Bytes,
                        text: Bytes)
    requires B.Sound(tools.crypto) && settings.encrypted && B.HasBackupHeader(Prefix(file))
    requires settings.key.Some? && |settings.key.value| == KEY_LENGTH
    requires B.IsAuthentic(B.Versioned, tools.crypto, settings.key.value, header, salt, iv, text, file)
    ensures var plain := B.Mask(tools.crypto, tools.crypto.deriveKey(settings.key.value, salt), iv, 0, text);
      Decoded(tools, settings, file) == if settings.compressed then tools.decompress(plain) else Some(plain)
  {
    DecodedIsTwoStages(tools, settings, file);
    B.AuthenticFinishes(B.Versioned, tools.crypto, settings.key.value, header, salt, iv, text, file);
  }

  /** Any other file: one that is not encrypted goes to the decompression or is taken as it
      is; an encrypted one without the mark of a versioned backup is decrypted by the legacy
      cipher first, with a key of 32 bytes. */
  lemma OtherFilesDecode(tools: Tools, settings: Settings, file: Bytes)
    requires !settings.encrypted || !(B.MARK + [2] <= file || B.MARK + [3] <= file)
    ensures Decoded(tools, settings, file)
            == var decrypted :=
                 if !settings.encrypted then Some(file)
                 else if settings.key.Some? && |settings.key.value| == 32
                 then tools.legacyDecrypt(settings.key.value, file)
                 else None;
               if decrypted.Some? && settings.compressed then tools.decompress(decrypted.value) else decrypted
  {
    var rest := if settings.compressed then [Decompress] else [];
    B.BackupHeaderIff(Prefix(file));
    PrefixDecides(file, B.MARK + [2]);
    PrefixDecides(file, B.MARK + [3]);
    assert [] + rest == rest;
    RunRest(tools, settings.compressed, file);
    if settings.encrypted && settings.key.Some? && |settings.key.value| == KEY_LENGTH {
      var stages := [DecryptLegacy(settings.key.value)] + rest;
      assert DecodeStages(tools, settings, file) == Some(stages) && stages[1..] == rest;
      var next := tools.legacyDecrypt(settings.key.value, file);
      if next.Some? {
        RunRest(tools, settings.compressed, next.value);
      }
    }
  }

  lemma PrefixDecides(file: Bytes, mark: Bytes)
    requires |mark| == 8
    ensures mark <= Prefix(file) <==> mark <= file
  {
    assert |file| >= 8 ==> Prefix(file)[..8] == file[..8];
  }

  /** What decoding such a file comes to: decrypting, then decompressing if asked to. */
  lemma DecodedIsTwoStages(tools: Tools, settings: Settings, file: Bytes)
    requires B.Sound(tools.crypto) && settings.encrypted && B.HasBackupHeader(Prefix(file))
    requires settings.key.Some? && |settings.key.value| == KEY_LENGTH
    ensures var outcome := B.Decode(B.Versioned, tools.crypto, settings.key.value, file);
      Decoded(tools, settings, file)
      == if outcome.Failed? then None
         else if settings.compressed then tools.decompress(outcome.plain) else Some(outcome.plain)
  {
    var key := settings.key.value;
    if KeyFits(tools, key, file) {
      var rest := if settings.compressed then [Decompress] else [];
      var stages := [DecryptVersioned(key)] + rest;
      assert DecodeStages(tools, settings, file) == Some(stages);
      assert stages[1..] == rest;
      if settings.compressed {
        assert rest[1..] == [];
      }
      hide DecodeStages;
      assert stages[0] == DecryptVersioned(key);
      var next := RunStage(tools, stages[0], file);
      if next.Some? {
        assert RunStages(tools, stages, file) == RunStages(tools, rest, next.value);
        RunRest(tools, settings.compressed, next.value);
      }
    } else {
      FingerprintAlsoInStream(tools, key, file);
    }
  }

  lemma RunRest(tools: Tools, compressed: bool, data: Bytes)
    ensures RunStages(tools, if compressed then [Decompress] else [], data)
            == if compressed then tools.decompress(data) else Some(data)
  {
    if compressed {
      var rest := [Decompress];
      assert rest[1..] == [];
    }
  }

  /** The early look at the fingerprint refuses nothing that the stream would accept. */
  lemma FingerprintAlsoInStream(tools: Tools, key: Bytes, file: Bytes)
    requires |key| == KEY_LENGTH && B.HasBackupHeader(Prefix(file)) && !KeyFits(tools, key, file)
    ensures B.Decode(B.Versioned, tools.crypto, key, file).Failed?
  {
    assert file[7] == Prefix(file)[7];
    if B.BodyStart(B.Versioned, file).Some? {
      assert Prefix(file)[8..] == file[8..16];
    }
  }

  // ---------------------------------------------------------------------- the restore

  /** The database with the archive's objects added; a missing schema is created. */
  function Filled(db: Database, content: Content): Database {
    map s | s in db.Keys + content.Keys ::
      if s !in content then db[s]
      else if s in db then db[s].(objects := db[s].objects + content[s])
      else SchemaState(true, content[s], "")
  }

  /** Only schemas of the archive differ. */
  ghost predicate OutsideUntouched(before: Database, after: Database, content: Content) {
    forall s :: s !in content ==> Get(after, s) == Get(before, s)
  }

  /** The archive's schemas in whatever state, the others as they were. */
  function PartlyFilled(db: Database, partly: Database, content: Content): Database {
    map s | s in db.Keys + partly.Keys && (if s in content then s in partly else s in db) ::
      if s in content then partly[s] else db[s]
  }

  lemma FilledAt(db: Database, content: Content, s: Schema)
    ensures Get(Filled(db, content), s)
            == if s !in content then Get(db, s)
               else if s in db then Some(SchemaState(db[s].owned, db[s].objects + content[s], db[s].kept))
               else Some(SchemaState(true, content[s], ""))
  {
  }

  lemma FilledOutside(db: Database, content: Content)
    ensures OutsideUntouched(db, Filled(db, content), content)
  {
  }

  datatype Problem = NotFound | Damaged | CannotDecode | ResetFailed | RestoreFailed

  /** The run of the restore tool: it may stop anywhere. */
  method Load(session: Session, content: Content) returns (ok: bool)
    modifies session`committed, session`faults
    ensures OutsideUntouched(old(session.committed), session.committed, content)
    ensures ok ==> session.committed == Filled(old(session.committed), content)
    ensures session.faults == old(session.faults) + if ok then 0 else 1
  {
    ok := session.Query();
    var partly: Database := *;
    FilledOutside(session.committed, content);
    session.committed := if ok then Filled(session.committed, content)
                         else PartlyFilled(session.committed, partly, content);
  }

  /** The checks that come before anything is changed. */
  ghost predicate Verified(tools: Tools, settings: Settings, file: Option<Bytes>, checksum: Option<Bytes>) {
    && file.Some? && (checksum.Some? ==> tools.sha256(file.value) == checksum.value)
    && Decoded(tools, settings, file.value).Some?
  }

  ghost predicate VerifiedAs(tools: Tools, settings: Settings, file: Option<Bytes>, checksum: Option<Bytes>,
                             content: Content)
  {
    && Verified(tools, settings, file, checksum)
    && tools.readArchive(Decoded(tools, settings, file.value).value) == Some(content)
  }

  /** A restore that first empties `replace`; no list means every restorable schema.
      `store` is what can be read of the storage. */
  method RestoreBackupStandalone(session: Session, tools: Tools, settings: Settings, store: map<string, Bytes>,
                                 storageKey: string, checksum: Option<Bytes>, replace: Option<seq<Schema>>)
    returns (problem: Option<Problem>)
    requires session.open.None?
    modifies session
    ensures session.open.None? && session.faults >= old(session.faults)
    // Nothing changes unless the file passed every check and the reset was permitted.
    ensures session.committed != old(session.committed) ==>
              && Verified(tools, settings, Stored(store, storageKey), checksum)
              && MayReset(old(session.committed), replace)
    // What changes is what was emptied and what the archive holds.
    ensures forall s :: Get(session.committed, s) != Get(old(session.committed), s) ==>
              s in Targets(old(session.committed), replace) || Archived(tools, settings, store, storageKey, s)
    ensures problem.None? ==>
              exists content :: VerifiedAs(tools, settings, Stored(store, storageKey), checksum, content)
                && session.committed
                   == Filled(Emptied(old(session.committed), Targets(old(session.committed), replace)), content)
    // It succeeds whenever it can, and tells what was wrong otherwise.
    ensures problem.None? <==>
              && session.faults == old(session.faults) && MayReset(old(session.committed), replace)
              && IsBackup(tools, settings, Stored(store, storageKey), checksum)
    ensures problem == Some(NotFound) <==> storageKey !in store
    ensures problem == Some(Damaged) <==>
              storageKey in store && checksum.Some? && tools.sha256(store[storageKey]) != checksum.value
    ensures problem == Some(CannotDecode) <==>
              && storageKey in store && (checksum.Some? ==> tools.sha256(store[storageKey]) == checksum.value)
              && Decoded(tools, settings, store[storageKey]).None?
  {
    hide Decoded, MayReset;
    if storageKey !in store {
      return Some(NotFound);
    }
    var file := store[storageKey];
    if checksum.Some? && tools.sha256(file) != checksum.value {
      return Some(Damaged);
    }
    var verified := Decode(tools, settings, file);
    if verified.None? {
      return Some(CannotDecode);
    }
    var reset := session.ResetPostgres(replace);
    if reset.Failed? {
      return Some(ResetFailed);
    }
    var decoded := Decode(tools, settings, file);
    var content := tools.readArchive(decoded.value);
    if content.None? {
      return Some(RestoreFailed);
    }
    var ok := Load(session, content.value);
    if !ok {
      return Some(RestoreFailed);
    }
    assert VerifiedAs(tools, settings, Stored(store, storageKey), checksum, content.value);
    return None;
  }

  ghost predicate IsBackup(tools: Tools, settings: Settings, file: Option<Bytes>, checksum: Option<Bytes>) {
    Verified(tools, settings, file, checksum) && tools.readArchive(Decoded(tools, settings, file.value).value).Some?
  }

  method Decode(tools: Tools, settings: Settings, file: Bytes) returns (decoded: Option<Bytes>)
    ensures decoded == Decoded(tools, settings, file)
  {
    var stages := DecodeStages(tools, settings, file);
    if stages.None? {
      return None;
    }
    decoded := RunPipeline(tools, stages.value, file);
  }

  function Stored(store: map<string, Bytes>, key: string): Option<Bytes> {
    if key in store then Some(store[key]) else None
  }

  ghost predicate Archived(tools: Tools, settings: Settings, store: map<string, Bytes>, key: string, s: Schema) {
    && key in store && Decoded(tools, settings, store[key]).Some?
    && var content := tools.readArchive(Decoded(tools, settings, store[key]).value);
       content.Some? && s in content.value
  }
}
