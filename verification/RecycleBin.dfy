/** Guarded deletion from backup storage. A deleted object is copied to the trash, a
    sidecar naming its original key is written beside the copy, and only then is the
    original removed; restoring runs the other way. The inner store is a map from keys to
    contents whose operations may fail before or after they take effect. */
module RecycleBin {
  import opened Wrappers
  import opened JsStrings
  import opened RateLimiter

  // ------------------------------------------------------------ key checks

  datatype KeyError =
    | EmptyKey | SurroundingSpace | Oversized | LeadingSlash | FolderStyle | Traversal
    | WildcardOrControl | OutsideAllowedPrefixes

  const MAX_STORAGE_KEY_LENGTH := 1024
  const TRASH_META_SUFFIX := ".trashmeta.json"
  const DEFAULT_TRASH_PREFIX := ".trash/"
  const MS_PER_DAY := 24 * 60 * 60 * 1000

  predicate HasTraversal(key: string) {
    exists i :: 0 <= i < |key| - 1 && key[i] == '.' && key[i + 1] == '.'
  }

  predicate IsWildcardOrControl(c: char) {
    c == '*' || c as int <= 0x1f || c as int == 0x7f
  }

  /** The first check a key fails, if any. */
  function ValidateKeyStructure(key: string): Option<KeyError> {
    if key == "" then Some(EmptyKey)
    else if key != Trim(key) then Some(SurroundingSpace)
    else if Utf16Length(key) > MAX_STORAGE_KEY_LENGTH then Some(Oversized)
    else if key[0] == '/' then Some(LeadingSlash)
    else if key[|key| - 1] == '/' then Some(FolderStyle)
    else if HasTraversal(key) then Some(Traversal)
    else if exists c :: c in key && IsWildcardOrControl(c) then Some(WildcardOrControl)
    else None
  }

  predicate IsWithinAllowedPrefix(key: string, allowedPrefixes: seq<string>) {
    exists p :: p in allowedPrefixes && p != "" && (p <= key || Includes(key, "/" + p))
  }

  function AssertDeletableKey(key: string, allowedPrefixes: seq<string>): Option<KeyError> {
    var failed := ValidateKeyStructure(key);
    if failed.Some? then failed
    else if !IsWithinAllowedPrefix(key, allowedPrefixes) then Some(OutsideAllowedPrefixes)
    else None
  }

  /** What each error says of a key, in plain terms. */
  ghost predicate Fails(key: string, allowedPrefixes: seq<string>, e: KeyError) {
    match e
    case EmptyKey => |key| == 0
    case SurroundingSpace => key != "" && (IsSpace(key[0]) || IsSpace(key[|key| - 1]))
    case Oversized => Utf16Length(key) >= 1025
    case LeadingSlash => exists rest :: key == "/" + rest
    case FolderStyle => exists front :: key == front + "/"
    case Traversal => exists front, back :: key == front + ".." + back
    case WildcardOrControl => exists i :: 0 <= i < |key| && (key[i] == '*' || key[i] < ' ' || key[i] == 127 as char)
    case OutsideAllowedPrefixes => !exists p :: p in allowedPrefixes && p != "" && LiesWithin(key, p)
  }

  /** A key that starts with the prefix or has it after a slash. */
  ghost predicate LiesWithin(key: string, p: string) {
    || (exists rest :: key == p + rest)
    || (exists front, back :: key == front + ("/" + p) + back)
  }

  /** The order in which the checks are made. */
  function Turn(e: KeyError): nat {
    match e
    case EmptyKey => 0 case SurroundingSpace => 1 case Oversized => 2 case LeadingSlash => 3
    case FolderStyle => 4 case Traversal => 5 case WildcardOrControl => 6 case OutsideAllowedPrefixes => 7
  }

  ghost predicate NoneFailsBefore(key: string, allowedPrefixes: seq<string>, n: nat) {
    forall e :: Turn(e) < n ==> !Fails(key, allowedPrefixes, e)
  }

  lemma BeforeMeans(key: string, allowedPrefixes: seq<string>, n: nat)
    ensures var fails := (e: KeyError) => Fails(key, allowedPrefixes, e);
      NoneFailsBefore(key, allowedPrefixes, n)
      <==> && (n > 0 ==> !fails(EmptyKey)) && (n > 1 ==> !fails(SurroundingSpace)) && (n > 2 ==> !fails(Oversized))
           && (n > 3 ==> !fails(LeadingSlash)) && (n > 4 ==> !fails(FolderStyle)) && (n > 5 ==> !fails(Traversal))
           && (n > 6 ==> !fails(WildcardOrControl)) && (n > 7 ==> !fails(OutsideAllowedPrefixes))
  {
    hide Fails;
  }

  /** Each failure is what one line of the checks looks for. */
  lemma FailsMeans(key: string, allowedPrefixes: seq<string>)
    ensures Fails(key, allowedPrefixes, EmptyKey) <==> key == ""
    ensures Fails(key, allowedPrefixes, SurroundingSpace) <==> key != Trim(key)
    ensures Fails(key, allowedPrefixes, Oversized) <==> Utf16Length(key) > MAX_STORAGE_KEY_LENGTH
    ensures Fails(key, allowedPrefixes, LeadingSlash) <==> key != "" && key[0] == '/'
    ensures Fails(key, allowedPrefixes, FolderStyle) <==> key != "" && key[|key| - 1] == '/'
    ensures Fails(key, allowedPrefixes, Traversal) <==> HasTraversal(key)
    ensures Fails(key, allowedPrefixes, WildcardOrControl) <==> exists c :: c in key && IsWildcardOrControl(c)
    ensures Fails(key, allowedPrefixes, OutsideAllowedPrefixes) <==> !IsWithinAllowedPrefix(key, allowedPrefixes)
  {
    hide *;
    EndsMean(key, allowedPrefixes);
    CharactersMean(key, allowedPrefixes);
    OutsideMeans(key, allowedPrefixes);
  }

  lemma EndsMean(key: string, allowedPrefixes: seq<string>)
    ensures Fails(key, allowedPrefixes, EmptyKey) <==> key == ""
    ensures Fails(key, allowedPrefixes, SurroundingSpace) <==> key != Trim(key)
    ensures Fails(key, allowedPrefixes, Oversized) <==> Utf16Length(key) > MAX_STORAGE_KEY_LENGTH
    ensures Fails(key, allowedPrefixes, LeadingSlash) <==> key != "" && key[0] == '/'
    ensures Fails(key, allowedPrefixes, FolderStyle) <==> key != "" && key[|key| - 1] == '/'
  {
    TrimIsIdentityIff(key);
    SlashIff(key);
    hide IsSpace, Utf16Length, Trim;
  }

  lemma CharactersMean(key: string, allowedPrefixes: seq<string>)
    ensures Fails(key, allowedPrefixes, Traversal) <==> HasTraversal(key)
    ensures Fails(key, allowedPrefixes, WildcardOrControl) <==> exists c :: c in key && IsWildcardOrControl(c)
  {
    TraversalIff(key);
    WildcardIff(key);
    hide HasTraversal, IsWildcardOrControl;
  }

  lemma OutsideMeans(key: string, allowedPrefixes: seq<string>)
    ensures Fails(key, allowedPrefixes, OutsideAllowedPrefixes) <==> !IsWithinAllowedPrefix(key, allowedPrefixes)
  {
    WithinIff(key, allowedPrefixes);
    hide IsWithinAllowedPrefix, LiesWithin;
  }

  /** The key check reports the first thing that is wrong with a key, and nothing exactly if
      nothing is. */
  lemma KeyErrorIff(key: string, allowedPrefixes: seq<string>, e: KeyError)
    ensures AssertDeletableKey(key, allowedPrefixes) == Some(e)
            <==> Fails(key, allowedPrefixes, e) && NoneFailsBefore(key, allowedPrefixes, Turn(e))
    ensures ValidateKeyStructure(key).None? <==> NoneFailsBefore(key, allowedPrefixes, 7)
    ensures AssertDeletableKey(key, allowedPrefixes).None? <==> NoneFailsBefore(key, allowedPrefixes, 8)
  {
    FirstError(key, allowedPrefixes, e);
    hide *;
    KeySound(key, allowedPrefixes);
  }

  lemma KeySound(key: string, allowedPrefixes: seq<string>)
    ensures ValidateKeyStructure(key).None? <==> NoneFailsBefore(key, allowedPrefixes, 7)
    ensures AssertDeletableKey(key, allowedPrefixes).None? <==> NoneFailsBefore(key, allowedPrefixes, 8)
  {
    FailsMeans(key, allowedPrefixes);
    BeforeMeans(key, allowedPrefixes, 7);
    BeforeMeans(key, allowedPrefixes, 8);
    hide Fails, NoneFailsBefore, Utf16Length, HasTraversal, IsWildcardOrControl, IsWithinAllowedPrefix, Trim;
  }

  lemma FirstError(key: string, allowedPrefixes: seq<string>, e: KeyError)
    ensures AssertDeletableKey(key, allowedPrefixes) == Some(e)
            <==> Fails(key, allowedPrefixes, e) && NoneFailsBefore(key, allowedPrefixes, Turn(e))
  {
    FailsMeans(key, allowedPrefixes);
    BeforeMeans(key, allowedPrefixes, Turn(e));
    hide Fails, NoneFailsBefore, Utf16Length, HasTraversal, IsWildcardOrControl, IsWithinAllowedPrefix, Trim;
  }

  lemma TraversalIff(key: string)
    ensures HasTraversal(key) <==> exists front, back :: key == front + ".." + back
  {
    if HasTraversal(key) {
      var i :| 0 <= i < |key| - 1 && key[i] == '.' && key[i + 1] == '.';
      assert key == key[..i] + ".." + key[i + 2..];
    }
    forall front, back | key == front + ".." + back ensures HasTraversal(key) {
      assert key[|front|] == '.' && key[|front| + 1] == '.';
    }
  }

  lemma SlashIff(key: string)
    ensures key != "" ==> (key[0] == '/' <==> exists rest :: key == "/" + rest)
    ensures key != "" ==> (key[|key| - 1] == '/' <==> exists front :: key == front + "/")
  {
    if key != "" {
      assert key == [key[0]] + key[1..] && key == key[..|key| - 1] + [key[|key| - 1]];
    }
  }

  lemma WildcardIff(key: string)
    ensures (exists c :: c in key && IsWildcardOrControl(c))
            <==> exists i :: 0 <= i < |key| && (key[i] == '*' || key[i] < ' ' || key[i] == 127 as char)
  {
    if c :| c in key && IsWildcardOrControl(c) {
      var i :| 0 <= i < |key| && key[i] == c;
      assert key[i] == '*' || key[i] < ' ' || key[i] == 127 as char;
    }
    if i :| 0 <= i < |key| && (key[i] == '*' || key[i] < ' ' || key[i] == 127 as char) {
      assert key[i] in key && IsWildcardOrControl(key[i]);
    }
  }

  lemma WithinIff(key: string, allowedPrefixes: seq<string>)
    ensures IsWithinAllowedPrefix(key, allowedPrefixes)
            <==> exists p :: p in allowedPrefixes && p != "" && LiesWithin(key, p)
  {
    forall p ensures LiesWithin(key, p) <==> p <= key || Includes(key, "/" + p) {
      IncludesIff(key, "/" + p);
      if p <= key {
        assert key == p + key[|p|..];
      }
    }
  }

  // ------------------------------------------------------- trash bookkeeping

  datatype Policy = Policy(
    enabled: bool, recycleBin: bool, trashPrefix: string, allowedPrefixes: seq<string>,
    maxDeletesPerWindow: int, windowMs: int, trashRetentionDays: int)

  datatype TrashMeta = TrashMeta(originalKey: string, deletedAt: string, reason: Option<string>)

  // An object is either opaque bytes or a text that JSON-parses to a sidecar.
  datatype Content = Bytes(data: seq<int>) | Sidecar(meta: TrashMeta)

  type Store = map<string, Content>

  function TrashKey(trashPrefix: string, stamp: string, key: string): string {
    trashPrefix + stamp + "/" + key
  }

  function MetaKey(trashKey: string): string {
    trashKey + TRASH_META_SUFFIX
  }

  predicate HardDeleteAllowed(policy: Policy, key: string) {
    && ValidateKeyStructure(key).None?
    && (IsWithinAllowedPrefix(key, policy.allowedPrefixes) || policy.trashPrefix <= key)
  }

  /** Removing for good asks for a sound key within an allowed prefix or in the trash. */
  lemma HardDeleteIff(policy: Policy, key: string)
    ensures HardDeleteAllowed(policy, key)
            <==> && NoneFailsBefore(key, policy.allowedPrefixes, 7)
                 && ((exists p :: p in policy.allowedPrefixes && p != "" && LiesWithin(key, p))
                     || exists rest :: key == policy.trashPrefix + rest)
  {
    KeyErrorIff(key, policy.allowedPrefixes, EmptyKey);
    WithinIff(key, policy.allowedPrefixes);
    if policy.trashPrefix <= key {
      assert key == policy.trashPrefix + key[|policy.trashPrefix|..];
    }
  }

  lemma TrashNames(trashPrefix: string, stamp: string, key: string)
    ensures TrashKey(trashPrefix, stamp, key) == trashPrefix + stamp + "/" + key
    ensures MetaKey(key) == key + ".trashmeta.json" && DEFAULT_TRASH_PREFIX == ".trash/"
  {
  }

  /** The stores a soft delete passes through; a crash leaves one of them. */
  ghost function DeleteStates(s: Store, key: string, trashKey: string, meta: TrashMeta): seq<Store>
    requires key in s
  {
    var copied := s[trashKey := s[key]];
    var noted := copied[MetaKey(trashKey) := Sidecar(meta)];
    [s, copied, noted, noted - {key}]
  }

  ghost predicate Restorable(s: Store, trashKey: string) {
    && trashKey in s && MetaKey(trashKey) in s && s[MetaKey(trashKey)].Sidecar?
    && s[MetaKey(trashKey)].meta.originalKey != ""
  }

  /** The stores a restore passes through. Removing the sidecar is best effort. */
  ghost function RestoreStates(s: Store, policy: Policy, trashKey: string): seq<Store>
    requires Restorable(s, trashKey)
  {
    var copied := s[s[MetaKey(trashKey)].meta.originalKey := s[trashKey]];
    if !HardDeleteAllowed(policy, trashKey) then [s, copied]
    else
      var gone := copied - {trashKey};
      if !HardDeleteAllowed(policy, MetaKey(trashKey)) then [s, copied, gone]
      else [s, copied, gone, gone - {MetaKey(trashKey)}]
  }

  ghost function Last(states: seq<Store>): Store
    requires states != []
  {
    states[|states| - 1]
  }

  ghost predicate Holds(s: Store, key: string, content: Content) {
    key in s && s[key] == content
  }

  /** At every point of a soft delete the object can be read under its own or its trash
      key, the sidecar names it once the original is gone, and no other object changes. */
  lemma DeleteNeverLoses(s: Store, trashPrefix: string, stamp: string, key: string, meta: TrashMeta)
    requires key in s && key != "" && meta.originalKey == key
    ensures var trashKey := TrashKey(trashPrefix, stamp, key);
      forall t: Store :: t in DeleteStates(s, key, trashKey, meta) ==>
        && (Holds(t, key, s[key]) || Holds(t, trashKey, s[key]))
        && (key !in t ==> Holds(t, trashKey, s[key]) && Restorable(t, trashKey)
                          && t[MetaKey(trashKey)].meta.originalKey == key)
        && (forall k :: k !in {key, trashKey, MetaKey(trashKey)} ==> (k in t <==> k in s) && (k in t ==> t[k] == s[k]))
  {
    KeysDiffer(trashPrefix, stamp, key);
  }

  lemma KeysDiffer(trashPrefix: string, stamp: string, key: string)
    ensures var trashKey := TrashKey(trashPrefix, stamp, key);
      trashKey != key && MetaKey(trashKey) != key && MetaKey(trashKey) != trashKey
  {
    var trashKey := TrashKey(trashPrefix, stamp, key);
    assert |trashKey| > |key| && |MetaKey(trashKey)| > |trashKey|;
  }

  /** At every point of a restore the trashed object can be read under its trash or its
      original key, exactly unless the sidecar names the trash copy or the sidecar itself
      as the original, and the removals that follow are permitted: then the only copy
      goes. */
  lemma RestoreNeverLosesIff(s: Store, policy: Policy, trashKey: string)
    requires Restorable(s, trashKey)
    ensures var original, sidecar := s[MetaKey(trashKey)].meta.originalKey, MetaKey(trashKey);
      (forall t: Store :: t in RestoreStates(s, policy, trashKey) ==>
         Holds(t, original, s[trashKey]) || Holds(t, trashKey, s[trashKey]))
      <==> !(HardDeleteAllowed(policy, trashKey)
             && (original == trashKey || (original == sidecar && HardDeleteAllowed(policy, sidecar))))
  {
    hide HardDeleteAllowed;
    assert |MetaKey(trashKey)| > |trashKey|;
    var original, sidecar := s[MetaKey(trashKey)].meta.originalKey, MetaKey(trashKey);
    var states := RestoreStates(s, policy, trashKey);
    if HardDeleteAllowed(policy, trashKey) {
      if original == trashKey {
        assert trashKey !in states[2] && states[2] in states;
      } else if original == sidecar && HardDeleteAllowed(policy, sidecar) {
        assert trashKey !in states[3] && sidecar !in states[3] && states[3] in states;
      }
    }
  }

  /** With a fresh stamp, deleting and then restoring gives back the same store exactly
      when the trash key and the sidecar key themselves pass the deletion checks. */
  lemma RestoreUndoesDeleteIff(s: Store, policy: Policy, stamp: string, key: string, meta: TrashMeta)
    requires key in s && key != "" && meta.originalKey == key
    requires var t := TrashKey(policy.trashPrefix, stamp, key); t !in s && MetaKey(t) !in s
    ensures var t := TrashKey(policy.trashPrefix, stamp, key);
      var deleted := Last(DeleteStates(s, key, t, meta));
      && Restorable(deleted, t)
      && (Last(RestoreStates(deleted, policy, t)) == s
          <==> HardDeleteAllowed(policy, t) && HardDeleteAllowed(policy, MetaKey(t)))
  {
    var t := TrashKey(policy.trashPrefix, stamp, key);
    KeysDiffer(policy.trashPrefix, stamp, key);
    var deleted := Last(DeleteStates(s, key, t, meta));
    assert Restorable(deleted, t);
    var end := Last(RestoreStates(deleted, policy, t));
    if HardDeleteAllowed(policy, t) && HardDeleteAllowed(policy, MetaKey(t)) {
      assert end == s;
    } else {
      assert MetaKey(t) in end;
    }
  }

  // ---------------------------------------- which keys survive the round trip

  // An ISO timestamp with `:` and `.` replaced by `-`.
  predicate IsStampChar(c: char) {
    '0' <= c <= '9' || c in "TZ+-"
  }

  lemma StampChars(c: char)
    ensures IsStampChar(c) <==> c in "0123456789TZ+-"
  {
  }

  ghost predicate IsStamp(stamp: string) {
    stamp != "" && forall i :: 0 <= i < |stamp| ==> IsStampChar(stamp[i])
  }

  lemma ExtendedKeyPasses(key: string, front: string, back: string)
    requires ValidateKeyStructure(key).None?
    requires front != "" && !IsSpace(front[0]) && front[0] != '/' && front[|front| - 1] != '.'
    requires !HasTraversal(front) && forall c :: c in front ==> !IsWildcardOrControl(c)
    requires back != "" ==> !IsSpace(back[|back| - 1]) && back[|back| - 1] != '/'
    requires !HasTraversal(back) && forall c :: c in back ==> !IsWildcardOrControl(c)
    ensures ValidateKeyStructure(front + key + back).None? <==>
            && Utf16Length(front) + Utf16Length(key) + Utf16Length(back) <= MAX_STORAGE_KEY_LENGTH
            && !(key[|key| - 1] == '.' && back != "" && back[0] == '.')
  {
    var all := front + key + back;
    hide Utf16Length, HasTraversal, Trim, IsWildcardOrControl;
    Utf16LengthAppend(front, key);
    Utf16LengthAppend(front + key, back);
    TraversalOnlyAcross(key, front, back);
    TrimIsIdentityIff(key);
    TrimIsIdentityIff(all);
    assert all[0] == front[0];
    assert all[|all| - 1] == if back == "" then key[|key| - 1] else back[|back| - 1];
    forall c | c in all ensures !IsWildcardOrControl(c) {
      assert c in front || c in key || c in back;
    }
  }

  lemma TraversalOnlyAcross(key: string, front: string, back: string)
    requires key != "" && !HasTraversal(key) && !HasTraversal(front) && !HasTraversal(back)
    requires front != "" && front[|front| - 1] != '.'
    ensures HasTraversal(front + key + back) <==> key[|key| - 1] == '.' && back != "" && back[0] == '.'
  {
    var all, n := front + key + back, |front| + |key|;
    assert forall i :: 0 <= i < |front| ==> all[i] == front[i];
    assert forall i :: 0 <= i < |key| ==> all[|front| + i] == key[i];
    assert forall i :: 0 <= i < |back| ==> all[n + i] == back[i];
    if key[|key| - 1] == '.' && back != "" && back[0] == '.' {
      assert all[n - 1] == '.' && all[n - 1 + 1] == '.';
    } else {
      forall i | 0 <= i < |all| - 1 ensures !(all[i] == '.' && all[i + 1] == '.') {
        if i < |front| - 1 {
        } else if i >= n {
          assert all[i] == back[i - n] && all[i + 1] == back[i - n + 1];
        } else if |front| <= i < n - 1 {
          assert all[i] == key[i - |front|] && all[i + 1] == key[i - |front| + 1];
        }
      }
    }
  }

  /** For the default trash prefix the round trip is exact for just those keys that leave
      room for the prefix, the stamp and the sidecar suffix (977 code units or fewer with a
      24-character stamp), and do not end with a dot. */
  lemma RestoreUndoesDeleteForKey(s: Store, policy: Policy, stamp: string, key: string, meta: TrashMeta)
    requires policy.trashPrefix == DEFAULT_TRASH_PREFIX && IsStamp(stamp)
    requires key in s && AssertDeletableKey(key, policy.allowedPrefixes).None? && meta.originalKey == key
    requires var t := TrashKey(policy.trashPrefix, stamp, key); t !in s && MetaKey(t) !in s
    ensures var t := TrashKey(policy.trashPrefix, stamp, key);
      var deleted := Last(DeleteStates(s, key, t, meta));
      && Restorable(deleted, t)
      && (Last(RestoreStates(deleted, policy, t)) == s
          <==> Utf16Length(key) + |stamp| + 23 <= MAX_STORAGE_KEY_LENGTH && key[|key| - 1] != '.')
  {
    var front := policy.trashPrefix + stamp + "/";
    var t := TrashKey(policy.trashPrefix, stamp, key);
    assert front + key + "" == t && front + key + TRASH_META_SUFFIX == MetaKey(t);
    FrontPasses(stamp);
    SuffixPasses();
    assert ValidateKeyStructure(key).None?;
    hide HasTraversal, IsWildcardOrControl, IsSpace, Utf16Length, ValidateKeyStructure, IsWithinAllowedPrefix,
         DeleteStates, RestoreStates;
    assert key != "" by { ValidIsNotEmpty(key); }
    ExtendedKeyPasses(key, front, "");
    ExtendedKeyPasses(key, front, TRASH_META_SUFFIX);
    assert policy.trashPrefix <= t && policy.trashPrefix <= MetaKey(t);
    RestoreUndoesDeleteIff(s, policy, stamp, key, meta);
  }

  lemma ValidIsNotEmpty(key: string)
    requires ValidateKeyStructure(key).None?
    ensures key != ""
  {
  }

  lemma SuffixPasses()
    ensures !HasTraversal(TRASH_META_SUFFIX) && forall c :: c in TRASH_META_SUFFIX ==> !IsWildcardOrControl(c)
    ensures TRASH_META_SUFFIX[0] == '.' && !IsSpace(TRASH_META_SUFFIX[14]) && |TRASH_META_SUFFIX| == 15
    ensures Utf16Length(TRASH_META_SUFFIX) == 15 && Utf16Length("") == 0
    ensures !HasTraversal("")
  {
    Utf16LengthPlain(TRASH_META_SUFFIX);
  }

  lemma FrontPasses(stamp: string)
    requires IsStamp(stamp)
    ensures var front := DEFAULT_TRASH_PREFIX + stamp + "/";
      && !IsSpace(front[0]) && front[0] != '/' && front[|front| - 1] != '.'
      && !HasTraversal(front) && (forall c :: c in front ==> !IsWildcardOrControl(c))
      && Utf16Length(front) == |front|
  {
    var front := DEFAULT_TRASH_PREFIX + stamp + "/";
    forall i | 0 <= i < |front| ensures !IsWildcardOrControl(front[i]) && (front[i] == '.' ==> i == 0) {
      if 7 <= i < |front| - 1 {
        assert front[i] == stamp[i - 7];
        assert IsStampChar(stamp[i - 7]);
      }
    }
    assert front[1] == 't';
    forall i | 0 <= i < |front| ensures front[i] as int < 0x10000 {
      if 7 <= i < |front| - 1 {
        assert front[i] == stamp[i - 7] && IsStampChar(stamp[i - 7]);
      }
    }
    Utf16LengthPlain(front);
  }

  // -------------------------------------------------------------- purging

  ghost function Expired(s: Store, policy: Policy, lastModified: map<string, int>, cutoff: int): set<string>
    requires s.Keys <= lastModified.Keys
  {
    set k | k in s && policy.trashPrefix <= k && !EndsWith(k, TRASH_META_SUFFIX) && lastModified[k] < cutoff
  }

  lemma ExpiredIff(s: Store, policy: Policy, lastModified: map<string, int>, cutoff: int, k: string)
    requires s.Keys <= lastModified.Keys && k in s && policy.trashPrefix <= k
    ensures k in Expired(s, policy, lastModified, cutoff)
            <==> !EndsWith(k, TRASH_META_SUFFIX) && lastModified[k] < cutoff
  {
  }

  lemma ExpiredAreTrash(s: Store, policy: Policy, lastModified: map<string, int>, cutoff: int)
    requires s.Keys <= lastModified.Keys
    ensures forall k :: k in Expired(s, policy, lastModified, cutoff) ==> k in s && policy.trashPrefix <= k
  {
  }

  ghost function WithSidecars(keys: set<string>): set<string> {
    keys + set k | k in keys :: MetaKey(k)
  }

  lemma SidecarsMonotone(a: set<string>, b: set<string>)
    requires a <= b
    ensures WithSidecars(a) <= WithSidecars(b) && |a| <= |b|
  {
    assert b == a + (b - a);
  }

  /** Nothing but objects of `keys` and their sidecars is missing, nothing is altered. */
  ghost predicate PurgedOf(start: Store, s: Store, keys: set<string>) {
    && s.Keys <= start.Keys && (forall k :: k in s ==> s[k] == start[k])
    && start.Keys - s.Keys <= WithSidecars(keys)
  }

  /** The result of purging `keys`, all of them if `ok`. */
  ghost predicate PurgeOutcome(start: Store, s: Store, purged: nat, ok: bool, keys: set<string>) {
    && PurgedOf(start, s, keys)
    && purged <= |keys| && (ok ==> purged == |keys| && keys !! s.Keys)
  }

  function PurgeCutoff(policy: Policy, olderThanDays: Option<int>, now: int): int {
    now - olderThanDays.GetOr(policy.trashRetentionDays) * MS_PER_DAY
  }

  /** What has expired: the objects of the trash, sidecars aside, that were last modified more
      than so many days ago, by default as many as the policy says. */
  lemma ExpiredMeans(s: Store, policy: Policy, lastModified: map<string, int>, olderThanDays: Option<int>, now: int,
                     k: string)
    requires s.Keys <= lastModified.Keys
    ensures k in Expired(s, policy, lastModified, PurgeCutoff(policy, olderThanDays, now))
            <==> && k in s && (exists rest :: k == policy.trashPrefix + rest)
                 && !(exists front :: k == front + ".trashmeta.json")
                 && now - lastModified[k]
                    > (if olderThanDays.Some? then olderThanDays.value else policy.trashRetentionDays) * 86_400_000
  {
    EndsWithIff(k, TRASH_META_SUFFIX);
    if policy.trashPrefix <= k {
      assert k == policy.trashPrefix + k[|policy.trashPrefix|..];
    }
  }

  /** What purging `keys` takes away: the objects, and the sidecars that may be removed. */
  ghost function Removed(policy: Policy, keys: set<string>): set<string> {
    keys + set k | k in keys && HardDeleteAllowed(policy, MetaKey(k)) :: MetaKey(k)
  }

  lemma RemovedNext(s: Store, policy: Policy, done: set<string>, key: string)
    ensures s - Removed(policy, {}) == s
    ensures s - Removed(policy, done) - Removed(policy, {key}) == s - Removed(policy, done + {key})
  {
    hide HardDeleteAllowed;
    assert Removed(policy, {}) == {};
    assert Removed(policy, done + {key}) == Removed(policy, done) + Removed(policy, {key});
  }

  lemma NothingPurged(s: Store)
    ensures PurgeOutcome(s, s, 0, true, {})
  {
  }

  ghost predicate AllRemovable(policy: Policy, keys: set<string>) {
    forall k :: k in keys ==> HardDeleteAllowed(policy, k)
  }

  lemma NoneToRemove(policy: Policy)
    ensures AllRemovable(policy, {})
  {
  }

  lemma RemovableNext(policy: Policy, keys: set<string>, k: string)
    ensures AllRemovable(policy, keys) && HardDeleteAllowed(policy, k) ==> AllRemovable(policy, keys + {k})
  {
    hide HardDeleteAllowed;
  }

  lemma NotAllRemovable(policy: Policy, keys: set<string>, k: string)
    requires k in keys
    ensures AllRemovable(policy, keys) ==> HardDeleteAllowed(policy, k)
  {
    hide HardDeleteAllowed;
  }

  lemma PurgedStep(start: Store, s: Store, t: Store, purged: nat, removed: bool, done: set<string>, key: string)
    requires PurgeOutcome(start, s, purged, true, done) && PurgedOf(s, t, {key}) && key !in done
    requires removed ==> key !in t
    ensures PurgeOutcome(start, t, if removed then purged + 1 else purged, removed, done + {key})
  {
    assert WithSidecars(done + {key}) == WithSidecars(done) + WithSidecars({key});
  }

  lemma PurgedPart(start: Store, s: Store, purged: nat, part: set<string>, all: set<string>)
    requires PurgeOutcome(start, s, purged, false, part) && part <= all
    ensures PurgeOutcome(start, s, purged, false, all)
  {
    SidecarsMonotone(part, all);
  }

  /** The purge so far: `done` is gone, exactly as it should be unless an effect failed. */
  ghost predicate PurgedSoFar(policy: Policy, start: Store, s: Store, purged: nat, done: set<string>, noFault: bool) {
    && PurgeOutcome(start, s, purged, true, done)
    && (noFault ==> AllRemovable(policy, done) && s == start - Removed(policy, done))
  }

  lemma PurgedNothing(policy: Policy, s: Store)
    ensures PurgedSoFar(policy, s, s, 0, {}, true)
  {
    NothingPurged(s);
    NoneToRemove(policy);
    RemovedNext(s, policy, {}, "");
  }

  lemma PurgedOneMore(policy: Policy, start: Store, s: Store, t: Store, purged: nat, done: set<string>, key: string,
                      before: bool, after: bool)
    requires PurgedSoFar(policy, start, s, purged, done, before) && PurgedOf(s, t, {key}) && key !in done && key !in t
    requires after ==> before && HardDeleteAllowed(policy, key) && t == s - Removed(policy, {key})
    ensures PurgedSoFar(policy, start, t, purged + 1, done + {key}, after)
  {
    hide HardDeleteAllowed, AllRemovable, PurgedOf, PurgeOutcome, Removed;
    PurgedStep(start, s, t, purged, true, done, key);
    RemovableNext(policy, done, key);
    RemovedNext(start, policy, done, key);
  }

  lemma PurgedAll(policy: Policy, start: Store, s: Store, purged: nat, done: set<string>, noFault: bool)
    requires PurgedSoFar(policy, start, s, purged, done, noFault)
    ensures PurgeOutcome(start, s, purged, true, done)
    ensures noFault ==> AllRemovable(policy, done) && s == start - Removed(policy, done)
  {
  }

  lemma PurgeStopped(policy: Policy, start: Store, s: Store, t: Store, purged: nat, done: set<string>, key: string,
                     before: bool, all: set<string>)
    requires PurgedSoFar(policy, start, s, purged, done, before) && PurgedOf(s, t, {key}) && key !in done
    requires done + {key} <= all
    ensures PurgeOutcome(start, t, purged, false, all)
  {
    hide PurgedOf, PurgeOutcome;
    PurgedStep(start, s, t, purged, false, done, key);
    PurgedPart(start, t, purged, done + {key}, all);
  }

  // ------------------------------------------------------- the storage adapter

  datatype DeleteResult =
    | Refused(error: KeyError) | RateLimited | Deleted | MovedToTrash(trashKey: string) | DeleteFailed

  datatype RestoreResult = Restored(originalKey: string) | MissingMetadata | RestoreFailed

  class SafeStorage {
    const policy: Policy
    const rateLimiter: DeletionRateLimiter
    var inner: Store
    // Every store since the adapter was opened, one entry per inner operation.
    ghost var trace: seq<Store>
    // How many inner operations have failed.
    ghost var faults: nat

    constructor (policy: Policy, inner: Store)
      ensures this.policy == policy && this.inner == inner && trace == [inner]
      ensures rateLimiter.max == policy.maxDeletesPerWindow && rateLimiter.windowMs == policy.windowMs
      ensures rateLimiter.events == [] && fresh(rateLimiter)
    {
      this.policy := policy;
      rateLimiter := new DeletionRateLimiter(policy.maxDeletesPerWindow, policy.windowMs);
      this.inner := inner;
      trace := [inner];
      faults := 0;
    }

    /** An inner operation: the store becomes `next` or stays as it was, and success means
        it became `next`. */
    method Effect(next: Store) returns (ok: bool)
      modifies this`inner, this`trace, this`faults
      ensures trace == old(trace) + [inner]
      ensures inner == old(inner) || inner == next
      ensures ok ==> inner == next
      ensures faults == old(faults) + if ok then 0 else 1
    {
      var takesEffect: bool, reported: bool := *, *;
      if takesEffect {
        inner := next;
      }
      ok := takesEffect && reported;
      trace := trace + [inner];
      faults := if ok then faults else faults + 1;
    }

    method CopyObject(sourceKey: string, destinationKey: string) returns (ok: bool)
      modifies this`inner, this`trace, this`faults
      ensures sourceKey !in old(inner) ==> !ok && inner == old(inner) && trace == old(trace) && faults == old(faults)
      ensures sourceKey in old(inner) ==> faults == old(faults) + if ok then 0 else 1
      ensures sourceKey in old(inner) ==>
                && trace == old(trace) + [inner]
                && (inner == old(inner) || inner == old(inner)[destinationKey := old(inner)[sourceKey]])
                && (ok ==> inner == old(inner)[destinationKey := old(inner)[sourceKey]])
    {
      if sourceKey !in inner {
        return false;
      }
      ok := Effect(inner[destinationKey := inner[sourceKey]]);
    }

    method DeleteObject(key: string, reason: Option<string>, now: int, stamp: string, deletedAt: string)
      returns (result: DeleteResult)
      modifies this`inner, this`trace, this`faults, rateLimiter
      ensures policy.enabled && AssertDeletableKey(key, policy.allowedPrefixes).Some? ==>
                result == Refused(AssertDeletableKey(key, policy.allowedPrefixes).value)
      ensures !policy.enabled && ValidateKeyStructure(key).Some? ==>
                result == Refused(ValidateKeyStructure(key).value)
      ensures policy.enabled && AssertDeletableKey(key, policy.allowedPrefixes).None? ==>
                && (result == RateLimited <==>
                    !Accepts(old(rateLimiter.events), rateLimiter.max, rateLimiter.windowMs, now))
                && rateLimiter.events == After(old(rateLimiter.events), rateLimiter.max, rateLimiter.windowMs, now)
      ensures result.Refused? || !policy.enabled ==> rateLimiter.events == old(rateLimiter.events)
      ensures result.Refused? || result.RateLimited? ==> inner == old(inner) && trace == old(trace)
      ensures old(trace) <= trace
      ensures policy.enabled && policy.recycleBin && !(policy.trashPrefix <= key) ==>
                var trashKey := TrashKey(policy.trashPrefix, stamp, key);
                && !result.Deleted?
                && (key !in old(inner) ==> inner == old(inner) && trace == old(trace) && !result.MovedToTrash?)
                && (key in old(inner) ==>
                    var states := DeleteStates(old(inner), key, trashKey, TrashMeta(key, deletedAt, reason));
                    && inner in states
                    && (forall i :: |old(trace)| <= i < |trace| ==> trace[i] in states)
                    && (result.MovedToTrash? ==> result.trashKey == trashKey && inner == Last(states)))
      ensures faults >= old(faults) && (result.Refused? || result.RateLimited? ==> faults == old(faults))
      ensures result.DeleteFailed? ==>
                faults > old(faults)
                || (policy.enabled && policy.recycleBin && !(policy.trashPrefix <= key) && key !in old(inner))
      ensures result.Deleted? || result.MovedToTrash? ==> faults == old(faults)
      ensures !(policy.enabled && policy.recycleBin && !(policy.trashPrefix <= key)) ==>
                && !result.MovedToTrash?
                && (inner == old(inner) || inner == old(inner) - {key})
                && (result.Deleted? ==> inner == old(inner) - {key})
    {
      if !policy.enabled {
        var failed := ValidateKeyStructure(key);
        if failed.Some? {
          return Refused(failed.value);
        }
        var ok := Effect(inner - {key});
        return if ok then Deleted else DeleteFailed;
      }
      var failed := AssertDeletableKey(key, policy.allowedPrefixes);
      if failed.Some? {
        return Refused(failed.value);
      }
      var accepted := rateLimiter.Record(now);
      if !accepted {
        return RateLimited;
      }
      if policy.recycleBin && !(policy.trashPrefix <= key) {
        result := MoveToTrash(key, reason, stamp, deletedAt);
        return;
      }
      var ok := Effect(inner - {key});
      return if ok then Deleted else DeleteFailed;
    }

    method MoveToTrash(key: string, reason: Option<string>, stamp: string, deletedAt: string)
      returns (result: DeleteResult)
      modifies this`inner, this`trace, this`faults
      ensures old(trace) <= trace && (result.MovedToTrash? || result.DeleteFailed?)
      ensures result.MovedToTrash? <==> key in old(inner) && faults == old(faults)
      ensures faults >= old(faults)
      ensures key !in old(inner) ==> inner == old(inner) && trace == old(trace) && result.DeleteFailed?
      ensures key in old(inner) ==>
        var trashKey := TrashKey(policy.trashPrefix, stamp, key);
        var states := DeleteStates(old(inner), key, trashKey, TrashMeta(key, deletedAt, reason));
        && inner in states
        && (forall i :: |old(trace)| <= i < |trace| ==> trace[i] in states)
        && (result.MovedToTrash? ==> result.trashKey == trashKey && inner == Last(states))
    {
      var trashKey := TrashKey(policy.trashPrefix, stamp, key);
      KeysDiffer(policy.trashPrefix, stamp, key);
      var copied := CopyObject(key, trashKey);
      if !copied {
        return DeleteFailed;
      }
      var noted := Effect(inner[MetaKey(trashKey) := Sidecar(TrashMeta(key, deletedAt, reason))]);
      if !noted {
        return DeleteFailed;
      }
      var removed := Effect(inner - {key});
      return if removed then MovedToTrash(trashKey) else DeleteFailed;
    }

    method HardDelete(key: string) returns (ok: bool)
      modifies this`inner, this`trace, this`faults
      ensures old(trace) <= trace && |trace| <= |old(trace)| + 1
      ensures |trace| > |old(trace)| ==> trace[|old(trace)|] == inner
      ensures inner == old(inner) || (HardDeleteAllowed(policy, key) && inner == old(inner) - {key})
      ensures ok ==> HardDeleteAllowed(policy, key) && inner == old(inner) - {key}
      ensures faults >= old(faults) && (ok <==> HardDeleteAllowed(policy, key) && faults == old(faults))
    {
      if ValidateKeyStructure(key).Some? {
        return false;
      }
      if !IsWithinAllowedPrefix(key, policy.allowedPrefixes) && !(policy.trashPrefix <= key) {
        return false;
      }
      ok := Effect(inner - {key});
    }

    method ReadTrashMeta(metaKey: string) returns (meta: Option<TrashMeta>)
      ensures meta == if metaKey in inner && inner[metaKey].Sidecar? then Some(inner[metaKey].meta) else None
    {
      if metaKey in inner && inner[metaKey].Sidecar? {
        return Some(inner[metaKey].meta);
      }
      return None;
    }

    method RestoreFromTrash(trashKey: string) returns (result: RestoreResult)
      modifies this`inner, this`trace, this`faults
      ensures old(trace) <= trace
      ensures !Restorable(old(inner), trashKey) ==> inner == old(inner) && trace == old(trace) && !result.Restored?
      ensures Restorable(old(inner), trashKey) ==>
        var states := RestoreStates(old(inner), policy, trashKey);
        && inner in states
        && (forall i :: |old(trace)| <= i < |trace| ==> trace[i] in states)
        && (result.Restored? ==>
            && result.originalKey == old(inner)[MetaKey(trashKey)].meta.originalKey
            && |states| >= 3 && (inner == states[2] || inner == Last(states)))
        && (faults == old(faults) ==> inner == Last(states) && (result.Restored? <==> |states| >= 3))
    {
      var meta := ReadTrashMeta(MetaKey(trashKey));
      if meta.None? || meta.value.originalKey == "" {
        return MissingMetadata;
      }
      var copied := CopyObject(trashKey, meta.value.originalKey);
      if !copied {
        return RestoreFailed;
      }
      var removed := HardDelete(trashKey);
      if !removed {
        return RestoreFailed;
      }
      var _ := HardDelete(MetaKey(trashKey));
      return Restored(meta.value.originalKey);
    }

    method PurgeOne(key: string) returns (ok: bool)
      modifies this`inner, this`trace, this`faults
      ensures PurgedOf(old(inner), inner, {key})
      ensures ok ==> key !in inner
      ensures faults >= old(faults) && (faults == old(faults) ==> (ok <==> HardDeleteAllowed(policy, key)))
      ensures faults == old(faults) && ok ==> inner == old(inner) - Removed(policy, {key})
    {
      hide HardDeleteAllowed;
      ok := HardDelete(key);
      if ok {
        var sidecar := HardDelete(MetaKey(key));
        assert Removed(policy, {key}) == {key} + if HardDeleteAllowed(policy, MetaKey(key)) then {MetaKey(key)} else {};
      }
    }

    /** Purging removes only expired trash objects and their sidecars; when it completes,
        every expired object is gone and counted once. */
    method PurgeTrash(olderThanDays: Option<int>, now: int, lastModified: map<string, int>)
      returns (purged: nat, ok: bool)
      requires inner.Keys <= lastModified.Keys
      modifies this`inner, this`trace, this`faults
      ensures PurgeOutcome(old(inner), inner, purged, ok,
                Expired(old(inner), policy, lastModified, PurgeCutoff(policy, olderThanDays, now)))
      ensures faults >= old(faults)
      ensures faults == old(faults) ==>
                (ok <==> AllRemovable(policy,
                           Expired(old(inner), policy, lastModified, PurgeCutoff(policy, olderThanDays, now))))
      ensures faults == old(faults) && ok ==>
                inner == old(inner)
                         - Removed(policy,
                                   Expired(old(inner), policy, lastModified, PurgeCutoff(policy, olderThanDays, now)))
    {
      hide PurgeOutcome, HardDeleteAllowed, AllRemovable, PurgedOf, EndsWith, Removed, PurgedSoFar, Expired;
      var cutoff := PurgeCutoff(policy, olderThanDays, now);
      var objects := set k | k in inner && policy.trashPrefix <= k;
      ghost var expired := Expired(inner, policy, lastModified, cutoff);
      ghost var done: set<string> := {};
      purged := 0;
      PurgedNothing(policy, inner);
      ExpiredAreTrash(inner, policy, lastModified, cutoff);
      while objects != {}
        invariant PurgedSoFar(policy, old(inner), inner, purged, done, faults == old(faults))
        invariant forall k :: k in done ==> k in expired && k !in objects
        invariant forall k :: k in expired ==> k in done || k in objects
        invariant forall k :: k in objects ==> k in old(inner) && policy.trashPrefix <= k
        invariant faults >= old(faults)
        decreases |objects|
      {
        var k :| k in objects;
        ExpiredIff(old(inner), policy, lastModified, cutoff, k);
        objects := objects - {k};
        if EndsWith(k, TRASH_META_SUFFIX) || lastModified[k] >= cutoff {
          continue;
        }
        ghost var before, faultsBefore := inner, faults;
        var removed := PurgeOne(k);
        if !removed {
          PurgeStopped(policy, old(inner), before, inner, purged, done, k, faultsBefore == old(faults), expired);
          NotAllRemovable(policy, expired, k);
          return purged, false;
        }
        PurgedOneMore(policy, old(inner), before, inner, purged, done, k,
                      faultsBefore == old(faults), faults == old(faults));
        done := done + {k};
        purged := purged + 1;
      }
      assert done == expired;
      PurgedAll(policy, old(inner), inner, purged, done, faults == old(faults));
      return purged, true;
    }
  }
}
