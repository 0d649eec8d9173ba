/** Encrypted backups: the byte format and the streams that write and read it, fed with
    chunks of any size. AES-256-GCM (NIST SP 800-38D, sections 6.5 and 7) is a parameter:
    a keystream indexed by position, combined with the data by exclusive or, and a tag of
    the whole ciphertext. */
module BackupStreams {
  import opened Wrappers
  import opened Chunks

  type Bytes = seq<bv8>

  // ------------------------------------------------------------- backup format

  const BACKUP_MAGIC: Bytes := [0x44, 0x42, 0x44, 0x4B, 0x45, 0x4E, 0x43]  // DBDKENC
  const BACKUP_VERSION_GCM: bv8 := 0x02
  const BACKUP_VERSION_GCM_FP: bv8 := 0x03
  const BACKUP_HEADER_LENGTH := 8
  const KEY_FINGERPRINT_LENGTH := 8
  const SALT_LENGTH := 64
  const IV_LENGTH := 16
  const TAG_LENGTH := 16

  function ReadBackupVersion(prefix: Bytes): Option<bv8> {
    if |prefix| < BACKUP_HEADER_LENGTH || prefix[..7] != BACKUP_MAGIC then None else Some(prefix[7])
  }

  predicate HasBackupHeader(prefix: Bytes) {
    ReadBackupVersion(prefix) == Some(BACKUP_VERSION_GCM) || ReadBackupVersion(prefix) == Some(BACKUP_VERSION_GCM_FP)
  }

  // ------------------------------------------------------------- cryptography

  datatype Crypto = Crypto(
    fingerprint: Bytes -> Bytes,
    deriveKey: (Bytes, Bytes) -> Bytes,
    keystream: (Bytes, Bytes, nat) -> bv8,
    tag: (Bytes, Bytes, Bytes) -> Bytes)

  ghost predicate Sound(c: Crypto) {
    && (forall m :: |c.fingerprint(m)| == KEY_FINGERPRINT_LENGTH)
    && (forall k, iv, text :: |c.tag(k, iv, text)| == TAG_LENGTH)
  }

  // A running cipher: its key, nonce and the data it has processed.
  datatype Running = Running(key: Bytes, iv: Bytes, done: Bytes)

  /** Data combined with the keystream from a position on; the same in both directions. */
  function Mask(c: Crypto, key: Bytes, iv: Bytes, from: nat, data: Bytes): (r: Bytes)
    ensures |r| == |data|
  {
    seq(|data|, i requires 0 <= i < |data| => data[i] ^ c.keystream(key, iv, from + i))
  }

  lemma MaskTwice(c: Crypto, key: Bytes, iv: Bytes, from: nat, data: Bytes)
    ensures Mask(c, key, iv, from, Mask(c, key, iv, from, data)) == data
  {
    var once := Mask(c, key, iv, from, data);
    forall i | 0 <= i < |data| ensures Mask(c, key, iv, from, once)[i] == data[i] {
      XorTwice(data[i], c.keystream(key, iv, from + i));
    }
  }

  lemma XorTwice(a: bv8, b: bv8)
    ensures (a ^ b) ^ b == a
  {
  }

  lemma MaskAppend(c: Crypto, key: Bytes, iv: Bytes, a: Bytes, b: Bytes)
    ensures Mask(c, key, iv, 0, a + b) == Mask(c, key, iv, 0, a) + Mask(c, key, iv, |a|, b)
  {
  }

  // ------------------------------------------------------------- the formats

  // Versioned: written by the CLI. SelfDescribing: written by the crypto service, salt and
  // nonce in front. WithMetadata: salt and nonce kept outside the stream.
  datatype Format = Versioned | SelfDescribing | WithMetadata(salt: Bytes, iv: Bytes)

  datatype StreamError = WrongKey | Truncated | NotAuthentic

  datatype Outcome = Finished(plain: Bytes) | Failed(error: StreamError)

  /** What the encrypt streams put in front of the ciphertext. */
  function Header(f: Format, c: Crypto, material: Bytes, salt: Bytes, iv: Bytes): Bytes {
    match f
    case Versioned => BACKUP_MAGIC + [BACKUP_VERSION_GCM_FP] + c.fingerprint(material) + salt + iv
    case SelfDescribing => salt + iv
    case WithMetadata(_, _) => []
  }

  function Encrypted(f: Format, c: Crypto, material: Bytes, salt: Bytes, iv: Bytes, plain: Bytes): Bytes {
    var key := c.deriveKey(material, salt);
    var text := Mask(c, key, iv, 0, plain);
    Header(f, c, material, salt, iv) + text + c.tag(key, iv, text)
  }

  predicate HasFingerprint(b: Bytes)
    requires |b| >= BACKUP_HEADER_LENGTH
  {
    b[7] == BACKUP_VERSION_GCM_FP
  }

  /** Where the body starts, once enough has arrived to tell. */
  function BodyStart(f: Format, b: Bytes): (start: Option<nat>)
    ensures start.Some? ==> start.value <= |b| && (f.WithMetadata? || start.value >= SALT_LENGTH + IV_LENGTH)
  {
    match f
    case Versioned =>
      if |b| < BACKUP_HEADER_LENGTH then None
      else
        var total := BACKUP_HEADER_LENGTH + (if HasFingerprint(b) then KEY_FINGERPRINT_LENGTH else 0)
                     + SALT_LENGTH + IV_LENGTH;
        if |b| < total then None else Some(total)
    case SelfDescribing => if |b| < SALT_LENGTH + IV_LENGTH then None else Some(SALT_LENGTH + IV_LENGTH)
    case WithMetadata(_, _) => Some(0)
  }

  predicate FingerprintMatches(f: Format, c: Crypto, material: Bytes, b: Bytes)
    requires BodyStart(f, b).Some?
  {
    f.Versioned? && HasFingerprint(b) ==> b[8..16] == c.fingerprint(material)
  }

  function SaltAndIv(f: Format, b: Bytes): (Bytes, Bytes)
    requires BodyStart(f, b).Some?
  {
    match f
    case WithMetadata(salt, iv) => (salt, iv)
    case _ =>
      var n := BodyStart(f, b).value;
      (b[n - 80..n - 16], b[n - 16..n])
  }

  datatype Phase = Waiting | Rejected | Body(key: Bytes, iv: Bytes, body: Bytes)

  /** What the bytes received so far amount to. */
  ghost function PhaseOf(f: Format, c: Crypto, material: Bytes, b: Bytes): Phase {
    if BodyStart(f, b).None? then Waiting
    else if !FingerprintMatches(f, c, material, b) then Rejected
    else
      var (salt, iv) := SaltAndIv(f, b);
      Body(c.deriveKey(material, salt), iv, b[BodyStart(f, b).value..])
  }

  ghost function Held(body: Bytes): nat {
    if |body| < TAG_LENGTH then |body| else TAG_LENGTH
  }

  /** The part of the body that has been released as data. */
  ghost function Released(body: Bytes): Bytes {
    body[..|body| - Held(body)]
  }

  /** Decoding a whole file at once. Only the versioned format insists on a tag; the other
      two accept a stream that ends before there is one, with no output. */
  ghost function Decode(f: Format, c: Crypto, material: Bytes, b: Bytes): Outcome {
    match PhaseOf(f, c, material, b)
    case Waiting => if f.Versioned? then Failed(Truncated) else Finished([])
    case Rejected => Failed(WrongKey)
    case Body(key, iv, body) =>
      if |body| < TAG_LENGTH then (if f.Versioned? then Failed(Truncated) else Finished([]))
      else if body[|body| - TAG_LENGTH..] == c.tag(key, iv, Released(body))
      then Finished(Mask(c, key, iv, 0, Released(body)))
      else Failed(NotAuthentic)
  }

  /** More bytes never change how the header was read; they only extend the body. */
  lemma PhaseExtends(f: Format, c: Crypto, material: Bytes, a: Bytes, b: Bytes)
    ensures var p := PhaseOf(f, c, material, a);
      && (p.Rejected? ==> PhaseOf(f, c, material, a + b) == Rejected)
      && (p.Body? ==> PhaseOf(f, c, material, a + b) == p.(body := p.body + b))
  {
    hide SaltAndIv;
    if BodyStart(f, a).Some? {
      var n := BodyStart(f, a).value;
      HeaderExtends(f, a, b);
      FingerprintExtends(f, c, material, a, b);
      hide BodyStart, FingerprintMatches;
      assert (a + b)[n..] == a[n..] + b;
    }
  }

  lemma FingerprintExtends(f: Format, c: Crypto, material: Bytes, a: Bytes, b: Bytes)
    requires BodyStart(f, a).Some? && BodyStart(f, a + b).Some?
    ensures FingerprintMatches(f, c, material, a + b) <==> FingerprintMatches(f, c, material, a)
  {
    if f.Versioned? {
      assert (a + b)[7] == a[7];
      if HasFingerprint(a) {
        SliceExtends(a, b, 8, 16);
      }
    }
  }

  lemma HeaderExtends(f: Format, a: Bytes, b: Bytes)
    requires BodyStart(f, a).Some?
    ensures BodyStart(f, a + b) == BodyStart(f, a) && SaltAndIv(f, a + b) == SaltAndIv(f, a)
  {
    assert |a| >= 8 ==> (a + b)[7] == a[7];
    assert BodyStart(f, a + b) == BodyStart(f, a);
    if !f.WithMetadata? {
      var n := BodyStart(f, a).value;
      SliceExtends(a, b, n - 80, n - 16);
      SliceExtends(a, b, n - 16, n);
    }
  }

  lemma SliceExtends(a: Bytes, b: Bytes, from: nat, to: nat)
    requires from <= to <= |a|
    ensures (a + b)[from..to] == a[from..to]
  {
  }

  lemma SplitBody(done: Bytes, buffer: Bytes, body: Bytes)
    requires done + buffer == body && |buffer| == Held(body)
    ensures done == Released(body) && buffer == body[|body| - Held(body)..]
  {
  }

  // ------------------------------------------------------------- encryption

  class EncryptStream {
    const format: Format
    const crypto: Crypto
    const header: Bytes
    var cipher: Running
    var headerWritten: bool
    var output: Bytes

    constructor (format: Format, crypto: Crypto, material: Bytes, salt: Bytes, iv: Bytes)
      ensures this.crypto == crypto && header == Header(format, crypto, material, salt, iv)
      ensures cipher == Running(crypto.deriveKey(material, salt), iv, []) && Valid()
    {
      this.format, this.crypto := format, crypto;
      header := Header(format, crypto, material, salt, iv);
      cipher := Running(crypto.deriveKey(material, salt), iv, []);
      headerWritten, output := false, [];
    }

    /** `cipher.done` is the plaintext received so far. */
    ghost predicate Valid()
      reads this
    {
      && (!headerWritten ==> cipher.done == [] && output == [])
      && (headerWritten ==> output == header + Mask(crypto, cipher.key, cipher.iv, 0, cipher.done))
    }

    method Transform(chunk: Bytes)
      requires Valid()
      modifies this
      ensures Valid() && cipher == old(cipher).(done := old(cipher.done) + chunk)
    {
      if !headerWritten {
        output := output + header;
        headerWritten := true;
      }
      MaskAppend(crypto, cipher.key, cipher.iv, cipher.done, chunk);
      output := output + Mask(crypto, cipher.key, cipher.iv, |cipher.done|, chunk);
      cipher := cipher.(done := cipher.done + chunk);
    }

    method Flush()
      requires Valid()
      modifies this
      ensures var text := Mask(crypto, old(cipher.key), old(cipher.iv), 0, old(cipher.done));
        output == header + text + crypto.tag(old(cipher.key), old(cipher.iv), text)
    {
      if !headerWritten {
        output := output + header;
        headerWritten := true;
      }
      output := output + crypto.tag(cipher.key, cipher.iv, Mask(crypto, cipher.key, cipher.iv, 0, cipher.done));
    }
  }

  /** The encrypted bytes depend only on the plaintext, not on how it was cut. */
  method Encrypt(format: Format, crypto: Crypto, material: Bytes, salt: Bytes, iv: Bytes, chunks: seq<Bytes>)
    returns (written: Bytes)
    ensures written == Encrypted(format, crypto, material, salt, iv, Flatten(chunks))
  {
    var stream := new EncryptStream(format, crypto, material, salt, iv);
    for i := 0 to |chunks|
      invariant stream.Valid() && stream.crypto == crypto
      invariant stream.header == Header(format, crypto, material, salt, iv)
      invariant stream.cipher == Running(crypto.deriveKey(material, salt), iv, Flatten(chunks[..i]))
    {
      FlattenPrefix(chunks, i);
      stream.Transform(chunks[i]);
    }
    assert chunks[..|chunks|] == chunks;
    stream.Flush();
    written := stream.output;
  }

  // ------------------------------------------------------------- decryption

  class DecryptStream {
    const format: Format
    const crypto: Crypto
    const material: Bytes
    var headerBuffer: Bytes
    var headerParsed: bool
    var decipher: Option<Running>
    var buffer: Bytes
    var output: Bytes
    var error: Option<StreamError>
    ghost var received: Bytes

    constructor (format: Format, crypto: Crypto, material: Bytes)
      ensures this.format == format && this.crypto == crypto && this.material == material
      ensures Valid() && received == []
    {
      hide Mask;
      this.format, this.crypto, this.material := format, crypto, material;
      headerBuffer, buffer, output, error, received := [], [], [], None, [];
      headerParsed := format.WithMetadata?;
      decipher := if format.WithMetadata?
        then Some(Running(crypto.deriveKey(material, format.salt), format.iv, [])) else None;
    }

    /** Every field is determined by the bytes received, however they were cut. */
    ghost predicate Valid()
      reads this
    {
      match PhaseOf(format, crypto, material, received)
      case Waiting =>
        !headerParsed && headerBuffer == received && decipher == None && buffer == [] && output == [] && error == None
      case Rejected => error == Some(WrongKey) && output == []
      case Body(key, iv, body) =>
        && headerParsed && error == None
        && decipher == Some(Running(key, iv, Released(body)))
        && buffer == body[|body| - Held(body)..]
        && output == Mask(crypto, key, iv, 0, Released(body))
    }

    method Transform(chunk: Bytes)
      requires Valid()
      modifies this
      ensures Valid() && received == old(received) + chunk
    {
      hide Mask, SaltAndIv, FingerprintMatches, BodyStart, PhaseOf;
      PhaseExtends(format, crypto, material, received, chunk);
      ghost var before := PhaseOf(format, crypto, material, received);
      received := received + chunk;
      if error.Some? {
        return;
      }
      if !headerParsed {
        var ready := ReadHeader(chunk);
        if !ready {
          return;
        }
      } else {
        assert Released(before.body) + buffer == before.body;
        buffer := buffer + chunk;
      }
      ghost var body := decipher.value.done + buffer;
      assert PhaseOf(format, crypto, material, received) == Body(decipher.value.key, decipher.value.iv, body);
      HoldBack();
      SplitBody(decipher.value.done, buffer, body);
    }

    /** Collects bytes until the header is complete, then checks the key and starts the
        body. */
    method ReadHeader(chunk: Bytes) returns (ready: bool)
      requires !headerParsed && headerBuffer + chunk == received
      requires buffer == [] && output == [] && error == None && decipher == None
      modifies this`headerBuffer, this`headerParsed, this`decipher, this`buffer, this`error
      ensures !ready ==> Valid()
      ensures ready ==> headerParsed && error == None && decipher.Some? && decipher.value.done == []
      ensures ready ==>
                PhaseOf(format, crypto, material, received) == Body(decipher.value.key, decipher.value.iv, buffer)
    {
      hide Mask;
      headerBuffer := headerBuffer + chunk;
      var start := BodyStart(format, headerBuffer);
      if start.None? {
        return false;
      }
      if !FingerprintMatches(format, crypto, material, headerBuffer) {
        error := Some(WrongKey);
        return false;
      }
      var (salt, iv) := SaltAndIv(format, headerBuffer);
      decipher := Some(Running(crypto.deriveKey(material, salt), iv, []));
      buffer := headerBuffer[start.value..];
      headerParsed := true;
      return true;
    }

    /** Releases all but the last 16 bytes of the buffer. */
    method HoldBack()
      requires decipher.Some? && headerParsed && error == None
      requires output == Mask(crypto, decipher.value.key, decipher.value.iv, 0, decipher.value.done)
      modifies this`buffer, this`output, this`decipher
      ensures decipher.Some? && decipher.value == old(decipher.value).(done := decipher.value.done)
      ensures decipher.value.done + buffer == old(decipher.value.done + buffer)
      ensures |buffer| == if |old(buffer)| < TAG_LENGTH then |old(buffer)| else TAG_LENGTH
      ensures output == Mask(crypto, decipher.value.key, decipher.value.iv, 0, decipher.value.done)
    {
      if |buffer| > TAG_LENGTH {
        var d := decipher.value;
        var data := buffer[..|buffer| - TAG_LENGTH];
        MaskAppend(crypto, d.key, d.iv, d.done, data);
        output := output + Mask(crypto, d.key, d.iv, |d.done|, data);
        decipher := Some(d.(done := d.done + data));
        buffer := buffer[|buffer| - TAG_LENGTH..];
      }
    }

    method Flush() returns (outcome: Outcome)
      requires Valid()
      ensures outcome == Decode(format, crypto, material, received)
      ensures outcome.Finished? ==> outcome.plain == output
    {
      if error.Some? {
        return Failed(error.value);
      }
      if decipher.None? || |buffer| != TAG_LENGTH {
        return if format.Versioned? then Failed(Truncated) else Finished(output);
      }
      var d := decipher.value;
      if buffer != crypto.tag(d.key, d.iv, d.done) {
        return Failed(NotAuthentic);
      }
      return Finished(output);
    }
  }

  /** The outcome depends only on the bytes, not on how they were cut. */
  method Decrypt(format: Format, crypto: Crypto, material: Bytes, chunks: seq<Bytes>) returns (outcome: Outcome)
    ensures outcome == Decode(format, crypto, material, Flatten(chunks))
  {
    var stream := new DecryptStream(format, crypto, material);
    for i := 0 to |chunks|
      invariant stream.Valid() && stream.received == Flatten(chunks[..i])
      invariant stream.format == format && stream.crypto == crypto && stream.material == material
    {
      FlattenPrefix(chunks, i);
      stream.Transform(chunks[i]);
    }
    assert chunks[..|chunks|] == chunks;
    outcome := stream.Flush();
  }

  // ------------------------------------------------------------- what holds of them

  lemma PhaseOfEncrypted(f: Format, c: Crypto, material: Bytes, salt: Bytes, iv: Bytes, body: Bytes)
    requires Sound(c) && |salt| == SALT_LENGTH && |iv| == IV_LENGTH
    requires f.WithMetadata? ==> f.salt == salt && f.iv == iv
    ensures PhaseOf(f, c, material, Header(f, c, material, salt, iv) + body)
         == Body(c.deriveKey(material, salt), iv, body)
  {
    var h := Header(f, c, material, salt, iv);
    var b := h + body;
    assert b[|h|..] == body;
    if f.Versioned? {
      assert b[8..16] == c.fingerprint(material) && b[16..80] == salt && b[80..96] == iv;
    } else if f.SelfDescribing? {
      assert b[0..64] == salt && b[64..80] == iv;
    }
  }

  /** Decrypting what was encrypted, in any format, gives back the plaintext. */
  lemma DecodeOfEncrypted(f: Format, c: Crypto, material: Bytes, salt: Bytes, iv: Bytes, plain: Bytes)
    requires Sound(c) && |salt| == SALT_LENGTH && |iv| == IV_LENGTH
    requires f.WithMetadata? ==> f.salt == salt && f.iv == iv
    ensures Decode(f, c, material, Encrypted(f, c, material, salt, iv, plain)) == Finished(plain)
  {
    var key := c.deriveKey(material, salt);
    var text := Mask(c, key, iv, 0, plain);
    var body := text + c.tag(key, iv, text);
    PhaseOfEncrypted(f, c, material, salt, iv, body);
    assert Encrypted(f, c, material, salt, iv, plain) == Header(f, c, material, salt, iv) + body;
    SplitBody(text, c.tag(key, iv, text), body);
    MaskTwice(c, key, iv, 0, plain);
  }

  /** Any re-chunking of an encrypt stream's output is decrypted to the plaintext. */
  method EncryptThenDecrypt(format: Format, crypto: Crypto, material: Bytes, salt: Bytes, iv: Bytes,
                            plain: seq<Bytes>, cut: seq<Bytes>) returns (outcome: Outcome)
    requires Sound(crypto) && |salt| == SALT_LENGTH && |iv| == IV_LENGTH
    requires format.WithMetadata? ==> format.salt == salt && format.iv == iv
    requires Flatten(cut) == Encrypted(format, crypto, material, salt, iv, Flatten(plain))
    ensures outcome == Finished(Flatten(plain))
  {
    DecodeOfEncrypted(format, crypto, material, salt, iv, Flatten(plain));
    outcome := Decrypt(format, crypto, material, cut);
  }

  /** A key with another fingerprint is refused, whatever follows the header. */
  lemma OtherKeyRefused(c: Crypto, material: Bytes, other: Bytes, salt: Bytes, iv: Bytes, rest: Bytes)
    requires Sound(c) && |salt| == SALT_LENGTH && |iv| == IV_LENGTH
    requires c.fingerprint(material) != c.fingerprint(other)
    ensures Decode(Versioned, c, other, Header(Versioned, c, material, salt, iv) + rest) == Failed(WrongKey)
  {
    var b := Header(Versioned, c, material, salt, iv) + rest;
    assert b[8..16] == c.fingerprint(material);
  }

  /** A header for the key, byte by byte. A versioned one has a mark of seven bytes and the
      version, in version 3 the fingerprint of the key and in any other version none, then
      salt and nonce. */
  ghost predicate IsHeader(f: Format, c: Crypto, material: Bytes, header: Bytes, salt: Bytes, iv: Bytes) {
    match f
    case Versioned =>
      && |salt| == 64 && |iv| == 16 && |header| >= 8
      && header == header[..8] + (if header[7] == 3 then c.fingerprint(material) else []) + salt + iv
    case SelfDescribing => |salt| == 64 && |iv| == 16 && header == salt + iv
    case WithMetadata(givenSalt, givenIv) => header == [] && salt == givenSalt && iv == givenIv
  }

  /** That is what the stream reads as a header and accepts. */
  lemma HeaderIff(f: Format, c: Crypto, material: Bytes, header: Bytes, salt: Bytes, iv: Bytes)
    requires Sound(c)
    ensures IsHeader(f, c, material, header, salt, iv)
            <==> && BodyStart(f, header) == Some(|header|) && FingerprintMatches(f, c, material, header)
                 && SaltAndIv(f, header) == (salt, iv)
  {
    if f.Versioned? && |header| >= 8 {
      VersionedHeaderIff(c, material, header, salt, iv);
    } else if f.SelfDescribing? {
      ServiceHeaderIff(c, material, header, salt, iv);
    }
  }

  lemma ServiceHeaderIff(c: Crypto, material: Bytes, header: Bytes, salt: Bytes, iv: Bytes)
    ensures IsHeader(SelfDescribing, c, material, header, salt, iv)
            <==> BodyStart(SelfDescribing, header) == Some(|header|) && SaltAndIv(SelfDescribing, header) == (salt, iv)
  {
    if |header| == 80 {
      assert header == header[0..64] + header[64..80];
      assert header == salt + iv && |salt| == 64 ==> header[0..64] == salt && header[64..80] == iv;
    }
  }

  lemma VersionedHeaderIff(c: Crypto, material: Bytes, header: Bytes, salt: Bytes, iv: Bytes)
    requires Sound(c) && |header| >= 8
    ensures IsHeader(Versioned, c, material, header, salt, iv)
            <==> && BodyStart(Versioned, header) == Some(|header|)
                 && FingerprintMatches(Versioned, c, material, header)
                 && SaltAndIv(Versioned, header) == (salt, iv)
  {
    var n := |header|;
    var mark := if header[7] == 3 then c.fingerprint(material) else [];
    if n == 88 + |mark| {
      assert header == header[..8] + header[8..n - 80] + header[n - 80..n - 16] + header[n - 16..];
      if IsHeader(Versioned, c, material, header, salt, iv) {
        assert header[8..n - 80] == mark && header[n - 80..n - 16] == salt && header[n - 16..n] == iv;
      }
    }
  }

  /** A header that fits the key, then ciphertext, then the ciphertext's tag. */
  ghost predicate IsAuthentic(f: Format, c: Crypto, material: Bytes, header: Bytes, salt: Bytes, iv: Bytes,
                              text: Bytes, b: Bytes)
  {
    && IsHeader(f, c, material, header, salt, iv)
    && b == header + text + c.tag(c.deriveKey(material, salt), iv, text)
  }

  /** Too short to hold a tag, in one of the two formats that do not insist on one. */
  predicate EndsUnnoticed(f: Format, b: Bytes) {
    !f.Versioned? && |b| < if f.SelfDescribing? then 96 else 16
  }

  /** A stream finishes exactly when it is an authentic file for the key or, in the formats
      of the crypto service, too short to hold a tag. */
  lemma FinishesIff(f: Format, c: Crypto, material: Bytes, b: Bytes)
    requires Sound(c)
    ensures Decode(f, c, material, b).Finished? <==>
            EndsUnnoticed(f, b)
            || exists header, salt, iv, text :: IsAuthentic(f, c, material, header, salt, iv, text, b)
    ensures EndsUnnoticed(f, b) ==> Decode(f, c, material, b) == Finished([])
  {
    if EndsUnnoticed(f, b) {
      ShortStreamEnds(f, c, material, b);
    } else if Decode(f, c, material, b).Finished? {
      var header, salt, iv, text := FinishedIsAuthentic(f, c, material, b);
    }
    forall header, salt, iv, text | IsAuthentic(f, c, material, header, salt, iv, text, b)
      ensures Decode(f, c, material, b).Finished?
    {
      AuthenticFinishes(f, c, material, header, salt, iv, text, b);
    }
  }

  lemma ShortStreamEnds(f: Format, c: Crypto, material: Bytes, b: Bytes)
    requires EndsUnnoticed(f, b)
    ensures Decode(f, c, material, b) == Finished([])
  {
  }

  lemma FinishedIsAuthentic(f: Format, c: Crypto, material: Bytes, b: Bytes)
    returns (header: Bytes, salt: Bytes, iv: Bytes, text: Bytes)
    requires Sound(c) && Decode(f, c, material, b).Finished? && !EndsUnnoticed(f, b)
    ensures IsAuthentic(f, c, material, header, salt, iv, text, b)
  {
    hide SaltAndIv, FingerprintMatches, Mask, IsHeader;
    var n, body := BodyStart(f, b).value, PhaseOf(f, c, material, b).body;
    header, text := b[..n], Released(body);
    HeaderIsPrefix(f, c, material, b);
    hide BodyStart;
    salt, iv := SaltAndIv(f, header).0, SaltAndIv(f, header).1;
    HeaderIff(f, c, material, header, salt, iv);
    assert b == header + text + body[|body| - TAG_LENGTH..];
  }

  lemma HeaderIsPrefix(f: Format, c: Crypto, material: Bytes, b: Bytes)
    requires BodyStart(f, b).Some? && FingerprintMatches(f, c, material, b)
    ensures var header := b[..BodyStart(f, b).value];
      && BodyStart(f, header) == Some(|header|) && SaltAndIv(f, header) == SaltAndIv(f, b)
      && FingerprintMatches(f, c, material, header)
  {
    var n := BodyStart(f, b).value;
    var header := b[..n];
    assert b == header + b[n..];
    assert |header| >= 8 ==> header[7] == b[7];
    assert BodyStart(f, header) == Some(n);
    HeaderExtends(f, header, b[n..]);
    if f.Versioned? && HasFingerprint(b) {
      SliceExtends(header, b[n..], 8, 16);
    }
    hide SaltAndIv;
  }

  lemma HeaderAlone(f: Format, c: Crypto, material: Bytes, header: Bytes)
    requires BodyStart(f, header) == Some(|header|) && FingerprintMatches(f, c, material, header)
    ensures var (salt, iv) := SaltAndIv(f, header);
      PhaseOf(f, c, material, header) == Body(c.deriveKey(material, salt), iv, [])
  {
    assert header[|header|..] == [];
  }

  /** An authentic file decodes to its ciphertext combined with the keystream. */
  lemma AuthenticFinishes(f: Format, c: Crypto, material: Bytes, header: Bytes, salt: Bytes, iv: Bytes,
                          text: Bytes, b: Bytes)
    requires Sound(c) && IsAuthentic(f, c, material, header, salt, iv, text, b)
    ensures Decode(f, c, material, b) == Finished(Mask(c, c.deriveKey(material, salt), iv, 0, text))
  {
    HeaderIff(f, c, material, header, salt, iv);
    HeaderAlone(f, c, material, header);
    hide *;
    var key := c.deriveKey(material, salt);
    var tag := c.tag(key, iv, text);
    assert b == header + (text + tag) by {
      AuthenticIs(f, c, material, header, salt, iv, text, b);
    }
    PhaseExtends(f, c, material, header, text + tag);
    assert [] + (text + tag) == text + tag;
    DecodeOfBody(f, c, material, b, key, iv, text);
  }

  lemma AuthenticIs(f: Format, c: Crypto, material: Bytes, header: Bytes, salt: Bytes, iv: Bytes, text: Bytes,
                    b: Bytes)
    requires IsAuthentic(f, c, material, header, salt, iv, text, b)
    ensures b == header + (text + c.tag(c.deriveKey(material, salt), iv, text))
  {
    hide IsHeader;
  }

  lemma DecodeOfBody(f: Format, c: Crypto, material: Bytes, b: Bytes, key: Bytes, iv: Bytes, text: Bytes)
    requires Sound(c) && PhaseOf(f, c, material, b) == Body(key, iv, text + c.tag(key, iv, text))
    ensures Decode(f, c, material, b) == Finished(Mask(c, key, iv, 0, text))
  {
    hide Mask, PhaseOf, Released;
    var tag := c.tag(key, iv, text);
    SplitBody(text, tag, text + tag);
  }

  // The two versions of a backup file, byte by byte.

  const MARK: Bytes := [0x44, 0x42, 0x44, 0x4B, 0x45, 0x4E, 0x43]

  /** What makes a file a versioned backup: the seven bytes DBDKENC and version 2 or 3. */
  lemma BackupHeaderIff(b: Bytes)
    ensures HasBackupHeader(b) <==> MARK + [2] <= b || MARK + [3] <= b
    ensures ReadBackupVersion(b) == Some(BACKUP_VERSION_GCM_FP) <==> MARK + [3] <= b
  {
    if |b| >= 8 {
      assert b == b[..7] + [b[7]] + b[8..];
    }
  }

  /** What is written: version 3, with the fingerprint of the key. */
  lemma EncryptedIs(c: Crypto, material: Bytes, salt: Bytes, iv: Bytes, plain: Bytes)
    ensures var key := c.deriveKey(material, salt);
      var text := Mask(c, key, iv, 0, plain);
      Encrypted(Versioned, c, material, salt, iv, plain)
      == MARK + [3] + c.fingerprint(material) + salt + iv + text + c.tag(key, iv, text)
  {
  }

  lemma MaskAt(c: Crypto, key: Bytes, iv: Bytes, data: Bytes, i: nat)
    requires i < |data|
    ensures Mask(c, key, iv, 0, data)[i] == data[i] ^ c.keystream(key, iv, i)
  {
  }

  /** A backup of version 2 has no fingerprint, and none is compared: whatever the fingerprint
      of the key, the file decodes to its plaintext. */
  lemma OlderBackupDecodes(c: Crypto, material: Bytes, salt: Bytes, iv: Bytes, plain: Bytes)
    requires Sound(c) && |salt| == 64 && |iv| == 16
    ensures var key := c.deriveKey(material, salt);
      var text := Mask(c, key, iv, 0, plain);
      Decode(Versioned, c, material, MARK + [2] + salt + iv + text + c.tag(key, iv, text)) == Finished(plain)
  {
    var key := c.deriveKey(material, salt);
    var text, header := Mask(c, key, iv, 0, plain), MARK + [2] + salt + iv;
    assert header[..8] == MARK + [2] && header == header[..8] + [] + salt + iv;
    AuthenticFinishes(Versioned, c, material, header, salt, iv, text, header + text + c.tag(key, iv, text));
    MaskTwice(c, key, iv, 0, plain);
  }
}
