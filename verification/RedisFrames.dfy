/** Backup stream of the Redis engine: a sequence of length-prefixed frames, written one
    per key and read back from chunks of any size. */
module RedisFrames {
  import opened Wrappers
  import opened Chunks

  type Byte = x: int | 0 <= x < 256
  type Bytes = seq<Byte>

  const HEADER_BYTES := 4
  const TTL_BYTES := 8
  const HEAD := HEADER_BYTES + TTL_BYTES + HEADER_BYTES
  const FLUSH_EVERY := 500

  datatype Entry = Entry(key: Bytes, ttlMs: int, payload: Bytes)

  // --------------------------------------------------------- big-endian integers

  function Pow256(n: nat): nat {
    if n == 0 then 1 else 256 * Pow256(n - 1)
  }

  function WriteBE(v: nat, n: nat): (b: Bytes)
    ensures |b| == n
  {
    if n == 0 then [] else WriteBE(v / 256, n - 1) + [v % 256]
  }

  function ReadBE(b: Bytes): nat {
    if b == [] then 0 else 256 * ReadBE(b[..|b| - 1]) + b[|b| - 1]
  }

  lemma {:induction false} ReadOfWrite(v: nat, n: nat)
    requires v < Pow256(n)
    ensures ReadBE(WriteBE(v, n)) == v
  {
    if n > 0 {
      ReadOfWrite(v / 256, n - 1);
      var b := WriteBE(v, n);
      assert b[..|b| - 1] == WriteBE(v / 256, n - 1);
    }
  }

  lemma {:induction false} WriteOfRead(b: Bytes)
    ensures ReadBE(b) < Pow256(|b|) && WriteBE(ReadBE(b), |b|) == b
  {
    if b != [] {
      WriteOfRead(b[..|b| - 1]);
      assert b == b[..|b| - 1] + [b[|b| - 1]];
    }
  }

  const TWO_32 := 0x1_0000_0000
  const TWO_63 := 0x8000_0000_0000_0000
  const TWO_64 := 0x1_0000_0000_0000_0000

  lemma Powers()
    ensures Pow256(HEADER_BYTES) == TWO_32 && Pow256(TTL_BYTES) == TWO_64
  {
    assert Pow256(2) == 0x1_0000;
    assert Pow256(4) == 0x1_0000 * Pow256(2);
    assert Pow256(6) == 0x1_0000 * Pow256(4);
    assert Pow256(8) == 0x1_0000 * Pow256(6);
  }

  function WriteInt64(v: int): (b: Bytes)
    requires -TWO_63 <= v < TWO_63
    ensures |b| == TTL_BYTES
  {
    WriteBE(if v >= 0 then v else v + TWO_64, TTL_BYTES)
  }

  function ReadInt64(b: Bytes): int {
    var u := ReadBE(b);
    if u >= TWO_63 then u - TWO_64 else u
  }

  lemma Int64RoundTrip(v: int)
    requires -TWO_63 <= v < TWO_63
    ensures ReadInt64(WriteInt64(v)) == v
  {
    Powers();
    ReadOfWrite(if v >= 0 then v else v + TWO_64, TTL_BYTES);
  }

  lemma Int64Exact(b: Bytes)
    requires |b| == TTL_BYTES
    ensures -TWO_63 <= ReadInt64(b) < TWO_63 && WriteInt64(ReadInt64(b)) == b
  {
    Powers();
    WriteOfRead(b);
  }

  // ---------------------------------------------------------------- writing

  predicate Framable(e: Entry) {
    |e.key| < TWO_32 && -TWO_63 <= e.ttlMs < TWO_63 && |e.payload| < TWO_32
  }

  function FrameOf(e: Entry): (b: Bytes)
    requires Framable(e)
    ensures |b| == HEAD + |e.key| + |e.payload|
  {
    WriteBE(|e.key|, HEADER_BYTES) + WriteInt64(e.ttlMs) + WriteBE(|e.payload|, HEADER_BYTES) + e.key + e.payload
  }

  // What the server answers for one scanned key: DUMP, which is null when the key is gone,
  // and PTTL, which is negative without an expiry.
  datatype Reply = Reply(key: Bytes, payload: Option<Bytes>, pttl: int)

  /** The entries a dump stands for. */
  ghost function Dumped(replies: seq<Reply>): seq<Entry> {
    if replies == [] then []
    else
      var r := replies[|replies| - 1];
      Dumped(replies[..|replies| - 1])
      + (if r.payload.None? then [] else [Entry(r.key, if r.pttl > 0 then r.pttl else 0, r.payload.value)])
  }

  ghost predicate AllFramable(es: seq<Entry>) {
    forall i :: 0 <= i < |es| ==> Framable(es[i])
  }

  ghost function FramesOf(es: seq<Entry>): Bytes
    requires AllFramable(es)
  {
    if es == [] then [] else FrameOf(es[0]) + FramesOf(es[1..])
  }

  lemma DumpedAppend(replies: seq<Reply>, r: Reply)
    ensures Dumped(replies + [r]) == Dumped(replies) + Dumped([r])
    ensures Dumped([r]) ==
      if r.payload.None? then [] else [Entry(r.key, if r.pttl > 0 then r.pttl else 0, r.payload.value)]
  {
    assert (replies + [r])[..|replies|] == replies;
    assert [r][..0] == [];
  }

  /** Writes one frame per key that still has a value. A key, payload or expiry too large
      for its field raises a range error. */
  method Dump(replies: seq<Reply>) returns (written: Bytes, ok: bool)
    ensures ok ==> AllFramable(Dumped(replies)) && written == FramesOf(Dumped(replies))
    ensures !ok ==> !AllFramable(Dumped(replies))
  {
    written := [];
    for i := 0 to |replies|
      invariant AllFramable(Dumped(replies[..i])) && written == FramesOf(Dumped(replies[..i]))
    {
      var r := replies[i];
      assert replies[..i + 1] == replies[..i] + [r];
      DumpedAppend(replies[..i], r);
      if r.payload.None? {
        assert Dumped(replies[..i + 1]) == Dumped(replies[..i]);
        continue;
      }
      var e := Entry(r.key, if r.pttl > 0 then r.pttl else 0, r.payload.value);
      if !Framable(e) {
        DumpedPrefix(replies, i + 1);
        assert Dumped(replies)[|Dumped(replies[..i])|] == e;
        return written, false;
      }
      FramesAppend(Dumped(replies[..i]), e);
      written := written + FrameOf(e);
    }
    assert replies[..|replies|] == replies;
    ok := true;
  }

  lemma {:induction false} DumpedPrefix(replies: seq<Reply>, i: nat)
    requires i <= |replies|
    ensures Dumped(replies[..i]) <= Dumped(replies)
    decreases |replies|
  {
    if i < |replies| {
      DumpedPrefix(replies[..|replies| - 1], i);
      assert replies[..|replies| - 1][..i] == replies[..i];
    } else {
      assert replies[..i] == replies;
    }
  }

  lemma {:induction false} FramesAppend(es: seq<Entry>, e: Entry)
    requires AllFramable(es) && Framable(e)
    ensures AllFramable(es + [e]) && FramesOf(es + [e]) == FramesOf(es) + FrameOf(e)
  {
    hide FrameOf;
    if es == [] {
      assert es + [e] == [e] && [e][1..] == [];
    } else {
      assert (es + [e])[1..] == es[1..] + [e];
      FramesAppend(es[1..], e);
    }
  }

  // ---------------------------------------------------------------- reading

  function FrameLength(b: Bytes): (n: nat)
    requires |b| >= HEAD
    ensures n >= HEAD
  {
    HEAD + ReadBE(b[..4]) + ReadBE(b[12..16])
  }

  predicate HasFrame(b: Bytes) {
    |b| >= HEAD && |b| >= FrameLength(b)
  }

  function FirstEntry(b: Bytes): Entry
    requires HasFrame(b)
  {
    var keyLen := ReadBE(b[..4]);
    Entry(b[16..16 + keyLen], ReadInt64(b[4..12]), b[16 + keyLen..FrameLength(b)])
  }

  datatype Parsed = Parsed(entries: seq<Entry>, rest: Bytes)

  /** Reading a whole stream at once: entries while complete frames remain. */
  function Parse(b: Bytes): Parsed
    decreases |b|
  {
    if !HasFrame(b) then Parsed([], b)
    else
      var others := Parse(b[FrameLength(b)..]);
      Parsed([FirstEntry(b)] + others.entries, others.rest)
  }

  lemma ParseOne(b: Bytes)
    requires HasFrame(b)
    ensures var others := Parse(b[FrameLength(b)..]);
      Parse(b) == Parsed([FirstEntry(b)] + others.entries, others.rest)
  {
    hide FrameLength, FirstEntry;
  }

  lemma ParseNone(b: Bytes)
    requires !HasFrame(b)
    ensures Parse(b) == Parsed([], b)
  {
  }

  lemma CutJoined(x: Bytes, y: Bytes, z: Bytes, k: Bytes, p: Bytes, rest: Bytes)
    requires |x| == 4 && |y| == 8 && |z| == 4
    ensures var b := x + y + z + k + p + rest;
      && b[..4] == x && b[4..12] == y && b[12..16] == z && b[16..16 + |k|] == k
      && b[16 + |k|..16 + |k| + |p|] == p && b[16 + |k| + |p|..] == rest
  {
  }

  /** A written frame is read back as the entry it was written from. */
  lemma FirstOfFrame(e: Entry, rest: Bytes)
    requires Framable(e)
    ensures var b := FrameOf(e) + rest;
      HasFrame(b) && FrameLength(b) == |FrameOf(e)| && FirstEntry(b) == e && b[FrameLength(b)..] == rest
  {
    Powers();
    ReadOfWrite(|e.key|, HEADER_BYTES);
    ReadOfWrite(|e.payload|, HEADER_BYTES);
    Int64RoundTrip(e.ttlMs);
    CutJoined(WriteBE(|e.key|, HEADER_BYTES), WriteInt64(e.ttlMs), WriteBE(|e.payload|, HEADER_BYTES),
              e.key, e.payload, rest);
  }

  /** What is read as a frame is byte for byte the frame of the entry it yields. */
  lemma FrameOfFirst(b: Bytes)
    requires HasFrame(b)
    ensures Framable(FirstEntry(b)) && FrameOf(FirstEntry(b)) == b[..FrameLength(b)]
  {
    LengthExact(b[..4]);
    LengthExact(b[12..16]);
    Int64Exact(b[4..12]);
    CutFrame(b, |FirstEntry(b).key|, FrameLength(b));
  }

  lemma LengthExact(b: Bytes)
    requires |b| == HEADER_BYTES
    ensures ReadBE(b) < TWO_32 && WriteBE(ReadBE(b), HEADER_BYTES) == b
  {
    Powers();
    WriteOfRead(b);
  }

  lemma CutFrame(b: Bytes, k: nat, n: nat)
    requires 16 + k <= n <= |b|
    ensures b[..n] == b[..4] + b[4..12] + b[12..16] + b[16..16 + k] + b[16 + k..n]
  {
  }

  lemma HeadStays(a: Bytes, c: Bytes)
    requires |a| >= HEAD
    ensures FrameLength(a + c) == FrameLength(a)
    ensures HasFrame(a) ==> HasFrame(a + c) && FirstEntry(a + c) == FirstEntry(a)
  {
    var b := a + c;
    assert b[..4] == a[..4] && b[4..12] == a[4..12] && b[12..16] == a[12..16];
    if HasFrame(a) {
      var k, n := ReadBE(a[..4]), FrameLength(a);
      assert b[16..16 + k] == a[16..16 + k] && b[16 + k..n] == a[16 + k..n];
    }
  }

  /** Reading in two pieces: the leftover of the first is read together with the second. */
  lemma {:induction false} ParseAppend(a: Bytes, c: Bytes)
    ensures Parse(a + c).entries == Parse(a).entries + Parse(Parse(a).rest + c).entries
    ensures Parse(a + c).rest == Parse(Parse(a).rest + c).rest
    decreases |a|
  {
    if HasFrame(a) {
      var n := FrameLength(a);
      HeadStays(a, c);
      assert (a + c)[n..] == a[n..] + c;
      ParseAppend(a[n..], c);
    }
  }

  /** A stream is the frames of the parsed entries followed by a leftover that holds no
      complete frame. */
  ghost predicate Exact(b: Bytes, p: Parsed) {
    AllFramable(p.entries) && b == FramesOf(p.entries) + p.rest && !HasFrame(p.rest)
  }

  lemma ExactCons(e: Entry, tail: Bytes, others: Parsed)
    requires Framable(e) && Exact(tail, others)
    ensures Exact(FrameOf(e) + tail, Parsed([e] + others.entries, others.rest))
  {
    FramesCons(e, others.entries);
    assert FrameOf(e) + (FramesOf(others.entries) + others.rest)
           == (FrameOf(e) + FramesOf(others.entries)) + others.rest;
  }

  /** Parsing accounts for every byte of every stream. */
  lemma {:induction false} ParseIsExact(b: Bytes)
    ensures Exact(b, Parse(b))
    decreases |b|
  {
    hide FrameOf, FrameLength, FirstEntry, Parse;
    if HasFrame(b) {
      var n := FrameLength(b);
      ParseIsExact(b[n..]);
      FrameOfFirst(b);
      ParseOne(b);
      hide *;
      ExactCons(FirstEntry(b), b[n..], Parse(b[n..]));
      assert b == b[..n] + b[n..];
    } else {
      ParseNone(b);
    }
  }

  lemma FramesCons(e: Entry, es: seq<Entry>)
    requires Framable(e) && AllFramable(es)
    ensures AllFramable([e] + es) && FramesOf([e] + es) == FrameOf(e) + FramesOf(es)
  {
    assert ([e] + es)[1..] == es;
  }

  /** Any entries followed by an incomplete frame are read back exactly. */
  lemma {:induction false} ParseOfFrames(es: seq<Entry>, rest: Bytes)
    requires AllFramable(es) && !HasFrame(rest)
    ensures Parse(FramesOf(es) + rest) == Parsed(es, rest)
  {
    hide FrameOf, FrameLength, FirstEntry, HasFrame, Parse, Framable;
    if es == [] {
      assert FramesOf(es) + rest == rest;
      ParseNone(rest);
    } else {
      var e, tail := es[0], FramesOf(es[1..]) + rest;
      ParseOfFrames(es[1..], rest);
      FirstOfFrame(e, tail);
      FramesCons(e, es[1..]);
      ParseOne(FrameOf(e) + tail);
      hide *;
      assert [e] + es[1..] == es;
      assert FramesOf(es) + rest == FrameOf(e) + tail;
    }
  }

  ghost function Zeros(n: nat): (b: Bytes)
    ensures |b| == n
  {
    seq(n, _ => 0)
  }

  ghost predicate StrictPrefixOfFrame(b: Bytes) {
    exists e :: Framable(e) && |b| < |FrameOf(e)| && b == FrameOf(e)[..|b|]
  }

  /** Bytes hold no complete frame exactly when they are a strict prefix of one. */
  lemma IncompleteIffStrictPrefix(b: Bytes)
    ensures !HasFrame(b) <==> StrictPrefixOfFrame(b)
  {
    if !HasFrame(b) {
      var head := if |b| < HEAD then b + Zeros(HEAD - |b|) else b;
      var full := head + Zeros(FrameLength(head) - |head|);
      HeadStays(head, Zeros(FrameLength(head) - |head|));
      FrameOfFirst(full);
      assert full[..FrameLength(full)] == full;
      assert b == full[..|b|];
      assert Framable(FirstEntry(full)) && |b| < |FrameOf(FirstEntry(full))|;
    }
    if StrictPrefixOfFrame(b) {
      var e :| Framable(e) && |b| < |FrameOf(e)| && b == FrameOf(e)[..|b|];
      FirstOfFrame(e, []);
      assert FrameOf(e) + [] == FrameOf(e) == b + FrameOf(e)[|b|..];
      if |b| >= HEAD {
        HeadStays(b, FrameOf(e)[|b|..]);
      }
    }
  }

  // ------------------------------------------------- the incremental restore loop

  /** Every executed pipeline holds 500 commands, except that the last may hold fewer, but
      not none. */
  ghost predicate BatchesOf(batches: seq<seq<Entry>>, entries: seq<Entry>) {
    && Flatten(batches) == entries
    && forall i :: 0 <= i < |batches| ==>
         1 <= |batches[i]| <= 500 && (i < |batches| - 1 ==> |batches[i]| == 500)
  }

  /** Reading the fields of a frame at an offset is reading the first frame from there. */
  lemma FieldsAtOffset(buffer: Bytes, offset: nat)
    requires offset <= |buffer| && |buffer| - offset >= HEAD
    ensures var unread := buffer[offset..];
      && FrameLength(unread) == HEAD + ReadBE(buffer[offset..offset + 4]) + ReadBE(buffer[offset + 12..offset + 16])
      && (HasFrame(unread) ==> FirstEntry(unread) == EntryAt(buffer, offset))
  {
    var unread := buffer[offset..];
    assert unread[..4] == buffer[offset..offset + 4];
    assert unread[4..12] == buffer[offset + 4..offset + 12];
    assert unread[12..16] == buffer[offset + 12..offset + 16];
    if HasFrame(unread) {
      var k, n := ReadBE(unread[..4]), FrameLength(unread);
      assert unread[16..16 + k] == buffer[offset + 16..offset + 16 + k];
      assert unread[16 + k..n] == buffer[offset + 16 + k..offset + n];
    }
  }

  /** The entry the loop body cuts out of the buffer. */
  function EntryAt(buffer: Bytes, offset: nat): Entry
    requires offset <= |buffer| && HasFrame(buffer[offset..])
  {
    assert buffer[offset..][..4] == buffer[offset..offset + 4];
    assert buffer[offset..][12..16] == buffer[offset + 12..offset + 16];
    var keyLen := ReadBE(buffer[offset..offset + 4]);
    var payloadLen := ReadBE(buffer[offset + 12..offset + 16]);
    var keyStart := offset + HEAD;
    Entry(buffer[keyStart..keyStart + keyLen], ReadInt64(buffer[offset + 4..offset + 12]),
          buffer[keyStart + keyLen..keyStart + keyLen + payloadLen])
  }

  /** Half-way through a buffer: what was issued, and what is still to be parsed, add up. */
  ghost predicate Progress(buffer: Bytes, offset: nat, before: seq<Entry>, issued: seq<Entry>)
    requires offset <= |buffer|
  {
    var all, unread := Parse(buffer), Parse(buffer[offset..]);
    issued + unread.entries == before + all.entries && unread.rest == all.rest
  }

  lemma ProgressStep(buffer: Bytes, offset: nat, before: seq<Entry>, issued: seq<Entry>, total: nat)
    requires offset <= |buffer| && Progress(buffer, offset, before, issued)
    requires HasFrame(buffer[offset..]) && total == FrameLength(buffer[offset..])
    ensures Progress(buffer, offset + total, before, issued + [FirstEntry(buffer[offset..])])
  {
    var unread := buffer[offset..];
    assert unread[total..] == buffer[offset + total..];
    var e, others := FirstEntry(unread), Parse(unread[total..]);
    assert issued + ([e] + others.entries) == (issued + [e]) + others.entries;
  }

  lemma ProgressDone(buffer: Bytes, offset: nat, before: seq<Entry>, issued: seq<Entry>)
    requires offset <= |buffer| && Progress(buffer, offset, before, issued) && !HasFrame(buffer[offset..])
    ensures issued == before + Parse(buffer).entries && buffer[offset..] == Parse(buffer).rest
  {
    assert issued + [] == issued;
  }

  class Restorer {
    var buffer: Bytes
    var pipeline: seq<Entry>
    // The pipelines executed so far.
    var batches: seq<seq<Entry>>

    constructor ()
      ensures Valid() && buffer == [] && Issued() == []
    {
      buffer, pipeline, batches := [], [], [];
    }

    ghost predicate Valid()
      reads this
    {
      |pipeline| < FLUSH_EVERY && forall i :: 0 <= i < |batches| ==> |batches[i]| == FLUSH_EVERY
    }

    ghost function Issued(): seq<Entry>
      reads this
    {
      Flatten(batches) + pipeline
    }

    method Flush()
      modifies this`pipeline, this`batches
      ensures Issued() == old(Issued()) && pipeline == []
      ensures batches == if old(pipeline) == [] then old(batches) else old(batches) + [old(pipeline)]
    {
      if |pipeline| == 0 {
        return;
      }
      FlattenAppend(batches, pipeline);
      batches := batches + [pipeline];
      pipeline := [];
    }

    method Queue(e: Entry)
      requires Valid()
      modifies this`pipeline, this`batches
      ensures Valid() && Issued() == old(Issued()) + [e]
    {
      pipeline := pipeline + [e];
      assert Issued() == old(Issued()) + [e];
      if |pipeline| >= FLUSH_EVERY {
        Flush();
      }
    }

    /** One chunk: all complete frames are queued; every round of the loop moves the offset
        on by at least the 16 bytes of a frame's head. */
    method Receive(chunk: Bytes)
      requires Valid()
      modifies this
      ensures Valid()
      ensures Issued() == old(Issued()) + Parse(old(buffer) + chunk).entries
      ensures buffer == Parse(old(buffer) + chunk).rest
    {
      hide Parse, ReadBE, EntryAt, FirstEntry, Flatten, ReadInt64;
      buffer := buffer + chunk;
      ghost var before := Issued();
      var offset := 0;
      assert buffer[0..] == buffer;
      while |buffer| - offset >= HEAD
        invariant 0 <= offset <= |buffer| && buffer == old(buffer) + chunk && Valid()
        invariant Progress(buffer, offset, before, Issued())
        decreases |buffer| - offset
      {
        FieldsAtOffset(buffer, offset);
        var total := HEAD + ReadBE(buffer[offset..offset + 4]) + ReadBE(buffer[offset + 12..offset + 16]);
        if |buffer| - offset < total {
          break;
        }
        ProgressStep(buffer, offset, before, Issued(), total);
        Queue(EntryAt(buffer, offset));
        offset := offset + total;
      }
      ProgressDone(buffer, offset, before, Issued());
      buffer := buffer[offset..];
    }
  }

  /** For every way of cutting a stream into chunks, the restore issues exactly the entries
      whose frames the stream holds, in order and in batches; what is left over is a strict
      prefix of one more frame. */
  method Restore(chunks: seq<Bytes>) returns (batches: seq<seq<Entry>>, leftover: Bytes)
    ensures BatchesOf(batches, Flatten(batches)) && AllFramable(Flatten(batches))
    ensures Flatten(chunks) == FramesOf(Flatten(batches)) + leftover
    ensures StrictPrefixOfFrame(leftover)
  {
    hide Parse, FramesOf, FrameOf, FrameLength, FirstEntry, Framable;
    var restorer := new Restorer();
    ParseNone([]);
    for c := 0 to |chunks|
      invariant restorer.Valid()
      invariant Parse(Flatten(chunks[..c])) == Parsed(restorer.Issued(), restorer.buffer)
    {
      assert chunks[..c + 1][..c] == chunks[..c];
      ParseAppend(Flatten(chunks[..c]), chunks[c]);
      restorer.Receive(chunks[c]);
    }
    assert chunks[..|chunks|] == chunks;
    ParseIsExact(Flatten(chunks));
    IncompleteIffStrictPrefix(restorer.buffer);
    restorer.Flush();
    batches, leftover := restorer.batches, restorer.buffer;
    assert Flatten(batches) == restorer.Issued();
  }

  /** Those three facts leave only one answer: the entries and the leftover of a stream are
      determined by its bytes. */
  lemma StreamDeterminesEntries(es: seq<Entry>, rest: Bytes, es': seq<Entry>, rest': Bytes)
    requires AllFramable(es) && StrictPrefixOfFrame(rest)
    requires AllFramable(es') && StrictPrefixOfFrame(rest')
    requires FramesOf(es) + rest == FramesOf(es') + rest'
    ensures es == es' && rest == rest'
  {
    IncompleteIffStrictPrefix(rest);
    IncompleteIffStrictPrefix(rest');
    ParseOfFrames(es, rest);
    ParseOfFrames(es', rest');
  }

  /** Restoring any re-chunking of a dump issues exactly the dumped entries. */
  method RestoreOfDump(replies: seq<Reply>, chunks: seq<Bytes>) returns (batches: seq<seq<Entry>>)
    requires AllFramable(Dumped(replies))
    requires Flatten(chunks) == FramesOf(Dumped(replies))
    ensures BatchesOf(batches, Dumped(replies))
  {
    var leftover;
    batches, leftover := Restore(chunks);
    var es := Dumped(replies);
    IncompleteIffStrictPrefix([]);
    assert FramesOf(es) + [] == FramesOf(es);
    StreamDeterminesEntries(es, [], Flatten(batches), leftover);
  }
}
