/** The file of recorded changes (akonadi/changerecorder_p.cpp): a count packed with a format
    version, the number of leading records to skip, and the records. Loading is defined on
    every byte sequence. */
module ChangeFile {
  import opened Collections
  import opened DataStream

  datatype Message = Message(
    sessionId: ByteArray,
    kind: Int32,
    operation: Int32,
    uid: Int64,
    remoteId: Text,
    resource: ByteArray,
    parentCollection: Int64,
    parentDestCollection: Int64,
    mimeType: Text,
    itemParts: set<ByteArray>)

  /** Every length fits its 32-bit prefix. */
  predicate Storable(m: Message) {
    && ArrayFits(m.sessionId) && TextFits(m.remoteId) && ArrayFits(m.resource) && TextFits(m.mimeType)
    && |m.itemParts| < TWO32 && (forall a :: a in m.itemParts ==> ArrayFits(a))
  }

  predicate QueueFits(q: seq<Message>) {
    |q| < TWO32 && forall i :: 0 <= i < |q| ==> Storable(q[i])
  }

  // ------------------------------------------------------------------ records

  /** An order in which the parts of a message may be written. */
  predicate PartsOrder(m: Message, parts: seq<ByteArray>) {
    ArraysFit(parts) && |parts| < TWO32 && Elements(parts) == m.itemParts
  }

  function WhatBytes(m: Message): (b: seq<Byte>)
    requires Storable(m)
    ensures |b| >= 20
  {
    ArrayBytes(m.sessionId) + I32(m.kind) + I32(m.operation) + I64(m.uid)
  }

  function WhereBytes(m: Message): seq<Byte>
    requires Storable(m)
  {
    TextBytes(m.remoteId) + ArrayBytes(m.resource) + I64(m.parentCollection) + I64(m.parentDestCollection)
      + TextBytes(m.mimeType)
  }

  function RecordBytes(m: Message, parts: seq<ByteArray>): seq<Byte>
    requires Storable(m) && PartsOrder(m, parts)
  {
    WhatBytes(m) + WhereBytes(m) + SetBytes(parts)
  }

  function ReadRecord(s: seq<Byte>): (r: Read<Message>)
    ensures Storable(r.value)
  {
    var sessionId := ReadArray(s);
    var kind := ReadI32(sessionId.rest);
    var operation := ReadI32(kind.rest);
    var uid := ReadI64(operation.rest);
    var remoteId := ReadText(uid.rest);
    var resource := ReadArray(remoteId.rest);
    var parentCollection := ReadI64(resource.rest);
    var parentDestCollection := ReadI64(parentCollection.rest);
    var mimeType := ReadText(parentDestCollection.rest);
    var itemParts := ReadSet(mimeType.rest);
    Read(Message(sessionId.value, kind.value, operation.value, uid.value, remoteId.value, resource.value,
                 parentCollection.value, parentDestCollection.value, mimeType.value, itemParts.value), itemParts.rest)
  }

  /** Reading a record back gives the message, whatever follows it. */
  lemma RecordInverse(m: Message, parts: seq<ByteArray>, rest: seq<Byte>)
    requires Storable(m) && PartsOrder(m, parts)
    ensures ReadRecord(RecordBytes(m, parts) + rest) == Read(m, rest)
  {
    var s9 := SetBytes(parts) + rest;
    var s4 := WhereBytes(m) + s9;
    Regroup(WhatBytes(m), WhereBytes(m), SetBytes(parts), rest);
    WhatInverse(m, s4);
    WhereInverse(m, s9);
    SetInverse(parts, rest);
  }

  lemma Regroup(a: seq<Byte>, b: seq<Byte>, c: seq<Byte>, d: seq<Byte>)
    ensures (a + b + c) + d == a + (b + (c + d))
  {
  }

  lemma WhatInverse(m: Message, s4: seq<Byte>)
    requires Storable(m)
    ensures var sessionId := ReadArray(WhatBytes(m) + s4);
      var kind := ReadI32(sessionId.rest);
      var operation := ReadI32(kind.rest);
      && sessionId.value == m.sessionId && kind.value == m.kind && operation.value == m.operation
      && ReadI64(operation.rest) == Read(m.uid, s4)
  {
    var s3 := I64(m.uid) + s4;
    var s2 := I32(m.operation) + s3;
    var s1 := I32(m.kind) + s2;
    assert WhatBytes(m) + s4 == ArrayBytes(m.sessionId) + s1;
    ArrayInverse(m.sessionId, s1);
    I32Inverse(m.kind, s2);
    I32Inverse(m.operation, s3);
    I64Inverse(m.uid, s4);
  }

  lemma WhereInverse(m: Message, s9: seq<Byte>)
    requires Storable(m)
    ensures var remoteId := ReadText(WhereBytes(m) + s9);
      var resource := ReadArray(remoteId.rest);
      var parentCollection := ReadI64(resource.rest);
      var parentDestCollection := ReadI64(parentCollection.rest);
      && remoteId.value == m.remoteId && resource.value == m.resource
      && parentCollection.value == m.parentCollection && parentDestCollection.value == m.parentDestCollection
      && ReadText(parentDestCollection.rest) == Read(m.mimeType, s9)
  {
    var s8 := TextBytes(m.mimeType) + s9;
    var s7 := I64(m.parentDestCollection) + s8;
    var s6 := I64(m.parentCollection) + s7;
    var s5 := ArrayBytes(m.resource) + s6;
    assert WhereBytes(m) + s9 == TextBytes(m.remoteId) + s5;
    TextInverse(m.remoteId, s5);
    ArrayInverse(m.resource, s6);
    I64Inverse(m.parentCollection, s7);
    I64Inverse(m.parentDestCollection, s8);
    TextInverse(m.mimeType, s9);
  }

  /** A record for the message, with its parts in some order. */
  ghost predicate Encodes(chunk: seq<Byte>, m: Message) {
    Storable(m) && exists parts :: PartsOrder(m, parts) && chunk == RecordBytes(m, parts)
  }

  lemma EncodesYields(chunk: seq<Byte>, m: Message)
    requires Encodes(chunk, m)
    ensures Yields(ReadRecord, chunk, m)
  {
    var parts :| PartsOrder(m, parts) && chunk == RecordBytes(m, parts);
    forall rest ensures ReadRecord(chunk + rest) == Read(m, rest) {
      RecordInverse(m, parts, rest);
    }
  }

  ghost predicate EncodesAll(chunks: seq<seq<Byte>>, q: seq<Message>) {
    |chunks| == |q| && forall i :: 0 <= i < |q| ==> Encodes(chunks[i], q[i])
  }

  lemma RecordsInverse(q: seq<Message>, chunks: seq<seq<Byte>>)
    requires EncodesAll(chunks, q)
    ensures ReadMany(ReadRecord, Concat(chunks), |q|) == q
  {
    forall i | 0 <= i < |q| ensures Yields(ReadRecord, chunks[i], q[i]) {
      EncodesYields(chunks[i], q[i]);
    }
    ManyInverse(ReadRecord, q, chunks);
  }

  // ------------------------------------------------------------------ the file

  const CURRENT_VERSION := TWO32

  /** Count and version share one 64-bit word: the version is or-ed in above 32 bits. */
  function CountAndVersion(count: int): int
    requires 0 <= count < TWO32
  {
    if count / CURRENT_VERSION % 2 == 1 then count else count + CURRENT_VERSION
  }

  function Count(b: seq<Byte>): nat { ReadU64(b).value % TWO32 }

  function Version(b: seq<Byte>): nat { ReadU64(b).value / TWO32 % 0x1_0000 }

  function StartOffset(b: seq<Byte>): nat {
    if Version(b) >= 1 then ReadU64(ReadU64(b).rest).value else 0
  }

  /** All records of a file, including those to skip. */
  function Records(b: seq<Byte>): (q: seq<Message>)
    ensures QueueFits(q)
  {
    ManyAll(ReadRecord, Storable, Body(b), Count(b));
    ReadMany(ReadRecord, Body(b), Count(b))
  }

  function Body(b: seq<Byte>): seq<Byte> {
    if Version(b) >= 1 then ReadU64(ReadU64(b).rest).rest else ReadU64(b).rest
  }

  function Drop<T>(s: seq<T>, n: nat): seq<T> {
    if n >= |s| then [] else s[n..]
  }

  datatype Loaded = Loaded(list: seq<Message>, needFullSave: bool)

  /** A file that skips records, or is of the old format, has to be rewritten. */
  function Load(b: seq<Byte>): Loaded {
    Loaded(Drop(Records(b), StartOffset(b)), StartOffset(b) > 0 || Version(b) == 0)
  }

  /** b is the queue as a full save writes it. */
  ghost predicate Saved(b: seq<Byte>, q: seq<Message>) {
    QueueFits(q) && exists chunks :: EncodesAll(chunks, q) && b == U64(CountAndVersion(|q|)) + U64(0) + Concat(chunks)
  }

  /** b is the queue in the format before there were versions. */
  ghost predicate SavedOld(b: seq<Byte>, q: seq<Message>) {
    QueueFits(q) && exists chunks :: EncodesAll(chunks, q) && b == U64(|q|) + Concat(chunks)
  }

  /** Overwrites part of a file in place, extending it with zeros if it is too short. */
  function WriteAt(b: seq<Byte>, pos: nat, data: seq<Byte>): seq<Byte> {
    var padded := if |b| < pos then b + seq(pos - |b|, i => 0) else b;
    padded[..pos] + data + (if |b| > pos + |data| then b[pos + |data|..] else [])
  }

  // ------------------------------------------------------------------ what loading gives

  /** Packing and unpacking: a packed count has version 1, a bare count version 0. */
  lemma CountDecodes(count: int, rest: seq<Byte>)
    requires 0 <= count < TWO32
    ensures Count(U64(CountAndVersion(count)) + rest) == count && Version(U64(CountAndVersion(count)) + rest) == 1
    ensures Count(U64(count) + rest) == count && Version(U64(count) + rest) == 0
  {
    PackArith(count);
    U64Inverse(CountAndVersion(count), rest);
    U64Inverse(count, rest);
  }

  lemma PackArith(count: int)
    requires 0 <= count < TWO32
    ensures CountAndVersion(count) % TWO32 == count && CountAndVersion(count) / TWO32 == 1
    ensures count % TWO32 == count && count / TWO32 == 0
  {
  }

  lemma SavedIs(b: seq<Byte>, q: seq<Message>)
    requires Saved(b, q)
    ensures |b| >= 16 && Version(b) == 1 && StartOffset(b) == 0 && Records(b) == q && Count(b) == |q|
  {
    var chunks :| EncodesAll(chunks, q) && b == U64(CountAndVersion(|q|)) + U64(0) + Concat(chunks);
    HeaderIs(|q|, Concat(chunks));
    RecordsInverse(q, chunks);
  }

  lemma HeaderIs(count: int, body: seq<Byte>)
    requires 0 <= count < TWO32
    ensures var b := U64(CountAndVersion(count)) + U64(0) + body;
      Count(b) == count && Version(b) == 1 && StartOffset(b) == 0 && Body(b) == body
  {
    assert U64(CountAndVersion(count)) + U64(0) + body == U64(CountAndVersion(count)) + (U64(0) + body);
    CountDecodes(count, U64(0) + body);
    U64Inverse(CountAndVersion(count), U64(0) + body);
    U64Inverse(0, body);
  }

  /** Round trip: a saved queue loads as it was, and needs no rewriting. */
  lemma RoundTrip(b: seq<Byte>, q: seq<Message>)
    requires Saved(b, q)
    ensures Load(b) == Loaded(q, false)
  {
    SavedIs(b, q);
  }

  /** One change as it stands in a file, byte by byte: one notification, to be read from the first
      one on. It has a session of one byte, kind 2, operation 1, uid 7, a remote id of one character,
      no resource, parent 3, no destination (-1), an empty mime type and no item parts. */
  const KNOWN_HEADER: seq<Byte> := [0, 0, 0, 1, 0, 0, 0, 1] + [0, 0, 0, 0, 0, 0, 0, 0]
  const KNOWN_WHAT: seq<Byte> :=
    [0, 0, 0, 1, 0x73] + [0, 0, 0, 2] + [0, 0, 0, 1] + [0, 0, 0, 0, 0, 0, 0, 7]
  const KNOWN_WHERE: seq<Byte> :=
    [0, 0, 0, 2, 0, 0x72] + [0xFF, 0xFF, 0xFF, 0xFF] + [0, 0, 0, 0, 0, 0, 0, 3]
      + [0xFF, 0xFF, 0xFF, 0xFF, 0xFF, 0xFF, 0xFF, 0xFF] + [0, 0, 0, 0]
  const KNOWN_PARTS: seq<Byte> := [0, 0, 0, 0]
  const KNOWN_CHANGE := Message(Some([0x73]), 2, 1, 7, Some([0x72]), None, 3, -1, Some([]), {})

  lemma KnownWhat()
    ensures WhatBytes(KNOWN_CHANGE) == KNOWN_WHAT
  {
    assert U32(1) == [0, 0, 0, 1] && U32(2) == [0, 0, 0, 2];
    assert ArrayBytes(Some([0x73])) == [0, 0, 0, 1, 0x73];
    assert I64(7) == [0, 0, 0, 0, 0, 0, 0, 7];
  }

  lemma KnownWhere()
    ensures WhereBytes(KNOWN_CHANGE) == KNOWN_WHERE
  {
    assert UnitsBytes([0x72]) == [0, 0x72] + UnitsBytes([]);
    assert TextBytes(Some([0x72])) == [0, 0, 0, 2, 0, 0x72];
    assert U32(NULL_MARK) == [0xFF, 0xFF, 0xFF, 0xFF];
    assert I64(3) == [0, 0, 0, 0, 0, 0, 0, 3];
    assert I64(-1) == U32(NULL_MARK) + U32(NULL_MARK);
    assert TextBytes(Some([])) == [0, 0, 0, 0];
  }

  /** The file with that change, byte by byte, is what a full save writes, and loads as that change. */
  lemma KnownFile()
    ensures Saved(KNOWN_HEADER + (KNOWN_WHAT + KNOWN_WHERE + KNOWN_PARTS), [KNOWN_CHANGE])
    ensures Load(KNOWN_HEADER + (KNOWN_WHAT + KNOWN_WHERE + KNOWN_PARTS)) == Loaded([KNOWN_CHANGE], false)
  {
    var chunk := KNOWN_WHAT + KNOWN_WHERE + KNOWN_PARTS;
    KnownWhat();
    KnownWhere();
    assert PartsOrder(KNOWN_CHANGE, []) && SetBytes([]) == KNOWN_PARTS;
    assert RecordBytes(KNOWN_CHANGE, []) == chunk && Encodes(chunk, KNOWN_CHANGE);
    assert Concat([chunk]) == chunk;
    assert EncodesAll([chunk], [KNOWN_CHANGE]);
    assert U64(CountAndVersion(1)) == [0, 0, 0, 1, 0, 0, 0, 1] && U64(0) == [0, 0, 0, 0, 0, 0, 0, 0];
    RoundTrip(KNOWN_HEADER + chunk, [KNOWN_CHANGE]);
  }

  /** An old file loads completely, but has to be rewritten before it is patched. */
  lemma OldRoundTrip(b: seq<Byte>, q: seq<Message>)
    requires SavedOld(b, q)
    ensures Load(b) == Loaded(q, true)
  {
    var chunks :| EncodesAll(chunks, q) && b == U64(|q|) + Concat(chunks);
    CountDecodes(|q|, Concat(chunks));
    U64Inverse(|q|, Concat(chunks));
    RecordsInverse(q, chunks);
  }

  /** Overwriting bytes 8 to 15 of any current file changes the number of skipped records,
      and nothing else. */
  lemma PatchIs(b: seq<Byte>, k: int)
    requires |b| >= 16 && Version(b) >= 1 && 0 <= k < TWO64
    ensures var b' := WriteAt(b, 8, U64(k));
      && |b'| == |b| && Version(b') == Version(b) && Count(b') == Count(b)
      && StartOffset(b') == k && Records(b') == Records(b)
      && Load(b') == Loaded(Drop(Records(b), k), k > 0)
  {
    var b' := WriteAt(b, 8, U64(k));
    assert b' == b[..8] + (U64(k) + b[16..]);
    assert forall i :: 0 <= i < 8 ==> b'[i] == b[i];
    assert b'[8..] == U64(k) + b[16..];
    U64Inverse(k, b[16..]);
    assert b[4..][4..] == b[8..] && b'[4..][4..] == b'[8..] && b[8..][4..][4..] == b[16..];
  }

  /** Patching in the offset k makes a saved queue load without its first k entries. */
  lemma PatchDrops(b: seq<Byte>, q: seq<Message>, k: nat)
    requires Saved(b, q) && k <= |q|
    ensures Load(WriteAt(b, 8, U64(k))).list == q[k..]
  {
    SavedIs(b, q);
    PatchIs(b, k);
  }
}
