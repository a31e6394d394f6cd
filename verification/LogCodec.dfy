/** The bytes of a log record: a fixed header, a checksum that skips itself, and a payload. */
module LogCodec {
  import opened Wrappers
  import opened Bytes
  import opened LogFormat

  // ----- checksum -----

  /** Eight rounds of the polynomial division, one for each bit. */
  function CrcBits(crc: bv32, bits: nat): bv32 {
    if bits == 0 then crc
    else CrcRound(CrcBits(crc, bits - 1))
  }

  function CrcRound(crc: bv32): bv32 { if crc & 1 != 0 then (crc >> 1) ^ 0xedb8_8320 else crc >> 1 }

  function CrcByte(crc: bv32, x: Byte): bv32 { CrcBits(crc ^ ((x as bv8) as bv32), 8) }

  /** The running checksum of the first `n` bytes, leaving out a part. */
  function CrcRun(b: seq<Byte>, n: nat, skipAt: nat, skipLength: nat): bv32
    requires n <= |b|
  {
    if n == 0 then 0xffff_ffff
    else
      var before := CrcRun(b, n - 1, skipAt, skipLength);
      if skipAt <= n - 1 < skipAt + skipLength then before else CrcByte(before, b[n - 1])
  }

  /** All bits of the running value turned round. */
  function CrcResult(crc: bv32): (v: nat)
    ensures v < Range(4)
  {
    RangesAre();
    (crc ^ 0xffff_ffff) as nat
  }

  function Checksum(b: seq<Byte>): (v: nat)
    ensures v < Range(4)
  {
    CrcResult(CrcRun(b, |b|, CHECKSUM_AT, 4))
  }

  method CrcOfByte(start: bv32, x: Byte) returns (crc: bv32)
    ensures crc == CrcByte(start, x)
  {
    var mixed := start ^ ((x as bv8) as bv32);
    crc := mixed;
    var bit := 0;
    while bit < 8
      invariant 0 <= bit <= 8 && crc == CrcBits(mixed, bit)
    {
      crc := CrcRound(crc);
      bit := bit + 1;
    }
  }

  method Crc32(b: seq<Byte>) returns (v: nat)
    ensures v == Checksum(b)
  {
    var crc: bv32 := 0xffff_ffff;
    var i := 0;
    while i < |b|
      invariant 0 <= i <= |b| && crc == CrcRun(b, i, CHECKSUM_AT, 4)
    {
      if !(CHECKSUM_AT <= i < CHECKSUM_AT + 4) { crc := CrcOfByte(crc, b[i]); }
      i := i + 1;
    }
    v := CrcResult(crc);
  }

  /** The checksum does not depend on the bytes it is stored in. */
  lemma {:induction false} ChecksumSkips(b: seq<Byte>, c: seq<Byte>, n: nat)
    requires n <= |b| == |c|
    requires forall k :: 0 <= k < n && !(CHECKSUM_AT <= k < CHECKSUM_AT + 4) ==> b[k] == c[k]
    ensures CrcRun(b, n, CHECKSUM_AT, 4) == CrcRun(c, n, CHECKSUM_AT, 4)
  {
    if n > 0 {
      var m := n - 1;
      ChecksumSkips(b, c, m);
    }
  }

  // ----- encoding -----

  function CompensationHead(r: DiskRecord): seq<Byte> {
    if r.kind == COMPENSATION then Store(r.undoNextLsn, 8) + (Store(r.compensationType, 2) + [0, 0]) else []
  }

  function Payload(r: DiskRecord): seq<Byte> { CompensationHead(r) + (r.before + r.after) }

  predicate IsTarget(kind: nat) { kind == PAGE_UPDATE || kind == PAGE_ALLOCATE || kind == PAGE_FREE }

  /** What the encoder accepts. */
  predicate Encodable(r: DiskRecord) {
    BEGIN <= r.kind <= COMPENSATION
    && (if r.kind == PAGE_UPDATE then |r.before| == PAGE_SIZE && |r.after| == PAGE_SIZE
        else if r.kind == COMPENSATION then
          r.before == [] && IsTarget(r.compensationType)
          && |r.after| == (if r.compensationType == PAGE_UPDATE then PAGE_SIZE else 0)
        else r.before == [] && r.after == [])
  }

  /** The fields have the widths they are stored with. */
  predicate InRange(r: DiskRecord) {
    r.lsn < Range(8) && r.txnId < Range(8) && r.prevLsn < Range(8) && r.pageId < Range(4) && r.undoNextLsn < Range(8)
  }

  function Front(kind: nat, total: nat): (b: seq<Byte>)
    ensures |b| == CHECKSUM_AT
  {
    Store(MAGIC, 4) + (Store(VERSION, 2) + (Store(kind, 2) + Store(total, 4)))
  }

  function Back(r: DiskRecord, lsn: nat, payloadLength: nat): (b: seq<Byte>)
    ensures |b| == HEADER - LSN_AT
  {
    Store(lsn, 8) + (Store(r.txnId, 8) + (Store(r.prevLsn, 8) + (Store(r.pageId, 4) + Store(payloadLength, 4))))
  }

  function WithChecksum(r: DiskRecord, lsn: nat, checksum: nat): (b: seq<Byte>)
    ensures |b| == HEADER + |Payload(r)|
  {
    var payload := Payload(r);
    Front(r.kind, HEADER + |payload|) + (Store(checksum, 4) + (Back(r, lsn, |payload|) + payload))
  }

  /** The record's bytes; the checksum is taken while its own field is zero. */
  function EncodeBytes(r: DiskRecord, lsn: nat): (b: seq<Byte>)
    ensures |b| == HEADER + |Payload(r)|
  {
    WithChecksum(r, lsn, Checksum(WithChecksum(r, lsn, 0)))
  }

  function Encode(r: DiskRecord, lsn: nat): Option<seq<Byte>> {
    if Encodable(r) then Some(EncodeBytes(r, lsn)) else None
  }

  // ----- decoding -----

  function DecodePayload(r: DiskRecord, payload: seq<Byte>): Option<DiskRecord> {
    if r.kind == PAGE_UPDATE then
      if |payload| != PAGE_SIZE * 2 then None
      else Some(r.(before := payload[..PAGE_SIZE], after := payload[PAGE_SIZE..]))
    else if r.kind == COMPENSATION then
      if |payload| != 12 && |payload| != 12 + PAGE_SIZE then None
      else if !IsTarget(Field(payload, 8, 2)) then None
      else Some(r.(undoNextLsn := Field(payload, 0, 8), compensationType := Field(payload, 8, 2),
                   after := payload[12..]))
    else if payload != [] then None
    else Some(r)
  }

  predicate HeaderOk(b: seq<Byte>) {
    |b| >= HEADER
    && Field(b, 0, 4) == MAGIC && Field(b, VERSION_AT, 2) == VERSION
    && BEGIN <= Field(b, KIND_AT, 2) <= COMPENSATION
    && Field(b, TOTAL_AT, 4) == |b| && Field(b, PAYLOAD_AT, 4) == |b| - HEADER
    && Field(b, CHECKSUM_AT, 4) == Checksum(b)
  }

  function HeaderOf(b: seq<Byte>): DiskRecord
    requires |b| >= HEADER
  {
    DiskRecord(Field(b, KIND_AT, 2), Field(b, LSN_AT, 8), Field(b, TXN_AT, 8), Field(b, PREV_AT, 8),
               Field(b, PAGE_AT, 4),
              0, CHECKPOINT, [], [])
  }

  function Decode(b: seq<Byte>): Option<DiskRecord> {
    if HeaderOk(b) then DecodePayload(HeaderOf(b), b[HEADER..]) else None
  }

  // ----- fields of concatenated bytes -----

  lemma FieldOfLeft(a: seq<Byte>, b: seq<Byte>, offset: nat, n: nat)
    requires offset + n <= |a|
    ensures Field(a + b, offset, n) == Field(a, offset, n)
  {
    assert (a + b)[offset..offset + n] == a[offset..offset + n];
  }

  lemma FieldOfRight(a: seq<Byte>, b: seq<Byte>, offset: nat, n: nat)
    requires |a| <= offset && offset + n <= |a| + |b|
    ensures Field(a + b, offset, n) == Field(b, offset - |a|, n)
  {
    var o := offset - |a|;
    assert (a + b)[offset..offset + n] == b[o..o + n];
  }

  lemma FieldOfFirst(v: nat, n: nat, b: seq<Byte>)
    requires v < Range(n)
    ensures Field(Store(v, n) + b, 0, n) == v
  {
    StoreThenLoad(v, n);
    assert (Store(v, n) + b)[0..0 + n] == Store(v, n);
  }

  lemma FrontFields(kind: nat, total: nat)
    requires kind < Range(2) && total < Range(4)
    ensures var b := Front(kind, total);
            Field(b, 0, 4) == MAGIC && Field(b, VERSION_AT, 2) == VERSION && Field(b, KIND_AT, 2) == kind
            && Field(b, TOTAL_AT, 4) == total
  {
    RangesAre();
    var magic, version, k, t := Store(MAGIC, 4), Store(VERSION, 2), Store(kind, 2), Store(total, 4);
    FieldOfFirst(MAGIC, 4, version + (k + t));
    FieldOfRight(magic, version + (k + t), VERSION_AT, 2);
    FieldOfFirst(VERSION, 2, k + t);
    FieldOfRight(magic, version + (k + t), KIND_AT, 2);
    FieldOfRight(version, k + t, 2, 2);
    FieldOfFirst(kind, 2, t);
    FieldOfRight(magic, version + (k + t), TOTAL_AT, 4);
    FieldOfRight(version, k + t, 4, 4);
    FieldOfRight(k, t, 2, 4);
    FieldOfFirst(total, 4, []);
    assert t + [] == t;
  }

  lemma BackFields(r: DiskRecord, lsn: nat, payloadLength: nat)
    requires lsn < Range(8) && InRange(r) && payloadLength < Range(4)
    ensures var b := Back(r, lsn, payloadLength);
            Field(b, 0, 8) == lsn && Field(b, 8, 8) == r.txnId && Field(b, 16, 8) == r.prevLsn
            && Field(b, 24, 4) == r.pageId && Field(b, 28, 4) == payloadLength
  {
    var l, t, p, g, n := Store(lsn, 8), Store(r.txnId, 8), Store(r.prevLsn, 8), Store(r.pageId, 4), Store(payloadLength,
        4);
    var fromG := g + n;
    var fromP := p + fromG;
    var fromT := t + fromP;
    FieldOfFirst(lsn, 8, fromT);
    FieldOfRight(l, fromT, 8, 8);
    FieldOfFirst(r.txnId, 8, fromP);
    FieldOfRight(l, fromT, 16, 8);
    FieldOfRight(t, fromP, 8, 8);
    FieldOfFirst(r.prevLsn, 8, fromG);
    FieldOfRight(l, fromT, 24, 4);
    FieldOfRight(t, fromP, 16, 4);
    FieldOfRight(p, fromG, 8, 4);
    FieldOfFirst(r.pageId, 4, n);
    FieldOfRight(l, fromT, 28, 4);
    FieldOfRight(t, fromP, 20, 4);
    FieldOfRight(p, fromG, 12, 4);
    FieldOfRight(g, n, 4, 4);
    FieldOfFirst(payloadLength, 4, []);
    assert n + [] == n;
  }

  // ----- encoding and then decoding -----

  lemma PayloadIsSmall(r: DiskRecord)
    requires Encodable(r)
    ensures |Payload(r)| <= 2 * PAGE_SIZE && HEADER + |Payload(r)| < Range(4)
  {
    RangesAre();
  }

  lemma FrontOfEncoded(r: DiskRecord, lsn: nat, checksum: nat)
    requires Encodable(r) && checksum < Range(4)
    ensures var b := WithChecksum(r, lsn, checksum);
            Field(b, 0, 4) == MAGIC && Field(b, VERSION_AT, 2) == VERSION && Field(b, KIND_AT, 2) == r.kind
            && Field(b, TOTAL_AT, 4) == |b| && Field(b, CHECKSUM_AT, 4) == checksum
  {
    PayloadIsSmall(r);
    RangesAre();
    var payload := Payload(r);
    var total := HEADER + |payload|;
    var front, rest := Front(r.kind, total), Store(checksum, 4) + (Back(r, lsn, |payload|) + payload);
    FrontFields(r.kind, total);
    FieldOfLeft(front, rest, 0, 4);
    FieldOfLeft(front, rest, VERSION_AT, 2);
    FieldOfLeft(front, rest, KIND_AT, 2);
    FieldOfLeft(front, rest, TOTAL_AT, 4);
    FieldOfRight(front, rest, CHECKSUM_AT, 4);
    FieldOfFirst(checksum, 4, Back(r, lsn, |payload|) + payload);
  }

  lemma Assoc(a: seq<Byte>, b: seq<Byte>, c: seq<Byte>)
    ensures a + (b + c) == (a + b) + c
  {
  }

  lemma BackOfParts(first: seq<Byte>, stored: seq<Byte>, back: seq<Byte>, payload: seq<Byte>)
    requires |first| == CHECKSUM_AT && |stored| == 4 && |back| == HEADER - LSN_AT
    ensures var b := first + (stored + (back + payload));
            Field(b, LSN_AT, 8) == Field(back, 0, 8) && Field(b, TXN_AT, 8) == Field(back, 8, 8)
            && Field(b, PREV_AT, 8) == Field(back, 16, 8) && Field(b, PAGE_AT, 4) == Field(back, 24, 4)
            && Field(b, PAYLOAD_AT, 4) == Field(back, 28, 4) && b[HEADER..] == payload
  {
    var front := first + stored;
    Assoc(first, stored, back + payload);
    FieldOfBack(front, back, payload, LSN_AT, 8);
    FieldOfBack(front, back, payload, TXN_AT, 8);
    FieldOfBack(front, back, payload, PREV_AT, 8);
    FieldOfBack(front, back, payload, PAGE_AT, 4);
    FieldOfBack(front, back, payload, PAYLOAD_AT, 4);
  }

  lemma BackOfEncoded(r: DiskRecord, lsn: nat, checksum: nat)
    requires Encodable(r) && InRange(r) && lsn < Range(8)
    ensures var b := WithChecksum(r, lsn, checksum);
            Field(b, LSN_AT, 8) == lsn && Field(b, TXN_AT, 8) == r.txnId && Field(b, PREV_AT, 8) == r.prevLsn
            && Field(b, PAGE_AT, 4) == r.pageId && Field(b, PAYLOAD_AT, 4) == |Payload(r)| && b[HEADER..] == Payload(r)
  {
    PayloadIsSmall(r);
    var payload := Payload(r);
    BackFields(r, lsn, |payload|);
    BackOfParts(Front(r.kind, HEADER + |payload|), Store(checksum, 4), Back(r, lsn, |payload|), payload);
  }

  lemma FieldOfBack(front: seq<Byte>, back: seq<Byte>, payload: seq<Byte>, offset: nat, n: nat)
    requires |front| <= offset && offset + n <= |front| + |back|
    ensures Field(front + (back + payload), offset, n) == Field(back, offset - |front|, n)
  {
    FieldOfRight(front, back + payload, offset, n);
    FieldOfLeft(back, payload, offset - |front|, n);
  }

  lemma ChecksumOfParts(front: seq<Byte>, x: seq<Byte>, y: seq<Byte>, rest: seq<Byte>)
    requires |front| == CHECKSUM_AT && |x| == |y| == 4
    ensures Checksum(front + (x + rest)) == Checksum(front + (y + rest))
  {
    var b, c := front + (x + rest), front + (y + rest);
    ChecksumSkips(b, c, |b|);
  }

  /** The checksum field is the only place where the bytes with and without the checksum differ. */
  lemma ChecksumIsStable(r: DiskRecord, lsn: nat, checksum: nat)
    ensures Checksum(WithChecksum(r, lsn, checksum)) == Checksum(WithChecksum(r, lsn, 0))
  {
    var payload := Payload(r);
    ChecksumOfParts(Front(r.kind, HEADER + |payload|), Store(checksum, 4), Store(0, 4),
                    Back(r, lsn, |payload|) + payload);
  }

  lemma EncodedHeaderOk(r: DiskRecord, lsn: nat)
    requires Encodable(r) && InRange(r) && lsn < Range(8)
    ensures HeaderOk(EncodeBytes(r, lsn))
  {
    var checksum := Checksum(WithChecksum(r, lsn, 0));
    FrontOfEncoded(r, lsn, checksum);
    BackOfEncoded(r, lsn, checksum);
    ChecksumIsStable(r, lsn, checksum);
  }

  /** What the bytes keep of a record: the number it was given, and the compensation fields only for a
      compensation. */
  function Stored(r: DiskRecord, lsn: nat): DiskRecord {
    if r.kind == COMPENSATION then r.(lsn := lsn)
    else r.(lsn := lsn, undoNextLsn := 0, compensationType := CHECKPOINT)
  }

  lemma CompensationHeadIs(undoNext: nat, target: nat, images: seq<Byte>)
    requires undoNext < Range(8) && target < Range(2)
    ensures var payload := (Store(undoNext, 8) + (Store(target, 2) + [0, 0])) + images;
            Field(payload, 0, 8) == undoNext && Field(payload, 8, 2) == target && payload[12..] == images
  {
    var head, tail := Store(undoNext, 8), Store(target, 2) + [0, 0];
    FieldOfLeft(head + tail, images, 0, 8);
    FieldOfLeft(head + tail, images, 8, 2);
    FieldOfFirst(undoNext, 8, tail);
    FieldOfRight(head, tail, 8, 2);
    FieldOfFirst(target, 2, [0, 0]);
    SplitIn2Right(head + tail, images);
  }

  lemma SplitIn2Right(a: seq<Byte>, b: seq<Byte>)
    ensures (a + b)[|a|..] == b && (a + b)[..|a|] == a
  {
  }

  lemma CompensationIsDecoded(r: DiskRecord, h: DiskRecord)
    requires Encodable(r) && InRange(r) && r.kind == COMPENSATION
    requires h == r.(lsn := h.lsn, undoNextLsn := 0, compensationType := CHECKPOINT, before := [], after := [])
    ensures DecodePayload(h, Payload(r)) == Some(Stored(r, h.lsn))
  {
    RangesAre();
    assert r.before + r.after == r.after;
    CompensationHeadIs(r.undoNextLsn, r.compensationType, r.after);
  }

  lemma PayloadIsDecoded(r: DiskRecord, h: DiskRecord)
    requires Encodable(r) && InRange(r)
    requires h == r.(lsn := h.lsn, undoNextLsn := 0, compensationType := CHECKPOINT, before := [], after := [])
    ensures DecodePayload(h, Payload(r)) == Some(Stored(r, h.lsn))
  {
    if r.kind == COMPENSATION {
      CompensationIsDecoded(r, h);
    } else {
      assert Payload(r) == r.before + r.after;
      SplitIn2Right(r.before, r.after);
    }
  }

  /** Decoding gives back every record that can be encoded, under the number it was encoded with. */
  lemma EncodeThenDecode(r: DiskRecord, lsn: nat)
    requires Encodable(r) && InRange(r) && lsn < Range(8)
    ensures Decode(EncodeBytes(r, lsn)) == Some(Stored(r, lsn))
  {
    var b := EncodeBytes(r, lsn);
    EncodedHeaderOk(r, lsn);
    var checksum := Checksum(WithChecksum(r, lsn, 0));
    FrontOfEncoded(r, lsn, checksum);
    BackOfEncoded(r, lsn, checksum);
    PayloadIsDecoded(r, HeaderOf(b));
  }

  // ----- decoding and then encoding -----

  lemma SplitIn2(b: seq<Byte>, n: nat)
    requires n <= |b|
    ensures b == b[..n] + b[n..]
  {
  }

  lemma StoredField(b: seq<Byte>, offset: nat, n: nat)
    requires offset + n <= |b|
    ensures Store(Field(b, offset, n), n) == b[offset..offset + n]
  {
    LoadThenStore(b[offset..offset + n]);
  }

  /** The bytes that the encoder always leaves zero. */
  predicate PaddingIsZero(b: seq<Byte>) {
    |b| >= HEADER + 12 && Field(b, KIND_AT, 2) == COMPENSATION ==> b[HEADER + 10] == 0 && b[HEADER + 11] == 0
  }

  lemma DecodedFront(b: seq<Byte>)
    requires HeaderOk(b)
    ensures Front(Field(b, KIND_AT, 2), |b|) == b[..CHECKSUM_AT]
  {
    StoredField(b, 0, 4);
    StoredField(b, VERSION_AT, 2);
    StoredField(b, KIND_AT, 2);
    StoredField(b, TOTAL_AT, 4);
  }

  lemma Joined(b: seq<Byte>, i: nat, j: nat, k: nat)
    requires i <= j <= k <= |b|
    ensures b[i..j] + b[j..k] == b[i..k]
  {
  }

  lemma JoinedFive(b: seq<Byte>)
    requires |b| >= HEADER
    ensures b[LSN_AT..LSN_AT + 8] + (b[TXN_AT..TXN_AT + 8] + (b[PREV_AT..PREV_AT + 8]
            + (b[PAGE_AT..PAGE_AT + 4] + b[PAYLOAD_AT..PAYLOAD_AT + 4]))) == b[LSN_AT..HEADER]
  {
    Joined(b, PAGE_AT, PAYLOAD_AT, HEADER);
    Joined(b, PREV_AT, PAGE_AT, HEADER);
    Joined(b, TXN_AT, PREV_AT, HEADER);
    Joined(b, LSN_AT, TXN_AT, HEADER);
  }

  lemma DecodedBack(b: seq<Byte>, r: DiskRecord, lsn: nat, n: nat)
    requires |b| >= HEADER && lsn == Field(b, LSN_AT, 8) && n == Field(b, PAYLOAD_AT, 4)
    requires r.txnId == Field(b, TXN_AT, 8) && r.prevLsn == Field(b, PREV_AT, 8) && r.pageId == Field(b, PAGE_AT, 4)
    ensures Back(r, lsn, n) == b[LSN_AT..HEADER]
  {
    StoredField(b, LSN_AT, 8);
    StoredField(b, TXN_AT, 8);
    StoredField(b, PREV_AT, 8);
    StoredField(b, PAGE_AT, 4);
    StoredField(b, PAYLOAD_AT, 4);
    JoinedFive(b);
    var l, t, p, g, x := Store(lsn, 8), Store(r.txnId, 8), Store(r.prevLsn, 8), Store(r.pageId, 4), Store(n, 4);
    assert l + (t + (p + (g + x))) == b[LSN_AT..HEADER];
  }

  lemma DecodedPayload(b: seq<Byte>)
    requires Decode(b).Some? && PaddingIsZero(b)
    ensures Payload(Decode(b).value) == b[HEADER..]
  {
    var r, payload := Decode(b).value, b[HEADER..];
    if r.kind == PAGE_UPDATE {
      SplitIn2(payload, PAGE_SIZE);
    } else if r.kind == COMPENSATION {
      StoredField(payload, 0, 8);
      StoredField(payload, 8, 2);
      assert payload[10] == 0 && payload[11] == 0;
      assert payload[..12] == Store(r.undoNextLsn, 8) + (Store(r.compensationType, 2) + [0, 0]);
      SplitIn2(payload, 12);
      assert r.before + r.after == payload[12..];
    }
  }

  lemma DecodedBytes(b: seq<Byte>, r: DiskRecord)
    requires Decode(b) == Some(r) && PaddingIsZero(b)
    ensures WithChecksum(r, r.lsn, Checksum(b)) == b
  {
    DecodedFront(b);
    DecodedBack(b, r, r.lsn, |b| - HEADER);
    DecodedPayload(b);
    StoredField(b, CHECKSUM_AT, 4);
    JoinedFour(b);
  }

  lemma JoinedFour(b: seq<Byte>)
    requires |b| >= HEADER
    ensures b[..CHECKSUM_AT] + (b[CHECKSUM_AT..CHECKSUM_AT + 4] + (b[LSN_AT..HEADER] + b[HEADER..])) == b
  {
    Joined(b, LSN_AT, HEADER, |b|);
    Joined(b, CHECKSUM_AT, LSN_AT, |b|);
    SplitIn2(b, CHECKSUM_AT);
    assert b[HEADER..|b|] == b[HEADER..] && b[CHECKSUM_AT..|b|] == b[CHECKSUM_AT..];
  }

  /** The encoder gives the decoded bytes back exactly when it would take the record and the padding is zero:
      the decoder lets through other padding, and images that do not go with what was compensated. */
  lemma DecodeThenEncode(b: seq<Byte>)
    requires Decode(b).Some?
    ensures var r := Decode(b).value;
            Encode(r, r.lsn) == Some(b) <==> Encodable(r) && PaddingIsZero(b)
  {
    var r := Decode(b).value;
    if Encodable(r) && PaddingIsZero(b) {
      DecodedBytes(b, r);
      ChecksumIsStable(r, r.lsn, Checksum(b));
    } else if Encodable(r) && Encode(r, r.lsn) == Some(b) {
      EncodedPadding(r, b);
    }
  }

  lemma EncodedPadding(r: DiskRecord, b: seq<Byte>)
    requires Decode(b) == Some(r) && b == EncodeBytes(r, r.lsn)
    ensures PaddingIsZero(b)
  {
    if r.kind == COMPENSATION {
      var head, checksum := CompensationHead(r), Checksum(WithChecksum(r, r.lsn, 0));
      BackOfParts(Front(r.kind, HEADER + |Payload(r)|), Store(checksum, 4), Back(r, r.lsn, |Payload(r)|), Payload(r));
      assert head[10] == 0 && head[11] == 0;
      assert Payload(r)[10] == 0 && Payload(r)[11] == 0;
      assert b[HEADER..] == Payload(r);
      assert b[HEADER..][10] == b[HEADER + 10] && b[HEADER..][11] == b[HEADER + 11];
    }
  }
}
