/** The log file: what the engine's log looks like on disk, and what a torn file leaves of it. */
module LogScan {
  import opened Wrappers
  import opened Bytes
  import opened Chunks
  import opened LogFormat
  import opened LogCodec
  import opened CrcFacts
  import opened TailScan
  import W = Wal
  import WalFacts

  // ----- the codec -----

  function TheCodec(): Codec { Codec((r: DiskRecord) => EncodeBytes(r, r.lsn), Decode) }

  function Scanning(b: seq<Byte>, repair: bool): Scan { ScanFrom(TheCodec(), b, 0, [], repair) }

  method ScanUnlocked(b: seq<Byte>, repair: bool) returns (s: Scan)
    ensures s == Scanning(b, repair)
  {
    s := ScanLoop(TheCodec(), b, repair);
  }

  /** What the encoder takes and the decoder gives back unchanged. */
  predicate Storable(r: DiskRecord) { Encodable(r) && InRange(r) && Stored(r, r.lsn) == r }

  lemma StorableIsRead(r: DiskRecord)
    requires Storable(r)
    ensures var b := EncodeBytes(r, r.lsn);
            |b| >= HEADER && Field(b, TOTAL_AT, 4) == |b| && Decode(b) == Some(r)
  {
    EncodeThenDecode(r, r.lsn);
    FrontOfEncoded(r, r.lsn, Checksum(WithChecksum(r, r.lsn, 0)));
  }

  /** Storable records in a chain make a log that can be scanned. */
  lemma ChainIsLog(records: seq<DiskRecord>)
    requires IsChain(records) && forall i :: 0 <= i < |records| ==> Storable(records[i])
    ensures IsLog(TheCodec(), records)
  {
    forall i | 0 <= i < |records| ensures IsNext(TheCodec(), records[..i], records[i]) {
      StorableIsRead(records[i]);
    }
  }

  function FileBytes(records: seq<DiskRecord>): seq<Byte> { LogBytes(TheCodec(), records) }

  /** How many records of the file survive whole. */
  function Surviving(records: seq<DiskRecord>, cut: nat): nat { Whole(Encoded(TheCodec(), records), cut) }

  /** However many bytes of a log file survive, a repairing scan gives exactly the records that survived whole,
      and trims the file to exactly their bytes. */
  lemma TornTail(records: seq<DiskRecord>, cut: nat)
    requires IsChain(records) && (forall i :: 0 <= i < |records| ==> Storable(records[i]))
             && cut <= |FileBytes(records)|
    ensures IsTornAt(records, cut, Surviving(records, cut))
  {
    ChainIsLog(records);
    TornTailIsCut(TheCodec(), records, cut);
  }

  /** The first `k` records end before the cut, the next one does not, and they are what is left. */
  ghost predicate IsTornAt(records: seq<DiskRecord>, cut: nat, k: nat) {
    && k <= |records| && cut <= |FileBytes(records)|
    && var kept := |FileBytes(records[..k])|;
       && kept <= cut && (k < |records| ==> cut < |FileBytes(records[..k + 1])|)
       && Scanning(FileBytes(records)[..cut], true) == Scanned(records[..k], kept)
       && FileBytes(records)[..cut][..kept] == FileBytes(records[..k])
  }

  // ----- a damaged byte -----

  lemma RestIsHeld(records: seq<DiskRecord>, k: nat, bad: seq<Byte>)
    requires IsChain(records) && (forall i :: 0 <= i < |records| ==> Storable(records[i])) && k < |records|
    ensures var chunks := Encoded(TheCodec(), records)[k := bad];
            Holds(TheCodec(), chunks[..k], records[..k]) && IsChain(records[..k])
  {
    forall i | 0 <= i < k ensures IsChunk(TheCodec(), EncodeBytes(records[i], records[i].lsn), records[i]) {
      StorableIsRead(records[i]);
    }
    forall i | 0 <= i < k ensures ChainOk(records[..k][..i], records[..k][i]) {
      assert records[..k][..i] == records[..i];
    }
  }

  /** One damaged byte in record `k`, other than in its length: a scan reads what comes before it and never what comes
      after it. It fails, unless the record is the last and a torn tail may be repaired. */
  lemma DamagedFile(records: seq<DiskRecord>, k: nat, bad: seq<Byte>, at: nat, repair: bool)
    requires IsChain(records) && (forall i :: 0 <= i < |records| ==> Storable(records[i])) && k < |records|
    requires DifferAt(EncodeBytes(records[k], records[k].lsn), bad, at) && !(TOTAL_AT <= at < TOTAL_AT + 4)
    ensures var chunks := Encoded(TheCodec(), records)[k := bad];
            Scanning(Join(chunks), repair)
            == if k + 1 < |records| then Failed(CorruptMiddle)
               else if repair then Scanned(records[..k], |FileBytes(records[..k])|)
               else Failed(TailRecord)
  {
    var codec := TheCodec();
    var chunks := Encoded(codec, records)[k := bad];
    BadIsNotRead(records[k], bad, at);
    RestIsHeld(records, k, bad);
    forall i | 0 <= i < |chunks| ensures chunks[i] != [] { if i != k { StorableIsRead(records[i]); } }
    DamageEndsScan(codec, chunks, records[..k], repair);
    EncodedPrefix(codec, records, k);
    assert chunks[..k] == Encoded(codec, records)[..k];
  }

  lemma BadIsNotRead(r: DiskRecord, bad: seq<Byte>, at: nat)
    requires Storable(r) && DifferAt(EncodeBytes(r, r.lsn), bad, at) && !(TOTAL_AT <= at < TOTAL_AT + 4)
    ensures |bad| >= HEADER && Field(bad, TOTAL_AT, 4) == |bad| && Decode(bad) == None
  {
    StorableIsRead(r);
    DamageIsDetected(EncodeBytes(r, r.lsn), bad, at);
    FieldDiffers(EncodeBytes(r, r.lsn), bad, at, TOTAL_AT, 4);
  }

  // ----- the engine's log -----

  function KindOf(t: W.RecordType): nat {
    match t
    case Begin => BEGIN
    case PageUpdate => PAGE_UPDATE
    case PageAllocate => PAGE_ALLOCATE
    case PageFree => PAGE_FREE
    case Commit => COMMIT
    case Abort => ABORT
    case Checkpoint => CHECKPOINT
    case Compensation => COMPENSATION
  }

  function OnDisk(r: W.LogRecord): DiskRecord {
    DiskRecord(KindOf(r.recordType), r.lsn, r.txnId, r.prevLsn, r.pageId, r.undoNextLsn, KindOf(r.compensationType),
               r.beforeImage, r.afterImage)
  }

  function AllOnDisk(log: W.Log): (records: seq<DiskRecord>)
    ensures |records| == |log|
  {
    seq(|log|, i requires 0 <= i < |log| => OnDisk(log[i]))
  }

  lemma OnDiskIsInjective(a: W.LogRecord, b: W.LogRecord)
    requires OnDisk(a) == OnDisk(b)
    ensures a == b
  {
  }

  /** The numbers in the log fit the fields they are stored in. */
  ghost predicate FitsFields(log: W.Log) { forall i :: 0 <= i < |log| ==> InRange(OnDisk(log[i])) }

  lemma LogIsStorable(log: W.Log, base: map<nat, W.Image>, i: nat)
    requires W.LogInv(log, base) && FitsFields(log) && i < |log|
    ensures Storable(OnDisk(log[i]))
  {
    assert W.RecordOk(log, i, base);
    if log[i].recordType == W.RecordType.Compensation {
      var c := WalFacts.ClrTarget(log, base, i);
      assert W.RecordOk(log, c - 1, base);
      assert W.CompensationOk(log, i);
    }
  }

  lemma {:induction false} SameTail(log: W.Log, base: map<nat, W.Image>, n: nat, t: nat)
    requires W.LogInv(log, base) && n <= |log|
    ensures LastLsnOf(AllOnDisk(log[..n]), t) == W.LastLsn(log, n, t)
  {
    if n > 0 {
      var m := n - 1;
      SameTail(log, base, m, t);
      assert W.RecordOk(log, m, base);
      assert AllOnDisk(log[..n])[..m] == AllOnDisk(log[..m]);
    }
  }

  lemma PrefixOnDisk(log: W.Log, n: nat)
    requires n <= |log|
    ensures AllOnDisk(log)[..n] == AllOnDisk(log[..n])
  {
  }

  lemma LogIsChain(log: W.Log, base: map<nat, W.Image>)
    requires W.LogInv(log, base)
    ensures IsChain(AllOnDisk(log))
  {
    var records := AllOnDisk(log);
    forall i | 0 <= i < |records| ensures ChainOk(records[..i], records[i]) {
      PrefixOnDisk(log, i);
      SameTail(log, base, i, log[i].txnId);
      assert W.RecordOk(log, i, base);
      forall j | 0 <= j < i ensures records[..i][j].lsn < records[i].lsn { assert W.RecordOk(log, j, base); }
    }
  }

  /** The bytes of the engine's log. */
  function Written(log: W.Log): seq<Byte> { FileBytes(AllOnDisk(log)) }

  /** A crash that keeps some bytes of the log file keeps some records of the log: the repairing scan finds just
      those, and no record that was wholly on disk is lost. */
  lemma ByteCutIsRecordCut(log: W.Log, base: map<nat, W.Image>, cut: nat) returns (c: nat)
    requires W.LogInv(log, base) && FitsFields(log) && cut <= |Written(log)|
    ensures c <= |log| && |Written(log[..c])| <= cut
    ensures Scanning(Written(log)[..cut], true) == Scanned(AllOnDisk(log[..c]), |Written(log[..c])|)
    ensures forall d :: 0 <= d <= |log| && |Written(log[..d])| <= cut ==> d <= c
  {
    var records := AllOnDisk(log);
    LogIsChain(log, base);
    forall i | 0 <= i < |records| ensures Storable(records[i]) { LogIsStorable(log, base, i); }
    TornTail(records, cut);
    c := Surviving(records, cut);
    PrefixOnDisk(log, c);
    forall d | 0 <= d <= |log| && |Written(log[..d])| <= cut ensures d <= c {
      if d > c {
        PrefixOnDisk(log, d);
        WrittenGrows(records, c + 1, d);
      }
    }
  }

  lemma WrittenGrows(records: seq<DiskRecord>, i: nat, j: nat)
    requires i <= j <= |records|
    ensures |FileBytes(records[..i])| <= |FileBytes(records[..j])|
  {
    EncodedPrefix(TheCodec(), records, i);
    EncodedPrefix(TheCodec(), records, j);
    StartsGrow(Encoded(TheCodec(), records), i, j);
  }
}
