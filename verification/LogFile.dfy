/** The log manager: appending to the log file, making it durable, and opening what a crash left of it. */
module LogFile {
  import opened Wrappers
  import opened Bytes
  import opened Chunks
  import opened LogFormat
  import opened LogCodec
  import opened TailScan
  import opened LogScan

  function LastLsn(records: seq<DiskRecord>): nat { if records == [] then 0 else records[|records| - 1].lsn }

  /** Whether a record points to the last one of its transaction. */
  predicate Continues(records: seq<DiskRecord>, r: DiskRecord) {
    r.prevLsn == if r.txnId == 0 then 0 else LastLsnOf(records, r.txnId)
  }

  /** The numbers ascend. */
  ghost predicate Numbered(records: seq<DiskRecord>) {
    forall i :: 0 <= i < |records| ==> records[i].lsn != 0 && forall j :: 0 <= j < i ==> records[j].lsn < records[i].lsn
  }

  lemma ChainIsNumbered(records: seq<DiskRecord>)
    requires IsChain(records)
    ensures Numbered(records)
  {
    forall i, j | 0 <= j < i < |records| ensures records[j].lsn < records[i].lsn {
      assert ChainOk(records[..i], records[i]) && records[..i][j] == records[j];
    }
    forall i | 0 <= i < |records| ensures records[i].lsn != 0 { assert ChainOk(records[..i], records[i]); }
  }

  lemma NumberedGrows(records: seq<DiskRecord>, r: DiskRecord)
    requires Numbered(records) && r.lsn == LastLsn(records) + 1
    ensures Numbered(records + [r])
  {
    var n := |records| - 1;
    forall j | 0 <= j < |records| ensures records[j].lsn < r.lsn { assert j < n ==> records[j].lsn < records[n].lsn; }
  }

  /** A numbered log stays a chain, and so can still be read, exactly when what is added continues it. */
  lemma ChainGrowsIff(records: seq<DiskRecord>, r: DiskRecord)
    requires Numbered(records) && r.lsn == LastLsn(records) + 1
    ensures IsChain(records + [r]) <==> IsChain(records) && Continues(records, r)
  {
    var more, n := records + [r], |records|;
    NumberedGrows(records, r);
    assert more[..n] == records;
    forall j | 0 <= j < n ensures records[j].lsn < r.lsn { assert more[j].lsn < more[n].lsn; }
    if IsChain(records) && Continues(records, r) { ChainGrows(records, r); }
    if IsChain(more) {
      assert ChainOk(more[..n], more[n]);
      forall i | 0 <= i < n ensures ChainOk(records[..i], records[i]) {
        assert ChainOk(more[..i], more[i]) && more[..i] == records[..i];
      }
    }
  }

  lemma EncodedIsChunk(r: DiskRecord, lsn: nat)
    requires Encodable(r) && InRange(r) && lsn < Range(8)
    ensures IsChunk(TheCodec(), EncodeBytes(r, lsn), Stored(r, lsn))
  {
    EncodeThenDecode(r, lsn);
    FrontOfEncoded(r, lsn, Checksum(WithChecksum(r, lsn, 0)));
  }

  /** The first bytes of the file of a log that was written in order. */
  ghost predicate IsTear(written: seq<DiskRecord>, cut: nat, bytes: seq<Byte>) {
    IsChain(written) && (forall i :: 0 <= i < |written| ==> Storable(written[i]))
    && cut <= |FileBytes(written)| && bytes == FileBytes(written)[..cut]
  }

  /** The file is what its records were encoded to. */
  ghost predicate FileOk(file: seq<Byte>, chunks: seq<seq<Byte>>, records: seq<DiskRecord>) {
    Holds(TheCodec(), chunks, records) && file == Join(chunks) && Numbered(records)
  }

  lemma AppendedOk(file: seq<Byte>, chunks: seq<seq<Byte>>, records: seq<DiskRecord>, b: seq<Byte>, r: DiskRecord)
    requires FileOk(file, chunks, records) && IsChunk(TheCodec(), b, r) && r.lsn == LastLsn(records) + 1
    ensures FileOk(file + b, chunks + [b], records + [r]) && LastLsn(records + [r]) == r.lsn
  {
    HoldsMore(TheCodec(), chunks, records, b, r);
    NumberedGrows(records, r);
  }

  lemma OpenedOk(bytes: seq<Byte>) returns (chunks: seq<seq<Byte>>)
    requires Scanning(bytes, true).Scanned?
    ensures var s := Scanning(bytes, true);
            s.kept <= |bytes| && FileOk(bytes[..s.kept], chunks, s.records) && IsChain(s.records)
  {
    chunks := KeptIsChunks(TheCodec(), bytes, 0, [], [], true);
    ChainIsNumbered(Scanning(bytes, true).records);
  }

  lemma TearIsFound(bytes: seq<Byte>)
    ensures forall written, cut :: IsTear(written, cut, bytes) ==>
              var s := Scanning(bytes, true);
              s.Scanned? && s.records <= written && IsTornAt(written, cut, |s.records|)
  {
    forall written, cut | IsTear(written, cut, bytes)
      ensures var s := Scanning(bytes, true);
              s.Scanned? && s.records <= written && IsTornAt(written, cut, |s.records|)
    {
      TornTail(written, cut);
    }
  }

  class LogManager {
    var isOpen: bool
    var file: seq<Byte>
    var appendLsn: nat
    var durableLsn: nat
    var flushTarget: nat
    /** The records in the file, and the bytes of each. */
    ghost var records: seq<DiskRecord>
    ghost var chunks: seq<seq<Byte>>

    ghost predicate Valid()
      reads this
    {
      isOpen ==>
        && FileOk(file, chunks, records) && appendLsn == LastLsn(records)
        && durableLsn <= flushTarget <= appendLsn
    }

    constructor ()
      ensures Valid() && !isOpen
    {
      isOpen, file, appendLsn, durableLsn, flushTarget := false, [], 0, 0, 0;
      records, chunks := [], [];
    }

    /** Opens a file with any bytes: what a repairing scan finds is kept, and new records are numbered after it. Of a
        log that was torn these are the records that survived whole. */
    method Open(bytes: seq<Byte>) returns (error: Option<ScanError>)
      modifies this
      ensures Valid() && isOpen == error.None?
      ensures match Scanning(bytes, true)
              case Failed(e) => error == Some(e)
              case Scanned(found, kept) =>
                error == None && records == found && IsChain(found) && kept <= |bytes| && file == bytes[..kept]
                && durableLsn == appendLsn
      ensures forall written, cut :: IsTear(written, cut, bytes) ==>
                isOpen && records <= written && IsTornAt(written, cut, |records|)
    {
      TearIsFound(bytes);
      var s := ScanUnlocked(bytes, true);
      if s.Failed? {
        isOpen := false;
        return Some(s.error);
      }
      chunks := OpenedOk(bytes);
      records := s.records;
      file := bytes[..s.kept];
      var max := MaxLsn(s.records);
      isOpen, appendLsn, durableLsn, flushTarget := true, max, max, max;
      return None;
    }

    static method MaxLsn(found: seq<DiskRecord>) returns (max: nat)
      requires IsChain(found)
      ensures max == LastLsn(found)
    {
      max := 0;
      for i := 0 to |found|
        invariant max == (if i == 0 then 0 else found[i - 1].lsn)
      {
        assert ChainOk(found[..i], found[i]);
        assert i > 0 ==> found[..i][i - 1].lsn < found[i].lsn;
        if found[i].lsn > max { max := found[i].lsn; }
      }
    }

    /** Adds a record under the next number; what cannot be encoded leaves the log as it is. Nothing checks that the
        record continues the chain of its transaction: see `ChainGrowsIff` and `ScanAll`. */
    method Append(r: DiskRecord) returns (lsn: Option<nat>)
      requires Valid() && InRange(r) && appendLsn + 1 < Range(8)
      modifies this`file, this`appendLsn, this`records, this`chunks
      ensures Valid()
      ensures lsn.Some? <==> isOpen && Encodable(r)
      ensures lsn.None? ==> records == old(records) && file == old(file) && appendLsn == old(appendLsn)
      ensures lsn.Some? ==> lsn.value == appendLsn == old(appendLsn) + 1
      ensures lsn.Some? ==> records == old(records) + [Stored(r, appendLsn)]
      ensures lsn.Some? ==> file == old(file) + EncodeBytes(r, appendLsn)
    {
      lsn := None;
      if isOpen {
        var next := appendLsn + 1;
        var encoded := EncodeNext(r, next);
        if encoded.Some? {
          Extend(encoded.value, Stored(r, next));
          lsn := Some(next);
        }
      }
    }

    static method EncodeNext(r: DiskRecord, next: nat) returns (encoded: Option<seq<Byte>>)
      requires InRange(r) && next < Range(8)
      ensures encoded.Some? <==> Encodable(r)
      ensures encoded.Some? ==> encoded.value == EncodeBytes(r, next) && IsChunk(TheCodec(), encoded.value,
                Stored(r, next))
    {
      encoded := Encode(r, next);
      if encoded.Some? { EncodedIsChunk(r, next); }
    }

    /** Puts an encoded record at the end of the file. */
    method Extend(b: seq<Byte>, ghost r: DiskRecord)
      requires Valid() && isOpen && IsChunk(TheCodec(), b, r) && r.lsn == appendLsn + 1
      modifies this`file, this`appendLsn, this`records, this`chunks
      ensures Valid() && appendLsn == r.lsn
      ensures records == old(records) + [r] && file == old(file) + b
    {
      AppendedOk(file, chunks, records, b, r);
      file := file + b;
      appendLsn := appendLsn + 1;
      records := records + [r];
      chunks := chunks + [b];
    }

    /** Makes the log durable up to `target`, and up to every target asked for before. */
    method Flush(target: nat, fails: bool) returns (ok: bool)
      requires Valid()
      modifies this`durableLsn, this`flushTarget
      ensures Valid()
      ensures ok <==> isOpen && target <= appendLsn && (target <= old(durableLsn) || !fails)
      ensures ok ==> target <= durableLsn
      ensures isOpen ==> old(durableLsn) <= durableLsn && (!ok ==> durableLsn == old(durableLsn))
    {
      if !isOpen { return false; }
      if target > appendLsn { return false; }
      if durableLsn >= target { return true; }
      if target > flushTarget { flushTarget := target; }
      if fails { return false; }
      if flushTarget > durableLsn { durableLsn := flushTarget; }
      return true;
    }

    /** After a checkpoint the log starts again, and so do its numbers. */
    method Truncate() returns (ok: bool)
      requires Valid()
      modifies this
      ensures Valid() && ok == isOpen == old(isOpen)
      ensures ok ==> records == [] && file == [] && appendLsn == durableLsn == 0
    {
      if !isOpen { return false; }
      file, appendLsn, durableLsn, flushTarget := [], 0, 0, 0;
      records, chunks := [], [];
      return true;
    }

    /** Scanning the open log gives all its records exactly when they are a chain, and otherwise none of them. */
    method ScanAll() returns (s: Scan)
      requires Valid() && isOpen
      ensures s == if IsChain(records) then Scanned(records, |file|) else Failed(BadChain)
    {
      WholeLogIsRead(TheCodec(), chunks, records, false);
      s := ScanUnlocked(file, false);
    }
  }
}
