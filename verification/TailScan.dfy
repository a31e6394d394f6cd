/** Scanning a log record by record, with a torn tail cut off. What a record's bytes are is left to a codec. */
module TailScan {
  import opened Wrappers
  import opened Bytes
  import opened Chunks
  import opened LogFormat

  datatype Codec = Codec(encode: DiskRecord -> seq<Byte>, decode: seq<Byte> -> Option<DiskRecord>)

  datatype ScanError = TailTruncated | TailLength | TailRecord | CorruptMiddle | BadChain

  datatype Scan = Scanned(records: seq<DiskRecord>, kept: nat) | Failed(error: ScanError)

  /** The number of the transaction's last record, 0 if it has none. */
  function LastLsnOf(records: seq<DiskRecord>, txnId: nat): nat {
    if records == [] then 0
    else
      var n := |records| - 1;
      if records[n].txnId == txnId then records[n].lsn else LastLsnOf(records[..n], txnId)
  }

  /** The record's number is new and greater than all before it, and it points to its transaction's last one. */
  predicate ChainOk(records: seq<DiskRecord>, r: DiskRecord) {
    r.lsn != 0 && (forall i :: 0 <= i < |records| ==> records[i].lsn < r.lsn)
    && r.prevLsn == (if r.txnId == 0 then 0 else LastLsnOf(records, r.txnId))
  }

  /** What a scan gives from an offset on, after so many records. */
  function ScanFrom(codec: Codec, b: seq<Byte>, offset: nat, records: seq<DiskRecord>, repair: bool): Scan
    requires offset <= |b|
    decreases |b| - offset
  {
    var remaining := |b| - offset;
    if remaining == 0 then Scanned(records, offset)
    else if remaining < HEADER then (if repair then Scanned(records, offset) else Failed(TailTruncated))
    else
      var total := Field(b, offset + TOTAL_AT, 4);
      if total < HEADER || total > remaining then (if repair then Scanned(records, offset) else Failed(TailLength))
      else
        match codec.decode(b[offset..offset + total])
        case None =>
          if offset + total != |b| then Failed(CorruptMiddle)
          else if repair then Scanned(records, offset)
          else Failed(TailRecord)
        case Some(r) =>
          if ChainOk(records, r) then ScanFrom(codec, b, offset + total, records + [r], repair) else Failed(BadChain)
  }

  // ----- the scanning loop -----

  /** What the loop remembers of the records read so far. */
  ghost predicate Remembers(records: seq<DiskRecord>, previous: nat, seen: set<nat>, last: map<nat, nat>) {
    previous == (if records == [] then 0 else records[|records| - 1].lsn)
    && (forall i, j :: 0 <= i < j < |records| ==> records[i].lsn < records[j].lsn)
    && (forall n :: n in seen <==> exists i :: 0 <= i < |records| && records[i].lsn == n)
    && (forall t: nat :: t != 0 ==> LastLsnOf(records, t) == if t in last then last[t] else 0)
    && (forall t :: t in last ==> t != 0 && last[t] in seen)
  }

  /** The checks of the loop. */
  predicate LoopAccepts(previous: nat, seen: set<nat>, last: map<nat, nat>, r: DiskRecord) {
    r.lsn != 0 && r.lsn > previous && r.lsn !in seen
    && if r.txnId == 0 then r.prevLsn == 0
       else r.prevLsn == (if r.txnId in last then last[r.txnId] else 0) && (r.prevLsn == 0 || r.prevLsn in seen)
  }

  lemma ChecksAre(records: seq<DiskRecord>, previous: nat, seen: set<nat>, last: map<nat, nat>, r: DiskRecord)
    requires Remembers(records, previous, seen, last)
    ensures ChainOk(records, r) <==> LoopAccepts(previous, seen, last, r)
  {
    if records != [] {
      var n := |records| - 1;
      assert forall i :: 0 <= i < n ==> records[i].lsn < records[n].lsn;
    }
  }

  lemma SeenMore(records: seq<DiskRecord>, seen: set<nat>, r: DiskRecord)
    requires forall n :: n in seen <==> exists i :: 0 <= i < |records| && records[i].lsn == n
    ensures forall n :: n in seen + {r.lsn} <==> exists i :: 0 <= i < |records + [r]| && (records + [r])[i].lsn == n
  {
    var more := records + [r];
    forall n ensures n in seen + {r.lsn} <==> exists i :: 0 <= i < |more| && more[i].lsn == n {
      if n in seen {
        var i :| 0 <= i < |records| && records[i].lsn == n;
        assert more[i].lsn == n;
      }
      if n == r.lsn { assert more[|records|].lsn == n; }
    }
  }

  lemma RemembersMore(records: seq<DiskRecord>, previous: nat, seen: set<nat>, last: map<nat, nat>, r: DiskRecord)
    requires Remembers(records, previous, seen, last) && ChainOk(records, r)
    ensures Remembers(records + [r], r.lsn, seen + {r.lsn}, if r.txnId == 0 then last else last[r.txnId := r.lsn])
  {
    SeenMore(records, seen, r);
    assert (records + [r])[..|records|] == records;
  }

  /** The loop of the scan, for any codec. */
  method ScanLoop(codec: Codec, b: seq<Byte>, repair: bool) returns (s: Scan)
    ensures s == ScanFrom(codec, b, 0, [], repair)
  {
    var records: seq<DiskRecord> := [];
    var offset := 0;
    var previousLsn := 0;
    var seen: set<nat> := {};
    var last: map<nat, nat> := map[];
    while offset < |b|
      invariant 0 <= offset <= |b|
      invariant ScanFrom(codec, b, 0, [], repair) == ScanFrom(codec, b, offset, records, repair)
      invariant Remembers(records, previousLsn, seen, last)
      decreases |b| - offset
    {
      var remaining := |b| - offset;
      if remaining < HEADER { return if repair then Scanned(records, offset) else Failed(TailTruncated); }
      var total := Field(b, offset + TOTAL_AT, 4);
      if total < HEADER || total > remaining { return if repair then Scanned(records, offset) else Failed(TailLength); }
      var decoded := codec.decode(b[offset..offset + total]);
      if decoded.None? {
        if offset + total != |b| { return Failed(CorruptMiddle); }
        return if repair then Scanned(records, offset) else Failed(TailRecord);
      }
      var r := decoded.value;
      ChecksAre(records, previousLsn, seen, last, r);
      if !LoopAccepts(previousLsn, seen, last, r) { return Failed(BadChain); }
      RemembersMore(records, previousLsn, seen, last, r);
      if r.txnId != 0 { last := last[r.txnId := r.lsn]; }
      seen := seen + {r.lsn};
      previousLsn := r.lsn;
      records := records + [r];
      offset := offset + total;
    }
    return Scanned(records, offset);
  }

  // ----- the bytes of a log -----

  /** The record is the next in its log, and its bytes say how many they are and decode to it. */
  ghost predicate IsNext(codec: Codec, records: seq<DiskRecord>, r: DiskRecord) {
    ChainOk(records, r)
    && |codec.encode(r)| >= HEADER && Field(codec.encode(r), TOTAL_AT, 4) == |codec.encode(r)|
    && codec.decode(codec.encode(r)) == Some(r)
  }

  ghost predicate IsLog(codec: Codec, records: seq<DiskRecord>) {
    forall i :: 0 <= i < |records| ==> IsNext(codec, records[..i], records[i])
  }

  function Encoded(codec: Codec, records: seq<DiskRecord>): (chunks: seq<seq<Byte>>)
    ensures |chunks| == |records|
  {
    seq(|records|, i requires 0 <= i < |records| => codec.encode(records[i]))
  }

  function LogBytes(codec: Codec, records: seq<DiskRecord>): seq<Byte> { Join(Encoded(codec, records)) }

  // ----- torn tails -----

  lemma LengthField(b: seq<Byte>, offset: nat, chunk: seq<Byte>)
    requires |chunk| >= HEADER && offset + HEADER <= |b| && b[offset..offset + HEADER] == chunk[..HEADER]
    ensures Field(b, offset + TOTAL_AT, 4) == Field(chunk, TOTAL_AT, 4)
  {
    SliceOfSlice(b, offset, offset + HEADER, TOTAL_AT, TOTAL_AT + 4);
    SliceOfSlice(chunk, 0, HEADER, TOTAL_AT, TOTAL_AT + 4);
    assert chunk[0..HEADER] == chunk[..HEADER];
  }

  /** A record that lies wholly in the bytes is read. */
  lemma ScanReads(codec: Codec, b: seq<Byte>, offset: nat, records: seq<DiskRecord>, r: DiskRecord, repair: bool)
    requires IsNext(codec, records, r) && offset + |codec.encode(r)| <= |b|
    requires b[offset..offset + |codec.encode(r)|] == codec.encode(r)
    ensures ScanFrom(codec, b, offset, records, repair)
            == ScanFrom(codec, b, offset + |codec.encode(r)|, records + [r], repair)
  {
    var chunk := codec.encode(r);
    SliceOfSlice(b, offset, offset + |chunk|, 0, HEADER);
    LengthField(b, offset, chunk);
  }

  /** A record that is cut off is dropped. */
  lemma ScanStops(codec: Codec, b: seq<Byte>, offset: nat, records: seq<DiskRecord>, chunk: seq<Byte>)
    requires |chunk| >= HEADER && Field(chunk, TOTAL_AT, 4) == |chunk|
    requires offset <= |b| < offset + |chunk| && b[offset..] == chunk[..|b| - offset]
    ensures ScanFrom(codec, b, offset, records, true) == Scanned(records, offset)
  {
    if |b| - offset >= HEADER {
      SliceOfSlice(b, offset, |b|, 0, HEADER);
      assert b[offset..|b|] == b[offset..];
      PrefixOfPrefix(chunk, |b| - offset, HEADER);
      LengthField(b, offset, chunk);
    }
  }

  /** The chunks are the records' bytes. */
  ghost predicate Encodes(codec: Codec, records: seq<DiskRecord>, chunks: seq<seq<Byte>>) {
    |chunks| == |records|
    && forall i :: 0 <= i < |records| ==>
        chunks[i] == codec.encode(records[i]) && IsNext(codec, records[..i], records[i])
  }

  lemma ReadsChunk(codec: Codec, records: seq<DiskRecord>, chunks: seq<seq<Byte>>, b: seq<Byte>, n: nat, repair: bool)
    requires Encodes(codec, records, chunks) && n < |records| && Start(chunks, n) + |chunks[n]| <= |b|
    requires b[Start(chunks, n)..Start(chunks, n) + |chunks[n]|] == chunks[n]
    ensures Start(chunks, n + 1) <= |b|
    ensures ScanFrom(codec, b, Start(chunks, n), records[..n], repair)
            == ScanFrom(codec, b, Start(chunks, n + 1), records[..n + 1], repair)
  {
    var m, r := n + 1, records[n];
    StartOfNext(chunks, n);
    ScanReads(codec, b, Start(chunks, n), records[..n], r, repair);
    assert records[..n] + [r] == records[..m];
  }

  /** At the first record that is not whole, the scan ends. */
  lemma TornEnds(codec: Codec, records: seq<DiskRecord>, chunks: seq<seq<Byte>>, cut: nat, k: nat)
    requires Encodes(codec, records, chunks) && k == Whole(chunks, cut) && cut <= |Join(chunks)|
    ensures Start(chunks, k) <= cut
    ensures ScanFrom(codec, Join(chunks)[..cut], Start(chunks, k), records[..k], true)
            == Scanned(records[..k], Start(chunks, k))
  {
    WholeMeans(chunks, cut);
    if k == |records| {
      assert chunks[..k] == chunks;
    } else {
      StartOfNext(chunks, k);
      ChunkIsCut(chunks, k, cut);
      assert IsNext(codec, records[..k], records[k]);
      ScanStops(codec, Join(chunks)[..cut], Start(chunks, k), records[..k], chunks[k]);
    }
  }

  /** A record before the first that is not whole is read. */
  lemma TornReads(codec: Codec, records: seq<DiskRecord>, chunks: seq<seq<Byte>>, cut: nat, n: nat)
    requires Encodes(codec, records, chunks) && n < Whole(chunks, cut) && cut <= |Join(chunks)|
    ensures Start(chunks, n) <= Start(chunks, n + 1) <= cut
    ensures ScanFrom(codec, Join(chunks)[..cut], Start(chunks, n), records[..n], true)
            == ScanFrom(codec, Join(chunks)[..cut], Start(chunks, n + 1), records[..n + 1], true)
  {
    var m := n + 1;
    WholeMeans(chunks, cut);
    StartOfNext(chunks, n);
    StartsGrow(chunks, m, Whole(chunks, cut));
    ChunkIsCut(chunks, n, cut);
    ReadsChunk(codec, records, chunks, Join(chunks)[..cut], n, true);
  }

  lemma {:induction false} TornFrom(codec: Codec, records: seq<DiskRecord>, chunks: seq<seq<Byte>>, cut: nat, n: nat)
    requires Encodes(codec, records, chunks) && cut <= |Join(chunks)| && n <= Whole(chunks, cut)
    ensures var k := Whole(chunks, cut);
            Start(chunks, n) <= cut && Start(chunks, k) <= cut
            && ScanFrom(codec, Join(chunks)[..cut], Start(chunks, n), records[..n], true)
               == Scanned(records[..k], Start(chunks, k))
    decreases |records| - n
  {
    var k := Whole(chunks, cut);
    TornEnds(codec, records, chunks, cut, k);
    if n < k {
      var m := n + 1;
      TornReads(codec, records, chunks, cut, n);
      TornFrom(codec, records, chunks, cut, m);
    }
  }

  /** The bytes of the whole records before a cut. */
  lemma KeptBytes(codec: Codec, records: seq<DiskRecord>, chunks: seq<seq<Byte>>, cut: nat, k: nat)
    requires chunks == Encoded(codec, records) && k == Whole(chunks, cut) && cut <= |Join(chunks)|
    ensures |LogBytes(codec, records[..k])| == Start(chunks, k) <= cut
    ensures k < |records| ==> cut < |LogBytes(codec, records[..k + 1])|
    ensures Join(chunks)[..cut][..Start(chunks, k)] == LogBytes(codec, records[..k])
  {
    WholeMeans(chunks, cut);
    EncodedPrefix(codec, records, k);
    if k < |records| {
      var m := k + 1;
      EncodedPrefix(codec, records, m);
    }
    PrefixIsJoin(chunks, k);
    PrefixOfPrefix(Join(chunks), cut, Start(chunks, k));
  }

  /** However many bytes of a log survive, a repairing scan gives exactly the records that survived whole and
      keeps exactly their bytes. */
  lemma TornTailIsCut(codec: Codec, records: seq<DiskRecord>, cut: nat)
    requires IsLog(codec, records) && cut <= |LogBytes(codec, records)|
    ensures var k := Whole(Encoded(codec, records), cut);
            var kept := |LogBytes(codec, records[..k])|;
            kept <= cut && (k < |records| ==> cut < |LogBytes(codec, records[..k + 1])|)
            && ScanFrom(codec, LogBytes(codec, records)[..cut], 0, [], true) == Scanned(records[..k], kept)
            && LogBytes(codec, records)[..cut][..kept] == LogBytes(codec, records[..k])
  {
    var chunks := Encoded(codec, records);
    KeptBytes(codec, records, chunks, cut, Whole(chunks, cut));
    TornFromStart(codec, records, chunks, cut);
  }

  lemma TornFromStart(codec: Codec, records: seq<DiskRecord>, chunks: seq<seq<Byte>>, cut: nat)
    requires Encodes(codec, records, chunks) && cut <= |Join(chunks)|
    ensures var k := Whole(chunks, cut);
            Start(chunks, k) <= cut
            && ScanFrom(codec, Join(chunks)[..cut], 0, [], true) == Scanned(records[..k], Start(chunks, k))
  {
    assert records[..0] == [] && chunks[..0] == [];
    TornFrom(codec, records, chunks, cut, 0);
  }

  lemma EncodedPrefix(codec: Codec, records: seq<DiskRecord>, n: nat)
    requires n <= |records|
    ensures Encoded(codec, records[..n]) == Encoded(codec, records)[..n]
  {
  }

  // ----- any bytes -----

  ghost predicate IsChain(records: seq<DiskRecord>) {
    forall i :: 0 <= i < |records| ==> ChainOk(records[..i], records[i])
  }

  lemma ChainGrows(records: seq<DiskRecord>, r: DiskRecord)
    requires IsChain(records) && ChainOk(records, r)
    ensures IsChain(records + [r])
  {
    var more := records + [r];
    forall i | 0 <= i < |more| ensures ChainOk(more[..i], more[i]) {
      assert more[..i] == records[..i];
    }
  }

  /** The record that a scan accepts at an offset, if any. */
  function Accepted(codec: Codec, b: seq<Byte>, offset: nat, records: seq<DiskRecord>): Option<(DiskRecord, nat)>
    requires offset <= |b|
  {
    if |b| - offset < HEADER then None
    else
      var total := Field(b, offset + TOTAL_AT, 4);
      if total < HEADER || total > |b| - offset then None
      else
        match codec.decode(b[offset..offset + total])
        case None => None
        case Some(r) => if ChainOk(records, r) then Some((r, offset + total)) else None
  }

  lemma AcceptedMeans(codec: Codec, b: seq<Byte>, offset: nat, records: seq<DiskRecord>, repair: bool)
    requires offset <= |b|
    ensures var accepted := Accepted(codec, b, offset, records);
            var s := ScanFrom(codec, b, offset, records, repair);
            if accepted.Some? then
              offset < accepted.value.1 <= |b| && ChainOk(records, accepted.value.0)
              && s == ScanFrom(codec, b, accepted.value.1, records + [accepted.value.0], repair)
            else s.Scanned? ==> s == Scanned(records, offset) && (!repair ==> offset == |b|)
  {
  }

  /** Whatever the bytes, what a scan gives is a chain, and it keeps no more than there is; a scan that may not
      repair keeps everything. */
  lemma {:induction false} ScanGivesChain(codec: Codec, b: seq<Byte>, offset: nat, records: seq<DiskRecord>,
                                          repair: bool)
    requires offset <= |b| && IsChain(records) && ScanFrom(codec, b, offset, records, repair).Scanned?
    ensures var s := ScanFrom(codec, b, offset, records, repair);
            offset <= s.kept <= |b| && IsChain(s.records) && (!repair ==> s.kept == |b|)
    decreases |b| - offset
  {
    AcceptedMeans(codec, b, offset, records, repair);
    var accepted := Accepted(codec, b, offset, records);
    if accepted.Some? {
      ChainGrows(records, accepted.value.0);
      ScanGivesChain(codec, b, accepted.value.1, records + [accepted.value.0], repair);
    }
  }

  lemma AcceptedInPrefix(codec: Codec, b: seq<Byte>, kept: nat, offset: nat, records: seq<DiskRecord>)
    requires offset <= kept <= |b| && Accepted(codec, b, offset, records).Some?
    requires Accepted(codec, b, offset, records).value.1 <= kept
    ensures Accepted(codec, b[..kept], offset, records) == Accepted(codec, b, offset, records)
  {
    var next := Accepted(codec, b, offset, records).value.1;
    var o := offset + TOTAL_AT;
    SliceOfSlice(b, 0, kept, o, o + 4);
    SliceOfSlice(b, 0, kept, offset, next);
    assert b[..kept] == b[0..kept];
  }

  /** After a repair the kept bytes scan cleanly, to the same records. */
  lemma {:induction false} RepairIsClean(codec: Codec, b: seq<Byte>, offset: nat, records: seq<DiskRecord>)
    requires offset <= |b| && IsChain(records) && ScanFrom(codec, b, offset, records, true).Scanned?
    ensures var s := ScanFrom(codec, b, offset, records, true);
            offset <= s.kept <= |b| && ScanFrom(codec, b[..s.kept], offset, records, false) == s
    decreases |b| - offset
  {
    AcceptedMeans(codec, b, offset, records, true);
    var accepted := Accepted(codec, b, offset, records);
    if accepted.Some? {
      var (r, next) := accepted.value;
      ChainGrows(records, r);
      RepairIsClean(codec, b, next, records + [r]);
      var kept := ScanFrom(codec, b, offset, records, true).kept;
      AcceptedInPrefix(codec, b, kept, offset, records);
      AcceptedMeans(codec, b[..kept], offset, records, false);
    }
  }

  // ----- logs that need not be chains -----

  /** Each chunk says how long it is and decodes to its record. */
  ghost predicate Holds(codec: Codec, chunks: seq<seq<Byte>>, records: seq<DiskRecord>) {
    |chunks| == |records| && forall i :: 0 <= i < |records| ==> IsChunk(codec, chunks[i], records[i])
  }

  ghost predicate IsChunk(codec: Codec, chunk: seq<Byte>, r: DiskRecord) {
    |chunk| >= HEADER && Field(chunk, TOTAL_AT, 4) == |chunk| && codec.decode(chunk) == Some(r)
  }

  lemma HoldsMore(codec: Codec, chunks: seq<seq<Byte>>, records: seq<DiskRecord>, chunk: seq<Byte>, r: DiskRecord)
    requires Holds(codec, chunks, records) && IsChunk(codec, chunk, r)
    ensures Holds(codec, chunks + [chunk], records + [r]) && Join(chunks + [chunk]) == Join(chunks) + chunk
  {
    assert (chunks + [chunk])[..|chunks|] == chunks;
  }

  /** A scan reads a record where its chunk lies, and fails if it does not continue the chain. */
  lemma ScanMeets(codec: Codec, b: seq<Byte>, offset: nat, records: seq<DiskRecord>, chunk: seq<Byte>, r: DiskRecord,
                  repair: bool)
    requires IsChunk(codec, chunk, r) && offset + |chunk| <= |b| && b[offset..offset + |chunk|] == chunk
    ensures ScanFrom(codec, b, offset, records, repair)
            == if ChainOk(records, r) then ScanFrom(codec, b, offset + |chunk|, records + [r], repair)
               else Failed(BadChain)
  {
    SliceOfSlice(b, offset, offset + |chunk|, 0, HEADER);
    LengthField(b, offset, chunk);
  }

  lemma MeetsNext(codec: Codec, chunks: seq<seq<Byte>>, records: seq<DiskRecord>, n: nat, repair: bool)
    requires n < |records| <= |chunks| && IsChunk(codec, chunks[n], records[n])
    ensures Start(chunks, n) <= |Join(chunks)| && Start(chunks, n + 1) <= |Join(chunks)|
    ensures ScanFrom(codec, Join(chunks), Start(chunks, n), records[..n], repair)
            == if ChainOk(records[..n], records[n]) then
                 ScanFrom(codec, Join(chunks), Start(chunks, n + 1), records[..n + 1], repair)
               else Failed(BadChain)
  {
    var m := n + 1;
    ChunkLies(chunks, n);
    StartOfNext(chunks, n);
    ScanMeets(codec, Join(chunks), Start(chunks, n), records[..n], chunks[n], records[n], repair);
    assert records[..n] + [records[n]] == records[..m];
  }

  lemma ChainOfPrefix(records: seq<DiskRecord>, n: nat)
    requires n < |records| && IsChain(records[..n])
    ensures var m := n + 1; IsChain(records[..m]) <==> ChainOk(records[..n], records[n])
    ensures IsChain(records) ==> ChainOk(records[..n], records[n])
  {
    var m := n + 1;
    assert records[..n] + [records[n]] == records[..m];
    assert records[..m][..n] == records[..n];
    if ChainOk(records[..n], records[n]) { ChainGrows(records[..n], records[n]); }
    if IsChain(records[..m]) { assert ChainOk(records[..m][..n], records[..m][n]); }
  }

  lemma {:induction false} WholeFrom(codec: Codec, chunks: seq<seq<Byte>>, records: seq<DiskRecord>, n: nat,
                                     repair: bool)
    requires Holds(codec, chunks, records) && n <= |records| && IsChain(records[..n])
    ensures Start(chunks, n) <= |Join(chunks)|
    ensures ScanFrom(codec, Join(chunks), Start(chunks, n), records[..n], repair)
            == if IsChain(records) then Scanned(records, |Join(chunks)|) else Failed(BadChain)
    decreases |records| - n
  {
    PrefixIsJoin(chunks, n);
    if n == |records| {
      assert records[..n] == records && chunks[..n] == chunks;
    } else {
      var m := n + 1;
      MeetsNext(codec, chunks, records, n, repair);
      ChainOfPrefix(records, n);
      if ChainOk(records[..n], records[n]) {
        WholeFrom(codec, chunks, records, m, repair);
      }
    }
  }

  /** A whole log is read back exactly when its records are a chain; if they are not, nothing of it is. */
  lemma WholeLogIsRead(codec: Codec, chunks: seq<seq<Byte>>, records: seq<DiskRecord>, repair: bool)
    requires Holds(codec, chunks, records)
    ensures ScanFrom(codec, Join(chunks), 0, [], repair)
            == if IsChain(records) then Scanned(records, |Join(chunks)|) else Failed(BadChain)
  {
    assert records[..0] == [] && chunks[..0] == [];
    WholeFrom(codec, chunks, records, 0, repair);
  }

  // ----- a damaged record -----

  /** The first records are a chain, and the chunk after them still says how long it is but is not decoded. */
  ghost predicate DamagedAfter(codec: Codec, chunks: seq<seq<Byte>>, records: seq<DiskRecord>) {
    && |records| < |chunks| && Holds(codec, chunks[..|records|], records) && IsChain(records)
    && var bad := chunks[|records|];
       |bad| >= HEADER && Field(bad, TOTAL_AT, 4) == |bad| && codec.decode(bad) == None
  }

  /** A scan that comes to a damaged record stops there: silently only if it is the last one and a torn tail may be
      repaired. */
  function AtDamage(chunks: seq<seq<Byte>>, records: seq<DiskRecord>, repair: bool): Scan
    requires |records| < |chunks|
  {
    if |records| + 1 < |chunks| then Failed(CorruptMiddle)
    else if repair then Scanned(records, Start(chunks, |records|))
    else Failed(TailRecord)
  }

  lemma StopsAtDamage(codec: Codec, chunks: seq<seq<Byte>>, records: seq<DiskRecord>, repair: bool)
    requires DamagedAfter(codec, chunks, records) && forall i :: 0 <= i < |chunks| ==> chunks[i] != []
    ensures Start(chunks, |records|) <= |Join(chunks)|
    ensures ScanFrom(codec, Join(chunks), Start(chunks, |records|), records, repair)
         == AtDamage(chunks, records, repair)
  {
    var k := |records|;
    var b, offset, bad := Join(chunks), Start(chunks, k), chunks[k];
    ChunkLies(chunks, k);
    SliceOfSlice(b, offset, offset + |bad|, 0, HEADER);
    LengthField(b, offset, bad);
    LastEnds(chunks, k);
  }

  /** Only the last chunk ends where all end. */
  lemma LastEnds(chunks: seq<seq<Byte>>, k: nat)
    requires k < |chunks| && forall i :: 0 <= i < |chunks| ==> chunks[i] != []
    ensures Start(chunks, k) + |chunks[k]| <= |Join(chunks)|
    ensures Start(chunks, k) + |chunks[k]| == |Join(chunks)| <==> k + 1 == |chunks|
  {
    var m, n := k + 1, |chunks|;
    StartOfNext(chunks, k);
    assert chunks[..n] == chunks;
    StartsGrow(chunks, m, n);
    if m < n {
      var l := m + 1;
      StartOfNext(chunks, m);
      StartsGrow(chunks, l, n);
    }
  }

  lemma {:induction false} DamageFrom(codec: Codec, chunks: seq<seq<Byte>>, records: seq<DiskRecord>, n: nat,
                                      repair: bool)
    requires DamagedAfter(codec, chunks, records) && (forall i :: 0 <= i < |chunks| ==> chunks[i] != [])
    requires n <= |records|
    ensures Start(chunks, n) <= |Join(chunks)|
    ensures ScanFrom(codec, Join(chunks), Start(chunks, n), records[..n], repair) == AtDamage(chunks, records, repair)
    decreases |records| - n
  {
    if n == |records| {
      assert records[..n] == records;
      StopsAtDamage(codec, chunks, records, repair);
    } else {
      var m := n + 1;
      assert IsChunk(codec, chunks[..|records|][n], records[n]);
      MeetsNext(codec, chunks, records, n, repair);
      assert ChainOk(records[..n], records[n]);
      DamageFrom(codec, chunks, records, m, repair);
    }
  }

  /** Whatever comes after it, nothing from the damaged record on is ever read. */
  lemma DamageEndsScan(codec: Codec, chunks: seq<seq<Byte>>, records: seq<DiskRecord>, repair: bool)
    requires DamagedAfter(codec, chunks, records) && forall i :: 0 <= i < |chunks| ==> chunks[i] != []
    ensures ScanFrom(codec, Join(chunks), 0, [], repair) == AtDamage(chunks, records, repair)
  {
    assert records[..0] == [] && chunks[..0] == [];
    DamageFrom(codec, chunks, records, 0, repair);
  }

  // ----- what a scan keeps -----

  /** Whatever bytes are scanned, those that are kept are the chunks of the records that were found. */
  lemma {:induction false} KeptIsChunks(codec: Codec, b: seq<Byte>, offset: nat, chunks: seq<seq<Byte>>,
                                        records: seq<DiskRecord>, repair: bool) returns (kept: seq<seq<Byte>>)
    requires offset <= |b| && Holds(codec, chunks, records) && b[..offset] == Join(chunks) && IsChain(records)
    requires ScanFrom(codec, b, offset, records, repair).Scanned?
    ensures var s := ScanFrom(codec, b, offset, records, repair);
            s.kept <= |b| && Holds(codec, kept, s.records) && b[..s.kept] == Join(kept) && IsChain(s.records)
    decreases |b| - offset
  {
    AcceptedMeans(codec, b, offset, records, repair);
    var accepted := Accepted(codec, b, offset, records);
    kept := chunks;
    if accepted.Some? {
      var (r, next) := accepted.value;
      var chunk := b[offset..next];
      ChunkIsThere(codec, b, offset, records);
      HoldsMore(codec, chunks, records, chunk, r);
      assert b[..offset] + chunk == b[..next];
      ChainGrows(records, r);
      kept := KeptIsChunks(codec, b, next, chunks + [chunk], records + [r], repair);
    }
  }

  lemma ChunkIsThere(codec: Codec, b: seq<Byte>, offset: nat, records: seq<DiskRecord>)
    requires offset <= |b| && Accepted(codec, b, offset, records).Some?
    ensures var (r, next) := Accepted(codec, b, offset, records).value;
            offset < next <= |b| && IsChunk(codec, b[offset..next], r)
  {
    var (r, next) := Accepted(codec, b, offset, records).value;
    var o := offset + TOTAL_AT;
    SliceOfSlice(b, offset, next, TOTAL_AT, TOTAL_AT + 4);
    assert b[offset..next][TOTAL_AT..TOTAL_AT + 4] == b[o..o + 4];
  }
}
