/** The layout of a log record: its fields and where the header holds them. */
module LogFormat {
  import opened Bytes

  const BEGIN: nat := 1
  const PAGE_UPDATE: nat := 2
  const PAGE_ALLOCATE: nat := 3
  const PAGE_FREE: nat := 4
  const COMMIT: nat := 5
  const ABORT: nat := 6
  const CHECKPOINT: nat := 7
  const COMPENSATION: nat := 8

  const MAGIC: nat := 0x314C4157
  const VERSION: nat := 1
  const HEADER: nat := 48
  const VERSION_AT: nat := 4
  const KIND_AT: nat := 6
  const TOTAL_AT: nat := 8
  const CHECKSUM_AT: nat := 12
  const LSN_AT: nat := 16
  const TXN_AT: nat := 24
  const PREV_AT: nat := 32
  const PAGE_AT: nat := 40
  const PAYLOAD_AT: nat := 44

  /** A record as it lies in the log file, its page images as bytes. */
  datatype DiskRecord = DiskRecord(
    kind: nat,
    lsn: nat,
    txnId: nat,
    prevLsn: nat,
    pageId: nat,
    undoNextLsn: nat,
    compensationType: nat,
    before: seq<Byte>,
    after: seq<Byte>)
}
