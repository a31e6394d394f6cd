/** Crash recovery as a state machine: one device operation (log append or page write) per step,
    so that a crash can fall between any two of them. */
module RecoveryMachine {
  import opened Bytes
  import opened Wal

  /** The data file: page images and the set of deallocated pages. The bytes of the free list are
      not modelled; a deallocated page reads as zeros. */
  datatype Disk = Disk(pages: map<nat, Image>, freed: set<nat>)

  function FreedImage(): (image: Image)
    ensures |image| == PAGE_SIZE
  {
    seq(PAGE_SIZE, _ => 0)
  }

  function WritePage(disk: Disk, p: nat, image: Image): Disk {
    disk.(pages := disk.pages[p := image])
  }

  /** Deallocation is idempotent: a page on the free list stays as it is. */
  function Deallocate(disk: Disk, p: nat): Disk {
    if p in disk.freed then disk else Disk(disk.pages[p := FreedImage()], disk.freed + {p})
  }

  // ----- which pages a crash may leave as they are -----

  /** Pages no winner and no loser updated still hold their checkpoint image. */
  ghost predicate DiskOk(log: Log, n: nat, disk: Disk, base: map<nat, Image>)
    requires n <= |log|
  {
    forall p :: p in base && !Named(log, n, p) && !Touched(log, n, p) ==> p in disk.pages && disk.pages[p] == base[p]
  }

  /** Whatever part of the log beyond `durable` survives, recovery can start from it. */
  ghost predicate CrashSafe(log: Log, durable: nat, disk: Disk, base: map<nat, Image>) {
    && LogInv(log, base)
    && durable <= |log|
    && forall c :: durable <= c <= |log| ==> DiskOk(log, c, disk, base)
  }

  ghost predicate Restored(log: Log, disk: Disk, base: map<nat, Image>, p: nat)
    requires p in base
  {
    p in disk.pages && disk.pages[p] == Final(log, p, base[p])
  }

  /** A page recovery answers for. */
  ghost predicate Tracked(log: Log, base: map<nat, Image>, p: nat) {
    p in base && !Named(log, |log|, p)
  }

  // ----- the machine -----

  datatype Phase =
    | Redo(pos: nat)
    | Undo(next: map<nat, nat>)
    | UndoApply(next: map<nat, nat>, target: nat)
    | Finish(left: set<nat>)
    | Done

  /** `scanned` is the length of the log recovery started from; records beyond it are recovery's
      own and need not survive another crash. */
  datatype State = State(log: Log, scanned: nat, disk: Disk, phase: Phase)

  function Start(log: Log, disk: Disk): State {
    State(log, |log|, disk, Redo(0))
  }

  /** Redo replays winners, and the compensations of losers. */
  ghost predicate IsRedone(log: Log, n: nat, r: LogRecord)
    requires n <= |log|
  {
    HasCommit(log, n, r.txnId) || (Loser(log, n, r.txnId) && r.recordType == Compensation)
  }

  function RedoEffect(disk: Disk, r: LogRecord): Disk {
    match r.recordType
    case PageUpdate => WritePage(disk, r.pageId, r.afterImage)
    case PageFree => Deallocate(disk, r.pageId)
    case Compensation =>
      if r.compensationType == PageUpdate then WritePage(disk, r.pageId, r.afterImage)
      else if r.compensationType == PageAllocate then Deallocate(disk, r.pageId)
      else disk
    case _ => disk
  }

  function UndoEffect(disk: Disk, r: LogRecord): Disk {
    if r.recordType == PageUpdate then WritePage(disk, r.pageId, r.beforeImage)
    else if r.recordType == PageAllocate then Deallocate(disk, r.pageId)
    else disk
  }

  /** The compensation of record `r`: what to redo, and where undo goes on. */
  function Clr(lsn: nat, prevLsn: nat, r: LogRecord): LogRecord {
    LogRecord(Compensation, lsn, r.txnId, prevLsn, r.pageId, r.prevLsn, r.recordType,
              [], if r.recordType == PageUpdate then r.beforeImage else [])
  }

  function ClrFor(log: Log, r: LogRecord): LogRecord {
    Clr(|log| + 1, LastLsn(log, |log|, r.txnId), r)
  }

  function AbortFor(log: Log, t: nat): LogRecord {
    LogRecord(Abort, |log| + 1, t, LastLsn(log, |log|, t), 0, INVALID_LSN, Checkpoint, [], [])
  }

  ghost predicate AllLosers(log: Log, n: nat, next: map<nat, nat>)
    requires n <= |log|
  {
    forall t :: t in next <==> Loser(log, n, t)
  }

  /** Losers are undone together, latest record first. */
  predicate IsLatest(next: map<nat, nat>, t: nat) {
    t in next && next[t] > 0 && forall u :: u in next ==> next[u] <= next[t]
  }

  ghost predicate RecoverStep(s: State, s': State) {
    match s.phase
    case Redo(pos) =>
      s.scanned <= |s.log| &&
      if pos < s.scanned then
        s' == s.(phase := Redo(pos + 1),
                 disk := if IsRedone(s.log, s.scanned, s.log[pos]) then RedoEffect(s.disk, s.log[pos]) else s.disk)
      else
        s'.phase.Undo? && s' == s.(phase := s'.phase)
        && AllLosers(s.log, s.scanned, s'.phase.next)
        && forall t :: t in s'.phase.next ==> s'.phase.next[t] == LastLsn(s.log, s.scanned, t)
    case Undo(next) =>
      if forall t :: t in next ==> next[t] == 0 then
        s' == s.(phase := Finish(next.Keys))
      else
        exists t | t in next :: UndoStep(s, s', next, t)
    case UndoApply(next, target) =>
      0 < target <= |s.log| && s' == s.(phase := Undo(next), disk := UndoEffect(s.disk, s.log[target - 1]))
    case Finish(left) =>
      if left == {} then s' == s.(phase := Done)
      else exists t | t in left :: s' == s.(phase := Finish(left - {t}), log := s.log + [AbortFor(s.log, t)])
    case Done => false
  }

  /** One turn of the undo loop for the loser with the largest pending LSN. */
  ghost predicate UndoStep(s: State, s': State, next: map<nat, nat>, t: nat) {
    && IsLatest(next, t)
    && next[t] <= |s.log|
    && var r := s.log[next[t] - 1];
       if r.recordType == Compensation then
         s' == s.(phase := Undo(next[t := r.undoNextLsn]))
       else if Undoable(r) then
         s' == s.(phase := UndoApply(next[t := r.prevLsn], next[t]), log := s.log + [ClrFor(s.log, r)])
       else
         s' == s.(phase := Undo(next[t := r.prevLsn]))
  }

  /** A crash during recovery keeps some of recovery's own records and starts over. */
  ghost predicate CrashStep(s: State, s': State) {
    exists c :: s.scanned <= c <= |s.log| && s' == Start(s.log[..c], s.disk)
  }

  // ----- the invariant -----

  /** Redo at index `i` writes the image of page `p`. */
  ghost predicate RedoTarget(log: Log, i: nat, p: nat)
    requires i < |log|
  {
    IsRedone(log, |log|, log[i]) && (Updates(log[i], p) || Compensates(log[i], p))
  }

  ghost predicate RedoLeft(log: Log, pos: nat, p: nat) {
    exists i :: pos <= i < |log| && RedoTarget(log, i, p)
  }

  ghost predicate UndoExhausted(log: Log, t: nat) {
    var c := Cursor(log, |log|, t);
    c == 0 || (c <= |log| && !Undoable(log[c - 1]))
  }

  /** `next` is where undo of `t` stands: it resolves to the cursor the log itself gives. */
  ghost predicate StandsAt(log: Log, t: nat, next: nat) {
    if next == 0 then UndoExhausted(log, t)
    else
      && next <= |log| && log[next - 1].txnId == t
      && Cursor(log, |log|, t) == (if log[next - 1].recordType == Compensation then log[next - 1].undoNextLsn else next)
  }

  ghost predicate AllStand(log: Log, next: map<nat, nat>) {
    forall t :: t in next ==> Loser(log, |log|, t) && StandsAt(log, t, next[t])
  }

  ghost predicate EveryLoserIn(log: Log, ts: set<nat>) {
    forall t :: Loser(log, |log|, t) ==> t in ts
  }

  /** Pages with nothing pending hold their final image, `busy` excepted. */
  ghost predicate Settled(log: Log, disk: Disk, base: map<nat, Image>, busy: set<nat>) {
    forall p :: Tracked(log, base, p) && !Pending(log, |log|, p) && p !in busy ==> Restored(log, disk, base, p)
  }

  ghost predicate AllRestored(log: Log, disk: Disk, base: map<nat, Image>) {
    forall p :: Tracked(log, base, p) ==> Restored(log, disk, base, p)
  }

  /** The compensation of record `target` is logged but perhaps not applied. */
  ghost predicate Compensated(log: Log, scanned: nat, next: map<nat, nat>, target: nat) {
    && 0 < target <= scanned <= |log|
    && Undoable(log[target - 1])
    && log[target - 1].txnId in next
    && Cursor(log, |log|, log[target - 1].txnId) == LastLsn(log, target - 1, log[target - 1].txnId)
  }

  /** The page a record's undo still has to write. */
  function BusyPage(r: LogRecord): set<nat> {
    if r.recordType == PageUpdate then {r.pageId} else {}
  }

  ghost predicate PhaseInv(s: State, base: map<nat, Image>)
    requires s.scanned <= |s.log|
  {
    match s.phase
    case Redo(pos) =>
      && |s.log| == s.scanned && pos <= s.scanned
      && forall p :: Tracked(s.log, base, p) && !RedoLeft(s.log, pos, p) && !Pending(s.log, |s.log|, p) ==>
          Restored(s.log, s.disk, base, p)
    case Undo(next) =>
      && EveryLoserIn(s.log, next.Keys)
      && AllStand(s.log, next)
      && Settled(s.log, s.disk, base, {})
    case UndoApply(next, target) =>
      && EveryLoserIn(s.log, next.Keys)
      && AllStand(s.log, next)
      && Compensated(s.log, s.scanned, next, target)
      && Settled(s.log, s.disk, base, BusyPage(s.log[target - 1]))
    case Finish(left) =>
      && EveryLoserIn(s.log, left)
      && (forall t :: t in left ==> Loser(s.log, |s.log|, t))
      && AllRestored(s.log, s.disk, base)
    case Done =>
      && EveryLoserIn(s.log, {})
      && AllRestored(s.log, s.disk, base)
  }

  /** What recovery itself appended. */
  ghost predicate OwnRecords(log: Log, scanned: nat) {
    forall i :: scanned <= i < |log| ==> log[i].recordType in {Compensation, Abort}
  }

  ghost predicate Inv(s: State, base: map<nat, Image>) {
    && CrashSafe(s.log, s.scanned, s.disk, base)
    && OwnRecords(s.log, s.scanned)
    && PhaseInv(s, base)
  }
}
