/** The general read-write lock: a mutex, two condition variables and two words that
    pack 15-bit reader and writer counts. The protocol is a step machine over any
    set of fewer than 2^15 threads; a step is one critical section of the mutex, and
    waiting threads may wake without being notified. */
module RwLock {

  // ---- the packed words ----

  type Word = bv32

  function SetReaders(lock: Word, readers: Word): Word {
    (lock & 0xFFFF8000) | readers
  }

  function ReaderCount(lock: Word): Word {
    lock & 0x00007FFF
  }

  function SetWriters(lock: Word, writers: Word): Word {
    (lock & 0xC0007FFF) | (writers << 15)
  }

  function WriterCount(lock: Word): Word {
    (lock & 0x3FFF8000) >> 15
  }

  /** Both counts are below 2^15, and nothing is stored outside their fields. */
  predicate Tidy(lock: Word) {
    lock & 0xC0000000 == 0
  }

  function LowByte(field: Word): bv8 {
    (field & 0xFF) as bv8
  }

  function HighByte(field: Word): bv8
    requires field <= 0x7FFF
  {
    (field >> 8) as bv8
  }

  /** The number a 15-bit field stands for. */
  function Number(field: Word): int
    requires field <= 0x7FFF
  {
    HighByte(field) as int * 256 + LowByte(field) as int
  }

  lemma {:induction false} FieldsAreSmall(lock: Word)
    ensures ReaderCount(lock) <= 0x7FFF && WriterCount(lock) <= 0x7FFF
  {
  }

  /** Writing one field leaves the other alone and spills nowhere. */
  lemma {:induction false} FieldsAreApart(lock: Word, x: Word)
    requires Tidy(lock) && x <= 0x7FFF
    ensures Tidy(SetReaders(lock, x)) && Tidy(SetWriters(lock, x))
    ensures ReaderCount(SetReaders(lock, x)) == x && WriterCount(SetReaders(lock, x)) == WriterCount(lock)
    ensures WriterCount(SetWriters(lock, x)) == x && ReaderCount(SetWriters(lock, x)) == ReaderCount(lock)
  {
  }

  lemma {:induction false} ZeroWord(lock: Word)
    requires Tidy(lock)
    ensures lock == 0 <==> ReaderCount(lock) == 0 && WriterCount(lock) == 0
  {
  }

  // ---- counting with fields ----

  lemma {:induction false} IncByte(x: bv8, y: bv8)
    requires x < 0xFF && y == x + 1
    ensures y as int == x as int + 1
  {
  }

  lemma {:induction false} IncBytes(field: Word, more: Word)
    requires field < 0x7FFF && more == field + 1
    ensures more <= 0x7FFF
    ensures LowByte(field) == 0xFF ==>
      LowByte(more) == 0 && HighByte(field) < 0xFF && HighByte(more) == HighByte(field) + 1
    ensures LowByte(field) != 0xFF ==>
      LowByte(field) < 0xFF && LowByte(more) == LowByte(field) + 1 && HighByte(more) == HighByte(field)
  {
  }

  lemma {:induction false} Inc(field: Word, more: Word)
    requires field < 0x7FFF && more == field + 1
    ensures more <= 0x7FFF && Number(more) == Number(field) + 1
  {
    IncBytes(field, more);
    if LowByte(field) == 0xFF {
      IncByte(HighByte(field), HighByte(more));
    } else {
      IncByte(LowByte(field), LowByte(more));
    }
  }

  lemma {:induction false} OneLess(field: Word, less: Word)
    requires 0 < field <= 0x7FFF && less == field - 1
    ensures less < 0x7FFF && field == less + 1
  {
  }

  lemma {:induction false} Full()
    ensures Number(0x7FFF) == 0x7FFF && Number(0) == 0 && Number(1) == 1
  {
  }

  lemma {:induction false} Bytes(field: Word)
    requires field <= 0x7FFF
    ensures HighByte(field) == 0 && LowByte(field) == 0 ==> field == 0
    ensures HighByte(field) == 0 && LowByte(field) == 1 ==> field == 1
  {
  }

  lemma {:induction false} SmallByte(x: bv8)
    ensures 0 <= x as int < 256
    ensures x as int == 0 ==> x == 0
    ensures x as int == 1 ==> x == 1
  {
  }

  lemma {:induction false} Ends(field: Word)
    requires field <= 0x7FFF
    ensures 0 <= Number(field)
    ensures Number(field) == 0 <==> field == 0
    ensures Number(field) == 1 <==> field == 1
    ensures Number(field) < 0x7FFF ==> field < 0x7FFF
  {
    Full();
    Bytes(field);
    SmallByte(HighByte(field));
    SmallByte(LowByte(field));
  }

  // ---- the step machine ----

  type Tid = nat

  /** Where a thread is: outside, asleep on one of the condition variables (already
      notified or not), or holding the lock. */
  datatype Mode = Idle | ReadWait(notified: bool) | WriteWait(notified: bool) | Reading | Writing

  datatype Words = Words(active: Word, waiting: Word)

  datatype State = State(words: Words, threads: map<Tid, Mode>)

  /** One critical section. An unlock that signals names the threads that the
      condition variable releases. */
  datatype Step =
    | ReaderLock(t: Tid)
    | ReaderWake(t: Tid)
    | ReaderTrylock(t: Tid)
    | ReaderUnlock(t: Tid, released: set<Tid>)
    | WriterLock(t: Tid)
    | WriterWake(t: Tid)
    | WriterTrylock(t: Tid)
    | WriterUnlock(t: Tid, released: set<Tid>)

  function AddActiveReader(w: Words): Words {
    w.(active := SetReaders(w.active, ReaderCount(w.active) + 1))
  }

  function DropActiveReader(w: Words): Words {
    w.(active := SetReaders(w.active, ReaderCount(w.active) - 1))
  }

  function SetActiveWriter(w: Words, n: Word): Words {
    w.(active := SetWriters(w.active, n))
  }

  function AddWaitingReader(w: Words): Words {
    w.(waiting := SetReaders(w.waiting, ReaderCount(w.waiting) + 1))
  }

  function DropWaitingReader(w: Words): Words {
    w.(waiting := SetReaders(w.waiting, ReaderCount(w.waiting) - 1))
  }

  function AddWaitingWriter(w: Words): Words {
    w.(waiting := SetWriters(w.waiting, WriterCount(w.waiting) + 1))
  }

  function DropWaitingWriter(w: Words): Words {
    w.(waiting := SetWriters(w.waiting, WriterCount(w.waiting) - 1))
  }

  /** The critical section as run by a thread in mode m: the words and the mode it
      leaves behind. A wake re-tests the loop condition. */
  function Critical(w: Words, m: Mode, step: Step): (Words, Mode) {
    match step
    case ReaderLock(_) =>
      if WriterCount(w.active) != 0 then (AddWaitingReader(w), ReadWait(false)) else (AddActiveReader(w), Reading)
    case ReaderWake(_) =>
      if WriterCount(w.active) != 0 then (w, ReadWait(false)) else (AddActiveReader(DropWaitingReader(w)), Reading)
    case ReaderTrylock(_) =>
      if WriterCount(w.active) != 0 then (w, m) else (AddActiveReader(w), Reading)
    case ReaderUnlock(_, _) =>
      if ReaderCount(w.active) == 0 then (w, m) else (DropActiveReader(w), Idle)
    case WriterLock(_) =>
      if w.active != 0 then (AddWaitingWriter(w), WriteWait(false)) else (SetActiveWriter(w, 1), Writing)
    case WriterWake(_) =>
      if w.active != 0 then (w, WriteWait(false)) else (SetActiveWriter(DropWaitingWriter(w), 1), Writing)
    case WriterTrylock(_) =>
      if w.active != 0 then (w, m) else (SetActiveWriter(w, 1), Writing)
    case WriterUnlock(_, _) =>
      (SetActiveWriter(w, 0), Idle)
  }

  /** The released threads become notified; they leave the condition variable. */
  function Release(threads: map<Tid, Mode>, released: set<Tid>): map<Tid, Mode> {
    map t | t in threads ::
      if t in released && threads[t].ReadWait? then ReadWait(true)
      else if t in released && threads[t].WriteWait? then WriteWait(true)
      else threads[t]
  }

  /** The un-notified sleepers of the two condition variables. */
  function Readers(threads: map<Tid, Mode>): set<Tid> {
    set t | t in threads && threads[t] == ReadWait(false)
  }

  function Writers(threads: map<Tid, Mode>): set<Tid> {
    set t | t in threads && threads[t] == WriteWait(false)
  }

  /** signal: at least one sleeper, if there is one; broadcast: all of them. */
  predicate IsSignal(released: set<Tid>, sleepers: set<Tid>) {
    released <= sleepers && (sleepers != {} ==> released != {})
  }

  /** What the condition variables do in this step: an unlock signals the writers'
      one, or else broadcasts on the readers' one. */
  predicate Allowed(s: State, step: Step) {
    var active, waiting := s.words.active, s.words.waiting;
    match step
    case ReaderUnlock(_, released) =>
      if ReaderCount(active) == 1 && WriterCount(waiting) != 0 then IsSignal(released, Writers(s.threads))
      else released == {}
    case WriterUnlock(_, released) =>
      if WriterCount(waiting) != 0 then IsSignal(released, Writers(s.threads))
      else if ReaderCount(waiting) != 0 then released == Readers(s.threads)
      else released == {}
    case _ => true
  }

  /** Where a thread must be for the step to begin; unlocks come from holders. */
  predicate Begins(m: Mode, step: Step) {
    match step
    case ReaderLock(_) => m == Idle
    case ReaderWake(_) => m.ReadWait?
    case ReaderTrylock(_) => m == Idle
    case ReaderUnlock(_, _) => m == Reading
    case WriterLock(_) => m == Idle
    case WriterWake(_) => m.WriteWait?
    case WriterTrylock(_) => m == Idle
    case WriterUnlock(_, _) => m == Writing
  }

  predicate Enabled(s: State, step: Step) {
    step.t in s.threads && Begins(s.threads[step.t], step) && Allowed(s, step)
  }

  function Released(step: Step): set<Tid> {
    if step.ReaderUnlock? || step.WriterUnlock? then step.released else {}
  }

  function Next(s: State, step: Step): State
    requires step.t in s.threads
  {
    var (words, mode) := Critical(s.words, s.threads[step.t], step);
    State(words, Release(s.threads[step.t := mode], Released(step)))
  }

  ghost predicate Initial(s: State) {
    && s.words == Words(0, 0) && |s.threads| < 0x8000
    && forall t | t in s.threads :: s.threads[t] == Idle
  }

  /** s' is reached from s by the steps, each enabled when taken. */
  ghost predicate Run(s: State, steps: seq<Step>, s': State)
    decreases |steps|
  {
    if steps == [] then s == s'
    else Enabled(s, steps[0]) && Run(Next(s, steps[0]), steps[1..], s')
  }

  // ---- counting ----

  datatype Kind = Outside | WaitsToRead | WaitsToWrite | Reads | Writes

  function KindOf(m: Mode): Kind {
    match m
    case Idle => Outside
    case ReadWait(_) => WaitsToRead
    case WriteWait(_) => WaitsToWrite
    case Reading => Reads
    case Writing => Writes
  }

  function Who(threads: map<Tid, Mode>, k: Kind): set<Tid> {
    set t | t in threads && KindOf(threads[t]) == k
  }

  /** How many threads are of a kind. */
  function N(threads: map<Tid, Mode>, k: Kind): int {
    |Who(threads, k)|
  }

  datatype Numbers = Numbers(nReads: int, nWrites: int, nReadWaits: int, nWriteWaits: int)

  /** The words hold these four numbers and nothing else. */
  ghost predicate Fields(w: Words, n: Numbers) {
    && Tidy(w.active) && Tidy(w.waiting)
    && Number(ReaderCount(w.active)) == n.nReads && Number(WriterCount(w.active)) == n.nWrites
    && Number(ReaderCount(w.waiting)) == n.nReadWaits && Number(WriterCount(w.waiting)) == n.nWriteWaits
  }

  function Census(threads: map<Tid, Mode>): Numbers {
    Numbers(N(threads, Reads), N(threads, Writes), N(threads, WaitsToRead), N(threads, WaitsToWrite))
  }

  /** The four packed fields are the true numbers of threads of each kind. */
  ghost predicate Counts(s: State) {
    Fields(s.words, Census(s.threads))
  }

  /** At most one writer, and never a writer with a reader. */
  ghost predicate Exclusive(threads: map<Tid, Mode>) {
    && (forall t, u | t in threads && u in threads && threads[t] == Writing && threads[u] == Writing :: t == u)
    && (forall t, u | t in threads && u in threads :: !(threads[t] == Writing && threads[u] == Reading))
  }

  ghost predicate Some(threads: map<Tid, Mode>, k: Kind) {
    exists t :: t in threads && KindOf(threads[t]) == k
  }

  ghost predicate Held(threads: map<Tid, Mode>) {
    Some(threads, Reads) || Some(threads, Writes)
  }

  ghost predicate Wanted(threads: map<Tid, Mode>) {
    Some(threads, WaitsToRead) || Some(threads, WaitsToWrite)
  }

  ghost predicate SomeoneNotified(threads: map<Tid, Mode>) {
    exists t :: t in threads && (threads[t] == ReadWait(true) || threads[t] == WriteWait(true))
  }

  /** No wake-up is lost: when nobody holds the lock and some thread waits, one of
      the waiters has been notified. */
  ghost predicate NoLostWakeup(threads: map<Tid, Mode>) {
    !Held(threads) && Wanted(threads) ==> SomeoneNotified(threads)
  }

  /** An un-notified blocked reader has an active or a waiting writer to wait for. */
  ghost predicate ReadersHaveReason(threads: map<Tid, Mode>) {
    (exists t :: t in threads && threads[t] == ReadWait(false)) ==> Some(threads, Writes) || Some(threads, WaitsToWrite)
  }

  ghost predicate Inv(s: State) {
    && |s.threads| < 0x8000 && Counts(s)
    && Exclusive(s.threads) && NoLostWakeup(s.threads) && ReadersHaveReason(s.threads)
  }

  // ---- what one write does to the numbers ----

  lemma {:induction false} OneMoreReader(lock: Word, field: Word, next: Word)
    requires Tidy(lock) && field == ReaderCount(lock) && next == field + 1
    requires field <= 0x7FFF && Number(field) < 0x7FFF
    ensures var l := SetReaders(lock, next);
      Tidy(l) && Number(ReaderCount(l)) == Number(field) + 1 && WriterCount(l) == WriterCount(lock)
  {
    Ends(field);
    Inc(field, next);
    FieldsAreApart(lock, next);
  }

  lemma {:induction false} OneLessReader(lock: Word, field: Word, next: Word)
    requires Tidy(lock) && field == ReaderCount(lock) && next == field - 1
    requires field <= 0x7FFF && Number(field) > 0
    ensures var l := SetReaders(lock, next);
      Tidy(l) && Number(ReaderCount(l)) == Number(field) - 1 && WriterCount(l) == WriterCount(lock)
  {
    Ends(field);
    OneLess(field, next);
    Inc(next, field);
    FieldsAreApart(lock, next);
  }

  lemma {:induction false} OneMoreWriter(lock: Word, field: Word, next: Word)
    requires Tidy(lock) && field == WriterCount(lock) && next == field + 1
    requires field <= 0x7FFF && Number(field) < 0x7FFF
    ensures var l := SetWriters(lock, next);
      Tidy(l) && Number(WriterCount(l)) == Number(field) + 1 && ReaderCount(l) == ReaderCount(lock)
  {
    Ends(field);
    Inc(field, next);
    FieldsAreApart(lock, next);
  }

  lemma {:induction false} OneLessWriter(lock: Word, field: Word, next: Word)
    requires Tidy(lock) && field == WriterCount(lock) && next == field - 1
    requires field <= 0x7FFF && Number(field) > 0
    ensures var l := SetWriters(lock, next);
      Tidy(l) && Number(WriterCount(l)) == Number(field) - 1 && ReaderCount(l) == ReaderCount(lock)
  {
    Ends(field);
    OneLess(field, next);
    Inc(next, field);
    FieldsAreApart(lock, next);
  }

  lemma {:induction false} WriterIn(lock: Word)
    requires Tidy(lock)
    ensures var l := SetWriters(lock, 1);
      Tidy(l) && Number(WriterCount(l)) == 1 && ReaderCount(l) == ReaderCount(lock)
  {
    FieldsAreApart(lock, 1);
    Full();
  }

  lemma {:induction false} WriterOut(lock: Word)
    requires Tidy(lock)
    ensures var l := SetWriters(lock, 0);
      Tidy(l) && Number(WriterCount(l)) == 0 && ReaderCount(l) == ReaderCount(lock)
  {
    FieldsAreApart(lock, 0);
    Full();
  }

  lemma {:induction false} ActiveReaderUp(w: Words, n: Numbers)
    requires Fields(w, n) && n.nReads < 0x7FFF
    ensures Fields(AddActiveReader(w), n.(nReads := n.nReads + 1))
  {
    var lock := w.active;
    FieldsAreSmall(lock);
    OneMoreReader(lock, ReaderCount(lock), ReaderCount(lock) + 1);
  }

  lemma {:induction false} ActiveReaderDown(w: Words, n: Numbers)
    requires Fields(w, n) && n.nReads > 0
    ensures Fields(DropActiveReader(w), n.(nReads := n.nReads - 1))
  {
    var lock := w.active;
    FieldsAreSmall(lock);
    OneLessReader(lock, ReaderCount(lock), ReaderCount(lock) - 1);
  }

  lemma {:induction false} WaitingReaderUp(w: Words, n: Numbers)
    requires Fields(w, n) && n.nReadWaits < 0x7FFF
    ensures Fields(AddWaitingReader(w), n.(nReadWaits := n.nReadWaits + 1))
  {
    var lock := w.waiting;
    FieldsAreSmall(lock);
    OneMoreReader(lock, ReaderCount(lock), ReaderCount(lock) + 1);
  }

  lemma {:induction false} WaitingReaderDown(w: Words, n: Numbers)
    requires Fields(w, n) && n.nReadWaits > 0
    ensures Fields(DropWaitingReader(w), n.(nReadWaits := n.nReadWaits - 1))
  {
    var lock := w.waiting;
    FieldsAreSmall(lock);
    OneLessReader(lock, ReaderCount(lock), ReaderCount(lock) - 1);
  }

  lemma {:induction false} WaitingWriterUp(w: Words, n: Numbers)
    requires Fields(w, n) && n.nWriteWaits < 0x7FFF
    ensures Fields(AddWaitingWriter(w), n.(nWriteWaits := n.nWriteWaits + 1))
  {
    var lock := w.waiting;
    FieldsAreSmall(lock);
    OneMoreWriter(lock, WriterCount(lock), WriterCount(lock) + 1);
  }

  lemma {:induction false} WaitingWriterDown(w: Words, n: Numbers)
    requires Fields(w, n) && n.nWriteWaits > 0
    ensures Fields(DropWaitingWriter(w), n.(nWriteWaits := n.nWriteWaits - 1))
  {
    var lock := w.waiting;
    FieldsAreSmall(lock);
    OneLessWriter(lock, WriterCount(lock), WriterCount(lock) - 1);
  }

  lemma {:induction false} ActiveWriterIn(w: Words, n: Numbers)
    requires Fields(w, n)
    ensures Fields(SetActiveWriter(w, 1), n.(nWrites := 1))
  {
    WriterIn(w.active);
  }

  lemma {:induction false} ActiveWriterOut(w: Words, n: Numbers)
    requires Fields(w, n)
    ensures Fields(SetActiveWriter(w, 0), n.(nWrites := 0))
  {
    WriterOut(w.active);
  }

  /** What the tests of the code say about the numbers. */
  lemma {:induction false} Tests(w: Words, n: Numbers)
    requires Fields(w, n)
    ensures ReaderCount(w.active) != 0 <==> n.nReads != 0
    ensures ReaderCount(w.active) == 1 <==> n.nReads == 1
    ensures WriterCount(w.active) != 0 <==> n.nWrites != 0
    ensures ReaderCount(w.waiting) != 0 <==> n.nReadWaits != 0
    ensures WriterCount(w.waiting) != 0 <==> n.nWriteWaits != 0
    ensures w.active == 0 <==> n.nReads == 0 && n.nWrites == 0
  {
    FieldsAreSmall(w.active);
    FieldsAreSmall(w.waiting);
    Ends(ReaderCount(w.active));
    Ends(WriterCount(w.active));
    Ends(ReaderCount(w.waiting));
    Ends(WriterCount(w.waiting));
    ZeroWord(w.active);
  }

  /** The critical section on plain numbers instead of packed words. */
  function CriticalN(n: Numbers, m: Mode, step: Step): (Numbers, Mode) {
    match step
    case ReaderLock(_) =>
      if n.nWrites != 0 then (n.(nReadWaits := n.nReadWaits + 1), ReadWait(false))
      else (n.(nReads := n.nReads + 1), Reading)
    case ReaderWake(_) =>
      if n.nWrites != 0 then (n, ReadWait(false))
      else (n.(nReadWaits := n.nReadWaits - 1, nReads := n.nReads + 1), Reading)
    case ReaderTrylock(_) =>
      if n.nWrites != 0 then (n, m) else (n.(nReads := n.nReads + 1), Reading)
    case ReaderUnlock(_, _) =>
      if n.nReads == 0 then (n, m) else (n.(nReads := n.nReads - 1), Idle)
    case WriterLock(_) =>
      if n.nReads != 0 || n.nWrites != 0 then (n.(nWriteWaits := n.nWriteWaits + 1), WriteWait(false))
      else (n.(nWrites := 1), Writing)
    case WriterWake(_) =>
      if n.nReads != 0 || n.nWrites != 0 then (n, WriteWait(false))
      else (n.(nWriteWaits := n.nWriteWaits - 1, nWrites := 1), Writing)
    case WriterTrylock(_) =>
      if n.nReads != 0 || n.nWrites != 0 then (n, m) else (n.(nWrites := 1), Writing)
    case WriterUnlock(_, _) =>
      (n.(nWrites := 0), Idle)
  }

  function NewMode(n: Numbers, m: Mode, step: Step): Mode {
    CriticalN(n, m, step).1
  }

  /** Room in every field for one more, and the thread itself is counted. */
  predicate Room(n: Numbers, m: Mode) {
    && (m != Reading ==> n.nReads < 0x7FFF) && (m == Reading ==> n.nReads > 0)
    && (m == Writing ==> n.nWrites == 1)
    && (if m.ReadWait? then n.nReadWaits > 0 else n.nReadWaits < 0x7FFF)
    && (if m.WriteWait? then n.nWriteWaits > 0 else n.nWriteWaits < 0x7FFF)
  }

  /** The critical section on words does what the one on numbers does. */
  ghost predicate Faithful(w: Words, n: Numbers, m: Mode, step: Step) {
    && Fields(Critical(w, m, step).0, CriticalN(n, m, step).0)
    && Critical(w, m, step).1 == CriticalN(n, m, step).1
  }

  lemma {:induction false} ReaderLockFaithful(w: Words, n: Numbers, m: Mode, step: Step)
    requires Fields(w, n) && Begins(m, step) && Room(n, m) && step.ReaderLock?
    ensures Faithful(w, n, m, step)
  {
    hide Fields;
    Tests(w, n);
    if n.nWrites != 0 {
      WaitingReaderUp(w, n);
    } else {
      ActiveReaderUp(w, n);
    }
  }

  lemma {:induction false} ReaderWakeFaithful(w: Words, n: Numbers, m: Mode, step: Step)
    requires Fields(w, n) && Begins(m, step) && Room(n, m) && step.ReaderWake?
    ensures Faithful(w, n, m, step)
  {
    hide Fields;
    Tests(w, n);
    if n.nWrites == 0 {
      WaitingReaderDown(w, n);
      ActiveReaderUp(DropWaitingReader(w), n.(nReadWaits := n.nReadWaits - 1));
    }
  }

  lemma {:induction false} ReaderTrylockFaithful(w: Words, n: Numbers, m: Mode, step: Step)
    requires Fields(w, n) && Begins(m, step) && Room(n, m) && step.ReaderTrylock?
    ensures Faithful(w, n, m, step)
  {
    hide Fields;
    Tests(w, n);
    if n.nWrites == 0 {
      ActiveReaderUp(w, n);
    }
  }

  lemma {:induction false} ReaderUnlockFaithful(w: Words, n: Numbers, m: Mode, step: Step)
    requires Fields(w, n) && Begins(m, step) && Room(n, m) && step.ReaderUnlock?
    ensures Faithful(w, n, m, step)
  {
    hide Fields;
    Tests(w, n);
    ActiveReaderDown(w, n);
  }

  lemma {:induction false} WriterLockFaithful(w: Words, n: Numbers, m: Mode, step: Step)
    requires Fields(w, n) && Begins(m, step) && Room(n, m) && step.WriterLock?
    ensures Faithful(w, n, m, step)
  {
    hide Fields;
    Tests(w, n);
    if n.nReads != 0 || n.nWrites != 0 {
      WaitingWriterUp(w, n);
    } else {
      ActiveWriterIn(w, n);
    }
  }

  lemma {:induction false} WriterWakeFaithful(w: Words, n: Numbers, m: Mode, step: Step)
    requires Fields(w, n) && Begins(m, step) && Room(n, m) && step.WriterWake?
    ensures Faithful(w, n, m, step)
  {
    hide Fields;
    Tests(w, n);
    if n.nReads == 0 && n.nWrites == 0 {
      WaitingWriterDown(w, n);
      ActiveWriterIn(DropWaitingWriter(w), n.(nWriteWaits := n.nWriteWaits - 1));
    }
  }

  lemma {:induction false} WriterTrylockFaithful(w: Words, n: Numbers, m: Mode, step: Step)
    requires Fields(w, n) && Begins(m, step) && Room(n, m) && step.WriterTrylock?
    ensures Faithful(w, n, m, step)
  {
    hide Fields;
    Tests(w, n);
    if n.nReads == 0 && n.nWrites == 0 {
      ActiveWriterIn(w, n);
    }
  }

  lemma {:induction false} WriterUnlockFaithful(w: Words, n: Numbers, m: Mode, step: Step)
    requires Fields(w, n) && Begins(m, step) && Room(n, m) && step.WriterUnlock?
    ensures Faithful(w, n, m, step)
  {
    hide Fields;
    Tests(w, n);
    ActiveWriterOut(w, n);
  }

  lemma {:induction false} CriticalFaithful(w: Words, n: Numbers, m: Mode, step: Step)
    requires Fields(w, n) && Begins(m, step) && Room(n, m)
    ensures Faithful(w, n, m, step)
  {
    hide Fields, Faithful;
    match step
    case ReaderLock(_) => ReaderLockFaithful(w, n, m, step);
    case ReaderWake(_) => ReaderWakeFaithful(w, n, m, step);
    case ReaderTrylock(_) => ReaderTrylockFaithful(w, n, m, step);
    case ReaderUnlock(_, _) => ReaderUnlockFaithful(w, n, m, step);
    case WriterLock(_) => WriterLockFaithful(w, n, m, step);
    case WriterWake(_) => WriterWakeFaithful(w, n, m, step);
    case WriterTrylock(_) => WriterTrylockFaithful(w, n, m, step);
    case WriterUnlock(_, _) => WriterUnlockFaithful(w, n, m, step);
  }

  /** One thread fewer of the kind of m, one more of the kind of m'. */
  function Shift(n: Numbers, m: Mode, m': Mode): Numbers {
    Numbers(n.nReads + Is(m', Reads) - Is(m, Reads), n.nWrites + Is(m', Writes) - Is(m, Writes),
            n.nReadWaits + Is(m', WaitsToRead) - Is(m, WaitsToRead),
            n.nWriteWaits + Is(m', WaitsToWrite) - Is(m, WaitsToWrite))
  }

  lemma {:induction false} CriticalShifts(n: Numbers, m: Mode, step: Step)
    requires Begins(m, step) && Room(n, m)
    ensures CriticalN(n, m, step).0 == Shift(n, m, NewMode(n, m, step))
  {
  }

  function Is(m: Mode, k: Kind): int {
    if KindOf(m) == k then 1 else 0
  }

  // ---- what one move does to the counted sets ----

  lemma {:induction false} Without(threads: map<Tid, Mode>, t: Tid, k: Kind)
    requires t in threads
    ensures N(threads, k) == |Who(threads, k) - {t}| + Is(threads[t], k)
  {
    var w := Who(threads, k);
    if t in w {
      assert w == (w - {t}) + {t};
    } else {
      assert w == w - {t};
    }
  }

  lemma {:induction false} OthersStay(threads: map<Tid, Mode>, t: Tid, m: Mode, k: Kind)
    ensures Who(threads[t := m], k) - {t} == Who(threads, k) - {t}
  {
  }

  lemma {:induction false} ReleaseKeepsKinds(threads: map<Tid, Mode>, released: set<Tid>, k: Kind)
    ensures Who(Release(threads, released), k) == Who(threads, k)
  {
  }

  /** Thread t takes mode m and some sleepers are notified: one count goes down, one up. */
  lemma {:induction false} Moves(threads: map<Tid, Mode>, t: Tid, m: Mode, released: set<Tid>, k: Kind)
    requires t in threads
    ensures N(Release(threads[t := m], released), k) == N(threads, k) + Is(m, k) - Is(threads[t], k)
  {
    var after := threads[t := m];
    ReleaseKeepsKinds(after, released, k);
    Without(threads, t, k);
    Without(after, t, k);
    OthersStay(threads, t, m, k);
  }

  lemma {:induction false} RoomFor(threads: map<Tid, Mode>, t: Tid, k: Kind)
    requires t in threads && KindOf(threads[t]) != k
    ensures N(threads, k) < |threads|
  {
    var others := threads.Keys - {t};
    assert Who(threads, k) <= others;
    SmallerSet(Who(threads, k), others);
    assert |others| == |threads.Keys| - 1;
  }

  lemma {:induction false} SmallerSet(a: set<Tid>, b: set<Tid>)
    requires a <= b
    ensures |a| <= |b|
  {
    assert b == a + (b - a);
  }

  lemma {:induction false} CensusMoves(threads: map<Tid, Mode>, t: Tid, m: Mode, released: set<Tid>)
    requires t in threads
    ensures Census(Release(threads[t := m], released)) == Shift(Census(threads), threads[t], m)
  {
    hide N, Release;
    Moves(threads, t, m, released, Reads);
    Moves(threads, t, m, released, Writes);
    Moves(threads, t, m, released, WaitsToRead);
    Moves(threads, t, m, released, WaitsToWrite);
  }

  lemma {:induction false} CensusRoom(threads: map<Tid, Mode>, t: Tid)
    requires t in threads && |threads| < 0x8000 && Exclusive(threads)
    ensures Room(Census(threads), threads[t])
  {
    var m := threads[t];
    assert t in Who(threads, KindOf(m));
    if m != Reading {
      RoomFor(threads, t, Reads);
    }
    if m == Writing {
      assert Who(threads, Writes) == {t};
    }
    if !m.ReadWait? {
      RoomFor(threads, t, WaitsToRead);
    }
    if !m.WriteWait? {
      RoomFor(threads, t, WaitsToWrite);
    }
  }

  lemma {:induction false} CensusStep(threads: map<Tid, Mode>, step: Step)
    requires step.t in threads && |threads| < 0x8000 && Exclusive(threads) && Begins(threads[step.t], step)
    ensures Room(Census(threads), threads[step.t])
    ensures Census(NextThreads(threads, step)) == CriticalN(Census(threads), threads[step.t], step).0
  {
    hide Census, Release, Exclusive;
    var n, m := Census(threads), threads[step.t];
    CensusRoom(threads, step.t);
    CriticalShifts(n, m, step);
    CensusMoves(threads, step.t, NewMode(n, m, step), Released(step));
  }

  lemma {:induction false} CountsStep(s: State, step: Step)
    requires |s.threads| < 0x8000 && Counts(s) && Exclusive(s.threads) && Enabled(s, step)
    ensures Counts(Next(s, step))
    ensures Next(s, step).threads == NextThreads(s.threads, step)
  {
    hide Fields, Critical, CriticalN, Census, Room, Begins, Allowed, Release;
    CensusStep(s.threads, step);
    CriticalFaithful(s.words, Census(s.threads), s.threads[step.t], step);
  }

  // ---- exclusion and wake-ups, on the threads alone ----

  function NextThreads(threads: map<Tid, Mode>, step: Step): map<Tid, Mode>
    requires step.t in threads
  {
    Release(threads[step.t := NewMode(Census(threads), threads[step.t], step)], Released(step))
  }

  /** The condition variables' part of the step, told from the numbers. */
  predicate ReleasesRight(threads: map<Tid, Mode>, step: Step) {
    var n := Census(threads);
    match step
    case ReaderUnlock(_, released) =>
      if n.nReads == 1 && n.nWriteWaits != 0 then IsSignal(released, Writers(threads)) else released == {}
    case WriterUnlock(_, released) =>
      if n.nWriteWaits != 0 then IsSignal(released, Writers(threads))
      else if n.nReadWaits != 0 then released == Readers(threads)
      else released == {}
    case _ => true
  }

  lemma {:induction false} AllowedReleasesRight(s: State, step: Step)
    requires Counts(s) && Allowed(s, step)
    ensures ReleasesRight(s.threads, step)
  {
    hide Fields, ReaderCount, WriterCount;
    Tests(s.words, Census(s.threads));
  }

  lemma {:induction false} NonZero(threads: map<Tid, Mode>, k: Kind)
    ensures N(threads, k) != 0 <==> Some(threads, k)
  {
    if Some(threads, k) {
      var t :| t in threads && KindOf(threads[t]) == k;
      assert t in Who(threads, k);
    } else {
      assert Who(threads, k) == {};
    }
  }

  /** The numbers tell who is there. */
  lemma {:induction false} CensusTells(threads: map<Tid, Mode>)
    ensures var n := Census(threads);
      && (n.nReads != 0 <==> Some(threads, Reads)) && (n.nWrites != 0 <==> Some(threads, Writes))
      && (n.nReadWaits != 0 <==> Some(threads, WaitsToRead)) && (n.nWriteWaits != 0 <==> Some(threads, WaitsToWrite))
  {
    NonZero(threads, Reads);
    NonZero(threads, Writes);
    NonZero(threads, WaitsToRead);
    NonZero(threads, WaitsToWrite);
  }

  /** A step on the threads, with everything else about it. */
  ghost predicate Steps(threads: map<Tid, Mode>, step: Step, threads': map<Tid, Mode>) {
    && step.t in threads && Begins(threads[step.t], step) && ReleasesRight(threads, step)
    && Exclusive(threads) && ReadersHaveReason(threads) && NoLostWakeup(threads)
    && threads' == NextThreads(threads, step)
  }

  lemma {:induction false} StaysExclusive(threads: map<Tid, Mode>, step: Step, threads': map<Tid, Mode>)
    requires Steps(threads, step, threads')
    ensures Exclusive(threads')
  {
    hide Census, ReleasesRight, NoLostWakeup, ReadersHaveReason;
    CensusTells(threads);
  }

  /** Why u, still asleep un-notified after the step, has a writer to wait for. */
  lemma {:induction false} WriterToWaitFor(threads: map<Tid, Mode>, step: Step, threads': map<Tid, Mode>, u: Tid)
    requires Steps(threads, step, threads') && u in threads' && threads'[u] == ReadWait(false)
    ensures Some(threads', Writes) || Some(threads', WaitsToWrite)
  {
    hide Census, NoLostWakeup;
    CensusTells(threads);
    var t := step.t;
    if u == t {
      var v :| v in threads && KindOf(threads[v]) == Writes;
      assert KindOf(threads'[v]) == Writes;
    } else {
      assert threads[u] == ReadWait(false);
      var v :| v in threads && (KindOf(threads[v]) == Writes || KindOf(threads[v]) == WaitsToWrite);
      if v != t {
        assert KindOf(threads'[v]) == KindOf(threads[v]);
      } else if step.WriterUnlock? {
        assert KindOf(threads[u]) == WaitsToRead && u in Readers(threads);
        var x :| x in threads && KindOf(threads[x]) == WaitsToWrite;
        assert KindOf(threads'[x]) == WaitsToWrite;
      } else {
        assert KindOf(threads'[t]) == Writes || KindOf(threads'[t]) == WaitsToWrite;
      }
    }
  }

  /** Every step but an unlock leaves the lock held by someone. */
  lemma {:induction false} OthersLeaveItHeld(threads: map<Tid, Mode>, step: Step, threads': map<Tid, Mode>)
    requires Steps(threads, step, threads') && !step.ReaderUnlock? && !step.WriterUnlock?
    ensures Held(threads')
  {
    hide Census, ReleasesRight, NoLostWakeup, ReadersHaveReason;
    CensusTells(threads);
    var t := step.t;
    if KindOf(threads'[t]) != Reads && KindOf(threads'[t]) != Writes {
      var u :| u in threads && (KindOf(threads[u]) == Reads || KindOf(threads[u]) == Writes);
      assert KindOf(threads'[u]) == KindOf(threads[u]);
    } else {
      assert Some(threads', KindOf(threads'[t]));
    }
  }

  /** When a reader's unlock leaves nobody inside, it was the only reader. */
  lemma {:induction false} LastReader(threads: map<Tid, Mode>, step: Step, threads': map<Tid, Mode>)
    requires Steps(threads, step, threads') && step.ReaderUnlock? && !Held(threads')
    ensures N(threads, Reads) == 1
  {
    hide ReleasesRight, NoLostWakeup, ReadersHaveReason;
    var t := step.t;
    assert t in Who(threads, Reads);
    forall u | u in threads && u != t ensures u !in Who(threads, Reads) {
      assert KindOf(threads'[u]) == KindOf(threads[u]);
    }
    assert Who(threads, Reads) == {t};
  }

  /** The unlock that frees the lock notifies a waiter, or one was notified before. */
  lemma {:induction false} UnlockNotifies(threads: map<Tid, Mode>, step: Step, threads': map<Tid, Mode>)
    requires Steps(threads, step, threads') && (step.ReaderUnlock? || step.WriterUnlock?)
    requires !Held(threads') && Wanted(threads')
    ensures SomeoneNotified(threads')
  {
    CensusTells(threads);
    if step.ReaderUnlock? {
      LastReader(threads, step, threads');
    }
    if Some(threads, WaitsToWrite) {
      WriterNotified(threads, step, threads');
    } else {
      ReaderNotified(threads, step, threads');
    }
  }

  lemma {:induction false} WriterNotified(threads: map<Tid, Mode>, step: Step, threads': map<Tid, Mode>)
    requires Steps(threads, step, threads') && (step.ReaderUnlock? || step.WriterUnlock?)
    requires step.ReaderUnlock? ==> N(threads, Reads) == 1
    requires Some(threads, WaitsToWrite)
    ensures SomeoneNotified(threads')
  {
    CensusTells(threads);
    var w :| w in threads && KindOf(threads[w]) == WaitsToWrite;
    if threads[w] == WriteWait(true) {
      assert threads'[w] == WriteWait(true);
    } else {
      assert w in Writers(threads);
      var r :| r in step.released;
      assert r in Writers(threads);
      assert threads'[r] == WriteWait(true);
    }
  }

  lemma {:induction false} ReaderNotified(threads: map<Tid, Mode>, step: Step, threads': map<Tid, Mode>)
    requires Steps(threads, step, threads') && (step.ReaderUnlock? || step.WriterUnlock?)
    requires !Some(threads, WaitsToWrite) && Wanted(threads')
    ensures SomeoneNotified(threads')
  {
    CensusTells(threads);
    var u :| u in threads' && (KindOf(threads'[u]) == WaitsToRead || KindOf(threads'[u]) == WaitsToWrite);
    assert u != step.t && KindOf(threads[u]) == KindOf(threads'[u]);
    assert threads[u].ReadWait?;
    if threads[u] == ReadWait(false) {
      assert u in Readers(threads);
      assert step.WriterUnlock?;
    }
    assert threads'[u] == ReadWait(true);
  }

  // ---- every reachable state ----

  lemma {:induction false} InvStep(s: State, step: Step)
    requires Inv(s) && Enabled(s, step)
    ensures Inv(Next(s, step))
  {
    hide Counts, Next, Allowed, Census, ReleasesRight;
    var threads, threads' := s.threads, Next(s, step).threads;
    CountsStep(s, step);
    AllowedReleasesRight(s, step);
    StaysExclusive(threads, step, threads');
    if u :| u in threads' && threads'[u] == ReadWait(false) {
      WriterToWaitFor(threads, step, threads', u);
    }
    if !Held(threads') && Wanted(threads') {
      if step.ReaderUnlock? || step.WriterUnlock? {
        UnlockNotifies(threads, step, threads');
      } else {
        OthersLeaveItHeld(threads, step, threads');
      }
    }
    assert threads'.Keys == threads.Keys;
    assert |threads'| == |threads'.Keys| && |threads| == |threads.Keys|;
  }

  lemma {:induction false} InvInitial(s: State)
    requires Initial(s)
    ensures Inv(s)
  {
    Full();
    assert ReaderCount(0) == 0 && WriterCount(0) == 0 && Tidy(0);
    forall k | k != Outside ensures N(s.threads, k) == 0 {
      NonZero(s.threads, k);
    }
    CensusTells(s.threads);
  }

  lemma {:induction false} RunKeepsInv(s: State, steps: seq<Step>, s': State)
    requires Inv(s) && Run(s, steps, s')
    ensures Inv(s')
    decreases |steps|
  {
    hide Inv, Next;
    if steps != [] {
      InvStep(s, steps[0]);
      RunKeepsInv(Next(s, steps[0]), steps[1..], s');
    }
  }

  /** Safety over whole runs: in every reachable state the packed counts are the
      true counts, writers exclude each other and readers, and no wake-up is lost. */
  lemma {:induction false} ReachableIsSafe(init: State, steps: seq<Step>, s: State)
    requires Initial(init) && Run(init, steps, s)
    ensures Counts(s)
    ensures Exclusive(s.threads)
    ensures NoLostWakeup(s.threads) && ReadersHaveReason(s.threads)
  {
    hide Counts, Run, Initial;
    InvInitial(init);
    RunKeepsInv(init, steps, s);
  }

  /** A trylock gets the lock exactly when no holder conflicts. */
  lemma {:induction false} TrylockIsExact(init: State, steps: seq<Step>, s: State, t: Tid)
    requires Initial(init) && Run(init, steps, s) && t in s.threads && s.threads[t] == Idle
    ensures Critical(s.words, Idle, ReaderTrylock(t)).1 == Reading <==> !Some(s.threads, Writes)
    ensures Critical(s.words, Idle, WriterTrylock(t)).1 == Writing <==> !Held(s.threads)
  {
    hide Initial, Run, Fields;
    ReachableIsSafe(init, steps, s);
    Tests(s.words, Census(s.threads));
    CensusTells(s.threads);
  }

  /** What the caller of a step meets, told from who holds the lock: a reader gets in unless
      a writer is inside, a writer gets in unless anybody is; waiting writers hold nobody up. */
  ghost predicate CallerGets(threads: map<Tid, Mode>, step: Step, m: Mode) {
    match step
    case ReaderLock(_) => m == if Some(threads, Writes) then ReadWait(false) else Reading
    case ReaderWake(_) => m == if Some(threads, Writes) then ReadWait(false) else Reading
    case ReaderTrylock(_) => m == if Some(threads, Writes) then Idle else Reading
    case WriterLock(_) => m == if Held(threads) then WriteWait(false) else Writing
    case WriterWake(_) => m == if Held(threads) then WriteWait(false) else Writing
    case WriterTrylock(_) => m == if Held(threads) then Idle else Writing
    case ReaderUnlock(_, _) => m == Idle
    case WriterUnlock(_, _) => m == Idle
  }

  /** Who is notified: by the last reader's and by the writer's unlock a sleeping writer, if
      one waits; by the writer's unlock else all sleeping readers; by nothing else anybody. */
  ghost predicate OthersGet(threads: map<Tid, Mode>, step: Step, threads': map<Tid, Mode>)
    requires threads'.Keys == threads.Keys
  {
    var lastOut := step.WriterUnlock? || (step.ReaderUnlock? && Who(threads, Reads) == {step.t});
    if lastOut && Some(threads, WaitsToWrite) then
      && (forall u | u in threads && u != step.t ::
            threads'[u] == threads[u] || (threads[u] == WriteWait(false) && threads'[u] == WriteWait(true)))
      && (Writers(threads) != {} ==> exists u | u in Writers(threads) :: threads'[u] == WriteWait(true))
    else if step.WriterUnlock? then
      forall u | u in threads && u != step.t ::
        threads'[u] == if threads[u] == ReadWait(false) then ReadWait(true) else threads[u]
    else
      forall u | u in threads && u != step.t :: threads'[u] == threads[u]
  }

  lemma {:induction false} CallerIsServed(w: Words, threads: map<Tid, Mode>, step: Step)
    requires Fields(w, Census(threads)) && step.t in threads && Begins(threads[step.t], step)
    ensures CallerGets(threads, step, Critical(w, threads[step.t], step).1)
  {
    hide Fields;
    Tests(w, Census(threads));
    CensusTells(threads);
    if step.ReaderUnlock? {
      assert KindOf(threads[step.t]) == Reads;
    }
  }

  lemma {:induction false} OnlyReader(threads: map<Tid, Mode>, t: Tid)
    requires t in threads && threads[t] == Reading
    ensures N(threads, Reads) == 1 <==> Who(threads, Reads) == {t}
  {
    var w := Who(threads, Reads);
    assert t in w;
    if |w| == 1 {
      var rest := w - {t};
      assert |rest| == 0;
      assert w == {t};
    }
  }

  lemma {:induction false} OthersAreServed(threads: map<Tid, Mode>, step: Step, m: Mode)
    requires step.t in threads && Begins(threads[step.t], step) && ReleasesRight(threads, step)
    ensures Release(threads[step.t := m], Released(step)).Keys == threads.Keys
    ensures OthersGet(threads, step, Release(threads[step.t := m], Released(step)))
  {
    hide Census;
    var threads' := Release(threads[step.t := m], Released(step));
    ReadersCounted(threads);
    CensusTells(threads);
    if step.ReaderUnlock? {
      OnlyReader(threads, step.t);
    }
    var lastOut := step.WriterUnlock? || (step.ReaderUnlock? && Who(threads, Reads) == {step.t});
    var signals := lastOut && Some(threads, WaitsToWrite);
    if signals && Writers(threads) != {} {
      var u :| u in step.released;
      assert u in Writers(threads) && threads'[u] == WriteWait(true);
    }
    if step.WriterUnlock? && !signals {
      forall u | u in threads && u != step.t
        ensures threads'[u] == if threads[u] == ReadWait(false) then ReadWait(true) else threads[u]
      {
        if threads[u] == ReadWait(false) {
          assert KindOf(threads[u]) == WaitsToRead && u in Readers(threads);
        }
      }
    }
  }

  lemma {:induction false} ReadersCounted(threads: map<Tid, Mode>)
    ensures Census(threads).nReads == N(threads, Reads)
  {
  }

  /** Every step that can be taken in a reachable state does exactly this, to its caller and
      to everybody else. */
  lemma {:induction false} StepsAreExact(init: State, steps: seq<Step>, s: State, step: Step)
    requires Initial(init) && Run(init, steps, s) && Enabled(s, step)
    ensures var s' := Next(s, step);
      && s'.threads.Keys == s.threads.Keys
      && CallerGets(s.threads, step, s'.threads[step.t]) && OthersGet(s.threads, step, s'.threads)
  {
    hide Initial, Run, Fields, CallerGets, OthersGet, Critical, ReleasesRight, Allowed, Begins;
    ReachableIsSafe(init, steps, s);
    AllowedReleasesRight(s, step);
    CallerIsServed(s.words, s.threads, step);
    var m := Critical(s.words, s.threads[step.t], step).1;
    OthersAreServed(s.threads, step, m);
    NotReleased(s.threads, step, m);
  }

  /** A holder can always unlock, whatever the condition variables are asked to do. */
  lemma {:induction false} HolderCanUnlock(s: State, t: Tid) returns (released: set<Tid>)
    requires t in s.threads && (s.threads[t] == Reading || s.threads[t] == Writing)
    ensures Enabled(s, if s.threads[t] == Reading then ReaderUnlock(t, released) else WriterUnlock(t, released))
  {
    hide ReaderCount, WriterCount;
    if WriterCount(s.words.waiting) != 0 && (s.threads[t] == Writing || ReaderCount(s.words.active) == 1) {
      released := Writers(s.threads);
    } else if s.threads[t] == Writing && ReaderCount(s.words.waiting) != 0 {
      released := Readers(s.threads);
    } else {
      released := {};
    }
  }

  /** The caller itself is not among the released. */
  lemma {:induction false} NotReleased(threads: map<Tid, Mode>, step: Step, m: Mode)
    requires step.t in threads && Begins(threads[step.t], step) && ReleasesRight(threads, step)
    ensures Release(threads[step.t := m], Released(step))[step.t] == m
  {
    hide Census;
    assert step.t !in Released(step);
  }

  /** The lock is never stuck: if it is free and wanted, some notified waiter exists
      and enters when it runs. */
  lemma {:induction false} NotifiedWaiterEnters(init: State, steps: seq<Step>, s: State) returns (step: Step)
    requires Initial(init) && Run(init, steps, s) && !Held(s.threads) && Wanted(s.threads)
    ensures Enabled(s, step) && (s.threads[step.t] == ReadWait(true) || s.threads[step.t] == WriteWait(true))
    ensures Critical(s.words, s.threads[step.t], step).1 in {Reading, Writing}
  {
    hide Initial, Run, Fields;
    ReachableIsSafe(init, steps, s);
    Tests(s.words, Census(s.threads));
    CensusTells(s.threads);
    var t :| t in s.threads && (s.threads[t] == ReadWait(true) || s.threads[t] == WriteWait(true));
    step := if s.threads[t].ReadWait? then ReaderWake(t) else WriterWake(t);
  }
}
