/** Any number of processes on one shared ring buffer, one memory access per step:
    take the lock, load a position, copy a byte, store a position, release the lock.
    Every run refines an atomic bounded first-in-first-out queue. */
module ShmProtocol {
  import opened ByteType
  import opened Ring

  // ---- the log of a run ----

  type Pid = nat

  datatype Entry = Entry(pid: Pid, op: Op, result: Result)

  /** The queue after the operations of the log, in that order. */
  function Queue(cap: nat, log: seq<Entry>): seq<byte> {
    if log == [] then [] else Apply(cap, Queue(cap, log[..|log| - 1]), log[|log| - 1].op).0
  }

  /** Every result in the log is the atomic queue's answer. */
  ghost predicate Legal(cap: nat, log: seq<Entry>) {
    log == [] ||
    var before, last := log[..|log| - 1], log[|log| - 1];
    Legal(cap, before) && last.result == Apply(cap, Queue(cap, before), last.op).1
  }

  // ---- the processes ----

  datatype Segment = Segment(readPos: nat, writePos: nat, data: seq<byte>)

  /** Where a process is in its call. */
  datatype Pc =
    | Idle
    | Calling(op: Op)
    | Entered(op: Op)
    | LoadedRead(op: Op, r: nat)
    | Loaded(op: Op, r: nat, w: nat)
    | Reloaded(op: Op, r: nat, w: nat, r2: nat)
    | Copying(len: nat, r: nat, n: nat, storage: seq<byte>)
    | Storing(bytes: seq<byte>, w: nat, i: nat)
    | Clearing(k: nat)
    | Leaving(op: Op, result: Result)
    | Returning(op: Op, result: Result)

  predicate Inside(pc: Pc) {
    !pc.Idle? && !pc.Calling? && !pc.Returning?
  }

  datatype Lock = Open | HeldBy(p: Pid)

  /** The log and the returned results are history: no step reads them. */
  datatype State = State(seg: Segment, lock: Lock, pcs: map<Pid, Pc>,
                         log: seq<Entry>, returned: map<Pid, seq<Entry>>)

  predicate InvalidCall(op: Op) {
    (op.Read? && op.len == 0) || (op.Write? && op.bytes == [])
  }

  /** One access by the lock holder: the segment, its next place, and the result
      when this access is the one that makes the operation take effect. */
  function Access(size: nat, seg: Segment, pc: Pc): (Segment, Pc, seq<Result>)
    requires size > 0 && Inside(pc) && !pc.Leaving?
    requires |seg.data| == size
  {
    match pc
    case Entered(op) =>
      if op.Clear? then (seg, Clearing(0), []) else (seg, LoadedRead(op, seg.readPos), [])
    case LoadedRead(op, r) => (seg, Loaded(op, r, seg.writePos), [])
    case Loaded(Read(len), r, w) =>
      if r == w then (seg, Leaving(Read(len), Bytes([])), [Bytes([])])
      else (seg, Reloaded(Read(len), r, w, seg.readPos), [])
    case Loaded(Write(d), r, w) => (seg, Reloaded(Write(d), r, w, seg.readPos), [])
    case Loaded(op, r, w) =>
      var space := Count(if op.Used? then UsedSpace(size, r, w) else FreeSpace(size, r, w));
      (seg, Leaving(op, space), [space])
    case Reloaded(op, r, w, r2) =>
      var w2 := seg.writePos;
      if op.Write? then
        if FreeSpace(size, r2, w2) < |op.bytes| then (seg, Leaving(op, Count(0)), [Count(0)])
        else (seg, Storing(op.bytes, w, 0), [])
      else
        var available, len := UsedSpace(size, r2, w2), if op.Read? then op.len else 0;
        (seg, Copying(len, r, if 0 <= available <= len then available else len, []), [])
    case Copying(len, r, n, storage) =>
      if |storage| < n then
        (seg, Copying(len, r, n, storage + [seg.data[Slot(size, r, |storage|)]]), [])
      else
        (seg.(readPos := Slot(size, r, n)), Leaving(Read(len), Bytes(storage)), [Bytes(storage)])
    case Storing(d, w, i) =>
      if i < |d| then
        (seg.(data := seg.data[Slot(size, w, i) := d[i]]), Storing(d, w, i + 1), [])
      else
        (seg.(writePos := Slot(size, w, |d|)), Leaving(Write(d), Count(|d|)), [Count(|d|)])
    case Clearing(k) =>
      if k == 0 then (seg.(readPos := 0), Clearing(1), [])
      else if k == 1 then (seg.(writePos := 0), Clearing(2), [])
      else if k - 2 < size then (seg.(data := seg.data[k - 2 := 0]), Clearing(k + 1), [])
      else (seg, Leaving(Clear, Done), [Done])
  }

  datatype Step = Call(p: Pid, op: Op) | Reject(p: Pid) | Lock(p: Pid) | Run(p: Pid) | Unlock(p: Pid) | Return(p: Pid)

  predicate Enabled(s: State, step: Step) {
    step.p in s.pcs && step.p in s.returned &&
    var pc := s.pcs[step.p];
    match step
    case Call(_, _) => pc.Idle?
    case Reject(_) => pc.Calling? && InvalidCall(pc.op)
    case Lock(_) => pc.Calling? && !InvalidCall(pc.op) && s.lock == Open
    case Run(_) => Inside(pc) && !pc.Leaving?
    case Unlock(_) => pc.Leaving?
    case Return(_) => pc.Returning?
  }

  function Entries(p: Pid, op: Op, results: seq<Result>): seq<Entry> {
    if results == [] then [] else [Entry(p, op, results[0])]
  }

  function OpOf(pc: Pc): Op
    requires !pc.Idle?
  {
    match pc
    case Calling(op) => op
    case Entered(op) => op
    case LoadedRead(op, _) => op
    case Loaded(op, _, _) => op
    case Reloaded(op, _, _, _) => op
    case Copying(len, _, _, _) => Read(len)
    case Storing(d, _, _) => Write(d)
    case Clearing(_) => Clear
    case Leaving(op, _) => op
    case Returning(op, _) => op
  }

  function Next(size: nat, s: State, step: Step): State
    requires size > 0 && |s.seg.data| == size && Enabled(s, step)
  {
    var p := step.p;
    var pc := s.pcs[p];
    match step
    case Call(_, op) => s.(pcs := s.pcs[p := Calling(op)])
    case Reject(_) =>
      s.(pcs := s.pcs[p := Returning(pc.op, Invalid)], log := s.log + [Entry(p, pc.op, Invalid)])
    case Lock(_) => s.(lock := HeldBy(p), pcs := s.pcs[p := Entered(pc.op)])
    case Run(_) =>
      var (seg, pc', results) := Access(size, s.seg, pc);
      s.(seg := seg, pcs := s.pcs[p := pc'], log := s.log + Entries(p, OpOf(pc), results))
    case Unlock(_) => s.(lock := Open, pcs := s.pcs[p := Returning(pc.op, pc.result)])
    case Return(_) =>
      s.(pcs := s.pcs[p := Idle], returned := s.returned[p := s.returned[p] + [Entry(p, pc.op, pc.result)]])
  }

  ghost predicate Initial(size: nat, s: State) {
    && size >= 2 && |s.seg.data| == size && s.seg.readPos == s.seg.writePos == 0
    && s.lock == Open && s.log == [] && s.returned.Keys == s.pcs.Keys
    && forall p | p in s.pcs :: s.pcs[p] == Idle && s.returned[p] == []
  }

  /** s' is reached from s by the steps, each enabled when taken. */
  ghost predicate Runs(size: nat, s: State, steps: seq<Step>, s': State)
    decreases |steps|
  {
    if steps == [] then s == s'
    else size > 0 && |s.seg.data| == size && Enabled(s, steps[0]) && Runs(size, Next(size, s, steps[0]), steps[1..], s')
  }

  // ---- the invariant ----

  ghost predicate Holds(size: nat, seg: Segment, q: seq<byte>) {
    HoldsQueue(size, seg.readPos, seg.writePos, seg.data, q)
  }

  /** What the lock holder knows at each place; q is the atomic queue, which changes
      only at the access that takes effect. */
  ghost predicate Knows(size: nat, seg: Segment, q: seq<byte>, pc: Pc) {
    match pc
    case Idle => false
    case Calling(_) => false
    case Returning(_, _) => false
    case Entered(op) => Holds(size, seg, q) && !InvalidCall(op)
    case LoadedRead(op, r) => Holds(size, seg, q) && !InvalidCall(op) && !op.Clear? && r == seg.readPos
    case Loaded(op, r, w) =>
      Holds(size, seg, q) && !InvalidCall(op) && !op.Clear? && r == seg.readPos && w == seg.writePos
    case Reloaded(op, r, w, r2) =>
      && Holds(size, seg, q) && !InvalidCall(op) && (op.Read? || op.Write?)
      && r == r2 == seg.readPos && w == seg.writePos
    case Copying(len, r, n, storage) =>
      && Holds(size, seg, q) && len > 0 && r == seg.readPos && n == (if |q| <= len then |q| else len)
      && |storage| <= n && storage == q[..|storage|]
    case Storing(d, w, i) =>
      && Holds(size, seg, q) && d != [] && w == seg.writePos && |q| + |d| <= size - 1 && i <= |d|
      && Stored(size, seg.data, w, d, i)
    case Clearing(k) =>
      && size >= 2 && |seg.data| == size
      && (k >= 1 ==> seg.readPos == 0) && (k >= 2 ==> seg.writePos == 0)
    case Leaving(_, _) => Holds(size, seg, q)
  }

  ghost predicate Stored(size: nat, data: seq<byte>, w: nat, d: seq<byte>, i: nat)
    requires size > 0 && i <= |d|
  {
    forall j | 0 <= j < i :: Slot(size, w, j) < |data| && data[Slot(size, w, j)] == d[j]
  }

  /** The entries of one process, in order. */
  function Of(log: seq<Entry>, p: Pid): seq<Entry> {
    if log == [] then []
    else
      var last := log[|log| - 1];
      Of(log[..|log| - 1], p) + (if last.pid == p then [last] else [])
  }

  /** A call that has taken effect but not yet returned. */
  function Pending(p: Pid, pc: Pc): seq<Entry> {
    if pc.Leaving? || pc.Returning? then [Entry(p, pc.op, pc.result)] else []
  }

  /** Each call takes effect once, between its start and its return, and returns
      the logged result. */
  ghost predicate Matches(s: State) {
    && s.returned.Keys == s.pcs.Keys
    && forall p | p in s.pcs :: Of(s.log, p) == s.returned[p] + Pending(p, s.pcs[p])
  }

  /** Only the holder is between lock and unlock. */
  ghost predicate OnlyHolder(s: State) {
    && (s.lock.HeldBy? ==> s.lock.p in s.pcs)
    && forall p | p in s.pcs :: Inside(s.pcs[p]) <==> s.lock == HeldBy(p)
  }

  ghost predicate Segmented(size: nat, s: State)
    requires size > 0
  {
    var q := Queue(size - 1, s.log);
    match s.lock
    case Open => Holds(size, s.seg, q)
    case HeldBy(p) => p in s.pcs && Knows(size, s.seg, q, s.pcs[p])
  }

  ghost predicate Inv(size: nat, s: State) {
    && size >= 2 && |s.seg.data| == size
    && Legal(size - 1, s.log) && Segmented(size, s) && OnlyHolder(s) && Matches(s)
  }

  // ---- one access refines nothing, or the whole operation ----

  ghost predicate Refines(size: nat, seg: Segment, q: seq<byte>, pc: Pc, seg': Segment, pc': Pc, results: seq<Result>)
    requires size > 0 && !pc.Idle?
  {
    && |seg'.data| == size
    && if results == [] then
         Inside(pc') && !pc'.Leaving? && OpOf(pc') == OpOf(pc) && Knows(size, seg', q, pc')
       else
         && results == [Apply(size - 1, q, OpOf(pc)).1]
         && pc' == Leaving(OpOf(pc), results[0])
         && Holds(size, seg', Apply(size - 1, q, OpOf(pc)).0)
  }

  lemma {:induction false} CopyRefines(size: nat, seg: Segment, q: seq<byte>, pc: Pc)
    requires Knows(size, seg, q, pc) && |seg.data| == size > 0 && pc.Copying?
    ensures var (seg', pc', results) := Access(size, seg, pc); Refines(size, seg, q, pc, seg', pc', results)
  {
    var i := |pc.storage|;
    if i < pc.n {
      assert seg.data[Slot(size, seg.readPos, i)] == q[i];
      assert q[..i + 1] == q[..i] + [q[i]];
    } else {
      assert pc.storage == q[..pc.n];
      TakeFirst(size, seg.readPos, seg.writePos, seg.data, q, pc.n);
    }
  }

  lemma {:induction false} StoreRefines(size: nat, seg: Segment, q: seq<byte>, pc: Pc)
    requires Knows(size, seg, q, pc) && |seg.data| == size > 0 && pc.Storing?
    ensures var (seg', pc', results) := Access(size, seg, pc); Refines(size, seg, q, pc, seg', pc', results)
  {
    var d, w, i := pc.bytes, pc.w, pc.i;
    if i < |d| {
      WriteBehind(size, seg.readPos, w, seg.data, q, i, d[i]);
      forall j | 0 <= j < i ensures Slot(size, w, j) != Slot(size, w, i) {
        SlotsDiffer(size, w, j, i);
      }
    } else {
      AppendLast(size, seg.readPos, w, seg.data, q, d);
    }
  }

  lemma {:induction false} DecideRefines(size: nat, seg: Segment, q: seq<byte>, pc: Pc)
    requires Knows(size, seg, q, pc) && |seg.data| == size > 0 && (pc.Loaded? || pc.Reloaded?)
    ensures var (seg', pc', results) := Access(size, seg, pc); Refines(size, seg, q, pc, seg', pc', results)
  {
    UsedPlusFree(size, seg.readPos, seg.writePos);
    if pc.Loaded? && pc.op.Read? && pc.r == pc.w {
      assert q == [] && q[..0] == [];
    }
  }

  lemma {:induction false} AccessRefines(size: nat, seg: Segment, q: seq<byte>, pc: Pc)
    requires Knows(size, seg, q, pc) && |seg.data| == size > 0 && Inside(pc) && !pc.Leaving?
    ensures var (seg', pc', results) := Access(size, seg, pc); Refines(size, seg, q, pc, seg', pc', results)
  {
    match pc
    case Copying(_, _, _, _) => CopyRefines(size, seg, q, pc);
    case Storing(_, _, _) => StoreRefines(size, seg, q, pc);
    case Loaded(_, _, _) => DecideRefines(size, seg, q, pc);
    case Reloaded(_, _, _, _) => DecideRefines(size, seg, q, pc);
    case _ =>
  }

  // ---- one step keeps the invariant ----

  lemma {:induction false} LogOne(cap: nat, log: seq<Entry>, e: Entry)
    requires Legal(cap, log) && e.result == Apply(cap, Queue(cap, log), e.op).1
    ensures Legal(cap, log + [e]) && Queue(cap, log + [e]) == Apply(cap, Queue(cap, log), e.op).0
  {
    assert (log + [e])[..|log|] == log;
  }

  lemma {:induction false} OfOne(log: seq<Entry>, e: Entry, p: Pid)
    ensures Of(log + [e], p) == Of(log, p) + (if e.pid == p then [e] else [])
  {
    assert (log + [e])[..|log|] == log;
  }

  lemma {:induction false} OfAdded(log: seq<Entry>, added: seq<Entry>, p: Pid, u: Pid)
    requires added == [] || (|added| == 1 && added[0].pid == p)
    ensures u == p ==> Of(log + added, u) == Of(log, u) + added
    ensures u != p ==> Of(log + added, u) == Of(log, u)
  {
    if added == [] {
      assert log + added == log;
    } else {
      assert added == [added[0]];
      OfOne(log, added[0], u);
    }
  }

  lemma {:induction false} RejectNothing(cap: nat, q: seq<byte>, op: Op)
    requires InvalidCall(op)
    ensures Apply(cap, q, op) == (q, Invalid)
  {
  }

  /** The part of the invariant about the segment and the log. */
  ghost predicate Served(size: nat, s: State) {
    size > 0 && |s.seg.data| == size && Legal(size - 1, s.log) && Segmented(size, s)
  }

  lemma {:induction false} RunServes(size: nat, s: State, p: Pid)
    requires Inv(size, s) && Enabled(s, Run(p))
    ensures Served(size, Next(size, s, Run(p)))
  {
    hide Matches, Apply, Access, Holds, Legal, Queue, InvalidCall;
    var q, pc := Queue(size - 1, s.log), s.pcs[p];
    assert s.lock == HeldBy(p);
    AccessRefines(size, s.seg, q, pc);
    var (seg', pc', results) := Access(size, s.seg, pc);
    if results == [] {
      assert s.log + [] == s.log;
    } else {
      LogOne(size - 1, s.log, Entry(p, OpOf(pc), results[0]));
    }
  }

  lemma {:induction false} RejectServes(size: nat, s: State, p: Pid)
    requires Inv(size, s) && Enabled(s, Reject(p))
    ensures Served(size, Next(size, s, Reject(p)))
  {
    hide Matches, Apply, Holds, Legal, Queue, InvalidCall, Knows;
    var q, op := Queue(size - 1, s.log), s.pcs[p].op;
    RejectNothing(size - 1, q, op);
    LogOne(size - 1, s.log, Entry(p, op, Invalid));
    assert s.lock != HeldBy(p);
  }

  lemma {:induction false} MoveServes(size: nat, s: State, step: Step)
    requires Inv(size, s) && Enabled(s, step) && !step.Run? && !step.Reject?
    ensures Served(size, Next(size, s, step))
  {
    hide Matches, Apply, Holds, Legal, Queue, InvalidCall;
  }

  lemma {:induction false} StepServes(size: nat, s: State, step: Step)
    requires Inv(size, s) && Enabled(s, step)
    ensures Served(size, Next(size, s, step))
  {
    hide Inv, Served, Enabled, Next;
    match step
    case Run(p) => RunServes(size, s, p);
    case Reject(p) => RejectServes(size, s, p);
    case _ => MoveServes(size, s, step);
  }

  lemma {:induction false} StaysExclusive(size: nat, s: State, step: Step)
    requires Inv(size, s) && Enabled(s, step)
    ensures OnlyHolder(Next(size, s, step))
  {
    hide Matches, Apply, Holds, Legal, Queue, InvalidCall, Access;
    if step.Run? {
      AccessRefines(size, s.seg, Queue(size - 1, s.log), s.pcs[step.p]);
    }
  }

  /** What a step adds to the log: nothing, or one entry of its own process. */
  function Logged(size: nat, s: State, step: Step): seq<Entry>
    requires size > 0 && |s.seg.data| == size && Enabled(s, step)
  {
    match step
    case Run(p) => Entries(p, OpOf(s.pcs[p]), Access(size, s.seg, s.pcs[p]).2)
    case Reject(p) => [Entry(p, s.pcs[p].op, Invalid)]
    case _ => []
  }

  /** The entry is logged as the call becomes pending; a return takes it from there. */
  lemma {:induction false} Records(size: nat, s: State, step: Step)
    requires Inv(size, s) && Enabled(s, step)
    ensures var p, s', added := step.p, Next(size, s, step), Logged(size, s, step);
      && s'.log == s.log + added && (added == [] || (|added| == 1 && added[0].pid == p))
      && s'.returned[p] + Pending(p, s'.pcs[p]) == s.returned[p] + Pending(p, s.pcs[p]) + added
      && s'.pcs == s.pcs[p := s'.pcs[p]] && s'.returned == s.returned[p := s'.returned[p]]
  {
    hide Apply, Holds, Legal, Queue, InvalidCall, Access, Matches;
    if step.Run? {
      AccessRefines(size, s.seg, Queue(size - 1, s.log), s.pcs[step.p]);
    }
  }

  lemma {:induction false} StaysMatched(size: nat, s: State, step: Step)
    requires Inv(size, s) && Enabled(s, step)
    ensures Matches(Next(size, s, step))
  {
    hide Legal, Segmented, OnlyHolder, Next, Logged, Of;
    var s', added := Next(size, s, step), Logged(size, s, step);
    Records(size, s, step);
    forall u | u in s'.pcs ensures Of(s'.log, u) == s'.returned[u] + Pending(u, s'.pcs[u]) {
      OfAdded(s.log, added, step.p, u);
    }
  }

  lemma {:induction false} InvStep(size: nat, s: State, step: Step)
    requires Inv(size, s) && Enabled(s, step)
    ensures Inv(size, Next(size, s, step))
  {
    hide Next, Enabled, Matches, OnlyHolder, Segmented, Legal;
    StepServes(size, s, step);
    StaysExclusive(size, s, step);
    StaysMatched(size, s, step);
  }

  lemma {:induction false} InvInitial(size: nat, s: State)
    requires Initial(size, s)
    ensures Inv(size, s)
  {
  }

  lemma {:induction false} RunsKeepInv(size: nat, s: State, steps: seq<Step>, s': State)
    requires Inv(size, s) && Runs(size, s, steps, s')
    ensures Inv(size, s')
    ensures s.log <= s'.log
    decreases |steps|
  {
    hide Inv, Enabled;
    if steps != [] {
      InvStep(size, s, steps[0]);
      RunsKeepInv(size, Next(size, s, steps[0]), steps[1..], s');
    }
  }

  // ---- calls finish ----

  /** How many accesses the lock holder still makes, at most. */
  function AccessesLeft(size: nat, pc: Pc): nat {
    match pc
    case Entered(op) => size + 4 + Payload(op)
    case LoadedRead(op, _) => size + 3 + Payload(op)
    case Loaded(op, _, _) => size + 2 + Payload(op)
    case Reloaded(op, _, _, _) => size + 1 + Payload(op)
    case Copying(_, _, n, storage) => if |storage| < n then n - |storage| + 1 else 1
    case Storing(d, _, i) => if i < |d| then |d| - i + 1 else 1
    case Clearing(k) => if k < size + 2 then size + 3 - k else 1
    case _ => 0
  }

  function Payload(op: Op): nat {
    if op.Write? then |op.bytes| else 0
  }

  /** Every access of a lock holder brings its call nearer to its end, and only the end has
      none left: no call keeps the lock for ever. */
  lemma {:induction false} AccessesRunOut(size: nat, seg: Segment, q: seq<byte>, pc: Pc)
    requires Knows(size, seg, q, pc) && |seg.data| == size > 0 && Inside(pc) && !pc.Leaving?
    ensures var (seg', pc', results) := Access(size, seg, pc);
      && AccessesLeft(size, pc') < AccessesLeft(size, pc)
      && (AccessesLeft(size, pc') == 0 <==> pc'.Leaving?)
  {
    hide InvalidCall;
    if pc.Reloaded? && pc.op.Read? {
      assert |q| < size;
    }
  }

  // ---- the main results ----

  /** Bytes accepted, and bytes handed out, since the last clear. */
  function Accepted(log: seq<Entry>): seq<byte> {
    if log == [] then []
    else
      var before, last := Accepted(log[..|log| - 1]), log[|log| - 1];
      if last.op.Clear? then []
      else if last.op.Write? && last.result == Count(|last.op.bytes|) then before + last.op.bytes
      else before
  }

  function Delivered(log: seq<Entry>): seq<byte> {
    if log == [] then []
    else
      var before, last := Delivered(log[..|log| - 1]), log[|log| - 1];
      if last.op.Clear? then []
      else if last.result.Bytes? then before + last.result.storage
      else before
  }

  lemma {:induction false} Conserved(cap: nat, log: seq<Entry>)
    requires Legal(cap, log)
    ensures Accepted(log) == Delivered(log) + Queue(cap, log)
    ensures |Queue(cap, log)| <= cap
  {
    if log != [] {
      var before, last := log[..|log| - 1], log[|log| - 1];
      Conserved(cap, before);
      var q := Queue(cap, before);
      if last.op.Read? && last.op.len != 0 {
        var n := if |q| <= last.op.len then |q| else last.op.len;
        assert q == q[..n] + q[n..];
        assert Accepted(log) == Delivered(before) + (q[..n] + q[n..]);
      } else if last.op.Write? && last.result == Count(|last.op.bytes|) {
        assert Queue(cap, log) == q + last.op.bytes;
      }
    }
  }

  /** What a call must answer, told from the calls before it alone: the bytes accepted and
      not yet delivered since the last clear are there, at most cap; a write is taken whole
      if it fits and not at all otherwise, a read gets the oldest ones. */
  predicate AnswersRight(cap: nat, before: seq<Entry>, op: Op, result: Result) {
    var accepted, delivered := Accepted(before), Delivered(before);
    |delivered| <= |accepted| <= |delivered| + cap &&
    var used := |accepted| - |delivered|;
    match op
    case Write(d) => result == if d == [] then Invalid else Count(if used + |d| <= cap then |d| else 0)
    case Read(len) =>
      if len == 0 then result == Invalid
      else result == Bytes(accepted[|delivered|..|delivered| + if len < used then len else used])
    case Used => result == Count(used)
    case Free => result == Count(cap - used)
    case Clear => result == Done
  }

  lemma {:induction false} AnswerFromHistory(cap: nat, before: seq<Entry>, e: Entry)
    requires Legal(cap, before) && e.result == Apply(cap, Queue(cap, before), e.op).1
    ensures AnswersRight(cap, before, e.op, e.result)
  {
    hide Accepted, Delivered, Queue, Legal;
    Conserved(cap, before);
    var accepted, delivered, q := Accepted(before), Delivered(before), Queue(cap, before);
    if e.op.Read? && e.op.len != 0 {
      var n := if e.op.len < |q| then e.op.len else |q|;
      assert accepted[|delivered|..|delivered| + n] == q[..n];
    }
  }

  lemma {:induction false} AnswersFromHistory(cap: nat, log: seq<Entry>, i: nat)
    requires Legal(cap, log) && i < |log|
    ensures AnswersRight(cap, log[..i], log[i].op, log[i].result)
  {
    hide AnswersRight, Queue, Apply;
    var n := |log| - 1;
    if i == n {
      AnswerFromHistory(cap, log[..n], log[n]);
    } else {
      AnswersFromHistory(cap, log[..n], i);
      assert log[..n][..i] == log[..i];
    }
  }

  /** Every run of any processes is a run of the atomic queue: the log replays with the
      results that were returned, each call's entry is logged between its start and its
      return, every result is what the calls before it make it, the bytes handed out since
      the last clear are a prefix of those accepted, and whenever the lock is open the segment
      holds exactly the rest. */
  lemma {:induction false} RunsRefineQueue(size: nat, init: State, steps: seq<Step>, s: State)
    requires Initial(size, init) && Runs(size, init, steps, s)
    ensures Legal(size - 1, s.log) && Matches(s)
    ensures forall i | 0 <= i < |s.log| :: AnswersRight(size - 1, s.log[..i], s.log[i].op, s.log[i].result)
    ensures Accepted(s.log) == Delivered(s.log) + Queue(size - 1, s.log)
    ensures s.lock == Open ==> Holds(size, s.seg, Queue(size - 1, s.log))
  {
    hide Runs, Initial, Legal, Holds, Matches, AnswersRight;
    InvInitial(size, init);
    RunsKeepInv(size, init, steps, s);
    Conserved(size - 1, s.log);
    forall i | 0 <= i < |s.log| ensures AnswersRight(size - 1, s.log[..i], s.log[i].op, s.log[i].result) {
      AnswersFromHistory(size - 1, s.log, i);
    }
  }

  /** The log only grows, so calls that do not overlap are logged in real-time order. */
  lemma {:induction false} LogKeepsRealTimeOrder(size: nat, init: State, first: seq<Step>, s: State,
                                                 later: seq<Step>, s': State, p: Pid)
    requires Initial(size, init) && Runs(size, init, first, s) && Runs(size, s, later, s')
    requires p in s.pcs && p in s'.pcs
    ensures s.log <= s'.log
    ensures p in s.returned && (s.pcs[p] == Idle ==> Of(s.log, p) == s.returned[p])
    ensures p in s'.returned && Of(s'.log, p) == s'.returned[p] + Pending(p, s'.pcs[p])
  {
    hide Runs, Initial, Legal, Segmented, OnlyHolder;
    InvInitial(size, init);
    RunsKeepInv(size, init, first, s);
    RunsKeepInv(size, s, later, s');
  }

  /** Never two processes between lock and unlock. */
  lemma {:induction false} OneAtATime(size: nat, init: State, steps: seq<Step>, s: State, p: Pid, p': Pid)
    requires Initial(size, init) && Runs(size, init, steps, s)
    requires p in s.pcs && p' in s.pcs && Inside(s.pcs[p]) && Inside(s.pcs[p'])
    ensures p == p'
  {
    hide Runs, Initial, Legal, Segmented, Matches;
    InvInitial(size, init);
    RunsKeepInv(size, init, steps, s);
  }
}
