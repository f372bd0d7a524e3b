/** Creating a thread and sharing its structure: the creator holds the spinlock from before
    the new thread can start until every field is written, the new thread passes through
    the same lock before it reads any field, and the last unreference frees. */
module UThread {

  type Creator = nat
  type Id = nat

  /** The fields that the creator writes after the thread has been started, in order. */
  const FIELDS: nat := 6

  /** Where the new thread is in its proxy function. */
  datatype Pc = Started | InLock | Past | Named | Running | Leaving | Gone

  /** A structure is alive, condemned by the unreference that reached zero, or freed. */
  datatype Stage = Alive | Condemned | NameFreed | Freed

  /** One thread structure. The references held outside are history: no step that the
      source takes reads their number. */
  datatype Thread = Thread(written: nat, refCount: int, pc: Pc, stage: Stage, returned: bool, held: nat)

  /** Where a creating thread is. */
  datatype Maker = Idle | Locked | Writing(id: Id)

  /** The spinlock's word, and who set it. */
  datatype Spin = Zero | ByMaker(c: Creator) | ByChild(id: Id)

  datatype State = State(spin: Spin, makers: map<Creator, Maker>, threads: map<Id, Thread>)

  datatype Step =
    | MakerLock(c: Creator)
    | Spawn(c: Creator, id: Id)
    | Write(c: Creator)
    | MakerUnlock(c: Creator)
    | ChildLock(id: Id)
    | ChildUnlock(id: Id)
    | ReadName(id: Id)
    | ReadFunc(id: Id)
    | Exit(id: Id)
    | Ref(id: Id)
    | Unref(id: Id)
    | ChildUnref(id: Id)
    | FreeName(id: Id)
    | FreeThread(id: Id)

  /** A compare-and-exchange from 0 succeeds exactly when the word is 0; references are
      taken and given back by holders: outside once the handle has been returned, or by
      the thread itself while it runs. */
  predicate Enabled(s: State, step: Step) {
    match step
    case MakerLock(c) => c in s.makers && s.makers[c].Idle? && s.spin == Zero
    case Spawn(c, id) => c in s.makers && s.makers[c].Locked? && id !in s.threads
    case Write(c) => c in s.makers && s.makers[c].Writing? && s.makers[c].id in s.threads &&
      s.threads[s.makers[c].id].written < FIELDS
    case MakerUnlock(c) => c in s.makers && s.makers[c].Writing? && s.makers[c].id in s.threads &&
      s.threads[s.makers[c].id].written == FIELDS
    case ChildLock(id) => id in s.threads && s.threads[id].pc == Started && s.spin == Zero
    case ChildUnlock(id) => id in s.threads && s.threads[id].pc == InLock
    case ReadName(id) => id in s.threads && s.threads[id].pc == Past
    case ReadFunc(id) => id in s.threads && s.threads[id].pc == Named
    case Exit(id) => id in s.threads && s.threads[id].pc == Running
    case Ref(id) => id in s.threads &&
      ((s.threads[id].returned && s.threads[id].held > 0) || s.threads[id].pc == Running)
    case Unref(id) => id in s.threads && s.threads[id].returned && s.threads[id].held > 0
    case ChildUnref(id) => id in s.threads && s.threads[id].pc == Leaving
    case FreeName(id) => id in s.threads && s.threads[id].stage == Condemned
    case FreeThread(id) => id in s.threads && s.threads[id].stage == NameFreed
  }

  /** The first field written is the reference count, for the creator and the thread. */
  function WriteField(t: Thread): Thread {
    t.(written := t.written + 1, refCount := if t.written == 0 then 2 else t.refCount)
  }

  /** Decrement and test: the one that reaches zero goes on to free. */
  function Drop(t: Thread): Thread {
    t.(refCount := t.refCount - 1, stage := if t.refCount - 1 == 0 then Condemned else t.stage)
  }

  function NextThread(t: Thread, step: Step): Thread {
    match step
    case Write(_) => WriteField(t)
    case MakerUnlock(_) => t.(returned := true)
    case ChildLock(_) => t.(pc := InLock)
    case ChildUnlock(_) => t.(pc := Past)
    case ReadName(_) => t.(pc := Named)
    case ReadFunc(_) => t.(pc := Running)
    case Exit(_) => t.(pc := Leaving)
    case Ref(_) => t.(refCount := t.refCount + 1, held := t.held + 1)
    case Unref(_) => if t.held > 0 then Drop(t).(held := t.held - 1) else t
    case ChildUnref(_) => Drop(t).(pc := Gone)
    case FreeName(_) => t.(stage := NameFreed)
    case FreeThread(_) => t.(stage := Freed)
    case _ => t
  }

  /** The structure that the step is about. */
  function Subject(s: State, step: Step): Id
    requires Enabled(s, step)
  {
    match step
    case MakerLock(_) => 0
    case Spawn(_, id) => id
    case Write(c) => s.makers[c].id
    case MakerUnlock(c) => s.makers[c].id
    case ChildLock(id) => id
    case ChildUnlock(id) => id
    case ReadName(id) => id
    case ReadFunc(id) => id
    case Exit(id) => id
    case Ref(id) => id
    case Unref(id) => id
    case ChildUnref(id) => id
    case FreeName(id) => id
    case FreeThread(id) => id
  }

  function Next(s: State, step: Step): State
    requires Enabled(s, step)
  {
    var id := Subject(s, step);
    match step
    case MakerLock(c) => s.(spin := ByMaker(c), makers := s.makers[c := Locked])
    case Spawn(c, _) =>
      s.(makers := s.makers[c := Writing(id)], threads := s.threads[id := Thread(0, 0, Started, Alive, false, 1)])
    case MakerUnlock(c) =>
      State(Zero, s.makers[c := Idle], s.threads[id := NextThread(s.threads[id], step)])
    case ChildLock(_) => s.(spin := ByChild(id), threads := s.threads[id := NextThread(s.threads[id], step)])
    case ChildUnlock(_) => s.(spin := Zero, threads := s.threads[id := NextThread(s.threads[id], step)])
    case _ => s.(threads := s.threads[id := NextThread(s.threads[id], step)])
  }

  ghost predicate Initial(s: State) {
    s.spin == Zero && s.threads == map[] && forall c | c in s.makers :: s.makers[c] == Idle
  }

  /** s' is reached from s by the steps, each enabled when taken. */
  ghost predicate Runs(s: State, steps: seq<Step>, s': State)
    decreases |steps|
  {
    if steps == [] then s == s'
    else Enabled(s, steps[0]) && Runs(Next(s, steps[0]), steps[1..], s')
  }

  // ---- the invariant ----

  /** Everyone who may still use the structure: outside holders, and the thread itself. */
  function Holders(t: Thread): nat {
    t.held + if t.pc == Gone then 0 else 1
  }

  /** One structure on its own. */
  ghost predicate Sound(t: Thread) {
    && t.written <= FIELDS && (t.written < FIELDS ==> t.pc == Started && !t.returned && t.held == 1)
    && (t.written == 0 ==> t.stage == Alive)
    && (t.written > 0 ==> t.refCount == Holders(t))
    && (t.stage == Alive <==> Holders(t) > 0)
  }

  /** The lock's word says who is between lock and unlock. */
  ghost predicate Exclusive(s: State) {
    && (forall c | c in s.makers :: !s.makers[c].Idle? <==> s.spin == ByMaker(c))
    && (forall id | id in s.threads :: s.threads[id].pc == InLock <==> s.spin == ByChild(id))
    && (s.spin.ByMaker? ==> s.spin.c in s.makers) && (s.spin.ByChild? ==> s.spin.id in s.threads)
  }

  /** A structure that is not complete yet belongs to the creator that holds the lock. */
  ghost predicate Owned(s: State) {
    && (forall c | c in s.makers && s.makers[c].Writing? ::
          && s.makers[c].id in s.threads && !s.threads[s.makers[c].id].returned
          && s.threads[s.makers[c].id].pc == Started && s.threads[s.makers[c].id].held == 1)
    && (forall id | id in s.threads && !s.threads[id].returned ::
          s.spin.ByMaker? && s.spin.c in s.makers && s.makers[s.spin.c] == Writing(id))
  }

  ghost predicate Inv(s: State) {
    && (forall id | id in s.threads :: Sound(s.threads[id]))
    && Exclusive(s) && Owned(s)
  }

  lemma {:induction false} SoundStep(s: State, step: Step)
    requires Inv(s) && Enabled(s, step)
    ensures forall id | id in Next(s, step).threads :: Sound(Next(s, step).threads[id])
  {
  }

  lemma {:induction false} ExclusiveStep(s: State, step: Step)
    requires Inv(s) && Enabled(s, step)
    ensures Exclusive(Next(s, step))
  {
  }

  lemma {:induction false} OwnedStep(s: State, step: Step)
    requires Inv(s) && Enabled(s, step)
    ensures Owned(Next(s, step))
  {
  }

  lemma {:induction false} InvStep(s: State, step: Step)
    requires Inv(s) && Enabled(s, step)
    ensures Inv(Next(s, step))
  {
    hide Enabled, Next, Sound, Exclusive, Owned;
    SoundStep(s, step);
    ExclusiveStep(s, step);
    OwnedStep(s, step);
  }

  lemma {:induction false} RunsKeepInv(s: State, steps: seq<Step>, s': State)
    requires Inv(s) && Runs(s, steps, s')
    ensures Inv(s')
    decreases |steps|
  {
    hide Inv, Enabled;
    if steps != [] {
      InvStep(s, steps[0]);
      RunsKeepInv(Next(s, steps[0]), steps[1..], s');
    }
  }

  lemma {:induction false} ReachableInv(init: State, steps: seq<Step>, s: State)
    requires Initial(init) && Runs(init, steps, s)
    ensures Inv(s)
  {
    hide Runs, Sound;
    RunsKeepInv(init, steps, s);
  }

  // ---- the main results ----

  /** A new thread that is past the lock, and an outside holder of a returned handle,
      see every field written, a structure that has not been freed, and a reference
      count that is the number of holders. */
  lemma {:induction false} FieldsAreWrittenBeforeUse(init: State, steps: seq<Step>, s: State, id: Id)
    requires Initial(init) && Runs(init, steps, s) && id in s.threads
    requires s.threads[id].pc in {Past, Named, Running, Leaving} || (s.threads[id].returned && s.threads[id].held > 0)
    ensures s.threads[id].written == FIELDS && s.threads[id].stage == Alive
    ensures s.threads[id].refCount == Holders(s.threads[id]) > 0
  {
    hide Runs, Initial;
    ReachableInv(init, steps, s);
  }

  /** No step but the freeing itself touches a structure after its last holder has left. */
  lemma {:induction false} NothingTouchesTheFreed(init: State, steps: seq<Step>, s: State, step: Step)
    requires Initial(init) && Runs(init, steps, s) && Enabled(s, step)
    requires !step.MakerLock? && !step.Spawn? && !step.FreeName? && !step.FreeThread?
    ensures Subject(s, step) in s.threads && s.threads[Subject(s, step)].stage == Alive
  {
    hide Runs, Initial;
    ReachableInv(init, steps, s);
  }

  /** Freeing begins exactly when the last holder has left. */
  lemma {:induction false} LastHolderFrees(init: State, steps: seq<Step>, s: State, id: Id)
    requires Initial(init) && Runs(init, steps, s) && id in s.threads
    ensures s.threads[id].stage != Alive <==> Holders(s.threads[id]) == 0
    ensures s.threads[id].stage != Alive ==> s.threads[id].refCount == 0 && s.threads[id].pc == Gone
  {
    hide Runs, Initial;
    ReachableInv(init, steps, s);
  }

  /** How often the run frees the structure. */
  function Frees(steps: seq<Step>, id: Id): nat {
    if steps == [] then 0 else (if steps[0] == FreeThread(id) then 1 else 0) + Frees(steps[1..], id)
  }

  predicate IsFreed(s: State, id: Id) {
    id in s.threads && s.threads[id].stage == Freed
  }

  lemma {:induction false} FreedStays(s: State, step: Step, id: Id)
    requires Inv(s) && Enabled(s, step)
    ensures IsFreed(Next(s, step), id) <==> IsFreed(s, id) || step == FreeThread(id)
    ensures step == FreeThread(id) ==> !IsFreed(s, id)
  {
  }

  /** A structure is freed at most once in any run, and has been freed exactly when the
      run contains that step. */
  lemma {:induction false} FreedOnce(s: State, steps: seq<Step>, s': State, id: Id)
    requires Inv(s) && Runs(s, steps, s')
    ensures Frees(steps, id) == (if IsFreed(s', id) then 1 else 0) - (if IsFreed(s, id) then 1 else 0)
    decreases |steps|
  {
    hide Inv, Enabled, Next, IsFreed;
    if steps != [] {
      InvStep(s, steps[0]);
      FreedStays(s, steps[0], id);
      FreedOnce(Next(s, steps[0]), steps[1..], s', id);
    }
  }

  lemma {:induction false} FreedOnceFromStart(init: State, steps: seq<Step>, s: State, id: Id)
    requires Initial(init) && Runs(init, steps, s)
    ensures Frees(steps, id) <= 1
    ensures Frees(steps, id) == 1 <==> id in s.threads && s.threads[id].stage == Freed
  {
    hide Runs;
    FreedOnce(init, steps, s, id);
  }

  // ---- nobody is stuck ----

  /** How much a structure and its thread still have before them. */
  function Ahead(t: Thread): nat {
    (match t.pc
     case Started => 6
     case InLock => 5
     case Past => 4
     case Named => 3
     case Running => 2
     case Leaving => 1
     case Gone => 0)
    + (match t.stage
       case Alive => 3
       case Condemned => 2
       case NameFreed => 1
       case Freed => 0)
    + if t.written < FIELDS then FIELDS - t.written else 0
  }

  lemma {:induction false} FreshId(ids: set<Id>) returns (id: Id)
    ensures id !in ids && forall i | i in ids :: i < id
  {
    if ids == {} {
      id := 0;
    } else {
      var x :| x in ids;
      var other := FreshId(ids - {x});
      id := if x < other then other else x + 1;
      forall i | i in ids ensures i < id {
        assert i == x || i in ids - {x};
      }
    }
  }

  /** Whoever holds the spinlock can go on towards its unlock. */
  lemma {:induction false} HolderGoesOn(s: State) returns (step: Step)
    requires Inv(s) && s.spin != Zero
    ensures Enabled(s, step)
    ensures match s.spin
      case ByMaker(c) => step.Spawn? || step.Write? || step.MakerUnlock?
      case ByChild(id) => step == ChildUnlock(id)
      case Zero => false
  {
    match s.spin
    case ByChild(id) => step := ChildUnlock(id);
    case ByMaker(c) =>
      if s.makers[c].Locked? {
        var id := FreshId(s.threads.Keys);
        step := Spawn(c, id);
      } else if s.threads[s.makers[c].id].written < FIELDS {
        step := Write(c);
      } else {
        step := MakerUnlock(c);
      }
  }

  /** In every reachable state a thread that has not gone, and a structure that is condemned,
      can take a step that brings it on, unless another holds the spinlock that the new
      thread needs; then that one can go on. */
  lemma {:induction false} NobodyIsStuck(init: State, steps: seq<Step>, s: State, id: Id) returns (step: Step)
    requires Initial(init) && Runs(init, steps, s) && id in s.threads
    requires s.threads[id].pc != Gone || s.threads[id].stage in {Condemned, NameFreed}
    ensures Enabled(s, step)
    ensures (s.threads[id].pc == Started && s.spin != Zero)
      || (Subject(s, step) == id && Ahead(Next(s, step).threads[id]) < Ahead(s.threads[id]))
  {
    hide Runs, Initial;
    ReachableInv(init, steps, s);
    var t := s.threads[id];
    match t.pc
    case Started =>
      if s.spin == Zero {
        step := ChildLock(id);
      } else {
        step := HolderGoesOn(s);
      }
    case InLock => step := ChildUnlock(id);
    case Past => step := ReadName(id);
    case Named => step := ReadFunc(id);
    case Running => step := Exit(id);
    case Leaving => step := ChildUnref(id);
    case Gone => step := if t.stage == Condemned then FreeName(id) else FreeThread(id);
  }
}
