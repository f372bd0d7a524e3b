/** The lazily created thread-local storage key: any number of threads race to allocate a
    slot and publish it with one compare-and-exchange; losers give their slot back. */
module TlsKey {

  type Tid = nat
  type Slot = nat

  /** Where a thread is in the function that returns the key. */
  datatype Pc =
    | Start
    | NeedSlot
    | HasSlot(slot: Slot)
    | Lost(slot: Slot)
    | Released
    | Done(result: int)

  /** The shared key, -1 while unset, and the slots that the system has handed out. */
  datatype State = State(key: int, live: set<Slot>, pcs: map<Tid, Pc>)

  datatype Step =
    | Load(t: Tid)
    | Alloc(t: Tid, slot: Slot)
    | CompareExchange(t: Tid)
    | Free(t: Tid)
    | Reload(t: Tid)
    | CallAgain(t: Tid)

  predicate Enabled(s: State, step: Step) {
    step.t in s.pcs &&
    match step
    case Load(t) => s.pcs[t].Start?
    case Alloc(t, slot) => s.pcs[t].NeedSlot? && slot !in s.live
    case CompareExchange(t) => s.pcs[t].HasSlot?
    case Free(t) => s.pcs[t].Lost?
    case Reload(t) => s.pcs[t].Released?
    case CallAgain(t) => s.pcs[t].Done?
  }

  function Next(s: State, step: Step): State
    requires Enabled(s, step)
  {
    match step
    case Load(t) => s.(pcs := s.pcs[t := if s.key >= 0 then Done(s.key) else NeedSlot])
    case Alloc(t, slot) => s.(live := s.live + {slot}, pcs := s.pcs[t := HasSlot(slot)])
    case CompareExchange(t) =>
      var slot := s.pcs[t].slot;
      if s.key == -1 then s.(key := slot, pcs := s.pcs[t := Done(slot)])
      else s.(pcs := s.pcs[t := Lost(slot)])
    case Free(t) => s.(live := s.live - {s.pcs[t].slot}, pcs := s.pcs[t := Released])
    case Reload(t) => s.(pcs := s.pcs[t := Done(s.key)])
    case CallAgain(t) => s.(pcs := s.pcs[t := Start])
  }

  ghost predicate Initial(s: State) {
    s.key == -1 && s.live == {} && forall t | t in s.pcs :: s.pcs[t] == Start
  }

  /** s' is reached from s by the steps, each enabled when taken. */
  ghost predicate Runs(s: State, steps: seq<Step>, s': State)
    decreases |steps|
  {
    if steps == [] then s == s'
    else Enabled(s, steps[0]) && Runs(Next(s, steps[0]), steps[1..], s')
  }

  predicate Holds(pc: Pc, slot: Slot) {
    (pc.HasSlot? || pc.Lost?) && pc.slot == slot
  }

  /** Once a thread has come this far, the key is set. */
  predicate KeySeen(pc: Pc) {
    pc.Lost? || pc.Released? || pc.Done?
  }

  ghost predicate Inv(s: State) {
    && s.key >= -1
    && (s.key >= 0 ==> s.key in s.live)
    && (forall t | t in s.pcs && KeySeen(s.pcs[t]) :: s.key >= 0)
    && (forall t | t in s.pcs && s.pcs[t].Done? :: s.pcs[t].result == s.key)
    && (forall t, slot | t in s.pcs && Holds(s.pcs[t], slot) :: slot in s.live && slot != s.key)
    && (forall t, u, slot | t in s.pcs && u in s.pcs && Holds(s.pcs[t], slot) && Holds(s.pcs[u], slot) :: t == u)
    && (forall slot | slot in s.live && slot != s.key :: exists t | t in s.pcs :: Holds(s.pcs[t], slot))
  }

  /** A slot that some other thread holds is still held after the step. */
  lemma {:induction false} OthersHold(s: State, step: Step, slot: Slot)
    requires Inv(s) && Enabled(s, step)
    requires slot in Next(s, step).live && slot != Next(s, step).key
    ensures exists u | u in Next(s, step).pcs :: Holds(Next(s, step).pcs[u], slot)
  {
    var s' := Next(s, step);
    if step.Alloc? && slot == step.slot {
      assert Holds(s'.pcs[step.t], slot);
    } else {
      var u :| u in s.pcs && Holds(s.pcs[u], slot);
      assert Holds(s'.pcs[u], slot);
    }
  }

  lemma {:induction false} InvStep(s: State, step: Step)
    requires Inv(s) && Enabled(s, step)
    ensures Inv(Next(s, step))
    ensures s.key >= 0 ==> Next(s, step).key == s.key
  {
    var s' := Next(s, step);
    forall slot | slot in s'.live && slot != s'.key ensures exists t | t in s'.pcs :: Holds(s'.pcs[t], slot) {
      OthersHold(s, step, slot);
    }
  }

  lemma {:induction false} RunsKeepInv(s: State, steps: seq<Step>, s': State)
    requires Inv(s) && Runs(s, steps, s')
    ensures Inv(s')
    ensures s.key >= 0 ==> s'.key == s.key
    decreases |steps|
  {
    hide Inv;
    if steps != [] {
      InvStep(s, steps[0]);
      RunsKeepInv(Next(s, steps[0]), steps[1..], s');
    }
  }

  /** A published key never changes, and every caller returns it. */
  lemma {:induction false} EveryoneGetsTheKey(init: State, first: seq<Step>, s: State, later: seq<Step>, s': State,
                                              t: Tid, u: Tid)
    requires Initial(init) && Runs(init, first, s) && Runs(s, later, s')
    requires t in s.pcs && s.pcs[t].Done? && u in s'.pcs && s'.pcs[u].Done?
    ensures s.pcs[t].result == s'.pcs[u].result == s'.key >= 0
  {
    RunsKeepInv(init, first, s);
    RunsKeepInv(s, later, s');
  }

  /** When nobody is under way and someone has the key, exactly one slot is live. */
  lemma {:induction false} OneSlotStays(init: State, steps: seq<Step>, s: State)
    requires Initial(init) && Runs(init, steps, s)
    requires forall t | t in s.pcs :: s.pcs[t].Done? || s.pcs[t].Start?
    requires exists t | t in s.pcs :: s.pcs[t].Done?
    ensures s.key >= 0 && s.live == {s.key}
  {
    RunsKeepInv(init, steps, s);
    var t :| t in s.pcs && s.pcs[t].Done?;
    forall slot | slot in s.live ensures slot == s.key {
    }
  }

  /** Every live slot but the published one is held by exactly one thread. */
  lemma {:induction false} SlotsAreAccountedFor(init: State, steps: seq<Step>, s: State, slot: Slot)
    requires Initial(init) && Runs(init, steps, s) && slot in s.live && slot != s.key
    ensures exists t | t in s.pcs :: Holds(s.pcs[t], slot) && forall u | u in s.pcs && Holds(s.pcs[u], slot) :: u == t
  {
    RunsKeepInv(init, steps, s);
    var t :| t in s.pcs && Holds(s.pcs[t], slot);
    assert forall u | u in s.pcs && Holds(s.pcs[u], slot) :: u == t;
  }

  /** How many steps of its own a caller still needs, at most. */
  function Ahead(pc: Pc): nat {
    match pc
    case Start => 5
    case NeedSlot => 4
    case HasSlot(_) => 3
    case Lost(_) => 2
    case Released => 1
    case Done(_) => 0
  }

  /** A caller's next step, given a free slot. */
  function OwnStep(pc: Pc, t: Tid, slot: Slot): Step {
    match pc
    case Start => Load(t)
    case NeedSlot => Alloc(t, slot)
    case HasSlot(_) => CompareExchange(t)
    case Lost(_) => Free(t)
    case Released => Reload(t)
    case Done(_) => CallAgain(t)
  }

  /** A caller needs nobody else to finish: at most five steps of its own, with any free slot,
      bring it to its return, wherever the others are. */
  lemma {:induction false} CallersFinishAlone(s: State, t: Tid, slot: Slot) returns (steps: seq<Step>, s': State)
    requires t in s.pcs && (s.pcs[t] in {Start, NeedSlot} ==> slot !in s.live)
    ensures Runs(s, steps, s') && |steps| <= Ahead(s.pcs[t]) <= 5
    ensures forall i | 0 <= i < |steps| :: steps[i].t == t
    ensures t in s'.pcs && s'.pcs[t].Done?
    decreases Ahead(s.pcs[t])
  {
    if s.pcs[t].Done? {
      steps, s' := [], s;
    } else {
      var step := OwnStep(s.pcs[t], t, slot);
      var rest;
      rest, s' := CallersFinishAlone(Next(s, step), t, slot);
      steps := [step] + rest;
      assert steps[1..] == rest;
    }
  }
}
