/**
 The checkpoint manager as a state machine.

 Threads enter a checkpoint (CP) in two steps: they read the current pointer inside an RCU read
 section, then they count themselves in. A trigger swaps the pointer to a fresh CP and waits for the
 readers of the old one. The last thread to leave a CP that is prepared for flush starts its flush.
 CPs are identified by their ids.
 */
module Checkpoint {

  import opened Options

  datatype Status = IoReady | Triggered | FlushPrepare | Flushing | FlushDone

  /** One CP object: its status, enter count and the futures waiting on its promise. */
  datatype Cp = Cp(status: Status, enterCnt: int, futs: set<nat>)

  /** Where the thread that holds the trigger mutex stands: `guard` is its own CP guard, `fut` the
      future it will return. After the swap, `readers` are the read sections that the RCU grace
      period still waits for. */
  datatype Trigger = Idle | Begun(guard: nat, fut: nat) | Swapped(guard: nat, readers: set<nat>)

  /** `first`, `flushStarts`, `callCp` and `results` record history. */
  datatype State = State(
    lastFlushed: int,
    cps: map<int, Cp>,
    cur: int,
    entering: map<nat, int>,
    guards: map<nat, int>,
    inFlush: bool,
    pending: bool,
    pendingFuts: set<nat>,
    trigger: Trigger,
    releasing: bool,
    toComplete: set<nat>,
    journal: Option<int>,
    first: int,
    flushStarts: seq<int>,
    callCp: map<nat, int>,
    results: map<nat, bool>)

  /** The steps of cp_io_enter, cp_io_exit, do_trigger_cp_flush, cp_start_flush and
      on_cp_flush_done. `WriteJournal` is the index consumer persisting its transaction journal,
      `Crash` a restart from what is on disk. */
  datatype Step =
    | EnterRead(thread: nat)
    | EnterCount(thread: nat, guard: nat)
    | Nest(from: nat, guard: nat)
    | Exit(guard: nat)
    | Call(fut: nat, force: bool, blocked: bool, nested: Option<nat>, guard: nat)
    | Swap
    | Synced
    | WriteJournal
    | Done
    | Record
    | Release
    | Complete(fut: nat)
    | Crash

  /** create_first_cp. */
  function Boot(lastFlushed: int, journal: Option<int>): State {
    State(lastFlushed, map[lastFlushed + 1 := Cp(IoReady, 0, {})], lastFlushed + 1, map[], map[],
          false, false, {}, Idle, false, {}, journal, lastFlushed + 1, [], map[], map[])
  }

  function SetStatus(s: State, c: int, status: Status): State
    requires c in s.cps
  {
    s.(cps := s.cps[c := s.cps[c].(status := status)])
  }

  /** cp_ref: a new guard on CP `c`. */
  function Ref(s: State, c: int, guard: nat): State
    requires c in s.cps
  {
    s.(cps := s.cps[c := s.cps[c].(enterCnt := s.cps[c].enterCnt + 1)], guards := s.guards[guard := c])
  }

  /** cp_io_exit: the last guard of a prepared CP starts its flush. */
  function ExitStep(s: State, guard: nat): State
    requires guard in s.guards && s.guards[guard] in s.cps
  {
    var c := s.guards[guard];
    var cp := s.cps[c].(enterCnt := s.cps[c].enterCnt - 1);
    var t := s.(guards := s.guards - {guard});
    if cp.enterCnt == 0 && cp.status == FlushPrepare then
      t.(cps := s.cps[c := cp.(status := Flushing)], flushStarts := s.flushStarts + [c])
    else
      t.(cps := s.cps[c := cp])
  }

  /** do_trigger_cp_flush up to the trigger state. `blocked`: shutdown has begun and this call is not
      part of it. `nested`: a guard the calling thread already holds. */
  function CallStep(s: State, fut: nat, force: bool, blocked: bool, nested: Option<nat>, guard: nat): State
    requires s.cur in s.cps
    requires nested.Some? ==> nested.value in s.guards && s.guards[nested.value] in s.cps
  {
    var t := s.(callCp := s.callCp[fut := s.cur]);
    if s.inFlush then
      if force && !blocked then t.(pending := true, pendingFuts := if s.pending then s.pendingFuts + {fut} else {fut})
      else t.(results := s.results[fut := false])
    else
      var c := if nested.Some? then s.guards[nested.value] else s.cur;
      SetStatus(Ref(t.(inFlush := true, trigger := Begun(guard, fut)), c, guard), c, Triggered)
  }

  /** The rest of do_trigger_cp_flush under the mutex: attach the promise, prepare the CP for flush,
      create its successor and exchange the pointer. */
  function SwapStep(s: State): State
    requires s.trigger.Begun? && s.trigger.guard in s.guards && s.guards[s.trigger.guard] in s.cps
  {
    var c := s.guards[s.trigger.guard];
    var futs := (if s.pending then s.pendingFuts else {}) + {s.trigger.fut};
    s.(cps := s.cps[c := s.cps[c].(status := FlushPrepare, futs := futs)][c + 1 := Cp(IoReady, 0, {})],
       cur := c + 1, pending := false, pendingFuts := if s.pending then {} else s.pendingFuts,
       trigger := Swapped(s.trigger.guard, s.entering.Keys))
  }

  function Leave(trigger: Trigger, thread: nat): Trigger {
    if trigger.Swapped? then trigger.(readers := trigger.readers - {thread}) else trigger
  }

  ghost predicate Enabled(s: State, step: Step) {
    match step
    case EnterRead(t) => t !in s.entering
    case EnterCount(t, g) => t in s.entering && g !in s.guards
    case Nest(from, g) => from in s.guards && g !in s.guards
    case Exit(g) => g in s.guards && (s.trigger == Idle || g != s.trigger.guard)
    case Call(f, _, _, nested, g) =>
      s.trigger == Idle && f !in s.callCp && g !in s.guards && (nested.Some? ==> nested.value in s.guards)
    case Swap => s.trigger.Begun?
    case Synced => s.trigger.Swapped? && s.trigger.readers == {}
    case WriteJournal => s.cur - 1 in s.cps && s.cps[s.cur - 1].status == Flushing
    case Done => s.cur - 1 in s.cps && s.cps[s.cur - 1].status == Flushing
    case Record => s.cur - 1 in s.cps && s.cps[s.cur - 1].status == FlushDone
    case Release => s.releasing && s.trigger == Idle
    case Complete(f) => f in s.toComplete
    case Crash => true
  }

  /** No step dereferences a CP that is gone. */
  ghost predicate Defined(s: State, step: Step) {
    match step
    case EnterCount(t, _) => t in s.entering && s.entering[t] in s.cps
    case Nest(from, _) => from in s.guards && s.guards[from] in s.cps
    case Exit(g) => g in s.guards && s.guards[g] in s.cps
    case Call(_, _, _, nested, _) =>
      s.cur in s.cps && (nested.Some? ==> nested.value in s.guards && s.guards[nested.value] in s.cps)
    case Swap => s.trigger.Begun? && s.trigger.guard in s.guards && s.guards[s.trigger.guard] in s.cps
    case Done => s.cur - 1 in s.cps
    case Record => s.cur - 1 in s.cps
    case _ => true
  }

  /** One step; a step that is not enabled does nothing. */
  ghost function Apply(s: State, step: Step): State {
    if !Enabled(s, step) || !Defined(s, step) then s
    else
      match step
      case EnterRead(t) => s.(entering := s.entering[t := s.cur])
      case EnterCount(t, g) => Ref(s.(entering := s.entering - {t}, trigger := Leave(s.trigger, t)), s.entering[t], g)
      case Nest(from, g) => Ref(s, s.guards[from], g)
      case Exit(g) => ExitStep(s, g)
      case Call(f, force, blocked, nested, g) => CallStep(s, f, force, blocked, nested, g)
      case Swap => SwapStep(s)
      case Synced => s.(trigger := Idle)
      case WriteJournal => s.(journal := Some(s.cur - 1))
      case Done => SetStatus(s, s.cur - 1, FlushDone)
      case Record =>
        s.(lastFlushed := s.lastFlushed + 1, cps := s.cps - {s.cur - 1}, releasing := true,
           toComplete := s.toComplete + s.cps[s.cur - 1].futs)
      case Release => s.(inFlush := false, releasing := false)
      case Complete(f) => s.(toComplete := s.toComplete - {f}, results := s.results[f := true])
      case Crash => Boot(s.lastFlushed, s.journal)
  }

  ghost function Exec(s: State, steps: seq<Step>): State {
    if steps == [] then s else Apply(Exec(s, steps[..|steps| - 1]), steps[|steps| - 1])
  }

  // ---------- the invariant ----------

  ghost function On(guards: map<nat, int>, c: int): set<nat> {
    set g | g in guards && guards[g] == c
  }

  /** Ids are consecutive and tied to the superblock: at most the current CP and the one before it
      exist, and the one before it is the first that the superblock does not record. */
  ghost predicate Ids(cps: map<int, Cp>, cur: int, lastFlushed: int) {
    && cur in cps && (forall c :: c in cps ==> c == cur || c == cur - 1)
    && lastFlushed == (if cur - 1 in cps then cur - 2 else cur - 1)
  }

  ghost predicate Phases(cps: map<int, Cp>, cur: int, trigger: Trigger, inFlush: bool, releasing: bool) {
    && cur in cps
    && cps[cur].status == (if trigger.Begun? then Triggered else IoReady)
    && cps[cur].futs == {}
    && inFlush == (trigger.Begun? || cur - 1 in cps || releasing)
    && (releasing ==> cur - 1 !in cps && trigger == Idle)
    && (trigger.Begun? ==> cur - 1 !in cps)
    && (trigger.Swapped? ==> cur - 1 in cps && cps[cur - 1].status == FlushPrepare)
    && (cur - 1 in cps ==> cps[cur - 1].status in {FlushPrepare, Flushing, FlushDone})
  }

  /** Enter counts are exact. No guard refers to a CP that is being flushed or is gone, and a CP that
      is prepared for flush still has a guard, so its flush will be started. */
  ghost predicate Guards(cps: map<int, Cp>, guards: map<nat, int>, cur: int, trigger: Trigger) {
    && (forall c :: c in cps ==> cps[c].enterCnt == |On(guards, c)|)
    && (forall g :: g in guards ==> guards[g] in cps && (guards[g] == cur || cps[guards[g]].status == FlushPrepare))
    && (forall c :: c in cps && cps[c].status == FlushPrepare ==> On(guards, c) != {})
    && (trigger != Idle ==>
         trigger.guard in guards && guards[trigger.guard] == (if trigger.Begun? then cur else cur - 1))
  }

  /** A thread between reading the pointer and counting itself in has the current CP, or the trigger
      is still waiting for it. */
  ghost predicate Readers(entering: map<nat, int>, cur: int, trigger: Trigger) {
    forall t :: t in entering ==>
      entering[t] == cur || (entering[t] == cur - 1 && trigger.Swapped? && t in trigger.readers)
  }

  /** Flushes were started once each, in order of their ids. */
  ghost predicate Starts(cps: map<int, Cp>, cur: int, lastFlushed: int, first: int, flushStarts: seq<int>) {
    && first <= lastFlushed + 1
    && (forall i :: 0 <= i < |flushStarts| ==> flushStarts[i] == first + i)
    && |flushStarts| ==
         lastFlushed + 1 - first + (if cur - 1 in cps && cps[cur - 1].status != FlushPrepare then 1 else 0)
  }

  ghost predicate Asked(callCp: map<nat, int>, futs: set<nat>, c: int) {
    forall f :: f in futs ==> f in callCp && callCp[f] == c
  }

  /** Futures wait on the CP that was current when they were asked for. */
  ghost predicate Waiting(s: State) {
    && (s.pending ==> Asked(s.callCp, s.pendingFuts, s.cur))
    && (s.trigger.Begun? ==> Asked(s.callCp, {s.trigger.fut}, s.cur))
    && (s.cur - 1 in s.cps ==> Asked(s.callCp, s.cps[s.cur - 1].futs, s.cur - 1))
  }

  /** Futures complete true only after that CP is recorded. */
  ghost predicate Completed(callCp: map<nat, int>, toComplete: set<nat>, results: map<nat, bool>, lastFlushed: int) {
    && (forall f :: f in toComplete ==> f in callCp && callCp[f] <= lastFlushed)
    && (forall f :: f in results && results[f] ==> f in callCp && callCp[f] <= lastFlushed)
  }

  ghost predicate Inv(s: State) {
    && Ids(s.cps, s.cur, s.lastFlushed)
    && Phases(s.cps, s.cur, s.trigger, s.inFlush, s.releasing)
    && Guards(s.cps, s.guards, s.cur, s.trigger)
    && Readers(s.entering, s.cur, s.trigger)
    && Starts(s.cps, s.cur, s.lastFlushed, s.first, s.flushStarts)
    && Waiting(s)
    && Completed(s.callCp, s.toComplete, s.results, s.lastFlushed)
    && (s.journal.Some? ==> s.journal.value <= s.lastFlushed + 1)
  }

  // ---------- every step keeps it ----------

  lemma RefCount(guards: map<nat, int>, g: nat, c: int)
    requires g !in guards
    ensures forall d :: On(guards[g := c], d) == if d == c then On(guards, d) + {g} else On(guards, d)
    ensures forall d :: |On(guards[g := c], d)| == |On(guards, d)| + (if d == c then 1 else 0)
  {
    forall d ensures On(guards[g := c], d) == if d == c then On(guards, d) + {g} else On(guards, d) {
    }
  }

  lemma UnrefCount(guards: map<nat, int>, g: nat)
    requires g in guards
    ensures forall d :: On(guards - {g}, d) == if d == guards[g] then On(guards, d) - {g} else On(guards, d)
    ensures forall d :: |On(guards - {g}, d)| == |On(guards, d)| - (if d == guards[g] then 1 else 0)
  {
    forall d ensures On(guards - {g}, d) == if d == guards[g] then On(guards, d) - {g} else On(guards, d) {
    }
  }

  lemma BootInv(lastFlushed: int, journal: Option<int>)
    requires journal.Some? ==> journal.value <= lastFlushed + 1
    ensures Inv(Boot(lastFlushed, journal))
  {
  }

  lemma RefKeeps(s: State, c: int, g: nat)
    requires Inv(s) && c in s.cps && g !in s.guards && (c == s.cur || s.cps[c].status == FlushPrepare)
    ensures Inv(Ref(s, c, g))
  {
    hide On, Guards, Completed, Readers, Asked;
    RefGuards(s.cps, s.guards, s.cur, s.trigger, c, g);
  }

  lemma RefGuards(cps: map<int, Cp>, guards: map<nat, int>, cur: int, trigger: Trigger, c: int, g: nat)
    requires Guards(cps, guards, cur, trigger) && c in cps && g !in guards
    requires c == cur || cps[c].status == FlushPrepare
    ensures Guards(cps[c := cps[c].(enterCnt := cps[c].enterCnt + 1)], guards[g := c], cur, trigger)
  {
    hide On;
    RefCount(guards, g, c);
  }

  lemma EnterKeeps(s: State, t: nat, g: nat)
    requires Inv(s) && Enabled(s, EnterCount(t, g))
    ensures Inv(Apply(s, EnterCount(t, g))) && Defined(s, EnterCount(t, g))
  {
    hide On;
    var s' := s.(entering := s.entering - {t}, trigger := Leave(s.trigger, t));
    assert Inv(s');
    RefKeeps(s', s.entering[t], g);
  }

  lemma OnMembers(guards: map<nat, int>)
    ensures forall g :: g in guards ==> g in On(guards, guards[g])
    ensures forall g, c :: g in On(guards, c) ==> g in guards && guards[g] == c
  {
  }

  /** Leaving a CP that is not prepared for flush, or is not left empty by this. */
  lemma StayGuards(cps: map<int, Cp>, guards: map<nat, int>, cur: int, trigger: Trigger, g: nat)
    requires Guards(cps, guards, cur, trigger) && g in guards && (trigger != Idle ==> g != trigger.guard)
    requires guards[g] in cps && (cps[guards[g]].enterCnt != 1 || cps[guards[g]].status != FlushPrepare)
    ensures Guards(
      cps[guards[g] := cps[guards[g]].(enterCnt := cps[guards[g]].enterCnt - 1)], guards - {g}, cur, trigger)
  {
    hide On;
    UnrefCount(guards, g);
  }

  /** Leaving a prepared CP as the last one. */
  lemma StartGuards(cps: map<int, Cp>, guards: map<nat, int>, cur: int, trigger: Trigger, g: nat)
    requires Guards(cps, guards, cur, trigger) && g in guards && (trigger != Idle ==> g != trigger.guard)
    requires guards[g] in cps && cps[guards[g]].enterCnt == 1
    ensures Guards(cps[guards[g] := cps[guards[g]].(enterCnt := 0, status := Flushing)], guards - {g}, cur, trigger)
    ensures trigger != Idle ==> guards[trigger.guard] != guards[g]
  {
    hide On;
    UnrefCount(guards, g);
    OnMembers(guards - {g});
    var c := guards[g];
    assert On(guards - {g}, c) == {};
    assert forall h :: h in guards - {g} ==> (guards - {g})[h] != c;
  }

  lemma StayKeeps(s: State, g: nat)
    requires Inv(s) && Enabled(s, Exit(g)) && s.guards[g] in s.cps
    requires s.cps[s.guards[g]].enterCnt != 1 || s.cps[s.guards[g]].status != FlushPrepare
    ensures Inv(ExitStep(s, g))
  {
    hide On, Guards, Completed, Readers, Asked;
    StayGuards(s.cps, s.guards, s.cur, s.trigger, g);
  }

  lemma StartKeeps(s: State, g: nat)
    requires Inv(s) && Enabled(s, Exit(g)) && s.guards[g] in s.cps
    requires s.cps[s.guards[g]].enterCnt == 1 && s.cps[s.guards[g]].status == FlushPrepare
    requires s.trigger.Swapped? ==> s.trigger.guard in s.guards && s.guards[s.trigger.guard] == s.cur - 1
    ensures Inv(ExitStep(s, g))
  {
    hide On, Guards, Completed, Readers, Asked;
    StartGuards(s.cps, s.guards, s.cur, s.trigger, g);
  }

  lemma ExitKeeps(s: State, g: nat)
    requires Inv(s) && Enabled(s, Exit(g))
    ensures Inv(Apply(s, Exit(g))) && Defined(s, Exit(g))
  {
    hide On;
    if s.cps[s.guards[g]].enterCnt == 1 && s.cps[s.guards[g]].status == FlushPrepare {
      StartKeeps(s, g);
    } else {
      StayKeeps(s, g);
    }
  }

  lemma TriggerKeeps(s: State, f: nat, nested: Option<nat>, g: nat)
    requires Inv(s) && Enabled(s, Call(f, true, false, nested, g)) && !s.inFlush
    ensures var t := s.(callCp := s.callCp[f := s.cur], inFlush := true, trigger := Begun(g, f));
            Inv(SetStatus(Ref(t, s.cur, g), s.cur, Triggered))
  {
    hide On, Guards;
    TriggerGuards(s.cps, s.guards, s.cur, g, f);
    var cp := s.cps[s.cur];
    assert s.cps[s.cur := cp.(enterCnt := cp.enterCnt + 1)]
             [s.cur := cp.(enterCnt := cp.enterCnt + 1, status := Triggered)]
        == s.cps[s.cur := cp.(enterCnt := cp.enterCnt + 1, status := Triggered)];
  }

  lemma TriggerGuards(cps: map<int, Cp>, guards: map<nat, int>, cur: int, g: nat, f: nat)
    requires Guards(cps, guards, cur, Idle) && cur in cps && g !in guards && cps[cur].status != FlushPrepare
    ensures Guards(
      cps[cur := cps[cur].(enterCnt := cps[cur].enterCnt + 1, status := Triggered)], guards[g := cur], cur, Begun(g, f))
  {
    hide On;
    RefCount(guards, g, cur);
  }

  lemma CallDefined(s: State, step: Step)
    requires Inv(s) && step.Call? && Enabled(s, step)
    ensures Defined(s, step) && s.cur in s.cps
  {
    hide On, Starts, Waiting, Completed, Readers;
  }

  lemma JoinKeeps(s: State, f: nat, force: bool, blocked: bool, nested: Option<nat>, g: nat)
    requires Inv(s) && Enabled(s, Call(f, force, blocked, nested, g)) && s.inFlush
    ensures Defined(s, Call(f, force, blocked, nested, g)) && Inv(CallStep(s, f, force, blocked, nested, g))
  {
    hide Ids, Phases, Guards, Readers, Starts;
    CallDefined(s, Call(f, force, blocked, nested, g));
  }

  lemma CallIsTrigger(s: State, f: nat, force: bool, blocked: bool, nested: Option<nat>, g: nat)
    requires Inv(s) && Enabled(s, Call(f, force, blocked, nested, g)) && !s.inFlush
    ensures Defined(s, Call(f, force, blocked, nested, g))
    ensures var t := s.(callCp := s.callCp[f := s.cur], inFlush := true, trigger := Begun(g, f));
            s.cur in s.cps && CallStep(s, f, force, blocked, nested, g) == SetStatus(Ref(t, s.cur, g), s.cur, Triggered)
  {
    hide On;
  }

  /** When no flush is in progress every guard, the caller's own included, is on the current CP. */
  lemma CallKeeps(s: State, f: nat, force: bool, blocked: bool, nested: Option<nat>, g: nat)
    requires Inv(s) && Enabled(s, Call(f, force, blocked, nested, g))
    ensures Inv(Apply(s, Call(f, force, blocked, nested, g))) && Defined(s, Call(f, force, blocked, nested, g))
  {
    if s.inFlush {
      JoinKeeps(s, f, force, blocked, nested, g);
    } else {
      hide Inv;
      CallIsTrigger(s, f, force, blocked, nested, g);
      TriggerKeeps(s, f, nested, g);
    }
  }

  lemma NoneOn(guards: map<nat, int>, c: int)
    requires forall g :: g in guards ==> guards[g] != c
    ensures On(guards, c) == {}
  {
  }

  lemma SwapKeeps(s: State)
    requires Inv(s) && Enabled(s, Swap)
    ensures Inv(Apply(s, Swap)) && Defined(s, Swap)
  {
    hide On;
    OnMembers(s.guards);
    NoneOn(s.guards, s.cur + 1);
  }

  lemma ReadKeeps(s: State, t: nat)
    requires Inv(s) && Enabled(s, EnterRead(t))
    ensures Inv(Apply(s, EnterRead(t)))
  {
    hide On, Guards, Asked, Completed, Starts, Ids, Phases;
  }

  lemma SyncedKeeps(s: State)
    requires Inv(s) && Enabled(s, Synced)
    ensures Inv(Apply(s, Synced))
  {
    hide On;
  }

  lemma JournalKeeps(s: State)
    requires Inv(s) && Enabled(s, WriteJournal)
    ensures Inv(Apply(s, WriteJournal))
  {
    hide On, Asked, Completed;
  }

  lemma DoneKeeps(s: State)
    requires Inv(s) && Enabled(s, Done)
    ensures Inv(Apply(s, Done))
  {
    hide On;
  }

  lemma RecordKeeps(s: State)
    requires Inv(s) && Enabled(s, Record)
    ensures Inv(Apply(s, Record))
  {
    hide On;
  }

  lemma ReleaseKeeps(s: State)
    requires Inv(s) && Enabled(s, Release)
    ensures Inv(Apply(s, Release))
  {
    hide On, Asked, Completed;
  }

  lemma CompleteKeeps(s: State, f: nat)
    requires Inv(s) && Enabled(s, Complete(f))
    ensures Inv(Apply(s, Complete(f)))
  {
    hide On;
  }

  lemma NestKeeps(s: State, from: nat, g: nat)
    requires Inv(s) && Enabled(s, Nest(from, g))
    ensures Inv(Apply(s, Nest(from, g))) && Defined(s, Nest(from, g))
  {
    hide On;
    RefKeeps(s, s.guards[from], g);
  }

  lemma CrashKeeps(s: State)
    requires Inv(s)
    ensures Inv(Boot(s.lastFlushed, s.journal))
  {
    BootInv(s.lastFlushed, s.journal);
  }

  /** Every step keeps the invariant, and no step touches a CP that is gone. */
  lemma StepKeeps(s: State, step: Step)
    requires Inv(s)
    ensures Inv(Apply(s, step))
    ensures Enabled(s, step) ==> Defined(s, step)
  {
    if Enabled(s, step) {
      hide Inv;
      match step
      case EnterCount(t, g) => EnterKeeps(s, t, g);
      case Nest(from, g) => NestKeeps(s, from, g);
      case Exit(g) => ExitKeeps(s, g);
      case Call(f, force, blocked, nested, g) => CallKeeps(s, f, force, blocked, nested, g);
      case Swap => SwapKeeps(s);
      case Crash => CrashKeeps(s);
      case EnterRead(t) => ReadKeeps(s, t);
      case Synced => SyncedKeeps(s);
      case WriteJournal => JournalKeeps(s);
      case Done => DoneKeeps(s);
      case Record => RecordKeeps(s);
      case Release => ReleaseKeeps(s);
      case Complete(f) => CompleteKeeps(s, f);
    }
  }

  // ---------- the theorems about whole runs ----------

  lemma {:induction false} RunKeeps(s: State, steps: seq<Step>)
    requires Inv(s)
    ensures Inv(Exec(s, steps))
  {
    hide Inv, Apply;
    if steps != [] {
      RunKeeps(s, steps[..|steps| - 1]);
      StepKeeps(Exec(s, steps[..|steps| - 1]), steps[|steps| - 1]);
    }
  }

  ghost predicate InFlushPhase(s: State, c: int) {
    c in s.cps && s.cps[c].status in {FlushPrepare, Flushing, FlushDone}
  }

  /** The flush of this CP has started and is not recorded yet. */
  ghost predicate Started(s: State, c: int) {
    c in s.cps && s.cps[c].status in {Flushing, FlushDone}
  }

  /** In every run of the checkpoint manager, crashes included: at most one CP is in flush phase, and
      it is the first one that the superblock does not record; ids are consecutive; flushes start
      once per CP, in order, and for every CP recorded since the restart; no guard refers to a
      CP that is being flushed or later; and a future completes true only
      after the CP that was current at the call is recorded as flushed. */
  lemma CheckpointRun(lastFlushed: int, journal: Option<int>, steps: seq<Step>)
    requires journal.Some? ==> journal.value <= lastFlushed + 1
    ensures var s := Exec(Boot(lastFlushed, journal), steps);
      && s.cur in s.cps
      && (forall c :: InFlushPhase(s, c) <==> c in s.cps && c != s.cur)
      && (forall c :: InFlushPhase(s, c) ==> c == s.lastFlushed + 1 == s.cur - 1)
      && (s.lastFlushed + 1 == s.cur || InFlushPhase(s, s.lastFlushed + 1))
      && (forall i, j :: 0 <= i < j < |s.flushStarts| ==> s.flushStarts[j] - s.flushStarts[i] == j - i)
      && (forall c :: c in s.flushStarts <==> s.first <= c <= s.lastFlushed || Started(s, c))
      && (forall g :: g in s.guards ==> s.guards[g] in s.cps && s.cps[s.guards[g]].status !in {Flushing, FlushDone})
      && (forall f :: f in s.results && s.results[f] ==> f in s.callCp && s.callCp[f] <= s.lastFlushed)
  {
    hide Inv, Exec, Boot;
    BootInv(lastFlushed, journal);
    RunKeeps(Boot(lastFlushed, journal), steps);
    InvMeans(Exec(Boot(lastFlushed, journal), steps));
  }

  lemma InvMeans(s: State)
    requires Inv(s)
    ensures s.cur in s.cps
    ensures forall c :: InFlushPhase(s, c) <==> c in s.cps && c != s.cur
    ensures forall c :: InFlushPhase(s, c) ==> c == s.lastFlushed + 1 == s.cur - 1
    ensures s.lastFlushed + 1 == s.cur || InFlushPhase(s, s.lastFlushed + 1)
    ensures forall i, j :: 0 <= i < j < |s.flushStarts| ==> s.flushStarts[j] - s.flushStarts[i] == j - i
    ensures forall c :: c in s.flushStarts <==> s.first <= c <= s.lastFlushed || Started(s, c)
    ensures forall g :: g in s.guards ==> s.guards[g] in s.cps && s.cps[s.guards[g]].status !in {Flushing, FlushDone}
    ensures forall f :: f in s.results && s.results[f] ==> f in s.callCp && s.callCp[f] <= s.lastFlushed
  {
    hide On, Readers, Waiting;
    StartedAre(s);
  }

  lemma StartedAre(s: State)
    requires Inv(s)
    ensures forall c :: c in s.flushStarts <==> s.first <= c <= s.lastFlushed || Started(s, c)
  {
    hide On, Readers, Waiting, Guards, Completed;
    forall c
      ensures c in s.flushStarts <==> s.first <= c < s.first + |s.flushStarts|
    {
      if s.first <= c < s.first + |s.flushStarts| {
        assert s.flushStarts[c - s.first] == c;
      }
    }
    assert forall c :: Started(s, c) <==> c == s.cur - 1 && c in s.cps && s.cps[c].status != FlushPrepare;
  }

  lemma OnlyExitStarts(s: State, step: Step)
    requires step != Crash && Apply(s, step).flushStarts != s.flushStarts
    ensures step.Exit? && Enabled(s, step) && Defined(s, step) && Apply(s, step) == ExitStep(s, step.guard)
    ensures var c := s.guards[step.guard]; s.cps[c].enterCnt == 1 && s.cps[c].status == FlushPrepare
  {
  }

  /** A flush starts only when a guard leaves, and then nothing holds the CP or is about to. */
  lemma FlushStartsUnguarded(s: State, step: Step)
    requires Inv(s) && step != Crash && Apply(s, step).flushStarts != s.flushStarts
    ensures var t := Apply(s, step);
      && t.flushStarts == s.flushStarts + [s.cur - 1] && t.cur == s.cur
      && (forall g :: g in t.guards ==> t.guards[g] != s.cur - 1)
      && (forall r :: r in t.entering ==> t.entering[r] != s.cur - 1)
      && (s.cur - 1) !in s.flushStarts
  {
    hide On, Waiting, Completed, Apply;
    OnlyExitStarts(s, step);
    StartKeepsTrigger(s, step.guard);
    StartGuards(s.cps, s.guards, s.cur, s.trigger, step.guard);
  }

  lemma StartKeepsTrigger(s: State, g: nat)
    requires Inv(s) && Enabled(s, Exit(g)) && s.guards[g] in s.cps && s.cps[s.guards[g]].enterCnt == 1
    ensures s.trigger.Swapped? ==> s.guards[g] != s.cur - 1
  {
    hide On;
    StartGuards(s.cps, s.guards, s.cur, s.trigger, g);
  }

  /** On restart a persisted transaction journal is replayed, that is, carries the id of the first
      CP, if and only if its CP was not yet recorded as flushed. */
  lemma JournalReplayedIff(lastFlushed: int, journal: Option<int>, steps: seq<Step>)
    requires journal.Some? ==> journal.value <= lastFlushed + 1
    ensures var s := Exec(Boot(lastFlushed, journal), steps);
            var b := Apply(s, Crash);
            s.journal.Some? ==> (b.journal.value == b.cur <==> s.journal.value > s.lastFlushed)
  {
    hide Exec, Inv, Apply;
    BootInv(lastFlushed, journal);
    RunKeeps(Boot(lastFlushed, journal), steps);
    CrashIs(Exec(Boot(lastFlushed, journal), steps));
  }

  lemma CrashIs(s: State)
    requires Inv(s)
    ensures Apply(s, Crash) == Boot(s.lastFlushed, s.journal)
    ensures s.journal.Some? ==> s.journal.value <= s.lastFlushed + 1
  {
    hide Ids, Phases, Guards, Readers, Starts, Waiting, Completed;
  }

  // ---------- what consumers see ----------

  /** The status of the CP before the current one, if it still exists. */
  ghost function Prev(s: State): Option<Status> {
    if s.cur - 1 in s.cps then Some(s.cps[s.cur - 1].status) else None
  }

  /** The manager refines a simple cycle: no older CP; one being prepared; flushing; done; recorded. */
  ghost predicate Cycle(s: State, t: State) {
    t.first == s.first && (SamePhase(s, t) || NextPhase(s, t) || Ends(s, t))
  }

  ghost predicate SamePhase(s: State, t: State) {
    t.cur == s.cur && t.lastFlushed == s.lastFlushed && Prev(t) == Prev(s)
  }

  ghost predicate NextPhase(s: State, t: State) {
    || (t.cur == s.cur + 1 && t.lastFlushed == s.lastFlushed && Prev(s) == None && Prev(t) == Some(FlushPrepare))
    || (t.cur == s.cur && t.lastFlushed == s.lastFlushed && Prev(s) == Some(FlushPrepare) && Prev(t) == Some(Flushing))
    || (t.cur == s.cur && t.lastFlushed == s.lastFlushed + 1 && Prev(s) == Some(FlushDone) && Prev(t) == None)
  }

  ghost predicate Ends(s: State, t: State) {
    t.cur == s.cur && t.lastFlushed == s.lastFlushed && Prev(s) == Some(Flushing) && Prev(t) == Some(FlushDone)
  }

  lemma CallIsCycle(s: State, step: Step)
    requires Inv(s) && step.Call?
    ensures Cycle(s, Apply(s, step)) && !Ends(s, Apply(s, step))
  {
    hide Inv, Prev, Ref, CallStep, SetStatus, Cycle, Ends;
    if Enabled(s, step) {
      CallDefined(s, step);
      if !s.inFlush {
        CallIsTrigger(s, step.fut, step.force, step.blocked, step.nested, step.guard);
        TriggeredIsQuiet(s, step.fut, step.guard);
      } else {
        JoinedIsQuiet(s, step);
      }
    }
    QuietIsCycle(s, Apply(s, step));
  }

  lemma TriggeredIsQuiet(s: State, fut: nat, guard: nat)
    requires s.cur in s.cps
    ensures var t := s.(callCp := s.callCp[fut := s.cur], inFlush := true, trigger := Begun(guard, fut));
            var u := SetStatus(Ref(t, s.cur, guard), s.cur, Triggered);
            u.cur == s.cur && u.lastFlushed == s.lastFlushed && u.first == s.first && Prev(u) == Prev(s)
  {
  }

  lemma JoinedIsQuiet(s: State, step: Step)
    requires step.Call? && s.inFlush && Defined(s, step)
    ensures var u := CallStep(s, step.fut, step.force, step.blocked, step.nested, step.guard);
            u.cur == s.cur && u.lastFlushed == s.lastFlushed && u.first == s.first && Prev(u) == Prev(s)
  {
  }

  lemma ExitIsCycle(s: State, g: nat)
    requires Inv(s)
    ensures Cycle(s, Apply(s, Exit(g))) && !Ends(s, Apply(s, Exit(g)))
  {
    hide Inv, ExitStep, Cycle, Ends;
    if Enabled(s, Exit(g)) {
      GuardPlace(s, g);
      ExitStepIs(s, g);
    } else {
      QuietIsCycle(s, s);
    }
  }

  lemma GuardPlace(s: State, g: nat)
    requires Inv(s) && g in s.guards
    ensures var c := s.guards[g];
            c in s.cps &&
            (if c == s.cur then s.cps[c].status != FlushPrepare else c == s.cur - 1 && s.cps[c].status == FlushPrepare)
  {
    hide On, Starts, Waiting, Completed, Readers;
  }

  lemma ExitStepIs(s: State, g: nat)
    requires g in s.guards
    requires var c := s.guards[g];
             c in s.cps &&
             (if c == s.cur then s.cps[c].status != FlushPrepare else c == s.cur - 1 && s.cps[c].status == FlushPrepare)
    ensures Cycle(s, ExitStep(s, g)) && !Ends(s, ExitStep(s, g))
  {
  }

  /** A step that leaves the ids and the status of the older CP alone. */
  lemma QuietIsCycle(s: State, t: State)
    requires t.cur == s.cur && t.lastFlushed == s.lastFlushed && t.first == s.first && Prev(t) == Prev(s)
    ensures Cycle(s, t) && !Ends(s, t)
  {
  }

  lemma RefIsQuiet(s: State, c: int, g: nat)
    requires c in s.cps
    ensures var t := Ref(s, c, g);
            t.cur == s.cur && t.lastFlushed == s.lastFlushed && t.first == s.first && Prev(t) == Prev(s)
  {
  }

  lemma SwapIsCycle(s: State)
    requires Inv(s)
    ensures Cycle(s, Apply(s, Swap)) && !Ends(s, Apply(s, Swap))
  {
    hide On, Starts, Waiting, Completed, Readers;
  }

  lemma RecordIsCycle(s: State)
    requires Inv(s)
    ensures Cycle(s, Apply(s, Record)) && !Ends(s, Apply(s, Record))
  {
    hide On, Starts, Waiting, Completed, Readers, Guards;
  }

  lemma EnterIsCycle(s: State, step: Step)
    requires step.EnterCount? || step.Nest?
    ensures Cycle(s, Apply(s, step)) && !Ends(s, Apply(s, step))
  {
    hide Prev, Ref;
    if Enabled(s, step) && Defined(s, step) {
      if step.Nest? {
        RefIsQuiet(s, s.guards[step.from], step.guard);
      } else {
        var t := s.(entering := s.entering - {step.thread}, trigger := Leave(s.trigger, step.thread));
        LeftIsQuiet(s, t);
        RefIsQuiet(t, s.entering[step.thread], step.guard);
      }
    }
    QuietIsCycle(s, Apply(s, step));
  }

  lemma LeftIsQuiet(s: State, t: State)
    requires t.cps == s.cps && t.cur == s.cur
    ensures Prev(t) == Prev(s)
  {
  }

  lemma StepIsCycle(s: State, step: Step)
    requires Inv(s) && step != Crash
    ensures Cycle(s, Apply(s, step)) && (Ends(s, Apply(s, step)) ==> step == Done)
  {
    hide Inv, Ref, ExitStep, CallStep, SwapStep;
    match step
    case Call(_, _, _, _, _) => CallIsCycle(s, step);
    case Exit(g) => ExitIsCycle(s, g);
    case Swap => SwapIsCycle(s);
    case Record => RecordIsCycle(s);
    case EnterCount(_, _) => EnterIsCycle(s, step);
    case Nest(_, _) => EnterIsCycle(s, step);
    case _ =>
  }

  /** A guard holds the current CP, or one that is prepared for flush. */
  lemma GuardHolds(s: State, g: nat)
    requires Inv(s) && g in s.guards
    ensures s.guards[g] == s.cur || (s.guards[g] == s.cur - 1 && Prev(s) == Some(FlushPrepare))
    ensures s.lastFlushed == (if Prev(s) == None then s.cur - 1 else s.cur - 2)
  {
    hide On, Starts, Waiting, Completed, Readers;
  }
}
