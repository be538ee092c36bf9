/**
 One cycle at a time (pkg/cyclegate.go, main.go pollLoop, pkg/handler/trigger_handler.go): the
 ticker and any number of triggers share a slot and a cursor file. Every load, visit, completion
 check and save is a step of its own, and steps of different actors interleave freely.
 */
module Gate {
  import opened GitHub
  import opened Cycle
  import opened Runs

  /** The capacity-1 channel: a try-send and a try-receive. */
  class CycleGate {
    var full: bool

    constructor ()
      ensures !full
    {
      full := false;
    }

    method TryAcquire() returns (ok: bool)
      modifies this
      ensures ok == !old(full) && full
    {
      if full {
        return false;
      }
      full := true;
      return true;
    }

    method Release()
      modifies this
      ensures !full
    {
      if full {
        full := false;
      }
    }
  }

  // ----------------------------------------------------------------- system

  /** Actor 0 is the ticker; every other actor is a trigger request. */
  const TICKER: nat := 0

  /**
   Where an actor that took the slot stands; an actor without a phase is idle. A poll holds its own
   copy of the cursor and the steps that follow from what it loaded, `done` of them behind it.
   */
  datatype Phase =
    | Starting
    | Ready
    | Polling(mem: View, input: PollInput, plan: seq<Move>, done: nat)
    | Finished

  datatype Answer = Conflict | InternalError | Accepted

  /**
   A finished turn at the cursor: a whole poll, an unreadable file, a poll stopped after `done`
   steps, or the file lost between polls.
   */
  datatype Turn = Whole(input: PollInput) | Unread | Cut(input: PollInput, done: nat) | FileLost

  datatype System = System(
    full: bool,
    phases: map<nat, Phase>,
    disk: View,
    trace: seq<Event>,
    turns: seq<Turn>,
    answers: seq<(nat, Answer)>)

  datatype Act =
    | TryAcquire(actor: nat)
    | StartOk(actor: nat)
    | StartFails(actor: nat)
    | Begin(actor: nat, input: PollInput, readable: bool)
    | Advance(actor: nat)
    | Return(actor: nat)
    | Panic(actor: nat)
    | Release(actor: nat)
    | Crash(actor: nat)
    | LoseFile

  predicate InPhase(s: System, actor: nat) {
    actor in s.phases
  }

  predicate SomePolling(s: System) {
    exists b :: b in s.phases && s.phases[b].Polling?
  }

  function Enter(s: System, actor: nat, phase: Phase): System {
    s.(phases := s.phases[actor := phase])
  }

  function EndTurn(s: System, actor: nat, turn: Turn): System {
    Enter(s, actor, Finished).(turns := s.turns + [turn])
  }

  /** One step; an act that is not possible changes nothing. */
  function Apply(s: System, act: Act): System {
    match act
    case TryAcquire(a) =>
      if InPhase(s, a) then s
      else if s.full then
        if a == TICKER then s else s.(answers := s.answers + [(a, Conflict)])
      else Enter(s, a, if a == TICKER then Ready else Starting).(full := true)
    case StartOk(a) =>
      if InPhase(s, a) && s.phases[a].Starting?
      then Enter(s, a, Ready).(answers := s.answers + [(a, Accepted)]) else s
    case StartFails(a) =>
      if InPhase(s, a) && s.phases[a].Starting?
      then s.(full := false, phases := s.phases - {a}, answers := s.answers + [(a, InternalError)]) else s
    case Begin(a, p, readable) =>
      if !(InPhase(s, a) && s.phases[a].Ready?) then s
      else if !readable then EndTurn(s, a, Unread)
      else
        var w := Do(World(s.disk, s.disk, s.trace), Load);
        Enter(s, a, Polling(w.mem, p, PollMoves(s.disk, p), 1)).(disk := w.disk, trace := w.trace)
    case Advance(a) =>
      if !(InPhase(s, a) && s.phases[a].Polling?) then s
      else
        var phase := s.phases[a];
        if phase.done >= |phase.plan| then s
        else
          var w := Do(World(phase.mem, s.disk, s.trace), phase.plan[phase.done]);
          Enter(s, a, Polling(w.mem, phase.input, phase.plan, phase.done + 1)).(disk := w.disk, trace := w.trace)
    case Return(a) =>
      if InPhase(s, a) && s.phases[a].Polling? && s.phases[a].done == |s.phases[a].plan|
      then EndTurn(s, a, Whole(s.phases[a].input)) else s
    case Panic(a) =>
      if InPhase(s, a) && s.phases[a].Polling?
      then EndTurn(s, a, Cut(s.phases[a].input, s.phases[a].done)) else s
    case Release(a) =>
      if InPhase(s, a) && s.phases[a].Finished? then s.(full := false, phases := s.phases - {a}) else s
    case Crash(a) =>
      // The process dies with everything in memory; `a` is the actor caught inside a poll, if there is one.
      if InPhase(s, a) && s.phases[a].Polling?
      then s.(full := false, phases := map[], turns := s.turns + [Cut(s.phases[a].input, s.phases[a].done)])
      else if SomePolling(s) then s
      else s.(full := false, phases := map[])
    case LoseFile =>
      if SomePolling(s) then s
      else
        var w := Do(World(s.disk, s.disk, s.trace), LoseDisk);
        s.(disk := w.disk, trace := w.trace, turns := s.turns + [FileLost])
  }

  function Steps(s: System, acts: seq<Act>): System {
    if acts == [] then s else Apply(Steps(s, acts[..|acts| - 1]), acts[|acts| - 1])
  }

  /** The process starts with a free slot, nobody in a phase, and the file as it is. */
  function Exec(w0: World, acts: seq<Act>): System {
    Steps(System(false, map[], w0.disk, w0.trace, [], []), acts)
  }

  // ------------------------------------------------------- sequential order

  /** A turn taken alone. */
  function Take(w: World, turn: Turn): World {
    match turn
    case Whole(p) => World(Poll(w.disk, p).cursor, DiskAfter(w.disk, p), w.trace + Poll(w.disk, p).events)
    case Unread => w
    case FileLost => Do(w, LoseDisk)
    case Cut(p, done) => Run(w, if done <= |PollMoves(w.disk, p)| then PollMoves(w.disk, p)[..done] else PollMoves(w.disk, p))
  }

  /** The turns one after the other. */
  function Replay(w: World, turns: seq<Turn>): World {
    if turns == [] then w else Take(Replay(w, turns[..|turns| - 1]), turns[|turns| - 1])
  }

  lemma ReplaySnoc(w: World, turns: seq<Turn>, turn: Turn)
    ensures Replay(w, turns + [turn]) == Take(Replay(w, turns), turn)
  {
    assert (turns + [turn])[..|turns|] == turns;
  }

  // -------------------------------------------------------------- invariant

  /** The world the current turn found: that of the turns before it, one after the other. */
  function BaseOf(w0: World, s: System): World {
    Replay(w0, s.turns)
  }

  ghost predicate Exclusive(s: System) {
    && (forall a, b :: a in s.phases && b in s.phases ==> a == b)
    && (s.full <==> s.phases.Keys != {})
  }

  /** An actor inside a poll has done exactly a prefix of its plan, alone, from the last turn's result. */
  ghost predicate OnPlan(w0: World, s: System) {
    forall a :: a in s.phases && s.phases[a].Polling? ==>
      var base, phase := BaseOf(w0, s), s.phases[a];
      && phase.plan == PollMoves(base.disk, phase.input) && 1 <= phase.done <= |phase.plan|
      && Run(base, phase.plan[..phase.done]) == World(phase.mem, s.disk, s.trace)
  }

  /** With no poll under way the file and the trace are those of the turns in sequence. */
  ghost predicate Caught(w0: World, s: System) {
    (forall a :: a in s.phases ==> !s.phases[a].Polling?) ==>
      BaseOf(w0, s).disk == s.disk && BaseOf(w0, s).trace == s.trace
  }

  ghost predicate Inv(w0: World, s: System) {
    Exclusive(s) && OnPlan(w0, s) && Caught(w0, s)
  }

  lemma PlanStartsWithLoad(c: View, p: PollInput)
    ensures |PollMoves(c, p)| >= 1 && PollMoves(c, p)[0] == Load
  {}

  lemma EnterKeepsExclusive(s: System, a: nat, phase: Phase)
    requires Exclusive(s) && InPhase(s, a)
    ensures Enter(s, a, phase).phases == map[a := phase] && s.full
    ensures s.phases - {a} == map[]
  {
    assert s.phases.Keys == {a};
  }

  /** Entering a phase other than a poll leaves the plan clause nothing to say. */
  lemma OutsidePoll(w0: World, s: System, a: nat)
    requires s.phases.Keys <= {a} && (a in s.phases ==> !s.phases[a].Polling?)
    requires s.full <==> a in s.phases
    requires BaseOf(w0, s).disk == s.disk && BaseOf(w0, s).trace == s.trace
    ensures Inv(w0, s)
  {
    assert a !in s.phases ==> s.phases.Keys == {};
  }

  lemma InsidePoll(w0: World, s: System, a: nat)
    requires s.phases.Keys == {a} && s.full && s.phases[a].Polling?
    requires var base, phase := BaseOf(w0, s), s.phases[a];
      && phase.plan == PollMoves(base.disk, phase.input) && 1 <= phase.done <= |phase.plan|
      && Run(base, phase.plan[..phase.done]) == World(phase.mem, s.disk, s.trace)
    ensures Inv(w0, s)
  {}

  lemma BeginKeepsInv(w0: World, s: System, a: nat, p: PollInput, readable: bool)
    requires Inv(w0, s)
    ensures Inv(w0, Apply(s, Begin(a, p, readable)))
  {
    if InPhase(s, a) && s.phases[a].Ready? {
      var base := BaseOf(w0, s);
      assert base.disk == s.disk && base.trace == s.trace;
      var s' := Apply(s, Begin(a, p, readable));
      EnterKeepsExclusive(s, a, Finished);
      if readable {
        PlanStartsWithLoad(base.disk, p);
        RunSnoc(base, PollMoves(base.disk, p), 0);
        assert PollMoves(base.disk, p)[..0] == [];
        InsidePoll(w0, s', a);
      } else {
        ReplaySnoc(w0, s.turns, Unread);
        OutsidePoll(w0, s', a);
      }
    }
  }

  lemma AdvanceKeepsInv(w0: World, s: System, a: nat)
    requires Inv(w0, s)
    ensures Inv(w0, Apply(s, Advance(a)))
  {
    hide PollMoves, Run, Do;
    if InPhase(s, a) && s.phases[a].Polling? {
      var base, phase := BaseOf(w0, s), s.phases[a];
      EnterKeepsExclusive(s, a, Finished);
      if phase.done < |phase.plan| {
        RunSnoc(base, phase.plan, phase.done);
        InsidePoll(w0, Apply(s, Advance(a)), a);
      }
    }
  }

  /** A poll ended or stopped: the turn it adds replays to where the world is. */
  lemma TurnIsReplayed(w0: World, s: System, a: nat)
    requires Inv(w0, s) && InPhase(s, a) && s.phases[a].Polling?
    ensures var (base, phase) := (BaseOf(w0, s), s.phases[a]);
      var cut := Replay(w0, s.turns + [Cut(phase.input, phase.done)]);
      var whole := Replay(w0, s.turns + [Whole(phase.input)]);
      && cut.disk == s.disk && cut.trace == s.trace
      && (phase.done == |phase.plan| ==> whole.disk == s.disk && whole.trace == s.trace)
  {
    var base, phase := BaseOf(w0, s), s.phases[a];
    ReplaySnoc(w0, s.turns, Cut(phase.input, phase.done));
    ReplaySnoc(w0, s.turns, Whole(phase.input));
    PollIsARun(base, phase.input);
    hide Run, Poll, DiskAfter, PollMoves, Do, Replay;
    assert phase.done == |phase.plan| ==> phase.plan[..phase.done] == phase.plan;
  }

  lemma EndKeepsInv(w0: World, s: System, a: nat)
    requires Inv(w0, s)
    ensures Inv(w0, Apply(s, Return(a)))
    ensures Inv(w0, Apply(s, Panic(a)))
    ensures Inv(w0, Apply(s, Crash(a)))
  {
    hide Run, PollMoves, Do, Replay;
    if InPhase(s, a) {
      EnterKeepsExclusive(s, a, Finished);
      if s.phases[a].Polling? {
        TurnIsReplayed(w0, s, a);
        OutsidePoll(w0, Apply(s, Panic(a)), a);
        OutsidePoll(w0, Apply(s, Crash(a)), a);
        if s.phases[a].done == |s.phases[a].plan| {
          OutsidePoll(w0, Apply(s, Return(a)), a);
        }
      }
    }
  }

  lemma SlotKeepsInv(w0: World, s: System, a: nat)
    requires Inv(w0, s)
    ensures Inv(w0, Apply(s, TryAcquire(a)))
    ensures Inv(w0, Apply(s, StartOk(a)))
    ensures Inv(w0, Apply(s, StartFails(a)))
    ensures Inv(w0, Apply(s, Release(a)))
  {
    hide Replay;
    if InPhase(s, a) {
      EnterKeepsExclusive(s, a, Ready);
      if !s.phases[a].Polling? {
        OutsidePoll(w0, Apply(s, StartOk(a)), a);
        OutsidePoll(w0, Apply(s, StartFails(a)), a);
        OutsidePoll(w0, Apply(s, Release(a)), a);
      }
    } else if s.full {
      assert Inv(w0, s.(answers := s.answers + [(a, Conflict)]));
    } else {
      assert s.phases == map[];
      OutsidePoll(w0, Apply(s, TryAcquire(a)), a);
    }
  }

  lemma LossKeepsInv(w0: World, s: System)
    requires Inv(w0, s)
    ensures Inv(w0, Apply(s, LoseFile))
  {
    ReplaySnoc(w0, s.turns, FileLost);
    hide Replay;
  }

  lemma ApplyKeepsInv(w0: World, s: System, act: Act)
    requires Inv(w0, s)
    ensures Inv(w0, Apply(s, act))
  {
    hide Inv;
    match act
    case Begin(a, p, readable) => BeginKeepsInv(w0, s, a, p, readable);
    case Advance(a) => AdvanceKeepsInv(w0, s, a);
    case Return(a) => EndKeepsInv(w0, s, a);
    case Panic(a) => EndKeepsInv(w0, s, a);
    case Crash(a) => EndKeepsInv(w0, s, a);
    case LoseFile => LossKeepsInv(w0, s);
    case TryAcquire(a) => SlotKeepsInv(w0, s, a);
    case StartOk(a) => SlotKeepsInv(w0, s, a);
    case StartFails(a) => SlotKeepsInv(w0, s, a);
    case Release(a) => SlotKeepsInv(w0, s, a);
  }

  lemma {:induction false} ExecKeepsInv(w0: World, acts: seq<Act>)
    ensures Inv(w0, Exec(w0, acts))
  {
    if acts != [] {
      ExecKeepsInv(w0, acts[..|acts| - 1]);
      ApplyKeepsInv(w0, Exec(w0, acts[..|acts| - 1]), acts[|acts| - 1]);
    }
  }

  // ---------------------------------------------------------------- theorems

  ghost predicate Undisturbed(acts: seq<Act>) {
    forall i :: 0 <= i < |acts| ==> !acts[i].Panic? && !acts[i].Crash?
  }

  /** The polls of the turns, one after the other, by what each leaves on disk. */
  function DiskAfterAll(d: View, turns: seq<Turn>): View {
    if turns == [] then d
    else
      var before := DiskAfterAll(d, turns[..|turns| - 1]);
      match turns[|turns| - 1]
      case Whole(p) => DiskAfter(before, p)
      case FileLost => EMPTY
      case _ => before
  }

  /** A step adds at most one turn, and cuts one only by a panic or a crash. */
  lemma TurnsGrow(s: System, act: Act)
    ensures var s' := Apply(s, act);
      s'.turns == s.turns
      || (|s'.turns| == |s.turns| + 1 && s'.turns[..|s.turns|] == s.turns
          && (s'.turns[|s.turns|].Cut? ==> act.Panic? || act.Crash?))
  {
    hide PollMoves, Do;
  }

  lemma {:induction false} NoTurnIsCut(w0: World, acts: seq<Act>)
    requires Undisturbed(acts)
    ensures forall i :: 0 <= i < |Exec(w0, acts).turns| ==> !Exec(w0, acts).turns[i].Cut?
  {
    hide Apply;
    if acts != [] {
      var before := Exec(w0, acts[..|acts| - 1]);
      NoTurnIsCut(w0, acts[..|acts| - 1]);
      TurnsGrow(before, acts[|acts| - 1]);
      assert Exec(w0, acts) == Apply(before, acts[|acts| - 1]);
      hide Steps, Exec;
    }
  }

  lemma {:induction false} ReplayOfWholePolls(w: World, turns: seq<Turn>)
    requires forall i :: 0 <= i < |turns| ==> !turns[i].Cut?
    ensures Replay(w, turns).disk == DiskAfterAll(w.disk, turns)
  {
    if turns != [] {
      ReplayOfWholePolls(w, turns[..|turns| - 1]);
      hide DiskAfter, Poll;
    }
  }

  /**
   No lost update. Whatever the interleaving of the ticker and any number of triggers, the slot is
   full exactly when one actor holds it, two cycles never run at once, and once no poll is under way
   the file and the events are those of the turns taken alone in the order they ended. Without
   panics and crashes every turn that reads the file is a whole poll.
   */
  lemma NoLostUpdate(disk: View, acts: seq<Act>)
    ensures var w0 := World(disk, disk, []);
      var s := Exec(w0, acts);
      && (forall a, b :: a in s.phases && b in s.phases ==> a == b)
      && (s.full <==> s.phases.Keys != {})
      && ((forall a :: a in s.phases ==> !s.phases[a].Polling?) ==>
            && s.disk == Replay(w0, s.turns).disk && s.trace == Replay(w0, s.turns).trace
            && (Undisturbed(acts) ==> s.disk == DiskAfterAll(disk, s.turns)))
  {
    var w0 := World(disk, disk, []);
    ExecKeepsInv(w0, acts);
    if Undisturbed(acts) {
      NoTurnIsCut(w0, acts);
      ReplayOfWholePolls(w0, Exec(w0, acts).turns);
    }
  }

  /** A trigger is turned away exactly while another actor is between taking the slot and giving it back. */
  lemma ConflictMeansBusy(disk: View, acts: seq<Act>, a: nat)
    requires a != TICKER && !InPhase(Exec(World(disk, disk, []), acts), a)
    ensures var w0 := World(disk, disk, []);
      var s := Exec(w0, acts);
      (Apply(s, TryAcquire(a)).answers == s.answers + [(a, Conflict)]) <==> (exists b :: b in s.phases && b != a)
  {
    var w0 := World(disk, disk, []);
    var s := Exec(w0, acts);
    ExecKeepsInv(w0, acts);
    if s.full {
      var b :| b in s.phases.Keys;
      assert b in s.phases && b != a;
    }
  }

  // ------------------------------------------------------ whole cycles

  function Advances(a: nat, n: nat): (acts: seq<Act>)
    ensures |acts| == n
  {
    if n == 0 then [] else Advances(a, n - 1) + [Advance(a)]
  }

  /** The acts that bring an actor from outside to the start of its poll; a trigger is started by the runner. */
  function Enters(a: nat, p: PollInput, readable: bool): seq<Act> {
    (if a == TICKER then [TryAcquire(a)] else [TryAcquire(a), StartOk(a)]) + [Begin(a, p, readable)]
  }

  /** The actor takes the slot, reads the file, and takes `n` more steps of its plan. */
  function CycleActs(a: nat, p: PollInput, n: nat): seq<Act> {
    Enters(a, p, true) + Advances(a, n)
  }

  /** What a caller who gets the slot and starts is told. */
  function Told(a: nat): seq<(nat, Answer)> {
    if a == TICKER then [] else [(a, Accepted)]
  }

  lemma {:induction false} StepsConcat(s: System, a: seq<Act>, b: seq<Act>)
    ensures Steps(s, a + b) == Steps(Steps(s, a), b)
  {
    hide Apply;
    if b == [] {
      assert a + b == a;
    } else {
      StepsConcat(s, a, b[..|b| - 1]);
      assert (a + b)[..|a + b| - 1] == a + b[..|b| - 1];
    }
  }

  lemma StepsTwo(s: System, x: Act, y: Act)
    ensures Steps(s, [x]) == Apply(s, x)
    ensures Steps(s, [x, y]) == Apply(Apply(s, x), y)
  {
    hide Apply;
    assert [x, y][..1] == [x] && [x][..0] == [];
  }

  /** `s` with actor `a` at step `done` of its plan, and `w` for its memory, the file and the events. */
  function Standing(s: System, a: nat, w: World, done: nat): System
    requires InPhase(s, a) && s.phases[a].Polling?
  {
    Enter(s, a, Polling(w.mem, s.phases[a].input, s.phases[a].plan, done)).(disk := w.disk, trace := w.trace)
  }

  lemma StandingStep(s: System, a: nat, w: World, done: nat)
    requires InPhase(s, a) && s.phases[a].Polling? && done < |s.phases[a].plan|
    ensures Apply(Standing(s, a, w, done), Advance(a)) == Standing(s, a, Do(w, s.phases[a].plan[done]), done + 1)
  {
    hide Do;
    var s' := Standing(s, a, w, done);
    assert World(s'.phases[a].mem, s'.disk, s'.trace) == w;
    assert Apply(s', Advance(a)).phases == Standing(s, a, Do(w, s.phases[a].plan[done]), done + 1).phases;
  }

  /** The next `n` moves of a plan of which `done` are done. */
  function Stretch(plan: seq<Move>, done: nat, n: nat): seq<Move>
    requires done + n <= |plan|
  {
    plan[done..done + n]
  }

  lemma StretchStep(w: World, plan: seq<Move>, done: nat, n: nat)
    requires 0 < n && done + n <= |plan|
    ensures Run(w, Stretch(plan, done, n)) == Do(Run(w, Stretch(plan, done, n - 1)), plan[done + (n - 1)])
  {
    hide Do, Run;
    var moves := Stretch(plan, done, n);
    assert moves[..n] == moves && moves[..n - 1] == Stretch(plan, done, n - 1);
    RunSnoc(w, moves, n - 1);
  }

  lemma AdvanceNext(s: System, a: nat, n: nat)
    requires n > 0
    ensures Steps(s, Advances(a, n)) == Apply(Steps(s, Advances(a, n - 1)), Advance(a))
  {
    hide Apply, Steps;
    StepsConcat(s, Advances(a, n - 1), [Advance(a)]);
    StepsTwo(Steps(s, Advances(a, n - 1)), Advance(a), Advance(a));
  }

  lemma NothingYet(s: System, a: nat, w: World, plan: seq<Move>, done: nat)
    requires done <= |plan|
    ensures Steps(s, Advances(a, 0)) == s && Run(w, Stretch(plan, done, 0)) == w
  {}

  /** An actor left alone with its plan runs it, whoever else is in a phase. */
  lemma {:induction false} AdvancesRunThePlan(s: System, a: nat, w: World, done: nat, n: nat)
    requires InPhase(s, a) && s.phases[a].Polling? && done + n <= |s.phases[a].plan|
    ensures Steps(Standing(s, a, w, done), Advances(a, n))
      == Standing(s, a, Run(w, Stretch(s.phases[a].plan, done, n)), done + n)
  {
    hide Apply, Do, Standing, Run, Steps, Stretch, Advances;
    var plan := s.phases[a].plan;
    NothingYet(Standing(s, a, w, done), a, w, plan, done);
    if n > 0 {
      AdvancesRunThePlan(s, a, w, done, n - 1);
      StretchStep(w, plan, done, n);
      AdvanceNext(Standing(s, a, w, done), a, n);
      StandingStep(s, a, Run(w, Stretch(plan, done, n - 1)), done + (n - 1));
    }
  }

  /** A free slot is all an actor needs to get to the start of its poll, whoever else is in a phase. */
  lemma Entering(s: System, a: nat, p: PollInput, readable: bool)
    requires !s.full && !InPhase(s, a)
    ensures Steps(s, Enters(a, p, readable))
      == Apply(Enter(s, a, Ready).(full := true, answers := s.answers + Told(a)), Begin(a, p, readable))
  {
    var ready := Enter(s, a, Ready).(full := true, answers := s.answers + Told(a));
    var begin := Begin(a, p, readable);
    if a == TICKER {
      assert Apply(s, TryAcquire(a)) == ready;
      assert Enters(a, p, readable) == [TryAcquire(a), begin];
      hide Apply;
      StepsTwo(s, TryAcquire(a), begin);
    } else {
      var starting := Apply(s, TryAcquire(a));
      assert starting.phases[a := Ready] == s.phases[a := Ready];
      assert Apply(starting, StartOk(a)) == ready;
      hide Apply;
      StepsTwo(s, TryAcquire(a), StartOk(a));
      StepsConcat(s, [TryAcquire(a), StartOk(a)], [begin]);
      StepsTwo(ready, begin, begin);
    }
  }

  /** An actor in its poll: the slot is taken, its phase and answers are noted, nothing else has changed. */
  function InPoll(s: System, a: nat, p: PollInput): System {
    Enter(s, a, Polling(s.disk, p, PollMoves(s.disk, p), 1)).(full := true, answers := s.answers + Told(a))
  }

  lemma BeginReads(s: System, a: nat, p: PollInput)
    ensures var ready := Enter(s, a, Ready).(full := true, answers := s.answers + Told(a));
      && Apply(ready, Begin(a, p, true)) == Standing(InPoll(s, a, p), a, Do(World(s.disk, s.disk, s.trace), Load), 1)
      && Apply(ready, Begin(a, p, false)) == Enter(ready, a, Finished).(turns := s.turns + [Unread])
  {
    hide PollMoves;
    var phase := Polling(s.disk, p, PollMoves(s.disk, p), 1);
    assert s.phases[a := Ready][a := phase] == s.phases[a := phase] == s.phases[a := phase][a := phase];
  }

  /** Any number of steps of the cycle of one actor is that many moves of the poll's plan, from the file it found. */
  lemma CycleRunsThePlan(s: System, a: nat, p: PollInput, n: nat)
    requires !s.full && !InPhase(s, a) && n + 1 <= |PollMoves(s.disk, p)|
    ensures Steps(s, CycleActs(a, p, n))
      == Standing(InPoll(s, a, p), a, Run(World(s.disk, s.disk, s.trace), PollMoves(s.disk, p)[..n + 1]), n + 1)
  {
    hide PollMoves, Do, Apply, Steps, Run, Advances, Enters, Standing, InPoll, Told, Stretch;
    var w, u := World(s.disk, s.disk, s.trace), InPoll(s, a, p);
    PlanOf(s, a, p);
    LoadFirst(w, PollMoves(s.disk, p), n);
    Entering(s, a, p, true);
    BeginReads(s, a, p);
    StepsConcat(s, Enters(a, p, true), Advances(a, n));
    AdvancesRunThePlan(u, a, Do(w, Load), 1, n);
  }

  lemma PlanOf(s: System, a: nat, p: PollInput)
    ensures var u := InPoll(s, a, p);
      InPhase(u, a) && u.phases[a].Polling? && u.phases[a].plan == PollMoves(s.disk, p)
    ensures |PollMoves(s.disk, p)| >= 1 && PollMoves(s.disk, p)[0] == Load
  {
    PlanStartsWithLoad(s.disk, p);
    hide PollMoves;
  }

  lemma LoadFirst(w: World, plan: seq<Move>, n: nat)
    requires n + 1 <= |plan| && plan[0] == Load
    ensures Run(w, plan[..n + 1]) == Run(Do(w, Load), Stretch(plan, 1, n))
  {
    hide Run, Do;
    assert plan[..n + 1] == [Load] + plan[1..1 + n];
    RunConcat(w, [Load], plan[1..1 + n]);
    RunTwo(w, Load, Load);
  }

  /** The whole plan is the whole poll. */
  lemma WholePlanIsThePoll(s: System, a: nat, p: PollInput, n: nat)
    requires !s.full && !InPhase(s, a) && n + 1 == |PollMoves(s.disk, p)|
    ensures Steps(s, CycleActs(a, p, n))
      == Standing(InPoll(s, a, p), a,
                  World(Poll(s.disk, p).cursor, DiskAfter(s.disk, p), s.trace + Poll(s.disk, p).events), n + 1)
  {
    CycleRunsThePlan(s, a, p, n);
    PollIsARun(World(s.disk, s.disk, s.trace), p);
    hide *;
    assert PollMoves(s.disk, p)[..n + 1] == PollMoves(s.disk, p);
  }

  /** The end of a turn and the release after it leave the slot free and nobody in a phase. */
  lemma EndGivesBack(s: System, a: nat, p: PollInput, w: World, n: nat)
    requires s.phases == map[] && n + 1 <= |PollMoves(s.disk, p)|
    ensures var u := Standing(InPoll(s, a, p), a, w, n + 1);
      && Steps(u, [Panic(a), Release(a)])
         == System(false, map[], w.disk, w.trace, s.turns + [Cut(p, n + 1)], s.answers + Told(a))
      && (n + 1 == |PollMoves(s.disk, p)| ==>
            Steps(u, [Return(a), Release(a)])
            == System(false, map[], w.disk, w.trace, s.turns + [Whole(p)], s.answers + Told(a)))
  {
    hide PollMoves;
    var u := Standing(InPoll(s, a, p), a, w, n + 1);
    StepsTwo(u, Panic(a), Release(a));
    StepsTwo(u, Return(a), Release(a));
    hide Steps;
    assert u.phases.Keys == {a};
    assert u.phases[a := Phase.Finished] - {a} == map[];
  }

  /**
   Every cycle gives the slot back. Whoever finds it free, ticker or trigger, in whatever state the
   acts before have led to: a cycle carried to the end of its plan, one stopped by a panic after any of
   its steps, one whose file cannot be read, and a trigger the runner cannot start all end with a free
   slot and nobody in a phase, with the turn and the answer that belong to them, and with the file and
   the events of just that turn.
   */
  lemma EveryCycleGivesBack(w0: World, acts: seq<Act>, a: nat, p: PollInput, n: nat)
    requires !Exec(w0, acts).full && n + 1 <= |PollMoves(Exec(w0, acts).disk, p)|
    ensures var s := Exec(w0, acts);
      var w := Run(World(s.disk, s.disk, s.trace), PollMoves(s.disk, p)[..n + 1]);
      && (n + 1 == |PollMoves(s.disk, p)| ==>
            Steps(s, CycleActs(a, p, n) + [Return(a), Release(a)])
            == System(false, map[], DiskAfter(s.disk, p), s.trace + Poll(s.disk, p).events,
                      s.turns + [Whole(p)], s.answers + Told(a)))
      && Steps(s, CycleActs(a, p, n) + [Panic(a), Release(a)])
         == System(false, map[], w.disk, w.trace, s.turns + [Cut(p, n + 1)], s.answers + Told(a))
      && Steps(s, Enters(a, p, false) + [Release(a)])
         == System(false, map[], s.disk, s.trace, s.turns + [Unread], s.answers + Told(a))
      && (a != TICKER ==>
            Steps(s, [TryAcquire(a), StartFails(a)])
            == System(false, map[], s.disk, s.trace, s.turns, s.answers + [(a, InternalError)]))
  {
    var s := Exec(w0, acts);
    ExecKeepsInv(w0, acts);
    assert s.phases == map[];
    hide Inv, Exec;
    CycleGivesBack(s, a, p, n);
    UnreadGivesBack(s, a, p);
    if a != TICKER {
      FailedStartGivesBack(s, a);
    }
    hide *;
  }

  lemma CycleGivesBack(s: System, a: nat, p: PollInput, n: nat)
    requires !s.full && s.phases == map[] && n + 1 <= |PollMoves(s.disk, p)|
    ensures var w := Run(World(s.disk, s.disk, s.trace), PollMoves(s.disk, p)[..n + 1]);
      && (n + 1 == |PollMoves(s.disk, p)| ==>
            Steps(s, CycleActs(a, p, n) + [Return(a), Release(a)])
            == System(false, map[], DiskAfter(s.disk, p), s.trace + Poll(s.disk, p).events,
                      s.turns + [Whole(p)], s.answers + Told(a)))
      && Steps(s, CycleActs(a, p, n) + [Panic(a), Release(a)])
         == System(false, map[], w.disk, w.trace, s.turns + [Cut(p, n + 1)], s.answers + Told(a))
  {
    hide PollMoves, Poll, DiskAfter, Run, Steps, CycleActs, Standing, InPoll, Told;
    StepsConcat(s, CycleActs(a, p, n), [Panic(a), Release(a)]);
    CycleRunsThePlan(s, a, p, n);
    EndGivesBack(s, a, p, Run(World(s.disk, s.disk, s.trace), PollMoves(s.disk, p)[..n + 1]), n);
    if n + 1 == |PollMoves(s.disk, p)| {
      var w := World(Poll(s.disk, p).cursor, DiskAfter(s.disk, p), s.trace + Poll(s.disk, p).events);
      StepsConcat(s, CycleActs(a, p, n), [Return(a), Release(a)]);
      WholePlanIsThePoll(s, a, p, n);
      EndGivesBack(s, a, p, w, n);
    }
  }

  lemma UnreadGivesBack(s: System, a: nat, p: PollInput)
    requires !s.full && s.phases == map[]
    ensures Steps(s, Enters(a, p, false) + [Release(a)])
      == System(false, map[], s.disk, s.trace, s.turns + [Unread], s.answers + Told(a))
  {
    hide PollMoves, Enters, Steps, Told;
    Entering(s, a, p, false);
    BeginReads(s, a, p);
    var u := Steps(s, Enters(a, p, false));
    StepsConcat(s, Enters(a, p, false), [Release(a)]);
    StepsTwo(u, Release(a), Release(a));
    assert u.phases.Keys == {a} && u.phases - {a} == map[];
  }

  lemma FailedStartGivesBack(s: System, a: nat)
    requires !s.full && s.phases == map[] && a != TICKER
    ensures Steps(s, [TryAcquire(a), StartFails(a)])
      == System(false, map[], s.disk, s.trace, s.turns, s.answers + [(a, InternalError)])
  {
    StepsTwo(s, TryAcquire(a), StartFails(a));
    hide Steps, PollMoves;
    assert s.phases[a := Starting] - {a} == map[];
  }

  /** With nobody in a phase the next caller, ticker or trigger, gets the slot and no conflict. */
  lemma FreeSlotIsTaken(s: System, b: nat)
    requires !s.full && s.phases == map[]
    ensures var s' := Apply(s, TryAcquire(b));
      s' == s.(full := true, phases := map[b := if b == TICKER then Ready else Starting])
  {}

  /** With the slot taken, a tick is skipped without a trace and a trigger is told so; nothing else happens. */
  lemma FullSlotIsRefused(s: System, b: nat)
    requires s.full && !InPhase(s, b)
    ensures Apply(s, TryAcquire(b)) == s.(answers := s.answers + if b == TICKER then [] else [(b, Conflict)])
  {
    assert s.answers + [] == s.answers;
  }

  /** A trigger gets past its start only when its caller has been told that the cycle was accepted. */
  lemma {:induction false} OnlyAcceptedTriggersRun(w0: World, acts: seq<Act>)
    ensures var s := Exec(w0, acts);
      forall a :: a in s.phases && a != TICKER && !s.phases[a].Starting? ==> (a, Accepted) in s.answers
  {
    if acts != [] {
      OnlyAcceptedTriggersRun(w0, acts[..|acts| - 1]);
      var s, act := Exec(w0, acts[..|acts| - 1]), acts[|acts| - 1];
      assert Exec(w0, acts) == Apply(s, act);
      hide Exec, Steps;
      AcceptedStays(s, act);
    }
  }

  lemma AcceptedStays(s: System, act: Act)
    requires forall a :: a in s.phases && a != TICKER && !s.phases[a].Starting? ==> (a, Accepted) in s.answers
    ensures var s' := Apply(s, act);
      forall a :: a in s'.phases && a != TICKER && !s'.phases[a].Starting? ==> (a, Accepted) in s'.answers
  {
    hide PollMoves, Do;
  }

  /** Whatever state a run of acts has led to, the slot can be given back, without panics, crashes or a new turn begun by another. */
  lemma SlotCanComeBack(w0: World, acts: seq<Act>) returns (more: seq<Act>)
    ensures Undisturbed(more)
    ensures var r := Steps(Exec(w0, acts), more); !r.full && r.phases == map[]
  {
    var s := Exec(w0, acts);
    ExecKeepsInv(w0, acts);
    hide PollMoves, Run, Do, Replay, Exec;
    more := [];
    if s.full {
      var a :| a in s.phases;
      assert s.phases.Keys == {a} && s.phases == map[a := s.phases[a]];
      match s.phases[a]
      case Starting =>
        more := [StartFails(a)];
        StepsTwo(s, StartFails(a), StartFails(a));
      case Ready =>
        var p := PollInput(_ => true, false, Failed, Failed, true);
        more := [Begin(a, p, false), Release(a)];
        StepsTwo(s, Begin(a, p, false), Release(a));
      case Polling(mem, p, plan, done) =>
        more := PollEnds(s, a);
      case Finished =>
        more := [Release(a)];
        StepsTwo(s, Release(a), Release(a));
    } else {
      assert s.phases == map[];
    }
  }

  lemma ReturnGivesBack(u: System, a: nat)
    requires u.phases.Keys == {a} && u.phases[a].Polling? && u.phases[a].done == |u.phases[a].plan|
    ensures var r := Steps(u, [Return(a), Release(a)]); !r.full && r.phases == map[]
  {
    StepsTwo(u, Return(a), Release(a));
    hide Steps;
    assert u.phases[a := Phase.Finished] - {a} == map[];
  }

  lemma StandingWhereItIs(s: System, a: nat)
    requires InPhase(s, a) && s.phases[a].Polling?
    ensures Standing(s, a, World(s.phases[a].mem, s.disk, s.trace), s.phases[a].done) == s
  {
    assert s.phases[a := s.phases[a]] == s.phases;
  }

  lemma PollEnds(s: System, a: nat) returns (more: seq<Act>)
    requires s.phases.Keys == {a} && s.phases[a].Polling? && s.phases[a].done <= |s.phases[a].plan|
    ensures Undisturbed(more)
    ensures var r := Steps(s, more); !r.full && r.phases == map[]
  {
    hide Run, Do, Apply, Advances, Steps;
    var phase := s.phases[a];
    var n := |phase.plan| - phase.done;
    StandingWhereItIs(s, a);
    AdvancesRunThePlan(s, a, World(phase.mem, s.disk, s.trace), phase.done, n);
    AdvancesAreCalm(a, n);
    var u := Steps(s, Advances(a, n));
    assert u.phases.Keys == {a};
    hide Standing;
    more := Advances(a, n) + [Return(a), Release(a)];
    StepsConcat(s, Advances(a, n), [Return(a), Release(a)]);
    ReturnGivesBack(u, a);
  }

  lemma {:induction false} AdvancesAreCalm(a: nat, n: nat)
    ensures Undisturbed(Advances(a, n))
  {
    if n > 0 {
      AdvancesAreCalm(a, n - 1);
    }
  }

  /**
   A crash gives everything up but the file: whoever was in a phase is gone and the slot is free, a poll
   caught in it is cut there. Losing the file between polls leaves the empty cursor and its mark.
   */
  lemma CrashAndLoss(w0: World, acts: seq<Act>, a: nat)
    requires var s := Exec(w0, acts); SomePolling(s) ==> InPhase(s, a) && s.phases[a].Polling?
    ensures var s := Exec(w0, acts);
      Apply(s, Crash(a)) == System(false, map[], s.disk, s.trace,
        s.turns + if SomePolling(s) then [Cut(s.phases[a].input, s.phases[a].done)] else [], s.answers)
    ensures var s := Exec(w0, acts);
      !SomePolling(s) ==> Apply(s, LoseFile) == s.(disk := map[], trace := s.trace + [DiskLost], turns := s.turns + [FileLost])
  {
    hide Exec;
    assert Exec(w0, acts).turns + [] == Exec(w0, acts).turns;
  }

  // ------------------------------------------------ the runner assumption

  /** What the handler's failure branch does to the slot: it gives it back without asking who holds it. */
  function GiveBack(s: System): System {
    s.(full := false)
  }

  lemma SaveWritesOwnCopy(s: System, a: nat)
    requires InPhase(s, a) && s.phases[a].Polling?
    requires s.phases[a].done < |s.phases[a].plan| && s.phases[a].plan[s.phases[a].done] == Move.Save(true)
    ensures var s' := Apply(s, Advance(a)); s'.disk == s.phases[a].mem && s'.trace == s.trace + [Saved]
  {}

  predicate BothPolling(s: System, a: nat, b: nat) {
    a != b && InPhase(s, a) && InPhase(s, b) && s.phases[a].Polling? && s.phases[b].Polling?
  }

  /** With the slot given back too early, a whole cycle of the ticker is undone by the save that is still to come. */
  lemma SaveUndoesTheOtherCycle(s: System, a: nat, p: PollInput, n: nat)
    requires !InPhase(s, TICKER) && a != TICKER && InPhase(s, a) && s.phases[a].Polling?
    requires s.phases[a].done < |s.phases[a].plan| && s.phases[a].plan[s.phases[a].done] == Move.Save(true)
    requires |PollMoves(s.disk, p)| == n + 1
    ensures var ticked := Steps(GiveBack(s), CycleActs(TICKER, p, n));
      && BothPolling(ticked, TICKER, a)
      && ticked.disk == DiskAfter(s.disk, p) && ticked.trace == s.trace + Poll(s.disk, p).events
      && Apply(ticked, Advance(a)).disk == s.phases[a].mem == Apply(s, Advance(a)).disk
      && Apply(ticked, Advance(a)).trace == s.trace + Poll(s.disk, p).events + [Saved]
  {
    hide Steps, PollMoves, Poll, DiskAfter, CycleActs, Apply;
    WholePlanIsThePoll(GiveBack(s), TICKER, p, n);
    var ticked := Steps(GiveBack(s), CycleActs(TICKER, p, n));
    SaveWritesOwnCopy(s, a);
    SaveWritesOwnCopy(ticked, a);
  }

  /**
   Why the runner must not fail after it has started the cycle. In any interleaving that reaches a
   trigger about to save, let the runner report a failure then: the failure branch frees the slot,
   the ticker runs a whole cycle, and the save that is still to come puts the file back as if that
   cycle had never run. Its tasks have been sent, and the file does not know of them.
   */
  lemma RunnerAssumptionIsNeeded(w0: World, acts: seq<Act>, a: nat, p: PollInput, n: nat)
    requires var s := Exec(w0, acts);
      && a != TICKER && InPhase(s, a) && s.phases[a].Polling?
      && s.phases[a].done < |s.phases[a].plan| && s.phases[a].plan[s.phases[a].done] == Move.Save(true)
      && |PollMoves(s.disk, p)| == n + 1
    ensures var s := Exec(w0, acts);
      var ticked := Steps(GiveBack(s), CycleActs(TICKER, p, n));
      var saved := Apply(ticked, Advance(a));
      && BothPolling(ticked, TICKER, a)
      && ticked.disk == DiskAfter(s.disk, p) && ticked.trace == s.trace + Poll(s.disk, p).events
      && saved.disk == s.phases[a].mem == Apply(s, Advance(a)).disk
      && saved.trace == s.trace + Poll(s.disk, p).events + [Saved]
  {
    var s := Exec(w0, acts);
    ExecKeepsInv(w0, acts);
    assert !InPhase(s, TICKER);
    hide *;
    SaveUndoesTheOtherCycle(s, a, p, n);
  }
}
