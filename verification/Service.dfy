/** The layers joined: what holds for a run of polls holds for every interleaving on the shared gate. */
module Service {
  import opened Filters
  import opened Cycle
  import opened Runs
  import opened Gate
  import opened Safety

  // ------------------------------------------------- where the moves come from

  /** Some act begins a poll with this input. */
  ghost predicate Begun(acts: seq<Act>, p: PollInput) {
    exists k :: 0 <= k < |acts| && acts[k].Begin? && acts[k].input == p
  }

  ghost predicate PhaseBegun(acts: seq<Act>, phase: Phase) {
    phase.Polling? ==> Begun(acts, phase.input)
  }

  ghost predicate TurnBegun(acts: seq<Act>, turn: Turn) {
    turn.Whole? || turn.Cut? ==> Begun(acts, turn.input)
  }

  ghost predicate InputsBegun(acts: seq<Act>, s: System) {
    && (forall a :: a in s.phases ==> PhaseBegun(acts, s.phases[a]))
    && forall t :: 0 <= t < |s.turns| ==> TurnBegun(acts, s.turns[t])
  }

  lemma BegunGrows(acts: seq<Act>, act: Act, s: System)
    requires InputsBegun(acts, s)
    ensures InputsBegun(acts + [act], s)
    ensures act.Begin? ==> Begun(acts + [act], act.input)
  {
    forall p | Begun(acts, p)
      ensures Begun(acts + [act], p)
    {
      var k :| 0 <= k < |acts| && acts[k].Begin? && acts[k].input == p;
      assert (acts + [act])[k] == acts[k];
    }
    if act.Begin? {
      assert (acts + [act])[|acts|] == act;
    }
  }

  lemma ApplyKeepsInputs(acts: seq<Act>, s: System, act: Act)
    requires InputsBegun(acts, s) && (act.Begin? ==> Begun(acts, act.input))
    ensures InputsBegun(acts, Apply(s, act))
  {
    hide PollMoves, Do, Begun;
  }

  lemma {:induction false} ExecKeepsInputs(w0: World, acts: seq<Act>)
    ensures InputsBegun(acts, Exec(w0, acts))
  {
    hide Apply;
    if acts != [] {
      var front, last := acts[..|acts| - 1], acts[|acts| - 1];
      ExecKeepsInputs(w0, front);
      BegunGrows(front, last, Exec(w0, front));
      assert front + [last] == acts;
      ApplyKeepsInputs(acts, Exec(w0, front), last);
      assert Exec(w0, acts) == Apply(Exec(w0, front), last);
    }
  }

  /** The move belongs to a poll that some act began. */
  ghost predicate MoveBegun(m: Move, acts: seq<Act>) {
    exists k :: 0 <= k < |acts| && acts[k].Begin? && MoveOfPoll(m, acts[k].input)
  }

  /** Every visit and every check of the run belongs to a poll that some act began. */
  ghost predicate MovesBegun(moves: seq<Move>, acts: seq<Act>) {
    forall n :: 0 <= n < |moves| && (moves[n].VisitMove? || moves[n].CloseMove?) ==> MoveBegun(moves[n], acts)
  }

  lemma JoinBegun(a: seq<Move>, b: seq<Move>, acts: seq<Act>)
    requires MovesBegun(a, acts) && MovesBegun(b, acts)
    ensures MovesBegun(a + b, acts)
  {
    hide MoveBegun;
  }

  lemma PlanIsBegun(c: View, p: PollInput, n: nat, acts: seq<Act>)
    requires Begun(acts, p) && n <= |PollMoves(c, p)|
    ensures MovesBegun(PollMoves(c, p)[..n], acts)
  {
    PollMovesAreItsOwn(c, p);
    var k :| 0 <= k < |acts| && acts[k].Begin? && acts[k].input == p;
    hide PollMoves, MoveOfPoll;
    forall m | 0 <= m < n
      ensures MoveBegun(PollMoves(c, p)[m], acts)
    {
      assert MoveOfPoll(PollMoves(c, p)[m], acts[k].input);
    }
  }

  // ------------------------------------------------- interleavings are runs

  lemma {:induction false} ReplayIsARun(w: World, turns: seq<Turn>, acts: seq<Act>) returns (moves: seq<Move>)
    requires forall t :: 0 <= t < |turns| ==> TurnBegun(acts, turns[t])
    ensures Run(w, moves) == Replay(w, turns) && MovesBegun(moves, acts)
  {
    hide Poll, PollMoves, Do, DiskAfter, TurnBegun;
    if turns == [] {
      moves := [];
    } else {
      var before := ReplayIsARun(w, turns[..|turns| - 1], acts);
      hide MovesBegun;
      var u := Replay(w, turns[..|turns| - 1]);
      var last := LastTurnIsARun(u, turns[|turns| - 1], acts);
      moves := before + last;
      RunConcat(w, before, last);
      JoinBegun(before, last, acts);
    }
  }

  lemma LastTurnIsARun(w: World, turn: Turn, acts: seq<Act>) returns (moves: seq<Move>)
    requires TurnBegun(acts, turn)
    ensures Run(w, moves) == Take(w, turn) && MovesBegun(moves, acts)
  {
    hide Poll, PollMoves, DiskAfter, Begun, MoveBegun;
    match turn
    case Whole(p) =>
      moves := PollMoves(w.disk, p);
      PollIsARun(w, p);
      PlanIsBegun(w.disk, p, |moves|, acts);
      assert moves[..|moves|] == moves;
    case Unread =>
      moves := [];
    case FileLost =>
      moves := [LoseDisk];
      RunTwo(w, LoseDisk, LoseDisk);
    case Cut(p, done) =>
      var plan := PollMoves(w.disk, p);
      var n := if done <= |plan| then done else |plan|;
      assert plan[..|plan|] == plan;
      moves := plan[..n];
      PlanIsBegun(w.disk, p, n, acts);
  }

  /**
   At every point of every interleaving, the events so far are those of one sequential run, and every
   visit and check of that run belongs to a poll that some act of the interleaving began.
   */
  lemma InterleavingIsARun(disk: View, acts: seq<Act>) returns (moves: seq<Move>)
    ensures Run(World(disk, disk, []), moves).trace == Exec(World(disk, disk, []), acts).trace
    ensures MovesBegun(moves, acts)
  {
    var w0 := World(disk, disk, []);
    var s := Exec(w0, acts);
    ExecKeepsInv(w0, acts);
    ExecKeepsInputs(w0, acts);
    hide Exec, Run, Replay, PollMoves, TurnBegun, MovesBegun, Begun;
    moves := ReplayIsARun(w0, s.turns, acts);
    if a :| a in s.phases && s.phases[a].Polling? {
      assert PhaseBegun(acts, s.phases[a]);
      var done := s.phases[a].plan[..s.phases[a].done];
      RunConcat(w0, moves, done);
      PlanIsBegun(Replay(w0, s.turns).disk, s.phases[a].input, s.phases[a].done, acts);
      JoinBegun(moves, done, acts);
      moves := moves + done;
    }
  }

  // ---------------------------------------------------------------- theorems

  /**
   At most one emission per claim, for the ticker and any number of forced triggers racing on the
   gate, with crashes and panics at any step and the file lost between polls.
   */
  lemma OneEmissionUnderConcurrency(disk: View, acts: seq<Act>, key: string, target: string, i: nat, j: nat)
    requires var trace := Exec(World(disk, disk, []), acts).trace;
      && i < j < |trace|
      && trace[i].CreateSent? && trace[i].ok && trace[j].CreateSent?
      && trace[i].candidate.repo.Key() == trace[j].candidate.repo.Key() == key
      && trace[i].candidate.Target() == trace[j].candidate.Target() == target
    ensures var trace := Exec(World(disk, disk, []), acts).trace;
      exists p :: i < p < j &&
        (|| trace[p] == Skipped(key, OpenUpdatePR)
         || trace[p] == Converged(key, target)
         || trace[p] == Expiry(key, target)
         || (trace[p].CreateSent? && trace[p].ok && trace[p].candidate.repo.Key() == key
             && trace[p].candidate.Target() != target)
         || trace[p].DiskLost?
         || (trace[p].Loaded? && forall q :: i < q < p ==> !trace[q].Saved?))
  {
    var moves := InterleavingIsARun(disk, acts);
    hide Exec, Run;
    OneEmissionPerClaim(disk, moves, key, target, i, j);
  }

  /** The same for completions: none is repeated across the interleaved cycles. */
  lemma CompletionNotRepeatedUnderConcurrency(disk: View, acts: seq<Act>, key: string, i: nat, j: nat)
    requires var trace := Exec(World(disk, disk, []), acts).trace;
      && i < j < |trace|
      && trace[i].CompleteSent? && trace[i].ok && trace[j].CompleteSent?
      && trace[i].repo.Key() == trace[j].repo.Key() == key
    ensures var trace := Exec(World(disk, disk, []), acts).trace;
      exists p :: i < p < j &&
        (|| (trace[p].CreateSent? && trace[p].ok && trace[p].candidate.repo.Key() == key
             && trace[p].candidate.headSHA != trace[i].headSHA)
         || trace[p].DiskLost?
         || (trace[p].Loaded? && forall q :: i < q < p ==> !trace[q].Saved?))
  {
    var moves := InterleavingIsARun(disk, acts);
    hide Exec, Run;
    CompletionIsNotRepeated(disk, moves, key, i, j);
  }

  /**
   What the file remembers when the process starts, a claim or a completed HEAD, is respected by every
   interleaving until one of its releases or the loss of the file.
   */
  lemma FileIsRespectedUnderConcurrency(x: Watch, disk: View, acts: seq<Act>, j: nat)
    requires Holds(x, disk)
    requires j < |Exec(World(disk, disk, []), acts).trace| && Forbids(x, Exec(World(disk, disk, []), acts).trace[j])
    ensures var trace := Exec(World(disk, disk, []), acts).trace;
      exists p :: 0 <= p < j && (Releases(x, trace[p]) || trace[p].DiskLost?)
  {
    var moves := InterleavingIsARun(disk, acts);
    hide *;
    HeldFromTheStart(x, World(disk, disk, []), moves, j);
  }

  /** Some job the poll lists was observed so that a create of the candidate is justified. */
  ghost predicate PollJustifiesCreate(p: PollInput, cand: Candidate) {
    && p.latest.Got?
    && exists i :: (
      && 0 <= i < |JobsOf(p)|
      && JustifiesCreate(VisitMove(JobsOf(p)[i].repo, Setup(p.allowed, p.force, p.latest.value), JobsOf(p)[i].visit), cand))
  }

  ghost predicate PollJustifiesDecision(p: PollInput, cand: Candidate) {
    && p.latest.Got?
    && exists i :: (
      && 0 <= i < |JobsOf(p)|
      && JustifiesDecision(VisitMove(JobsOf(p)[i].repo, Setup(p.allowed, p.force, p.latest.value), JobsOf(p)[i].visit), cand))
  }

  lemma JustifiedByPoll(m: Move, p: PollInput, cand: Candidate)
    requires m.VisitMove? && MoveOfPoll(m, p)
    ensures JustifiesCreate(m, cand) ==> PollJustifiesCreate(p, cand)
    ensures JustifiesDecision(m, cand) ==> PollJustifiesDecision(p, cand)
  {
    hide JustifiesCreate, JustifiesDecision;
    var i :| 0 <= i < |JobsOf(p)| && JobsOf(p)[i].repo == m.repo && JobsOf(p)[i].visit == m.v;
    assert m == VisitMove(JobsOf(p)[i].repo, Setup(p.allowed, p.force, p.latest.value), JobsOf(p)[i].visit);
  }

  /**
   Consent safety under concurrency: every create and every decision task of every interleaving rests
   on an observation made by some poll that was begun, for a job that poll lists.
   */
  lemma ConsentUnderConcurrency(disk: View, acts: seq<Act>, j: nat)
    requires j < |Exec(World(disk, disk, []), acts).trace|
    ensures var e := Exec(World(disk, disk, []), acts).trace[j];
      && (e.CreateSent? ==>
            exists k :: 0 <= k < |acts| && acts[k].Begin? && PollJustifiesCreate(acts[k].input, e.candidate))
      && (e.DecisionSent? ==>
            exists k :: 0 <= k < |acts| && acts[k].Begin? && PollJustifiesDecision(acts[k].input, e.candidate))
  {
    var moves := InterleavingIsARun(disk, acts);
    hide Exec, Run, MadeBy, PollJustifiesCreate, PollJustifiesDecision, MoveOfPoll;
    var w := World(disk, disk, []);
    ConsentSafety(w, moves, j);
    var e := Run(w, moves).trace[j];
    if e.CreateSent? || e.DecisionSent? {
      var n :| 0 <= n < |moves| && MadeBy(w, moves, n, j)
        && (e.CreateSent? ==> JustifiesCreate(moves[n], e.candidate))
        && (e.DecisionSent? ==> JustifiesDecision(moves[n], e.candidate));
      assert moves[n].VisitMove?;
      hide JustifiesCreate, JustifiesDecision;
      var k :| 0 <= k < |acts| && acts[k].Begin? && MoveOfPoll(moves[n], acts[k].input);
      JustifiedByPoll(moves[n], acts[k].input, e.candidate);
    }
  }

  /** Every poll that is begun lists repos of the one owner. */
  ghost predicate ListsOwned(acts: seq<Act>, owner: string) {
    forall k, i :: 0 <= k < |acts| && acts[k].Begin? && 0 <= i < |JobsOf(acts[k].input)|
      ==> JobsOf(acts[k].input)[i].repo.owner == owner
  }

  lemma MovesAreOwned(moves: seq<Move>, acts: seq<Act>, owner: string)
    requires MovesBegun(moves, acts) && ListsOwned(acts, owner)
    ensures OwnedBy(moves, owner)
  {
    forall n | 0 <= n < |moves| && (moves[n].VisitMove? || moves[n].CloseMove?)
      ensures moves[n].repo.owner == owner
    {
      var k :| 0 <= k < |acts| && acts[k].Begin? && MoveOfPoll(moves[n], acts[k].input);
    }
  }

  /** From a cold start, every completion of every interleaving closes an earlier successful create. */
  lemma CompletionClosesUnderConcurrency(acts: seq<Act>, owner: string)
    requires ListsOwned(acts, owner)
    ensures var trace := Exec(World(EMPTY, EMPTY, []), acts).trace;
      forall j :: 0 <= j < |trace| && trace[j].CompleteSent? ==>
        exists i :: (0 <= i < j && trace[i].CreateSent? && trace[i].ok
                     && trace[i].candidate.TaskId() == CompletedTask(trace[j]))
  {
    var moves := InterleavingIsARun(EMPTY, acts);
    MovesAreOwned(moves, acts, owner);
    hide Exec, Run, MovesBegun, OwnedBy;
    CompletionClosesACreate(moves, owner);
  }

  /** When no poll is forced, a repo, HEAD and version filed once is not attempted again before another pair is. */
  lemma UnforcedCreateIsNewUnderConcurrency(disk: View, acts: seq<Act>, i: nat, j: nat)
    requires forall k :: 0 <= k < |acts| && acts[k].Begin? ==> !acts[k].input.force
    requires var trace := Exec(World(disk, disk, []), acts).trace;
      && i < j < |trace|
      && trace[i].CreateSent? && trace[i].ok && trace[j].CreateSent?
      && trace[i].candidate.repo.Key() == trace[j].candidate.repo.Key()
      && trace[i].candidate.headSHA == trace[j].candidate.headSHA != ""
      && trace[i].candidate.Target() == trace[j].candidate.Target()
    ensures var trace := Exec(World(disk, disk, []), acts).trace;
      exists p :: i < p < j &&
        (|| (trace[p].CreateSent? && trace[p].ok && trace[p].candidate.repo.Key() == trace[i].candidate.repo.Key()
             && (trace[p].candidate.headSHA != trace[i].candidate.headSHA
                 || trace[p].candidate.Target() != trace[i].candidate.Target()))
         || trace[p].DiskLost?
         || (trace[p].Loaded? && forall q :: i < q < p ==> !trace[q].Saved?))
  {
    var moves := InterleavingIsARun(disk, acts);
    hide Exec, Run, MadeBy;
    var w := World(disk, disk, []);
    ConsentSafety(w, moves, j);
    var n :| 0 <= n < |moves| && MadeBy(w, moves, n, j) && JustifiesCreate(moves[n], Run(w, moves).trace[j].candidate);
    var k :| 0 <= k < |acts| && acts[k].Begin? && MoveOfPoll(moves[n], acts[k].input);
    UnforcedCreateIsNew(disk, moves, n, i, j);
  }
}
