/**
 Whole runs: any sequence of loads, visits, completion checks and saves, with the process stopping
 anywhere and the file being lost at any time. Every poll, finished or cut off, is such a sequence.
 */
module Runs {
  import opened GitHub
  import opened Cycle
  import opened PassFacts

  /** The cursor in memory, the one on disk, and all events so far. */
  datatype World = World(mem: View, disk: View, trace: seq<Event>)

  datatype Move =
    | Load
    | VisitMove(repo: Repo, s: Setup, v: Visit)
    | CloseMove(repo: Repo, c: Closing)
    | Save(ok: bool)
    | LoseDisk
    | NoteScanned(repos: nat)
    | NoteResult(result: CycleLabel)

  function EventsOf(w: World, m: Move): seq<Event> {
    match m
    case Load => [Loaded]
    case VisitMove(repo, s, v) => VisitRepo(w.mem, repo, s, v).events
    case CloseMove(repo, c) => CompleteRepo(w.mem, repo, c).events
    case Save(ok) => [SaveEvent(ok)]
    case LoseDisk => [DiskLost]
    case NoteScanned(n) => [Scanned(n)]
    case NoteResult(result) => [CycleResult(result)]
  }

  function Do(w: World, m: Move): World {
    var trace := w.trace + EventsOf(w, m);
    match m
    case Load => World(w.disk, w.disk, trace)
    case VisitMove(repo, s, v) => World(VisitRepo(w.mem, repo, s, v).cursor, w.disk, trace)
    case CloseMove(repo, c) => World(CompleteRepo(w.mem, repo, c).cursor, w.disk, trace)
    case Save(ok) => World(w.mem, if ok then w.mem else w.disk, trace)
    case LoseDisk => World(w.mem, EMPTY, trace)
    case _ => World(w.mem, w.disk, trace)
  }

  function Run(w: World, moves: seq<Move>): World {
    if moves == [] then w else Do(Run(w, moves[..|moves| - 1]), moves[|moves| - 1])
  }

  lemma {:induction false} RunConcat(w: World, a: seq<Move>, b: seq<Move>)
    ensures Run(w, a + b) == Run(Run(w, a), b)
  {
    hide Do;
    if b == [] {
      assert a + b == a;
    } else {
      RunConcat(w, a, b[..|b| - 1]);
      assert (a + b)[..|a + b| - 1] == a + b[..|b| - 1];
    }
  }

  lemma RunTwo(w: World, x: Move, y: Move)
    ensures Run(w, [x]) == Do(w, x)
    ensures Run(w, [x, y]) == Do(Do(w, x), y)
  {
    hide Do;
    assert [x][..0] == [] && [x, y][..1] == [x];
  }

  lemma RunSnoc(w: World, moves: seq<Move>, n: nat)
    requires n < |moves|
    ensures Run(w, moves[..n + 1]) == Do(Run(w, moves[..n]), moves[n])
  {
    assert moves[..n + 1][..n] == moves[..n];
  }

  // -------------------------------------------- the trace, move by move

  /** The events a run adds. */
  function Since(w: World, moves: seq<Move>): seq<Event> {
    if moves == [] then []
    else
      var front := moves[..|moves| - 1];
      Since(w, front) + EventsOf(Run(w, front), moves[|moves| - 1])
  }

  lemma {:induction false} TraceGrows(w: World, moves: seq<Move>)
    ensures Run(w, moves).trace == w.trace + Since(w, moves)
  {
    hide Do, EventsOf;
    if moves != [] {
      var front, last := moves[..|moves| - 1], moves[|moves| - 1];
      TraceGrows(w, front);
      DoAddsEvents(Run(w, front), last);
      Regroup(w.trace, Since(w, front), EventsOf(Run(w, front), last));
    }
  }

  lemma PrefixOfTrace(w: World, moves: seq<Move>, n: nat)
    requires n <= |moves|
    ensures Run(w, moves[..n]).trace <= Run(w, moves).trace
  {
    assert moves == moves[..n] + moves[n..];
    RunConcat(w, moves[..n], moves[n..]);
    TraceGrows(Run(w, moves[..n]), moves[n..]);
  }

  /** Event `j` of the trace was made by move `n`. */
  predicate MadeBy(w: World, moves: seq<Move>, n: nat, j: nat)
    requires n < |moves|
  {
    |Run(w, moves[..n]).trace| <= j < |Run(w, moves[..n + 1]).trace|
  }

  /** The event is one of those its move gives in the world the earlier moves left. */
  lemma EventOfMove(w: World, moves: seq<Move>, n: nat, j: nat)
    requires n < |moves| && MadeBy(w, moves, n, j)
    ensures var u := Run(w, moves[..n]);
      && |u.trace| <= j && j - |u.trace| < |EventsOf(u, moves[n])| && j < |Run(w, moves).trace|
      && Run(w, moves).trace[j] == EventsOf(u, moves[n])[j - |u.trace|]
  {
    hide Run, Do, EventsOf;
    var u := Run(w, moves[..n]);
    RunSnoc(w, moves, n);
    DoAddsEvents(u, moves[n]);
    PrefixOfTrace(w, moves, n + 1);
    PickFromConcat(u.trace, EventsOf(u, moves[n]), Run(w, moves).trace, j);
  }

  lemma DoAddsEvents(w: World, m: Move)
    ensures Do(w, m).trace == w.trace + EventsOf(w, m)
  {
    hide EventsOf;
  }

  lemma PickFromConcat(a: seq<Event>, b: seq<Event>, whole: seq<Event>, j: nat)
    requires a + b <= whole && |a| <= j < |a| + |b|
    ensures j < |whole| && whole[j] == b[j - |a|]
  {
    assert whole[j] == (a + b)[j];
  }

  /** Every event of a run was made by some move of it. */
  lemma {:induction false} WhichMove(w: World, moves: seq<Move>, j: nat) returns (n: nat)
    requires |w.trace| <= j < |Run(w, moves).trace|
    ensures n < |moves| && MadeBy(w, moves, n, j)
  {
    hide Do;
    n := |moves| - 1;
    assert moves[..n + 1] == moves;
    if j < |Run(w, moves[..n]).trace| {
      var front := moves[..n];
      n := WhichMove(w, front, j);
      assert front[..n] == moves[..n] && front[..n + 1] == moves[..n + 1];
    }
  }

  // ------------------------------------------------------ polls are runs

  function PassMoves(jobs: seq<Job>, s: Setup): seq<Move> {
    if jobs == [] || jobs[0].visit.cancelled then []
    else [VisitMove(jobs[0].repo, s, jobs[0].visit)]
         + if Aborts(jobs[0].visit) then [] else PassMoves(jobs[1..], s)
  }

  function CloseMoves(c: View, jobs: seq<Job>): seq<Move>
    decreases jobs
  {
    if jobs == [] || jobs[0].closing.cancelled then []
    else
      var r := CompleteRepo(c, jobs[0].repo, jobs[0].closing);
      [CloseMove(jobs[0].repo, jobs[0].closing)] + if r.abort then [] else CloseMoves(r.cursor, jobs[1..])
  }

  function PassesMoves(c: View, jobs: seq<Job>, s: Setup, saveOk: bool): seq<Move> {
    var first := ProcessRepos(c, jobs, s);
    PassMoves(jobs, s)
    + if first.abort then [NoteResult(RateLimitedCycle)]
      else
        CloseMoves(first.cursor, jobs)
        + if CompleteMergedUpdates(first.cursor, jobs).abort
          then [NoteResult(RateLimitedCycle), Save(saveOk)]
          else [Save(saveOk), NoteResult(Success)]
  }

  function PollMoves(c: View, p: PollInput): seq<Move> {
    if !p.latest.Got? then [Load, NoteResult(GoVersionError)]
    else if !p.jobs.Got? then [Load, NoteResult(if p.jobs.RateLimited? then RateLimitedCycle else GithubError)]
    else [Load, NoteScanned(|p.jobs.value|)]
         + PassesMoves(c, p.jobs.value, Setup(p.allowed, p.force, p.latest.value), p.saveOk)
  }

  /** One more move in front of a run that is already known. */
  lemma MoveThenRun(w: World, m: Move, rest: seq<Move>, cursor: View, events: seq<Event>)
    requires Run(Do(w, m), rest) == World(cursor, Do(w, m).disk, Do(w, m).trace + events)
    requires Do(w, m).disk == w.disk
    ensures Run(w, [m] + rest) == World(cursor, w.disk, w.trace + (EventsOf(w, m) + events))
  {
    hide EventsOf, Run;
    RunTwo(w, m, m);
    RunConcat(w, [m], rest);
    Regroup(w.trace, EventsOf(w, m), events);
  }

  lemma {:induction false} PassIsARun(w: World, jobs: seq<Job>, s: Setup)
    ensures var r := ProcessRepos(w.mem, jobs, s);
      Run(w, PassMoves(jobs, s)) == World(r.cursor, w.disk, w.trace + r.events)
    decreases jobs
  {
    Regroup(w.trace, [], []);
    if jobs != [] && !jobs[0].visit.cancelled {
      var move := VisitMove(jobs[0].repo, s, jobs[0].visit);
      var r := VisitRepo(w.mem, jobs[0].repo, s, jobs[0].visit);
      AbortCondition(w.mem, jobs[0].repo, s, jobs[0].visit);
      hide VisitRepo, Aborts, Run;
      assert Do(w, move) == World(r.cursor, w.disk, w.trace + r.events);
      if r.abort {
        RunTwo(w, move, move);
        assert PassMoves(jobs, s) == [move];
      } else {
        var q := ProcessRepos(r.cursor, jobs[1..], s);
        PassIsARun(Do(w, move), jobs[1..], s);
        MoveThenRun(w, move, PassMoves(jobs[1..], s), q.cursor, q.events);
      }
    }
  }

  lemma {:induction false} CompletionIsARun(w: World, jobs: seq<Job>)
    ensures var r := CompleteMergedUpdates(w.mem, jobs);
      Run(w, CloseMoves(w.mem, jobs)) == World(r.cursor, w.disk, w.trace + r.events)
    decreases jobs
  {
    Regroup(w.trace, [], []);
    if jobs != [] && !jobs[0].closing.cancelled {
      var move := CloseMove(jobs[0].repo, jobs[0].closing);
      var r := CompleteRepo(w.mem, jobs[0].repo, jobs[0].closing);
      hide CompleteRepo, Run;
      assert Do(w, move) == World(r.cursor, w.disk, w.trace + r.events);
      if r.abort {
        RunTwo(w, move, move);
        assert CloseMoves(w.mem, jobs) == [move];
      } else {
        var q := CompleteMergedUpdates(r.cursor, jobs[1..]);
        CompletionIsARun(Do(w, move), jobs[1..]);
        MoveThenRun(w, move, CloseMoves(r.cursor, jobs[1..]), q.cursor, q.events);
      }
    }
  }

  /** The end of a poll whose first pass went through: the second pass, then label and save in either order. */
  lemma TailIsARun(w: World, jobs: seq<Job>, saveOk: bool)
    ensures var r := CompleteMergedUpdates(w.mem, jobs);
      var tail := if r.abort then [NoteResult(RateLimitedCycle), Save(saveOk)] else [Save(saveOk), NoteResult(Success)];
      var events := if r.abort then [CycleResult(RateLimitedCycle), SaveEvent(saveOk)]
                    else [SaveEvent(saveOk), CycleResult(Success)];
      Run(w, CloseMoves(w.mem, jobs) + tail)
      == World(r.cursor, if saveOk then r.cursor else w.disk, w.trace + (r.events + events))
  {
    hide CompleteMergedUpdates, CloseMoves, Run;
    var r := CompleteMergedUpdates(w.mem, jobs);
    var x := if r.abort then NoteResult(RateLimitedCycle) else Save(saveOk);
    var y := if r.abort then Save(saveOk) else NoteResult(Success);
    CompletionIsARun(w, jobs);
    var u := Run(w, CloseMoves(w.mem, jobs));
    RunConcat(w, CloseMoves(w.mem, jobs), [x, y]);
    RunTwo(u, x, y);
    assert w.trace + r.events + EventsOf(u, x) + EventsOf(Do(u, x), y)
        == w.trace + (r.events + [EventsOf(u, x)[0], EventsOf(Do(u, x), y)[0]]);
  }

  lemma PassesAreARun(w: World, jobs: seq<Job>, s: Setup, saveOk: bool)
    ensures var r := Passes(w.mem, jobs, s, saveOk);
      Run(w, PassesMoves(w.mem, jobs, s, saveOk))
      == World(r.cursor, if r.saves && saveOk then r.cursor else w.disk, w.trace + r.events)
  {
    hide ProcessRepos, CompleteMergedUpdates, PassMoves, CloseMoves, Run;
    var first := ProcessRepos(w.mem, jobs, s);
    var a := Run(w, PassMoves(jobs, s));
    PassIsARun(w, jobs, s);
    if first.abort {
      RunConcat(w, PassMoves(jobs, s), [NoteResult(RateLimitedCycle)]);
      RunTwo(a, NoteResult(RateLimitedCycle), NoteResult(RateLimitedCycle));
      Regroup(w.trace, first.events, [CycleResult(RateLimitedCycle)]);
    } else {
      var second := CompleteMergedUpdates(first.cursor, jobs);
      var tail := if second.abort then [NoteResult(RateLimitedCycle), Save(saveOk)] else [Save(saveOk), NoteResult(Success)];
      var events := if second.abort then [CycleResult(RateLimitedCycle), SaveEvent(saveOk)]
                    else [SaveEvent(saveOk), CycleResult(Success)];
      TailIsARun(a, jobs, saveOk);
      RunConcat(w, PassMoves(jobs, s), CloseMoves(a.mem, jobs) + tail);
      Regroup(w.trace, first.events, second.events + events);
      Regroup(first.events, second.events, events);
    }
  }

  /** A whole poll is a run, with the same cursor, file and events; a poll cut off is a prefix of it. */
  lemma PollIsARun(w: World, p: PollInput)
    ensures var r := Poll(w.disk, p);
      Run(w, PollMoves(w.disk, p)) == World(r.cursor, DiskAfter(w.disk, p), w.trace + r.events)
  {
    hide Passes, PassesMoves, Run;
    if !p.latest.Got? {
      RunTwo(w, Load, NoteResult(GoVersionError));
    } else if !p.jobs.Got? {
      RunTwo(w, Load, NoteResult(if p.jobs.RateLimited? then RateLimitedCycle else GithubError));
    } else {
      var jobs, s := p.jobs.value, Setup(p.allowed, p.force, p.latest.value);
      var head := [Load, NoteScanned(|jobs|)];
      RunTwo(w, Load, NoteScanned(|jobs|));
      var a := Run(w, head);
      RunConcat(w, head, PassesMoves(w.disk, jobs, s, p.saveOk));
      PassesAreARun(a, jobs, s, p.saveOk);
      var r := Passes(w.disk, jobs, s, p.saveOk);
      assert w.trace + [Loaded] + [Scanned(|jobs|)] + r.events == w.trace + ([Loaded, Scanned(|jobs|)] + r.events);
    }
  }

  // --------------------------------------------- the moves of a poll

  /** A visit under these settings, or a check, of one of the jobs. */
  ghost predicate MoveOfJobs(m: Move, jobs: seq<Job>, s: Setup) {
    match m
    case VisitMove(repo, t, v) => t == s && exists i :: 0 <= i < |jobs| && jobs[i].repo == repo && jobs[i].visit == v
    case CloseMove(repo, c) => exists i :: 0 <= i < |jobs| && jobs[i].repo == repo && jobs[i].closing == c
    case _ => true
  }

  ghost predicate MovesOfJobs(moves: seq<Move>, jobs: seq<Job>, s: Setup) {
    forall n :: 0 <= n < |moves| ==> MoveOfJobs(moves[n], jobs, s)
  }

  /** A visit or a check of some job the poll lists, under the settings of the poll. */
  ghost predicate MoveOfPoll(m: Move, p: PollInput) {
    m.VisitMove? || m.CloseMove? ==>
      p.latest.Got? && MoveOfJobs(m, JobsOf(p), Setup(p.allowed, p.force, p.latest.value))
  }

  lemma MoreJobs(moves: seq<Move>, jobs: seq<Job>, s: Setup)
    requires jobs != [] && MovesOfJobs(moves, jobs[1..], s)
    ensures MovesOfJobs(moves, jobs, s)
  {
    assert forall i :: 0 <= i < |jobs[1..]| ==> jobs[1..][i] == jobs[i + 1];
    forall n | 0 <= n < |moves|
      ensures MoveOfJobs(moves[n], jobs, s)
    {
      assert MoveOfJobs(moves[n], jobs[1..], s);
    }
  }

  lemma {:induction false} PassMovesAreItsJobs(jobs: seq<Job>, s: Setup)
    ensures MovesOfJobs(PassMoves(jobs, s), jobs, s)
  {
    if jobs != [] && !jobs[0].visit.cancelled {
      PassMovesAreItsJobs(jobs[1..], s);
      MoreJobs(PassMoves(jobs[1..], s), jobs, s);
      assert MoveOfJobs(VisitMove(jobs[0].repo, s, jobs[0].visit), jobs, s);
      hide MoveOfJobs, Aborts;
    }
  }

  lemma {:induction false} CloseMovesAreItsJobs(c: View, jobs: seq<Job>, s: Setup)
    ensures MovesOfJobs(CloseMoves(c, jobs), jobs, s)
    decreases jobs
  {
    hide CompleteRepo;
    if jobs != [] && !jobs[0].closing.cancelled {
      var r := CompleteRepo(c, jobs[0].repo, jobs[0].closing);
      CloseMovesAreItsJobs(r.cursor, jobs[1..], s);
      MoreJobs(CloseMoves(r.cursor, jobs[1..]), jobs, s);
      assert MoveOfJobs(CloseMove(jobs[0].repo, jobs[0].closing), jobs, s);
      hide MoveOfJobs;
    }
  }

  lemma JoinMoves(a: seq<Move>, b: seq<Move>, jobs: seq<Job>, s: Setup)
    requires MovesOfJobs(a, jobs, s) && MovesOfJobs(b, jobs, s)
    ensures MovesOfJobs(a + b, jobs, s)
  {
    hide MoveOfJobs;
  }

  lemma PassesMovesAreItsJobs(c: View, jobs: seq<Job>, s: Setup, saveOk: bool)
    ensures MovesOfJobs(PassesMoves(c, jobs, s, saveOk), jobs, s)
  {
    hide PassMoves, CloseMoves, ProcessRepos, CompleteMergedUpdates, MovesOfJobs;
    var first := ProcessRepos(c, jobs, s);
    PassMovesAreItsJobs(jobs, s);
    CloseMovesAreItsJobs(first.cursor, jobs, s);
    NotesAreItsJobs(jobs, s, saveOk);
    var tail := if CompleteMergedUpdates(first.cursor, jobs).abort
                then [NoteResult(RateLimitedCycle), Save(saveOk)] else [Save(saveOk), NoteResult(Success)];
    JoinMoves(PassMoves(jobs, s), [NoteResult(RateLimitedCycle)], jobs, s);
    JoinMoves(CloseMoves(first.cursor, jobs), tail, jobs, s);
    JoinMoves(PassMoves(jobs, s), CloseMoves(first.cursor, jobs) + tail, jobs, s);
  }

  lemma NotesAreItsJobs(jobs: seq<Job>, s: Setup, saveOk: bool)
    ensures MovesOfJobs([Load, NoteScanned(|jobs|)], jobs, s)
    ensures MovesOfJobs([NoteResult(RateLimitedCycle)], jobs, s)
    ensures MovesOfJobs([NoteResult(RateLimitedCycle), Save(saveOk)], jobs, s)
    ensures MovesOfJobs([Save(saveOk), NoteResult(Success)], jobs, s)
  {}

  /** A poll visits and checks the jobs it lists, and nothing else. */
  lemma PollMovesAreItsOwn(c: View, p: PollInput)
    ensures forall n :: 0 <= n < |PollMoves(c, p)| ==> MoveOfPoll(PollMoves(c, p)[n], p)
  {
    hide PassesMoves, MoveOfJobs;
    if p.latest.Got? && p.jobs.Got? {
      var jobs, s := p.jobs.value, Setup(p.allowed, p.force, p.latest.value);
      PassesMovesAreItsJobs(c, jobs, s, p.saveOk);
      NotesAreItsJobs(jobs, s, p.saveOk);
      JoinMoves([Load, NoteScanned(|jobs|)], PassesMoves(c, jobs, s, p.saveOk), jobs, s);
    }
  }
}
