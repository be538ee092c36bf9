/** Safety over whole runs: emission claims, completion, consent. */
module Safety {
  import opened Versions
  import opened GitHub
  import opened Filters
  import opened TaskIds
  import opened Cycle
  import opened VisitFacts
  import opened Runs

  // ---------------------------------------------------------------- latches

  /**
   Four facts the cursor remembers about a repo: a task for `target` was filed and is under way; the
   last task filed, at `head`, was completed; the last task was filed at `head` for `version`; the last
   completion was at `head`, whatever has been filed since.
   */
  datatype Watch =
    | Claim(key: string, target: string)
    | Done(key: string, head: string)
    | Pair(key: string, head: string, version: string)
    | Marker(key: string, head: string)

  /** A successful create for the repo at this HEAD and version. */
  predicate CreatedAt(e: Event, key: string, head: string, version: string) {
    && e.CreateSent? && e.ok && e.candidate.repo.Key() == key
    && e.candidate.headSHA == head && e.candidate.Target() == version
  }

  /** A successful create for the repo at another HEAD or version. */
  predicate CreatedElsewhere(e: Event, key: string, head: string, version: string) {
    && e.CreateSent? && e.ok && e.candidate.repo.Key() == key
    && (e.candidate.headSHA != head || e.candidate.Target() != version)
  }

  /** The event that makes the cursor remember. */
  predicate Arms(x: Watch, e: Event) {
    match x
    case Claim(key, target) => e.CreateSent? && e.ok && e.candidate.repo.Key() == key && e.candidate.Target() == target
    case Done(key, head) => e.CompleteSent? && e.ok && e.repo.Key() == key && e.headSHA == head
    case Pair(key, head, version) => CreatedAt(e, key, head, version)
    case Marker(key, head) => e.CompleteSent? && e.ok && e.repo.Key() == key && e.headSHA == head
  }

  /** The events that let it forget. */
  predicate Releases(x: Watch, e: Event) {
    match x
    case Claim(key, target) =>
      || e == Skipped(key, OpenUpdatePR)
      || e == Converged(key, target)
      || e == Expiry(key, target)
      || (e.CreateSent? && e.ok && e.candidate.repo.Key() == key && e.candidate.Target() != target)
    case Done(key, head) =>
      e.CreateSent? && e.ok && e.candidate.repo.Key() == key && e.candidate.headSHA != head
    case Pair(key, head, version) => CreatedElsewhere(e, key, head, version)
    case Marker(key, head) => e.CompleteSent? && e.ok && e.repo.Key() == key && e.headSHA != head
  }

  /**
   What must not happen while it is remembered: another create for the target, another completion,
   another completion at the HEAD of the last one. The pair stops unforced creates only, which an event does not show.
   */
  predicate Forbids(x: Watch, e: Event) {
    match x
    case Claim(key, target) => e.CreateSent? && e.candidate.repo.Key() == key && e.candidate.Target() == target
    case Done(key, head) => e.CompleteSent? && e.repo.Key() == key
    case Pair(_, _, _) => false
    case Marker(key, head) => e.CompleteSent? && e.repo.Key() == key && e.headSHA == head
  }

  predicate Holds(x: Watch, c: View) {
    match x
    case Claim(key, target) => Claims(c, key, target)
    case Done(key, head) => key in c && c[key].lastSeenHeadSHA == head == c[key].completedHeadSHA
    case Pair(key, head, version) => key in c && SeenIn(c, key) == Seen(head, version)
    case Marker(key, head) => key in c && c[key].completedHeadSHA == head
  }

  /** Whether the fact is remembered in memory and on disk, as the events tell it. */
  datatype Latch = Latch(mem: bool, disk: bool)

  const OFF := Latch(false, false)

  function Next(l: Latch, x: Watch, e: Event): Latch {
    if e.Loaded? then Latch(l.disk, l.disk)
    else if e.Saved? then Latch(l.mem, l.mem)
    else if e.DiskLost? then Latch(l.mem, false)
    else if Arms(x, e) then Latch(true, l.disk)
    else if Releases(x, e) then Latch(false, l.disk)
    else l
  }

  function After(l: Latch, x: Watch, events: seq<Event>): Latch {
    if events == [] then l
    else Next(After(l, x, events[..|events| - 1]), x, events[|events| - 1])
  }

  lemma {:induction false} AfterConcat(l: Latch, x: Watch, a: seq<Event>, b: seq<Event>)
    ensures After(l, x, a + b) == After(After(l, x, a), x, b)
  {
    hide Next;
    if b == [] {
      assert a + b == a;
    } else {
      AfterConcat(l, x, a, b[..|b| - 1]);
      assert (a + b)[..|a + b| - 1] == a + b[..|b| - 1];
    }
  }

  lemma AfterFew(l: Latch, x: Watch, e: Event, f: Event, g: Event)
    ensures After(l, x, [e]) == Next(l, x, e)
    ensures After(l, x, [e, f]) == Next(Next(l, x, e), x, f)
    ensures After(l, x, [e, f, g]) == Next(Next(Next(l, x, e), x, f), x, g)
  {
    assert [e][..0] == [] && [e, f][..1] == [e] && [e, f, g][..2] == [e, f];
  }

  /** The latch tells the truth about the world. */
  predicate Truthful(l: Latch, x: Watch, mem: View, disk: View) {
    (l.mem ==> Holds(x, mem)) && (l.disk ==> Holds(x, disk))
  }

  /** No forbidden event happens while the latch is on. */
  ghost predicate Respected(l: Latch, x: Watch, events: seq<Event>) {
    forall i :: 0 <= i < |events| && Forbids(x, events[i]) ==> !After(l, x, events[..i]).mem
  }

  lemma RespectedConcat(l: Latch, x: Watch, a: seq<Event>, b: seq<Event>)
    requires Respected(l, x, a) && Respected(After(l, x, a), x, b)
    ensures Respected(l, x, a + b)
  {
    hide After, Forbids;
    forall i | 0 <= i < |a + b| && Forbids(x, (a + b)[i])
      ensures !After(l, x, (a + b)[..i]).mem
    {
      if i < |a| {
        assert (a + b)[..i] == a[..i];
      } else {
        assert (a + b)[..i] == a + b[..i - |a|];
        AfterConcat(l, x, a, b[..i - |a|]);
      }
    }
  }

  // ------------------------------------------- one move against one latch

  /** The claim check: it clears what it marks, and lets a live claim through to nothing. */
  lemma ClaimCheckKeepsTruth(l: Latch, x: Watch, c: View, disk: View, cand: Candidate, now: int)
    requires Truthful(l, x, c, disk)
    ensures var (suppressed, c', marks) := CheckClaim(c, cand, now);
      && Truthful(After(l, x, marks), x, c', disk) && Respected(l, x, marks)
      && (!suppressed ==> After(l, x, marks).mem ==> x != Claim(cand.repo.Key(), cand.Target()))
  {
    var (suppressed, c', marks) := CheckClaim(c, cand, now);
    NumberHasDigits(cand.latestGo);
    if marks != [] {
      AfterFew(l, x, marks[0], marks[0], marks[0]);
      assert marks == [marks[0]];
    }
  }

  /** The three shapes of the end of a visit, each with what it leaves in memory. */
  lemma SkipKeepsTruth(l: Latch, x: Watch, c: View, disk: View, key: string, reason: Reason)
    requires Truthful(l, x, c, disk)
    ensures Respected(l, x, [Skipped(key, reason)])
    ensures Truthful(After(l, x, [Skipped(key, reason)]), x, c, disk)
  {
    AfterFew(l, x, Skipped(key, reason), Loaded, Loaded);
  }

  lemma DropKeepsTruth(l: Latch, x: Watch, c: View, disk: View, e: Event)
    requires Truthful(l, x, c, disk) && e.Dropped?
    ensures Respected(l, x, [e]) && Truthful(After(l, x, [e]), x, c, disk)
  {
    AfterFew(l, x, e, e, e);
  }

  /** An observed open update PR releases the claim it clears. */
  lemma OpenPRKeepsTruth(l: Latch, x: Watch, c: View, disk: View, key: string, latest: Version)
    requires Truthful(l, x, c, disk)
    ensures var events := [Skipped(key, OpenUpdatePR)];
      Respected(l, x, events) && Truthful(After(l, x, events), x, ClearInFlight(c, key, latest.Number()), disk)
  {
    NumberHasDigits(latest);
    AfterFew(l, x, Skipped(key, OpenUpdatePR), Loaded, Loaded);
  }

  lemma AskKeepsTruth(l: Latch, x: Watch, c: View, disk: View, key: string, cand: Candidate, ok: bool)
    requires Truthful(l, x, c, disk)
    ensures var events := [Skipped(key, AutoUpdateUndecided), DecisionSent(cand, ok), Published(ok)];
      Respected(l, x, events) && Truthful(After(l, x, events), x, c, disk)
  {
    AfterFew(l, x, Skipped(key, AutoUpdateUndecided), DecisionSent(cand, ok), Published(ok));
  }

  lemma CreateKeepsTruth(l: Latch, x: Watch, c: View, disk: View, cand: Candidate, at: int, ok: bool)
    requires Truthful(l, x, c, disk)
    requires l.mem ==> x != Claim(cand.repo.Key(), cand.Target())
    ensures var events := [CreateSent(cand, ok), Published(ok)];
      Respected(l, x, events)
      && Truthful(After(l, x, events), x, if ok then MarkPublished(c, cand, at) else c, disk)
  {
    hide After;
    var events := [CreateSent(cand, ok), Published(ok)];
    AfterFew(l, x, events[0], events[1], Loaded);
    AfterNothing(l, x);
    assert events[..0] == [];
  }

  /** The filters and the emission, once no claim for the candidate's target is remembered. */
  lemma EmitKeepsTruth(l: Latch, x: Watch, c: View, disk: View, cand: Candidate, s: Setup, v: Visit)
    requires Truthful(l, x, c, disk)
    requires l.mem ==> x != Claim(cand.repo.Key(), cand.Target())
    ensures var r := FilterAndEmit(c, cand, s, v);
      Truthful(After(l, x, r.events), x, r.cursor, disk) && Respected(l, x, r.events)
  {
    hide FilterAndEmit, After, Respected, Truthful, Eligible, Recorded;
    FilterVerdict(c, cand, s, v);
    CreateKeepsTruth(l, x, c, disk, cand, v.recordedAt, v.sendOk);
    AskKeepsTruth(l, x, c, disk, cand.repo.Key(), cand, v.sendOk);
    var events := FilterAndEmit(c, cand, s, v).events;
    if reason :| events == [Skipped(cand.repo.Key(), reason)] {
      SkipKeepsTruth(l, x, c, disk, cand.repo.Key(), reason);
    }
  }

  lemma AfterNothing(l: Latch, x: Watch)
    ensures After(l, x, []) == l
  {}

  lemma DecideKeepsTruth(l: Latch, x: Watch, c: View, disk: View, cand: Candidate, s: Setup, v: Visit)
    requires Truthful(l, x, c, disk)
    ensures var r := Decide(c, cand, s, v);
      Truthful(After(l, x, r.events), x, r.cursor, disk) && Respected(l, x, r.events)
  {
    hide Consider, After, ClearInFlight, Holds;
    var key := cand.repo.Key();
    match v.openPR
    case RateLimited => AfterNothing(l, x);
    case Failed => DropKeepsTruth(l, x, c, disk, Dropped(key, OpenPRCheck));
    case Got(open) =>
      if open {
        OpenPRKeepsTruth(l, x, c, disk, key, cand.latestGo);
      } else {
        ConsiderKeepsTruth(l, x, c, disk, cand, s, v);
      }
  }

  lemma VisitKeepsTruth(l: Latch, x: Watch, c: View, disk: View, repo: Repo, s: Setup, v: Visit)
    requires Truthful(l, x, c, disk)
    ensures var r := VisitRepo(c, repo, s, v);
      Truthful(After(l, x, r.events), x, r.cursor, disk) && Respected(l, x, r.events)
  {
    hide Decide, Gather;
    match Gather(repo, v, s.latest)
    case Abort =>
    case Drop(step) => DropKeepsTruth(l, x, c, disk, Dropped(repo.Key(), step));
    case Have(cand) => DecideKeepsTruth(l, x, c, disk, cand, s, v);
  }

  lemma ConsiderKeepsTruth(l: Latch, x: Watch, c: View, disk: View, cand: Candidate, s: Setup, v: Visit)
    requires Truthful(l, x, c, disk)
    ensures var r := Consider(c, cand, s, v);
      Truthful(After(l, x, r.events), x, r.cursor, disk) && Respected(l, x, r.events)
  {
    hide CheckClaim, FilterAndEmit, After, Truthful, Respected;
    var (suppressed, c', marks) := CheckClaim(c, cand, v.now);
    ClaimCheckKeepsTruth(l, x, c, disk, cand, v.now);
    var m := After(l, x, marks);
    var skip := Skipped(cand.repo.Key(), EmissionInFlight);
    if suppressed {
      SkipKeepsTruth(m, x, c', disk, cand.repo.Key(), EmissionInFlight);
      AfterConcat(l, x, marks, [skip]);
      RespectedConcat(l, x, marks, [skip]);
    } else {
      var r := FilterAndEmit(c', cand, s, v);
      EmitKeepsTruth(m, x, c', disk, cand, s, v);
      AfterConcat(l, x, marks, r.events);
      RespectedConcat(l, x, marks, r.events);
    }
  }

  lemma CompletionKeepsTruth(l: Latch, x: Watch, c: View, disk: View, repo: Repo, v: Closing)
    requires Truthful(l, x, c, disk)
    ensures var r := CompleteRepo(c, repo, v);
      Truthful(After(l, x, r.events), x, r.cursor, disk) && Respected(l, x, r.events)
  {
    var r := CompleteRepo(c, repo, v);
    CompletionCondition(c, repo, v);
    if r.events != [] {
      AfterFew(l, x, r.events[0], r.events[1], Loaded);
      assert r.events[..0] == [];
    }
  }

  lemma MoveKeepsTruth(l: Latch, x: Watch, w: World, m: Move)
    requires Truthful(l, x, w.mem, w.disk)
    ensures var events := EventsOf(w, m);
      Truthful(After(l, x, events), x, Do(w, m).mem, Do(w, m).disk) && Respected(l, x, events)
  {
    match m
    case VisitMove(repo, s, v) => VisitKeepsTruth(l, x, w.mem, w.disk, repo, s, v);
    case CloseMove(repo, c) => CompletionKeepsTruth(l, x, w.mem, w.disk, repo, c);
    case _ => AfterFew(l, x, EventsOf(w, m)[0], Loaded, Loaded);
  }

  /**
   The invariant of all runs. From any world and any latch that tells the truth about it, the latch
   read off the events tells the truth about memory and file after every run, and nothing it forbids
   has happened.
   */
  lemma {:induction false} RunKeepsTruth(l: Latch, x: Watch, w: World, moves: seq<Move>)
    requires Truthful(l, x, w.mem, w.disk)
    ensures var u := Run(w, moves);
      Truthful(After(l, x, Since(w, moves)), x, u.mem, u.disk) && Respected(l, x, Since(w, moves))
  {
    hide Do, EventsOf, Truthful;
    if moves != [] {
      var front, last := moves[..|moves| - 1], moves[|moves| - 1];
      RunKeepsTruth(l, x, w, front);
      hide After, Respected;
      var u, past := Run(w, front), Since(w, front);
      MoveKeepsTruth(After(l, x, past), x, u, last);
      AfterConcat(l, x, past, EventsOf(u, last));
      RespectedConcat(l, x, past, EventsOf(u, last));
    }
  }

  /** A run that starts by reading the file, with nothing known about it. */
  lemma ColdRunKeepsTruth(x: Watch, disk: View, moves: seq<Move>)
    ensures var u := Run(World(disk, disk, []), moves);
      Truthful(After(OFF, x, u.trace), x, u.mem, u.disk) && Respected(OFF, x, u.trace)
  {
    var w := World(disk, disk, []);
    RunKeepsTruth(OFF, x, w, moves);
    TraceGrows(w, moves);
    assert [] + Since(w, moves) == Since(w, moves);
  }

  // ----------------------------------------------------- reading the trace

  /** The cursor that was in memory after event `i` is gone: reloaded without a save, or lost on disk. */
  ghost predicate Forgotten(trace: seq<Event>, i: nat, p: nat)
    requires p < |trace|
  {
    trace[p].DiskLost? || (trace[p].Loaded? && forall q :: i < q < p ==> !trace[q].Saved?)
  }

  lemma ArmingTurnsOn(l: Latch, x: Watch, e: Event)
    ensures Arms(x, e) ==> Next(l, x, e) == Latch(true, l.disk)
  {}

  lemma {:induction false} HeldUntilReleased(trace: seq<Event>, x: Watch, i: nat, j: nat)
    requires i < j <= |trace| && Arms(x, trace[i])
    requires forall p :: i < p < j ==> !Releases(x, trace[p]) && !Forgotten(trace, i, p)
    ensures After(OFF, x, trace[..j]).mem
    ensures (exists q :: i < q < j && trace[q].Saved?) ==> After(OFF, x, trace[..j]).disk
  {
    hide Arms, Releases;
    var k := j - 1;
    var l := After(OFF, x, trace[..k]);
    assert trace[..j][..k] == trace[..k] && trace[..j][k] == trace[k];
    assert After(OFF, x, trace[..j]) == Next(l, x, trace[k]);
    if i < k {
      HeldUntilReleased(trace, x, i, k);
      assert !Forgotten(trace, i, k) && !Releases(x, trace[k]);
    } else {
      ArmingTurnsOn(l, x, trace[k]);
    }
  }

  /** Between an arming event and a forbidden one lies a release, or the cursor was lost. */
  lemma ReleaseComesBetween(disk: View, moves: seq<Move>, x: Watch, i: nat, j: nat)
    requires var trace := Run(World(disk, disk, []), moves).trace;
      i < j < |trace| && Arms(x, trace[i]) && Forbids(x, trace[j])
    ensures var trace := Run(World(disk, disk, []), moves).trace;
      exists p :: i < p < j && (Releases(x, trace[p]) || Forgotten(trace, i, p))
  {
    var trace := Run(World(disk, disk, []), moves).trace;
    ColdRunKeepsTruth(x, disk, moves);
    if forall p :: i < p < j ==> !Releases(x, trace[p]) && !Forgotten(trace, i, p) {
      HeldUntilReleased(trace, x, i, j);
    }
  }

  // ------------------------------------------------------------- theorems

  /**
   At most one emission per claim. In any run from any file, forced cycles included, between a
   successful create and the next attempt for the same repo and target there is an observed open
   update PR, an observed go.mod that is not behind, a claim that ran out, a create for another
   target, or the cursor that recorded the first one was lost.
   */
  lemma OneEmissionPerClaim(disk: View, moves: seq<Move>, key: string, target: string, i: nat, j: nat)
    requires var trace := Run(World(disk, disk, []), moves).trace;
      && i < j < |trace|
      && trace[i].CreateSent? && trace[i].ok && trace[j].CreateSent?
      && trace[i].candidate.repo.Key() == trace[j].candidate.repo.Key() == key
      && trace[i].candidate.Target() == trace[j].candidate.Target() == target
    ensures var trace := Run(World(disk, disk, []), moves).trace;
      exists p :: i < p < j &&
        (|| trace[p] == Skipped(key, OpenUpdatePR)
         || trace[p] == Converged(key, target)
         || trace[p] == Expiry(key, target)
         || (trace[p].CreateSent? && trace[p].ok && trace[p].candidate.repo.Key() == key
             && trace[p].candidate.Target() != target)
         || trace[p].DiskLost?
         || (trace[p].Loaded? && forall q :: i < q < p ==> !trace[q].Saved?))
  {
    var trace := Run(World(disk, disk, []), moves).trace;
    ReleaseComesBetween(disk, moves, Claim(key, target), i, j);
    var p :| i < p < j && (Releases(Claim(key, target), trace[p]) || Forgotten(trace, i, p));
  }

  /**
   A completion is not repeated. Between a completion sent for a repo at a HEAD and the next one
   for that repo, at whatever HEAD, a task was filed at another HEAD, or the cursor was lost.
   Tasks filed at the same HEAD for newer versions do not reopen it.
   */
  lemma CompletionIsNotRepeated(disk: View, moves: seq<Move>, key: string, i: nat, j: nat)
    requires var trace := Run(World(disk, disk, []), moves).trace;
      && i < j < |trace|
      && trace[i].CompleteSent? && trace[i].ok && trace[j].CompleteSent?
      && trace[i].repo.Key() == trace[j].repo.Key() == key
    ensures var trace := Run(World(disk, disk, []), moves).trace;
      exists p :: i < p < j &&
        (|| (trace[p].CreateSent? && trace[p].ok && trace[p].candidate.repo.Key() == key
             && trace[p].candidate.headSHA != trace[i].headSHA)
         || trace[p].DiskLost?
         || (trace[p].Loaded? && forall q :: i < q < p ==> !trace[q].Saved?))
  {
    var trace := Run(World(disk, disk, []), moves).trace;
    var x := Done(key, trace[i].headSHA);
    ReleaseComesBetween(disk, moves, x, i, j);
    var p :| i < p < j && (Releases(x, trace[p]) || Forgotten(trace, i, p));
  }

  /**
   The completion marker survives everything but another completion. Between a completion of a repo at
   a HEAD and the next one at the same HEAD, whatever tasks are filed at whatever HEADs in between, a
   task was completed at another HEAD, or the cursor was lost. Until then a task filed back at that HEAD
   gets no completion.
   */
  lemma MarkerOutlivesTasks(disk: View, moves: seq<Move>, key: string, head: string, i: nat, j: nat)
    requires var trace := Run(World(disk, disk, []), moves).trace;
      && i < j < |trace|
      && trace[i].CompleteSent? && trace[i].ok && trace[j].CompleteSent?
      && trace[i].repo.Key() == trace[j].repo.Key() == key
      && trace[i].headSHA == trace[j].headSHA == head
    ensures var trace := Run(World(disk, disk, []), moves).trace;
      exists p :: i < p < j &&
        (|| (trace[p].CompleteSent? && trace[p].ok && trace[p].repo.Key() == key && trace[p].headSHA != head)
         || trace[p].DiskLost?
         || (trace[p].Loaded? && forall q :: i < q < p ==> !trace[q].Saved?))
  {
    hide Run;
    var trace := Run(World(disk, disk, []), moves).trace;
    ReleaseComesBetween(disk, moves, Marker(key, head), i, j);
    var p :| i < p < j && (Releases(Marker(key, head), trace[p]) || Forgotten(trace, i, p));
  }

  /** Only a release or the loss of the file turns a latch off that is on in memory and on disk. */
  lemma {:induction false} StaysOn(x: Watch, events: seq<Event>)
    requires forall p :: 0 <= p < |events| ==> !Releases(x, events[p]) && !events[p].DiskLost?
    ensures After(Latch(true, true), x, events) == Latch(true, true)
  {
    hide Arms, Releases;
    if events != [] {
      StaysOn(x, events[..|events| - 1]);
      assert !Releases(x, events[|events| - 1]);
    }
  }

  lemma ReleaseComesFirst(x: Watch, events: seq<Event>, j: nat)
    requires j < |events| && Forbids(x, events[j]) && Respected(Latch(true, true), x, events)
    ensures exists p :: 0 <= p < j && (Releases(x, events[p]) || events[p].DiskLost?)
  {
    hide Releases, Forbids, After;
    if forall p :: 0 <= p < j ==> !Releases(x, events[p]) && !events[p].DiskLost? {
      StaysOn(x, events[..j]);
    }
  }

  /** What memory and file say when a run starts is protected from its first event on. */
  lemma HeldFromTheStart(x: Watch, w: World, moves: seq<Move>, j: nat)
    requires Holds(x, w.mem) && Holds(x, w.disk)
    requires |w.trace| <= j < |Run(w, moves).trace| && Forbids(x, Run(w, moves).trace[j])
    ensures var trace := Run(w, moves).trace;
      exists p :: |w.trace| <= p < j && (Releases(x, trace[p]) || trace[p].DiskLost?)
  {
    hide Run, Since, After, Respected, Holds, Forbids, Releases;
    var events, trace, n := Since(w, moves), Run(w, moves).trace, |w.trace|;
    RunKeepsTruth(Latch(true, true), x, w, moves);
    TraceGrows(w, moves);
    hide *;
    assert trace == w.trace + events;
    assert forall p :: 0 <= p < |events| ==> trace[n + p] == events[p];
    ReleaseComesFirst(x, events, j - n);
    var p :| 0 <= p < j - n && (Releases(x, events[p]) || events[p].DiskLost?);
    assert trace[n + p] == events[p];
  }

  /**
   A claim already on file. In any run from a world that remembers the claim in memory and on disk,
   forced cycles included, an attempt for its target comes after an open update PR, a go.mod that is
   not behind, an expiry, a create for another target, or the loss of the file.
   */
  lemma ClaimOnFileIsRespected(w: World, moves: seq<Move>, key: string, target: string, j: nat)
    requires Claims(w.mem, key, target) && Claims(w.disk, key, target)
    requires var trace := Run(w, moves).trace;
      && |w.trace| <= j < |trace|
      && trace[j].CreateSent? && trace[j].candidate.repo.Key() == key && trace[j].candidate.Target() == target
    ensures var trace := Run(w, moves).trace;
      exists p :: |w.trace| <= p < j &&
        (|| trace[p] == Skipped(key, OpenUpdatePR)
         || trace[p] == Converged(key, target)
         || trace[p] == Expiry(key, target)
         || (trace[p].CreateSent? && trace[p].ok && trace[p].candidate.repo.Key() == key
             && trace[p].candidate.Target() != target)
         || trace[p].DiskLost?)
  {
    hide Run;
    var x, trace := Claim(key, target), Run(w, moves).trace;
    HeldFromTheStart(x, w, moves, j);
    var p :| |w.trace| <= p < j && (Releases(x, trace[p]) || trace[p].DiskLost?);
  }

  /**
   A completed HEAD stays completed. In any run from a world whose entry is closed at HEAD in memory
   and on disk, no completion is sent for the repo, whatever tasks are filed at that HEAD for newer
   versions, until a task is filed at another HEAD or the file is lost.
   */
  lemma ClosedHeadStaysClosed(w: World, moves: seq<Move>, key: string, j: nat)
    requires key in w.mem && key in w.disk
    requires w.mem[key].completedHeadSHA == w.mem[key].lastSeenHeadSHA
             == w.disk[key].lastSeenHeadSHA == w.disk[key].completedHeadSHA
    requires var trace := Run(w, moves).trace;
      |w.trace| <= j < |trace| && trace[j].CompleteSent? && trace[j].repo.Key() == key
    ensures var trace := Run(w, moves).trace;
      exists p :: |w.trace| <= p < j &&
        (|| (trace[p].CreateSent? && trace[p].ok && trace[p].candidate.repo.Key() == key
             && trace[p].candidate.headSHA != w.mem[key].completedHeadSHA)
         || trace[p].DiskLost?)
  {
    hide Run;
    var x, trace := Done(key, w.mem[key].completedHeadSHA), Run(w, moves).trace;
    HeldFromTheStart(x, w, moves, j);
    var p :| |w.trace| <= p < j && (Releases(x, trace[p]) || trace[p].DiskLost?);
  }

  // ------------------------------------------------- the pair last filed

  lemma ExpiryMarksOnly(c: View, repo: Repo, s: Setup)
    ensures forall k :: 0 <= k < |ExpiryMark(c, repo, s)| ==> ExpiryMark(c, repo, s)[k].Expiry?
  {}

  /** An unforced visit that attempts a create does not find the pair recorded. */
  lemma UnforcedAttemptIsUnrecorded(w: World, m: Move, k: nat)
    requires m.VisitMove? && !m.s.force && k < |EventsOf(w, m)| && EventsOf(w, m)[k].CreateSent?
    ensures var cand := EventsOf(w, m)[k].candidate;
      cand.headSHA != "" ==> !Holds(Pair(cand.repo.Key(), cand.headSHA, cand.Target()), w.mem)
    ensures forall i :: 0 <= i < k ==> !EventsOf(w, m)[i].CreateSent?
  {
    var (c, repo, s, v) := (w.mem, m.repo, m.s, m.v);
    var events := VisitRepo(c, repo, s, v).events;
    EmissionCondition(c, repo, s, v);
    hide VisitRepo, BehindInScope, LiveClaim, ExpiryMark;
    assert events[k].CreateSent?;
    assert Creates(events);
    ExpiryMarksOnly(c, repo, s);
    assert k == |ExpiryMark(c, repo, s)| && events[k].candidate == CandidateOf(repo, s, v);
  }

  /**
   The pair last filed stops unforced cycles. In any run from any file, between a successful create
   and an attempt for the same repo, HEAD and version made by an unforced visit, a task was filed at
   another HEAD or version, or the cursor that recorded the first one was lost. No expiry, converged
   go.mod or closed PR is enough.
   */
  lemma UnforcedCreateIsNew(disk: View, moves: seq<Move>, n: nat, i: nat, j: nat)
    requires n < |moves| && moves[n].VisitMove? && !moves[n].s.force && MadeBy(World(disk, disk, []), moves, n, j)
    requires var trace := Run(World(disk, disk, []), moves).trace;
      && i < j < |trace|
      && trace[i].CreateSent? && trace[i].ok && trace[j].CreateSent?
      && trace[i].candidate.repo.Key() == trace[j].candidate.repo.Key()
      && trace[i].candidate.headSHA == trace[j].candidate.headSHA != ""
      && trace[i].candidate.Target() == trace[j].candidate.Target()
    ensures var trace := Run(World(disk, disk, []), moves).trace;
      exists p :: i < p < j &&
        (|| (trace[p].CreateSent? && trace[p].ok && trace[p].candidate.repo.Key() == trace[i].candidate.repo.Key()
             && (trace[p].candidate.headSHA != trace[i].candidate.headSHA
                 || trace[p].candidate.Target() != trace[i].candidate.Target()))
         || trace[p].DiskLost?
         || (trace[p].Loaded? && forall q :: i < q < p ==> !trace[q].Saved?))
  {
    hide Run, EventsOf, After, Holds;
    var w := World(disk, disk, []);
    var trace, u := Run(w, moves).trace, Run(w, moves[..n]);
    var cand := trace[j].candidate;
    var x := Pair(cand.repo.Key(), cand.headSHA, cand.Target());
    EventOfMove(w, moves, n, j);
    UnforcedAttemptIsUnrecorded(u, moves[n], j - |u.trace|);
    PrefixOfTrace(w, moves, n);
    ColdRunKeepsTruth(x, disk, moves[..n]);
    if i >= |u.trace| {
      EventOfMove(w, moves, n, i);
      assert false;
    }
    assert Arms(x, u.trace[i]) && u.trace[..|u.trace|] == u.trace;
    if forall p :: i < p < |u.trace| ==> !Releases(x, u.trace[p]) && !Forgotten(u.trace, i, p) {
      HeldUntilReleased(u.trace, x, i, |u.trace|);
      assert false;
    }
    var p :| i < p < |u.trace| && (Releases(x, u.trace[p]) || Forgotten(u.trace, i, p));
    assert trace[p] == u.trace[p] && forall q :: i < q < p ==> trace[q] == u.trace[q];
  }

  // ----------------------------------------- completion closes what was filed

  /** Every repo a run touches belongs to the one owner, as the listing guarantees. */
  predicate OwnedBy(moves: seq<Move>, owner: string) {
    forall i :: 0 <= i < |moves| ==> Owned(moves[i], owner)
  }

  predicate Owned(m: Move, owner: string) {
    m.VisitMove? || m.CloseMove? ==> m.repo.owner == owner
  }

  /** A successful create for `owner` with this key, HEAD and version is in the trace. */
  ghost predicate Filed(trace: seq<Event>, owner: string, key: string, head: string, version: string) {
    exists i :: 0 <= i < |trace| && FiledAt(trace[i], owner, key, head, version)
  }

  predicate FiledAt(e: Event, owner: string, key: string, head: string, version: string) {
    && e.CreateSent? && e.ok && e.candidate.repo.owner == owner && e.candidate.repo.Key() == key
    && e.candidate.headSHA == head && e.candidate.Target() == version
  }

  /** Every entry of the cursor comes from a create in the trace. */
  ghost predicate Provenance(c: View, trace: seq<Event>, owner: string) {
    forall k :: k in c ==> Filed(trace, owner, k, c[k].lastSeenHeadSHA, c[k].lastSeenGoVersion)
  }

  lemma FiledGrows(trace: seq<Event>, more: seq<Event>, owner: string, c: View)
    requires Provenance(c, trace, owner)
    ensures Provenance(c, trace + more, owner)
  {
    forall k | k in c
      ensures Filed(trace + more, owner, k, c[k].lastSeenHeadSHA, c[k].lastSeenGoVersion)
    {
      var i :| 0 <= i < |trace| && FiledAt(trace[i], owner, k, c[k].lastSeenHeadSHA, c[k].lastSeenGoVersion);
      assert (trace + more)[i] == trace[i];
    }
  }

  /** What a move records is either already in the cursor or filed by this move. */
  lemma VisitRecordsWhatItFiles(c: View, repo: Repo, s: Setup, v: Visit)
    ensures var r := VisitRepo(c, repo, s, v);
      forall k :: k in r.cursor ==>
        || (k in c && SeenIn(r.cursor, k) == SeenIn(c, k))
        || Filed(r.events, repo.owner, k, r.cursor[k].lastSeenHeadSHA, r.cursor[k].lastSeenGoVersion)
  {
    EmissionCondition(c, repo, s, v);
    if ShouldEmit(c, repo, s, v) && v.sendOk {
      var r := VisitRepo(c, repo, s, v);
      var n := |ExpiryMark(c, repo, s)|;
      var cand := CandidateOf(repo, s, v);
      hide VisitRepo, ShouldEmit, CandidateOf, ExpiryMark;
      assert r.events[n] == CreateSent(cand, true);
      assert FiledAt(r.events[n], repo.owner, repo.Key(), cand.headSHA, cand.Target());
    } else {
      ClaimLifetime(c, repo, s, v);
    }
  }

  lemma VisitKeepsProvenance(c: View, trace: seq<Event>, repo: Repo, s: Setup, v: Visit)
    requires Provenance(c, trace, repo.owner)
    ensures var r := VisitRepo(c, repo, s, v); Provenance(r.cursor, trace + r.events, repo.owner)
  {
    var r := VisitRepo(c, repo, s, v);
    VisitRecordsWhatItFiles(c, repo, s, v);
    hide VisitRepo, FiledAt;
    forall k | k in r.cursor
      ensures Filed(trace + r.events, repo.owner, k, r.cursor[k].lastSeenHeadSHA, r.cursor[k].lastSeenGoVersion)
    {
      var head, version := r.cursor[k].lastSeenHeadSHA, r.cursor[k].lastSeenGoVersion;
      if Filed(r.events, repo.owner, k, head, version) {
        var i :| 0 <= i < |r.events| && FiledAt(r.events[i], repo.owner, k, head, version);
        assert (trace + r.events)[|trace| + i] == r.events[i];
      } else {
        assert Filed(trace, repo.owner, k, c[k].lastSeenHeadSHA, c[k].lastSeenGoVersion);
        var i :| 0 <= i < |trace| && FiledAt(trace[i], repo.owner, k, head, version);
        assert (trace + r.events)[i] == trace[i];
      }
    }
  }

  lemma MoveKeepsProvenance(w: World, m: Move, owner: string)
    requires Provenance(w.mem, w.trace, owner) && Provenance(w.disk, w.trace, owner)
    requires Owned(m, owner)
    ensures var w' := Do(w, m); Provenance(w'.mem, w'.trace, owner) && Provenance(w'.disk, w'.trace, owner)
  {
    var w' := Do(w, m);
    hide Filed, VisitRepo, CompleteRepo;
    FiledGrows(w.trace, EventsOf(w, m), owner, w.mem);
    FiledGrows(w.trace, EventsOf(w, m), owner, w.disk);
    if m.VisitMove? {
      VisitKeepsProvenance(w.mem, w.trace, m.repo, m.s, m.v);
    } else if m.CloseMove? {
      CompletionCondition(w.mem, m.repo, m.c);
      CompletionKeepsSeen(w.mem, m.repo, m.c);
    }
  }

  lemma CompletionKeepsSeen(c: View, repo: Repo, v: Closing)
    ensures var d := CompleteRepo(c, repo, v).cursor;
      forall k :: k in d ==> k in c && d[k].lastSeenHeadSHA == c[k].lastSeenHeadSHA
                             && d[k].lastSeenGoVersion == c[k].lastSeenGoVersion
  {}

  lemma {:induction false} RunKeepsProvenance(moves: seq<Move>, owner: string)
    requires OwnedBy(moves, owner)
    ensures var w := Run(World(EMPTY, EMPTY, []), moves);
      Provenance(w.mem, w.trace, owner) && Provenance(w.disk, w.trace, owner)
  {
    if moves != [] {
      RunKeepsProvenance(moves[..|moves| - 1], owner);
      MoveKeepsProvenance(Run(World(EMPTY, EMPTY, []), moves[..|moves| - 1]), moves[|moves| - 1], owner);
    }
  }

  /** The identifier a completion carries. */
  function CompletedTask(e: Event): TaskId
    requires e.CompleteSent?
  {
    DeriveTaskID(e.repo.owner, e.repo.name, e.goVersion, e.headSHA)
  }

  /** `a` is a successful create and `b` a completion of the same task. */
  predicate Closes(a: Event, b: Event) {
    a.CreateSent? && a.ok && b.CompleteSent? && a.candidate.TaskId() == CompletedTask(b)
  }

  ghost predicate EveryCompletionCloses(trace: seq<Event>) {
    forall j :: 0 <= j < |trace| && trace[j].CompleteSent? ==> exists i :: 0 <= i < j && Closes(trace[i], trace[j])
  }

  lemma LastMoveClosesACreate(w: World, m: Move, owner: string, j: nat) returns (i: nat)
    requires Provenance(w.mem, w.trace, owner) && Owned(m, owner)
    requires j < |EventsOf(w, m)| && EventsOf(w, m)[j].CompleteSent?
    ensures i < |w.trace| && Closes(w.trace[i], EventsOf(w, m)[j])
  {
    if m.VisitMove? {
      VisitSendsNoCompletion(w.mem, m.repo, m.s, m.v);
    }
    CompletionCondition(w.mem, m.repo, m.c);
    var key := m.repo.Key();
    var entry := w.mem[key];
    assert Filed(w.trace, owner, key, entry.lastSeenHeadSHA, entry.lastSeenGoVersion);
    i :| 0 <= i < |w.trace| && FiledAt(w.trace[i], owner, key, entry.lastSeenHeadSHA, entry.lastSeenGoVersion);
    KeyInjective(m.repo, w.trace[i].candidate.repo);
  }

  lemma MoveKeepsClosing(w: World, m: Move, owner: string)
    requires Provenance(w.mem, w.trace, owner) && Owned(m, owner) && EveryCompletionCloses(w.trace)
    ensures EveryCompletionCloses(Do(w, m).trace)
  {
    hide EventsOf, Closes, Provenance, Owned;
    var events := EventsOf(w, m);
    var trace := w.trace + events;
    forall j | 0 <= j < |trace| && trace[j].CompleteSent?
      ensures exists i :: 0 <= i < j && Closes(trace[i], trace[j])
    {
      var i: nat;
      if j < |w.trace| {
        i :| 0 <= i < j && Closes(w.trace[i], w.trace[j]);
      } else {
        i := LastMoveClosesACreate(w, m, owner, j - |w.trace|);
      }
      assert trace[i] == w.trace[i];
    }
  }

  /**
   Completion closes what was created. From a cold start, over every run with aborts, failed saves,
   lost files and restarts, each completion carries the identifier of an earlier successful create.
   */
  lemma {:induction false} CompletionClosesACreate(moves: seq<Move>, owner: string)
    requires OwnedBy(moves, owner)
    ensures var trace := Run(World(EMPTY, EMPTY, []), moves).trace;
      forall j :: 0 <= j < |trace| && trace[j].CompleteSent? ==>
        exists i :: (0 <= i < j && trace[i].CreateSent? && trace[i].ok
                     && trace[i].candidate.TaskId() == CompletedTask(trace[j]))
  {
    RunKeepsClosing(moves, owner);
    var trace := Run(World(EMPTY, EMPTY, []), moves).trace;
    hide Run, EveryCompletionCloses;
    forall j | 0 <= j < |trace| && trace[j].CompleteSent?
      ensures exists i :: (0 <= i < j && trace[i].CreateSent? && trace[i].ok
                           && trace[i].candidate.TaskId() == CompletedTask(trace[j]))
    {
      var i := ClosingCreate(trace, j);
    }
  }

  lemma ClosingCreate(trace: seq<Event>, j: nat) returns (i: nat)
    requires EveryCompletionCloses(trace) && j < |trace| && trace[j].CompleteSent?
    ensures i < j && Closes(trace[i], trace[j])
  {
    hide Closes;
    i :| 0 <= i < j && Closes(trace[i], trace[j]);
  }

  lemma {:induction false} RunKeepsClosing(moves: seq<Move>, owner: string)
    requires OwnedBy(moves, owner)
    ensures EveryCompletionCloses(Run(World(EMPTY, EMPTY, []), moves).trace)
  {
    if moves != [] {
      hide Do, Owned, Closes;
      var w := Run(World(EMPTY, EMPTY, []), moves[..|moves| - 1]);
      RunKeepsClosing(moves[..|moves| - 1], owner);
      RunKeepsProvenance(moves[..|moves| - 1], owner);
      hide EveryCompletionCloses, Provenance;
      MoveKeepsClosing(w, moves[|moves| - 1], owner);
    }
  }

  // ---------------------------------------------------------------- consent

  /** Move `m` made the observation that justifies a create of `cand`. */
  predicate JustifiesCreate(m: Move, cand: Candidate) {
    && m.VisitMove? && m.repo == cand.repo
    && Observed(m.v) && BehindInScope(m.repo, m.s, m.v) && m.v.consent.value == Granted
    && cand == CandidateOf(m.repo, m.s, m.v)
  }

  /** Move `m` made the observation that justifies a decision task for `cand`. */
  predicate JustifiesDecision(m: Move, cand: Candidate) {
    && m.VisitMove? && m.repo == cand.repo
    && Observed(m.v) && BehindInScope(m.repo, m.s, m.v)
    && m.v.consent.value != Granted && m.v.consent.value != Refused
    && cand == CandidateOf(m.repo, m.s, m.v)
  }

  lemma CreateIsJustified(c: View, repo: Repo, s: Setup, v: Visit, i: nat)
    requires i < |VisitRepo(c, repo, s, v).events| && VisitRepo(c, repo, s, v).events[i].CreateSent?
    ensures JustifiesCreate(VisitMove(repo, s, v), VisitRepo(c, repo, s, v).events[i].candidate)
  {
    hide VisitRepo, BehindInScope, LiveClaim, Recorded, ExpiryMark;
    var r := VisitRepo(c, repo, s, v);
    assert Creates(r.events);
    EmissionCondition(c, repo, s, v);
    hide Creates;
    var marks := ExpiryMark(c, repo, s);
    ExpiryMarksOnly(c, repo, s);
    assert forall k :: 0 <= k < |r.events| && r.events[k].CreateSent? ==> r.events[k].candidate == CandidateOf(repo, s, v);
  }

  lemma DecisionIsJustified(c: View, repo: Repo, s: Setup, v: Visit, i: nat)
    requires i < |VisitRepo(c, repo, s, v).events| && VisitRepo(c, repo, s, v).events[i].DecisionSent?
    ensures JustifiesDecision(VisitMove(repo, s, v), VisitRepo(c, repo, s, v).events[i].candidate)
  {
    hide VisitRepo, BehindInScope, LiveClaim, Recorded, ExpiryMark;
    var r := VisitRepo(c, repo, s, v);
    assert Decides(r.events);
    DecisionCondition(c, repo, s, v);
    hide Decides;
    var marks := ExpiryMark(c, repo, s);
    ExpiryMarksOnly(c, repo, s);
    assert forall k :: 0 <= k < |r.events| && r.events[k].DecisionSent? ==> r.events[k].candidate == CandidateOf(repo, s, v);
  }

  lemma MoveIsJustified(w: World, m: Move, i: nat)
    requires i < |EventsOf(w, m)|
    ensures EventsOf(w, m)[i].CreateSent? ==> JustifiesCreate(m, EventsOf(w, m)[i].candidate)
    ensures EventsOf(w, m)[i].DecisionSent? ==> JustifiesDecision(m, EventsOf(w, m)[i].candidate)
  {
    hide VisitRepo, JustifiesCreate, JustifiesDecision;
    if m.VisitMove? {
      if EventsOf(w, m)[i].CreateSent? {
        CreateIsJustified(w.mem, m.repo, m.s, m.v, i);
      } else if EventsOf(w, m)[i].DecisionSent? {
        DecisionIsJustified(w.mem, m.repo, m.s, m.v, i);
      }
    }
  }

  lemma MakerIsJustified(w: World, moves: seq<Move>, n: nat, j: nat)
    requires n < |moves| && MadeBy(w, moves, n, j) && j < |Run(w, moves).trace|
    ensures Run(w, moves).trace[j].CreateSent? ==> JustifiesCreate(moves[n], Run(w, moves).trace[j].candidate)
    ensures Run(w, moves).trace[j].DecisionSent? ==> JustifiesDecision(moves[n], Run(w, moves).trace[j].candidate)
  {
    hide *;
    var u := Run(w, moves[..n]);
    EventOfMove(w, moves, n, j);
    MoveIsJustified(u, moves[n], j - |u.trace|);
  }

  /**
   Consent safety over every run. Every create sent, forced or not, successful or not, was made by a
   visit whose own observation of that repo was allowlisted, parsable, strictly behind, granted and
   without an open update PR; every decision task by one that was allowlisted, parsable, strictly
   behind and neither granted nor refused.
   */
  lemma ConsentSafety(w: World, moves: seq<Move>, j: nat)
    requires |w.trace| <= j < |Run(w, moves).trace|
    ensures exists n :: (
      && 0 <= n < |moves| && MadeBy(w, moves, n, j)
      && (Run(w, moves).trace[j].CreateSent? ==> JustifiesCreate(moves[n], Run(w, moves).trace[j].candidate))
      && (Run(w, moves).trace[j].DecisionSent? ==> JustifiesDecision(moves[n], Run(w, moves).trace[j].candidate)))
  {
    hide *;
    var n := WhichMove(w, moves, j);
    MakerIsJustified(w, moves, n, j);
  }
}
