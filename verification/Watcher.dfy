/**
 The poll cycle on the mutable cursor (pkg/watcher.go, pkg/taskpublisher.go). Each method is
 proved against the function of the same step in module Cycle.
 */
module Watchers {
  import opened Text
  import opened Versions
  import opened GitHub
  import opened Filters
  import opened Cursors
  import C = Cycle
  import opened Cycle
  import GoMod

  class Watcher {
    /** The wired allowlist matcher. */
    const allowed: string -> bool
    const store: Store
    /** Log lines, metric increments and sends, in order. */
    var trace: seq<Event>

    constructor (allowed: string -> bool, store: Store)
      ensures this.allowed == allowed && this.store == store && trace == []
    {
      this.allowed, this.store := allowed, store;
      trace := [];
    }

    // ---------------------------------------------------------- publishing

    method PublishCreate(cand: Candidate, sendOk: bool) returns (ok: bool)
      modifies this`trace
      ensures ok == sendOk && trace == old(trace) + [CreateSent(cand, sendOk), Published(sendOk)]
    {
      trace := trace + [CreateSent(cand, sendOk)];
      if !sendOk {
        trace := trace + [Published(false)];
        return false;
      }
      trace := trace + [Published(true)];
      return true;
    }

    method PublishDecision(cand: Candidate, sendOk: bool) returns (ok: bool)
      modifies this`trace
      ensures ok == sendOk && trace == old(trace) + [DecisionSent(cand, sendOk), Published(sendOk)]
    {
      trace := trace + [DecisionSent(cand, sendOk)];
      if !sendOk {
        trace := trace + [Published(false)];
        return false;
      }
      trace := trace + [Published(true)];
      return true;
    }

    // ------------------------------------------------------------- cursor

    /** Replaces the entry by a fresh one; every other pointer stays. */
    method MarkPublished(cursor: Cursor, cand: Candidate, recordedAt: int)
      requires cursor.Valid()
      modifies cursor
      ensures cursor.Valid() && cursor.View() == C.MarkPublished(old(cursor.View()), cand, recordedAt)
      ensures var key := cand.repo.Key();
        && key in cursor.repos && cursor.repos[key].Some? && fresh(cursor.repos[key].value)
        && cursor.repos == old(cursor.repos)[key := cursor.repos[key]]
    {
      hide Cursor.View, Cursor.Valid;
      var key := cand.repo.Key();
      var previous := if key in cursor.repos then cursor.repos[key] else None;
      var completedHeadSHA := "";
      ViewAt(cursor, key);
      if previous.Some? {
        completedHeadSHA := previous.value.completedHeadSHA;
      }
      var state := new RepoState(
        Entry(cand.headSHA, cand.Target(), completedHeadSHA, cand.Target(), Format(recordedAt)));
      cursor.Put(key, state);
    }

    /** Mutates the entry in place; the map of pointers is untouched. */
    method ClearInFlight(cursor: Cursor, key: string, target: string)
      requires cursor.Valid()
      modifies cursor.Entries()
      ensures cursor.repos == old(cursor.repos)
      ensures cursor.View() == C.ClearInFlight(old(cursor.View()), key, target)
    {
      var state := if key in cursor.repos then cursor.repos[key] else None;
      if state.None? || state.value.inFlightTarget != target {
        return;
      }
      assert forall k :: k in cursor.repos && cursor.repos[k] == state ==> k == key;
      state.value.inFlightTarget := "";
      state.value.inFlightSince := NO_STAMP;
    }

    // ------------------------------------------------------- one repo visit

    method GatherCandidate(repo: Repo, v: Visit, latest: Version) returns (g: Gathered)
      modifies this`trace
      ensures g == Gather(repo, v, latest)
      ensures trace == old(trace) + if g.Drop? then [Dropped(repo.Key(), g.step)] else []
    {
      if !v.head.Got? {
        if v.head.RateLimited? {
          return Abort;
        }
        trace := trace + [Dropped(repo.Key(), HeadSHA)];
        return Drop(HeadSHA);
      }
      if !v.goMod.Got? {
        if v.goMod.RateLimited? {
          return Abort;
        }
        trace := trace + [Dropped(repo.Key(), GoModFile)];
        return Drop(GoModFile);
      }
      if !v.consent.Got? {
        if v.consent.RateLimited? {
          return Abort;
        }
        trace := trace + [Dropped(repo.Key(), MaintainerConfig)];
        return Drop(MaintainerConfig);
      }
      var candidate := Candidate(repo, v.head.value, false, false, Version(0, 0, 0, ""), latest, v.consent.value);
      if v.goMod.value.Some? {
        candidate := candidate.(goModPresent := true);
        var currentGo := GoMod.ParseGoModVersion(v.goMod.value.value);
        if currentGo.Some? {
          candidate := candidate.(goModParsable := true, currentGo := currentGo.value);
        }
      }
      return Have(candidate);
    }

    /** The open-PR gate: (abort, skip); an observed open update PR also clears the claim. */
    method GateRepo(cursor: Cursor, repo: Repo, cand: Candidate, v: Visit) returns (abort: bool, skip: bool)
      requires cursor.Valid()
      modifies this`trace, cursor.Entries()
      ensures cursor.repos == old(cursor.repos)
      ensures abort <==> v.openPR.RateLimited?
      ensures skip <==> v.openPR.Failed? || v.openPR == Got(true)
      ensures cursor.View() == if v.openPR == Got(true)
                               then C.ClearInFlight(old(cursor.View()), repo.Key(), cand.Target())
                               else old(cursor.View())
      ensures trace == old(trace) + match v.openPR
                                    case Failed => [Dropped(repo.Key(), OpenPRCheck)]
                                    case RateLimited => []
                                    case Got(open) => if open then [Skipped(repo.Key(), OpenUpdatePR)] else []
    {
      match v.openPR
      case RateLimited =>
        return true, false;
      case Failed =>
        trace := trace + [Dropped(repo.Key(), OpenPRCheck)];
        return false, true;
      case Got(open) =>
        if open {
          trace := trace + [Skipped(repo.Key(), OpenUpdatePR)];
          ClearInFlight(cursor, repo.Key(), cand.Target());
          return false, true;
        }
        return false, false;
    }

    method EmissionInFlight(cursor: Cursor, cand: Candidate, now: int) returns (live: bool, ghost marks: seq<Event>)
      requires cursor.Valid()
      modifies this`trace, cursor.Entries()
      ensures cursor.repos == old(cursor.repos)
      ensures (live, cursor.View(), marks) == CheckClaim(old(cursor.View()), cand, now)
      ensures trace == old(trace) + marks
    {
      hide C.ClearInFlight, Cursor.View, Cursor.Valid;
      var key, target := cand.repo.Key(), cand.Target();
      ViewAt(cursor, key);
      var state := if key in cursor.repos then cursor.repos[key] else None;
      if state.None? || state.value.inFlightTarget == "" || state.value.inFlightTarget != target {
        return false, [];
      }
      if !cand.GoBehind() {
        ClearInFlight(cursor, key, target);
        trace := trace + [Converged(key, target)];
        return false, [Converged(key, target)];
      }
      if Expired(state.value.Value(), now) {
        ClearInFlight(cursor, key, target);
        trace := trace + [Expiry(key, target)];
        return false, [Expiry(key, target)];
      }
      return true, [];
    }

    /** Acts on the chain's answer. */
    method Emit(cursor: Cursor, cand: Candidate, reason: Option<Reason>, v: Visit)
      requires cursor.Valid()
      modifies this`trace, cursor
      ensures cursor.Valid() && fresh(cursor.Entries() - old(cursor.Entries()))
      ensures var r := C.Emit(old(cursor.View()), cand, reason, v);
        cursor.View() == r.cursor && trace == old(trace) + r.events && !r.abort
    {
      hide C.MarkPublished, Cursor.View, Cursor.Valid;
      if reason.Some? {
        trace := trace + [Skipped(cand.repo.Key(), reason.value)];
        if reason.value == AutoUpdateUndecided {
          var sent := PublishDecision(cand, v.sendOk);
        }
        return;
      }
      var published := PublishCreate(cand, v.sendOk);
      if published {
        MarkPublished(cursor, cand, v.recordedAt);
      }
    }

    /** A visit past a clear PR gate. */
    method Consider(cursor: Cursor, cand: Candidate, s: Setup, cycleFilter: Filter, reader: CursorReader, v: Visit)
      requires cursor.Valid() && reader.c == cursor && cycleFilter == CycleFilter(s.allowed, s.force)
      modifies this`trace, cursor, cursor.Entries()
      ensures cursor.Valid() && fresh(cursor.Entries() - old(cursor.Entries()))
      ensures var r := C.Consider(old(cursor.View()), cand, s, v);
        cursor.View() == r.cursor && trace == old(trace) + r.events && !r.abort
    {
      hide CheckClaim, C.Emit, Skip, CycleFilter, SeenIn, CursorReader.Read, Cursor.View, Cursor.Valid;
      var live, marks := EmissionInFlight(cursor, cand, v.now);
      if live {
        trace := trace + [Skipped(cand.repo.Key(), Reason.EmissionInFlight)];
        Regroup(old(trace), marks, [Skipped(cand.repo.Key(), Reason.EmissionInFlight)]);
        return;
      }
      ghost var view := cursor.View();
      var reason := Skip(cycleFilter, cand.Projection(), reader.Read(cand.repo.Key()));
      Emit(cursor, cand, reason, v);
      Regroup(old(trace), marks, C.Emit(view, cand, reason, v).events);
    }

    /** A visit from the PR gate on. */
    method Decide(cursor: Cursor, cand: Candidate, s: Setup, cycleFilter: Filter, reader: CursorReader, v: Visit)
      returns (abort: bool)
      requires cursor.Valid() && reader.c == cursor && cycleFilter == CycleFilter(s.allowed, s.force)
      modifies this`trace, cursor, cursor.Entries()
      ensures cursor.Valid() && fresh(cursor.Entries() - old(cursor.Entries()))
      ensures var r := C.Decide(old(cursor.View()), cand, s, v);
        abort == r.abort && cursor.View() == r.cursor && trace == old(trace) + r.events
    {
      hide C.Consider, C.ClearInFlight, Cursor.View, Cursor.Valid;
      var rateLimited, skip := GateRepo(cursor, cand.repo, cand, v);
      if rateLimited {
        return true;
      }
      if skip {
        return false;
      }
      Consider(cursor, cand, s, cycleFilter, reader, v);
      return false;
    }

    /** One iteration of the loop over the repos. */
    method VisitRepo(cursor: Cursor, repo: Repo, s: Setup, cycleFilter: Filter, reader: CursorReader, v: Visit)
      returns (abort: bool)
      requires cursor.Valid() && reader.c == cursor && cycleFilter == CycleFilter(s.allowed, s.force)
      modifies this`trace, cursor, cursor.Entries()
      ensures cursor.Valid() && fresh(cursor.Entries() - old(cursor.Entries()))
      ensures var r := C.VisitRepo(old(cursor.View()), repo, s, v);
        abort == r.abort && cursor.View() == r.cursor && trace == old(trace) + r.events
    {
      hide C.Decide, GoMod.ScanVersion;
      var gathered := GatherCandidate(repo, v, s.latest);
      match gathered
      case Abort => return true;
      case Drop(step) => return false;
      case Have(cand) => abort := Decide(cursor, cand, s, cycleFilter, reader, v);
    }

    method ProcessRepos(cursor: Cursor, jobs: seq<Job>, s: Setup) returns (abort: bool)
      requires cursor.Valid()
      modifies this`trace, cursor, cursor.Entries()
      ensures cursor.Valid() && fresh(cursor.Entries() - old(cursor.Entries()))
      ensures var r := C.ProcessRepos(old(cursor.View()), jobs, s);
        abort == r.abort && cursor.View() == r.cursor && trace == old(trace) + r.events
    {
      hide C.VisitRepo;
      var reader := new CursorReader(cursor);
      var cycleFilter := CycleFilter(s.allowed, s.force);
      ghost var whole := C.ProcessRepos(cursor.View(), jobs, s);
      ghost var done: seq<Event> := [];
      assert jobs[0..] == jobs;
      for i := 0 to |jobs|
        invariant cursor.Valid() && fresh(cursor.Entries() - old(cursor.Entries()))
        invariant trace == old(trace) + done
        invariant whole == C.ProcessRepos(cursor.View(), jobs[i..], s).After(done)
      {
        ProcessStep(cursor.View(), jobs, i, s, done);
        if jobs[i].visit.cancelled {
          return false;
        }
        ghost var r := C.VisitRepo(cursor.View(), jobs[i].repo, s, jobs[i].visit);
        abort := VisitRepo(cursor, jobs[i].repo, s, cycleFilter, reader, jobs[i].visit);
        done := done + r.events;
        if abort {
          return;
        }
      }
      ProcessStep(cursor.View(), jobs, |jobs|, s, done);
      return false;
    }

    // ------------------------------------------------- merge-detection pass

    /** Sends the completion and advances the marker of the entry in place. */
    method CompleteTask(cursor: Cursor, repo: Repo, state: RepoState, headSHA: string, sendOk: bool)
      requires cursor.Valid()
      requires repo.Key() in cursor.repos && cursor.repos[repo.Key()] == Some(state)
      modifies this`trace, state`completedHeadSHA
      ensures cursor.repos == old(cursor.repos)
      ensures cursor.View() == if !sendOk then old(cursor.View())
                               else old(cursor.View())[repo.Key() := old(state.Value()).(completedHeadSHA := headSHA)]
      ensures trace == old(trace)
        + [CompleteSent(repo, old(state.lastSeenGoVersion), headSHA, sendOk), CompletedCount(sendOk)]
    {
      trace := trace + [CompleteSent(repo, state.lastSeenGoVersion, headSHA, sendOk)];
      if !sendOk {
        trace := trace + [CompletedCount(false)];
        return;
      }
      trace := trace + [CompletedCount(true)];
      state.completedHeadSHA := headSHA;
    }

    method CompleteRepo(cursor: Cursor, repo: Repo, v: Closing) returns (abort: bool)
      requires cursor.Valid()
      modifies this`trace, cursor.Entries()
      ensures cursor.repos == old(cursor.repos)
      ensures var r := C.CompleteRepo(old(cursor.View()), repo, v);
        abort == r.abort && cursor.View() == r.cursor && trace == old(trace) + r.events
    {
      var key := repo.Key();
      if key !in cursor.repos || cursor.repos[key].None? || cursor.repos[key].value.lastSeenHeadSHA == "" {
        return false;
      }
      var state := cursor.repos[key].value;
      if state.lastSeenHeadSHA == state.completedHeadSHA {
        return false;
      }
      match v.merged
      case RateLimited => return true;
      case Failed => return false;
      case Got(merged) =>
        if !merged {
          return false;
        }
        CompleteTask(cursor, repo, state, state.lastSeenHeadSHA, v.sendOk);
        return false;
    }

    method CompleteMergedUpdates(cursor: Cursor, jobs: seq<Job>) returns (abort: bool)
      requires cursor.Valid()
      modifies this`trace, cursor.Entries()
      ensures cursor.repos == old(cursor.repos)
      ensures var r := C.CompleteMergedUpdates(old(cursor.View()), jobs);
        abort == r.abort && cursor.View() == r.cursor && trace == old(trace) + r.events
    {
      hide C.CompleteRepo;
      ghost var whole := C.CompleteMergedUpdates(cursor.View(), jobs);
      ghost var done: seq<Event> := [];
      assert jobs[0..] == jobs;
      for i := 0 to |jobs|
        invariant cursor.repos == old(cursor.repos)
        invariant trace == old(trace) + done
        invariant whole == C.CompleteMergedUpdates(cursor.View(), jobs[i..]).After(done)
      {
        CompleteStep(cursor.View(), jobs, i, done);
        if jobs[i].closing.cancelled {
          return false;
        }
        ghost var r := C.CompleteRepo(cursor.View(), jobs[i].repo, jobs[i].closing);
        abort := CompleteRepo(cursor, jobs[i].repo, jobs[i].closing);
        done := done + r.events;
        if abort {
          return;
        }
      }
      CompleteStep(cursor.View(), jobs, |jobs|, done);
      return false;
    }

    // ----------------------------------------------------------------- poll

    method Save(cursor: Cursor, save: SaveEnv) returns (ghost states: seq<Files>)
      requires cursor.Valid()
      modifies this`trace, store
      ensures states == SaveStates(old(store.files), cursor.Marshal(), save) && store.files == Last(states)
      ensures trace == old(trace) + [SaveEvent(SaveSucceeds(save))]
    {
      var ok;
      ok, states := store.SaveCursor(cursor, save);
      trace := trace + [SaveEvent(ok)];
    }

    /** Both passes and the save, once the repos are listed. */
    method Passes(cursor: Cursor, jobs: seq<Job>, s: Setup, save: SaveEnv)
      returns (saved: bool, ghost data: Content, ghost saving: seq<Files>)
      requires cursor.Valid()
      modifies this`trace, store, cursor, cursor.Entries()
      ensures var r := C.Passes(old(cursor.View()), jobs, s, SaveSucceeds(save));
        saved == r.saves && trace == old(trace) + r.events && Decode(Some(data)) == r.cursor
      ensures saved ==> saving == SaveStates(old(store.files), data, save) && store.files == Last(saving)
      ensures !saved ==> store.files == old(store.files)
    {
      hide C.ProcessRepos, C.CompleteMergedUpdates, SaveStates, Decode, Cursor.View, Cursor.Valid, Cursor.Marshal;
      var abort := ProcessRepos(cursor, jobs, s);
      if abort {
        trace := trace + [CycleResult(RateLimitedCycle)];
        return false, cursor.Marshal(), [];
      }
      abort := CompleteMergedUpdates(cursor, jobs);
      data := cursor.Marshal();
      if abort {
        trace := trace + [CycleResult(RateLimitedCycle)];
        saving := Save(cursor, save);
      } else {
        saving := Save(cursor, save);
        trace := trace + [CycleResult(Success)];
      }
      saved := true;
    }

    /** A poll on a loaded cursor: the two lookups, then the passes. */
    method PollLoaded(cursor: Cursor, p: PollInput, save: SaveEnv)
      returns (saved: bool, ghost data: Content, ghost saving: seq<Files>)
      requires cursor.Valid() && (p.saveOk <==> SaveSucceeds(save))
      modifies this`trace, store, cursor, cursor.Entries()
      ensures var r := C.Poll(old(cursor.View()), p);
        saved == r.saves && trace == old(trace) + r.events && Decode(Some(data)) == r.cursor
      ensures saved ==> saving == SaveStates(old(store.files), data, save) && store.files == Last(saving)
      ensures !saved ==> store.files == old(store.files)
    {
      hide C.Passes, SaveStates, Decode, Cursor.View, Cursor.Valid, Cursor.Marshal;
      trace := trace + [Loaded];
      if !p.latest.Got? {
        trace := trace + [CycleResult(GoVersionError)];
        return false, cursor.Marshal(), [];
      }
      if !p.jobs.Got? {
        trace := trace + [CycleResult(if p.jobs.RateLimited? then RateLimitedCycle else GithubError)];
        return false, cursor.Marshal(), [];
      }
      trace := trace + [Scanned(|p.jobs.value|)];
      ghost var view, before := cursor.View(), trace;
      saved, data, saving := Passes(cursor, p.jobs.value, Setup(p.allowed, p.force, p.latest.value), save);
      ghost var r := C.Passes(view, p.jobs.value, Setup(p.allowed, p.force, p.latest.value), p.saveOk);
      assert before + r.events == old(trace) + ([Loaded, Scanned(|p.jobs.value|)] + r.events);
    }

    /**
     One poll. An unreadable cursor file is an error and leaves no trace; otherwise the events, the
     file states on the way and the final file are those of `Cycle.Poll` on the decoded file.
     */
    method Poll(p: PollInput, load: LoadEnv, save: SaveEnv)
      returns (failed: bool, ghost data: Content, ghost states: seq<Files>)
      requires p.allowed == allowed && (p.saveOk <==> SaveSucceeds(save))
      modifies this`trace, store
      ensures failed <==> LoadFails(old(store.files), load)
      ensures failed <==> old(store.files.path).Some? && !load.readable
      ensures old(store.files.path).None? || (load.readable && old(store.files.path).value.NotJson?) ==>
        !failed && trace == old(trace) + C.Poll(EMPTY, p).events
      ensures !failed ==> Decode(Some(data)) == C.Poll(Decode(old(store.files).path), p).cursor
      ensures states == PollStates(old(store.files), p, data, load, save) && store.files == Last(states)
      ensures trace == if failed then old(trace) else old(trace) + C.Poll(Decode(old(store.files).path), p).events
    {
      LoadMeans(store.files, load);
      hide C.Poll, SaveStates, Decode, LoadStates;
      states := LoadStates(store.files, load);
      var loaded := store.LoadCursor(load);
      if loaded.None? {
        return true, NotJson(""), states;
      }
      var saved;
      ghost var saving;
      saved, data, saving := PollLoaded(loaded.value, p, save);
      if saved {
        states := states + saving;
      }
      return false, data, states;
    }
  }
}
