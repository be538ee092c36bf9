/** Polling twice with the same answers: the second cycle files nothing, completes nothing, changes nothing. */
module Fixpoint {
  import opened GitHub
  import opened Filters
  import opened Cycle
  import opened VisitFacts
  import opened PassFacts

  /** The same upstream answers; clocks and send outcomes may differ. */
  predicate SameAnswers(v: Visit, w: Visit) {
    v.head == w.head && v.goMod == w.goMod && v.consent == w.consent && v.openPR == w.openPR
  }

  /** `a` and `b` list the same repos with the same answers and contexts. */
  predicate SameJobs(a: seq<Job>, b: seq<Job>) {
    && |a| == |b|
    && forall i :: 0 <= i < |a| ==>
      && a[i].repo == b[i].repo
      && SameAnswers(a[i].visit, b[i].visit) && a[i].visit.cancelled == b[i].visit.cancelled
      && a[i].closing.merged == b[i].closing.merged && a[i].closing.cancelled == b[i].closing.cancelled
  }

  /** A repo listed more than once gets the same answers each time. */
  predicate Consistent(jobs: seq<Job>) {
    forall i, j :: 0 <= i < j < |jobs| && jobs[i].repo.Key() == jobs[j].repo.Key()
      ==> SameAnswers(jobs[i].visit, jobs[j].visit)
  }

  predicate SendsSucceed(jobs: seq<Job>) {
    forall i :: 0 <= i < |jobs| ==> jobs[i].visit.sendOk && jobs[i].closing.sendOk
  }

  /** Every claim for the target that a clear PR check leaves standing is still within its time. */
  predicate ClaimsHold(c: View, jobs: seq<Job>, s: Setup) {
    forall i :: 0 <= i < |jobs| && Observed(jobs[i].visit)
      && Claims(c, jobs[i].repo.Key(), s.latest.Number())
      ==> !Expired(c[jobs[i].repo.Key()], jobs[i].visit.now)
  }

  predicate Complete(v: Visit) {
    v.head.Got? && v.goMod.Got? && v.consent.Got? && v.openPR.Got?
  }

  /** What a successful visit leaves behind, as far as a repetition can see it. */
  predicate Settled(c: View, repo: Repo, s: Setup, v: Visit) {
    Complete(v) ==>
      var (key, target) := (repo.Key(), s.latest.Number());
      if v.openPR.value || !BehindTarget(v, s) then !Claims(c, key, target)
      else (s.allowed(key) && v.consent.value == Granted
            ==> Claims(c, key, target) || (!s.force && Recorded(c, key, v.head.value, target)))
  }

  lemma VisitSettles(c: View, repo: Repo, s: Setup, v: Visit)
    requires v.sendOk
    ensures Settled(VisitRepo(c, repo, s, v).cursor, repo, s, v)
  {
    EmissionCondition(c, repo, s, v);
    NumberHasDigits(s.latest);
    if !ShouldEmit(c, repo, s, v) {
      ClaimLifetime(c, repo, s, v);
    }
  }

  lemma SettledVisitIsQuiet(c: View, repo: Repo, s: Setup, v: Visit)
    requires Settled(c, repo, s, v)
    requires Observed(v) && Claims(c, repo.Key(), s.latest.Number()) ==> !Expired(c[repo.Key()], v.now)
    ensures VisitRepo(c, repo, s, v).cursor == c && !Creates(VisitRepo(c, repo, s, v).events)
  {
    EmissionCondition(c, repo, s, v);
    ClaimLifetime(c, repo, s, v);
  }

  // --------------------------------------------------------- the first pass

  /** Every job the pass reaches is settled in `c`. */
  predicate AllSettled(c: View, jobs: seq<Job>, s: Setup) {
    jobs == [] || jobs[0].visit.cancelled
    || (Settled(c, jobs[0].repo, s, jobs[0].visit) && AllSettled(c, jobs[1..], s))
  }

  /** A settled repo stays settled whatever is visited next. */
  lemma {:induction false} SettledPersists(c: View, job: Job, jobs: seq<Job>, s: Setup)
    requires Settled(c, job.repo, s, job.visit) && SendsSucceed(jobs)
    requires forall i :: 0 <= i < |jobs| ==>
      jobs[i].repo.Key() == job.repo.Key() ==> SameAnswers(job.visit, jobs[i].visit)
    ensures Settled(ProcessRepos(c, jobs, s).cursor, job.repo, s, job.visit)
    decreases jobs
  {
    if jobs != [] && !jobs[0].visit.cancelled {
      var r := VisitRepo(c, jobs[0].repo, s, jobs[0].visit);
      VisitIsLocal(c, c, jobs[0].repo, s, jobs[0].visit);
      if jobs[0].repo.Key() == job.repo.Key() {
        VisitSettles(c, jobs[0].repo, s, jobs[0].visit);
      } else {
        SettledByEntry(c, r.cursor, job.repo, s, job.visit);
      }
      if !r.abort {
        SettledPersists(r.cursor, job, jobs[1..], s);
      }
    }
  }

  lemma SettledByEntry(c: View, d: View, repo: Repo, s: Setup, v: Visit)
    requires Get(c, repo.Key()) == Get(d, repo.Key())
    ensures Settled(c, repo, s, v) ==> Settled(d, repo, s, v)
  {}

  lemma {:induction false} PassSettles(c: View, jobs: seq<Job>, s: Setup)
    requires Consistent(jobs) && SendsSucceed(jobs) && !ProcessRepos(c, jobs, s).abort
    ensures AllSettled(ProcessRepos(c, jobs, s).cursor, jobs, s)
    decreases jobs
  {
    if jobs != [] && !jobs[0].visit.cancelled {
      var r := VisitRepo(c, jobs[0].repo, s, jobs[0].visit);
      VisitSettles(c, jobs[0].repo, s, jobs[0].visit);
      SettledPersists(r.cursor, jobs[0], jobs[1..], s);
      PassSettles(r.cursor, jobs[1..], s);
    }
  }

  lemma {:induction false} SettledPassIsQuiet(c: View, jobs: seq<Job>, again: seq<Job>, s: Setup)
    requires AllSettled(c, jobs, s) && SameJobs(jobs, again) && ClaimsHold(c, again, s)
    ensures var r := ProcessRepos(c, again, s); r.cursor == c && !Creates(r.events)
    decreases jobs
  {
    if again != [] && !again[0].visit.cancelled {
      var r := VisitRepo(c, again[0].repo, s, again[0].visit);
      assert Settled(c, again[0].repo, s, again[0].visit);
      SettledVisitIsQuiet(c, again[0].repo, s, again[0].visit);
      if !r.abort {
        SettledPassIsQuiet(c, jobs[1..], again[1..], s);
        NoCreateConcat(r.events, ProcessRepos(c, again[1..], s).events);
      }
    }
  }

  lemma NoCreateConcat(a: seq<Event>, b: seq<Event>)
    requires !Creates(a) && !Creates(b)
    ensures !Creates(a + b)
  {}

  // -------------------------------------------------------- the second pass

  /** Completion leaves alone what the first pass reads. */
  predicate SameForFirstPass(c: View, d: View) {
    c.Keys == d.Keys && forall k :: k in c ==> d[k].(completedHeadSHA := c[k].completedHeadSHA) == c[k]
  }

  lemma {:induction false} CompletionKeeps(c: View, jobs: seq<Job>)
    ensures var d := CompleteMergedUpdates(c, jobs).cursor;
      SameForFirstPass(c, d) && forall k :: !Open(c, k) ==> !Open(d, k)
    decreases jobs
  {
    if jobs != [] && !jobs[0].closing.cancelled {
      var r := CompleteRepo(c, jobs[0].repo, jobs[0].closing);
      CompletionCondition(c, jobs[0].repo, jobs[0].closing);
      if !r.abort {
        CompletionKeeps(r.cursor, jobs[1..]);
      }
    }
  }

  lemma {:induction false} AllSettledAfterCompletion(c: View, d: View, jobs: seq<Job>, s: Setup)
    requires AllSettled(c, jobs, s) && SameForFirstPass(c, d)
    ensures AllSettled(d, jobs, s)
  {
    if jobs != [] && !jobs[0].visit.cancelled {
      AllSettledAfterCompletion(c, d, jobs[1..], s);
    }
  }

  /** Repeating the merge-detection pass on its own result sends nothing. */
  lemma {:induction false} CompletionIsIdempotent(c: View, jobs: seq<Job>, again: seq<Job>)
    requires SendsSucceed(jobs) && SameJobs(jobs, again)
    ensures var d := CompleteMergedUpdates(c, jobs).cursor;
      CompleteMergedUpdates(d, again).cursor == d && CompleteMergedUpdates(d, again).events == []
    decreases jobs
  {
    if jobs != [] && !jobs[0].closing.cancelled {
      var r := CompleteRepo(c, jobs[0].repo, jobs[0].closing);
      CompletionCondition(c, jobs[0].repo, jobs[0].closing);
      if !r.abort {
        var d := CompleteMergedUpdates(r.cursor, jobs[1..]).cursor;
        CompletionKeeps(r.cursor, jobs[1..]);
        CompletionCondition(d, again[0].repo, again[0].closing);
        CompletionIsIdempotent(r.cursor, jobs[1..], again[1..]);
      }
    }
  }

  // --------------------------------------------------------------- the poll

  ghost predicate Quiet(events: seq<Event>) {
    forall i :: 0 <= i < |events| ==> !events[i].CreateSent? && !events[i].CompleteSent?
  }

  lemma {:induction false} FirstPassCompletesNothing(c: View, jobs: seq<Job>, s: Setup)
    requires !Creates(ProcessRepos(c, jobs, s).events)
    ensures Quiet(ProcessRepos(c, jobs, s).events)
    decreases jobs
  {
    if jobs != [] && !jobs[0].visit.cancelled {
      var r := VisitRepo(c, jobs[0].repo, s, jobs[0].visit);
      VisitSendsNoCompletion(c, jobs[0].repo, s, jobs[0].visit);
      hide VisitRepo;
      if !r.abort {
        var rest := ProcessRepos(r.cursor, jobs[1..], s);
        assert forall i :: 0 <= i < |rest.events| ==> rest.events[i] == (r.events + rest.events)[|r.events| + i];
        assert forall i :: 0 <= i < |r.events| ==> r.events[i] == (r.events + rest.events)[i];
        FirstPassCompletesNothing(r.cursor, jobs[1..], s);
      }
    }
  }

  /**
   After a poll that reached its save and whose sends all succeeded, a poll with the same answers
   and the same force flag, before any standing claim runs out, files no task, sends no completion
   and leaves the cursor as it is. Repeated repos and a cancelled or rate-limited end are included.
   */
  lemma SecondPollIsQuiet(c: View, p: PollInput, q: PollInput)
    requires Poll(c, p).saves && p.saveOk
    requires SendsSucceed(p.jobs.value) && Consistent(p.jobs.value)
    requires q.latest == p.latest && q.allowed == p.allowed && q.force == p.force
    requires q.jobs.Got? && SameJobs(p.jobs.value, q.jobs.value)
    requires ClaimsHold(DiskAfter(c, p), q.jobs.value, Setup(p.allowed, p.force, p.latest.value))
    ensures var d := DiskAfter(c, p);
      && Poll(d, q).cursor == d && DiskAfter(d, q) == d && Quiet(Poll(d, q).events)
  {
    hide ProcessRepos, CompleteMergedUpdates, AllSettled, SameJobs, Consistent, SendsSucceed, ClaimsHold, SameForFirstPass;
    var s := Setup(p.allowed, p.force, p.latest.value);
    var jobs, again := p.jobs.value, q.jobs.value;
    var first := ProcessRepos(c, jobs, s);
    var d := CompleteMergedUpdates(first.cursor, jobs).cursor;
    PassSettles(c, jobs, s);
    CompletionKeeps(first.cursor, jobs);
    AllSettledAfterCompletion(first.cursor, d, jobs, s);
    SettledPassIsQuiet(d, jobs, again, s);
    FirstPassCompletesNothing(d, again, s);
    CompletionIsIdempotent(first.cursor, jobs, again);
  }

  /** A pass over one repo is its visit. */
  lemma OneJobPass(c: View, jobs: seq<Job>, s: Setup)
    requires |jobs| == 1 && !jobs[0].visit.cancelled && !VisitRepo(c, jobs[0].repo, s, jobs[0].visit).abort
    ensures ProcessRepos(c, jobs, s) == VisitRepo(c, jobs[0].repo, s, jobs[0].visit)
  {
    hide VisitRepo;
    var r := VisitRepo(c, jobs[0].repo, s, jobs[0].visit);
    assert ProcessRepos(r.cursor, jobs[1..], s) == Outcome(r.cursor, [], false);
    Regroup(r.events, [], []);
  }

  lemma OneJobCompletion(c: View, jobs: seq<Job>)
    requires |jobs| == 1 && !jobs[0].closing.merged.RateLimited?
    ensures var r := CompleteMergedUpdates(c, jobs); !r.abort && SameForFirstPass(c, r.cursor)
  {
    CompletionKeeps(c, jobs);
    assert jobs[1..] == [];
  }

  /** What is settled about an emission survives the second pass. */
  lemma StillDue(c: View, d: View, repo: Repo, s: Setup, v: Visit, w: Visit)
    requires ShouldEmit(c, repo, s, v) && SameAnswers(v, w)
    requires SameForFirstPass(ClearInFlight(c, repo.Key(), s.latest.Number()), d)
    ensures ShouldEmit(d, repo, s, w)
  {
    NumberHasDigits(s.latest);
  }

  /**
   A successful cycle is not what `sha_unchanged` looks back to. When the one send of a poll fails,
   the poll is saved and labelled a success all the same, yet an unforced poll with the same HEAD
   and target right after it files the task again instead of reporting the repo as unchanged.
   */
  lemma SuccessfulCycleIsNotEnough(c: View, p: PollInput, q: PollInput)
    requires p.latest.Got? && p.jobs.Got? && |p.jobs.value| == 1 && p.saveOk && !p.force
    requires var job := p.jobs.value[0];
      && ShouldEmit(c, job.repo, Setup(p.allowed, p.force, p.latest.value), job.visit)
      && !job.visit.cancelled && !job.visit.sendOk && !job.closing.merged.RateLimited?
    requires q.latest == p.latest && q.allowed == p.allowed && q.force == p.force
    requires q.jobs.Got? && SameJobs(p.jobs.value, q.jobs.value)
    ensures Poll(c, p).saves && CycleResult(Success) in Poll(c, p).events
    ensures var d := DiskAfter(c, p);
      var again := VisitRepo(d, q.jobs.value[0].repo, Setup(q.allowed, q.force, q.latest.value), q.jobs.value[0].visit);
      && Creates(again.events) && again.events <= Poll(d, q).events[2..]
      && Skipped(q.jobs.value[0].repo.Key(), ShaUnchanged) !in again.events
  {
    var s := Setup(p.allowed, p.force, p.latest.value);
    var jobs, again := p.jobs.value, q.jobs.value;
    var job := jobs[0];
    EmissionCondition(c, job.repo, s, job.visit);
    OneJobPass(c, jobs, s);
    var first := ProcessRepos(c, jobs, s);
    OneJobCompletion(first.cursor, jobs);
    var d := CompleteMergedUpdates(first.cursor, jobs).cursor;
    StillDue(c, d, job.repo, s, job.visit, again[0].visit);
    EmissionCondition(d, job.repo, s, again[0].visit);
    UnchangedCondition(d, job.repo, s, again[0].visit);
    OneJobPass(d, again, s);
    hide VisitRepo, ProcessRepos, CompleteMergedUpdates, ShouldEmit, SameForFirstPass, Creates;
    PollStartsWith(d, q, s);
  }

  lemma PollStartsWith(c: View, p: PollInput, s: Setup)
    requires p.latest.Got? && p.jobs.Got? && s == Setup(p.allowed, p.force, p.latest.value)
    ensures |Poll(c, p).events| >= 2 && ProcessRepos(c, p.jobs.value, s).events <= Poll(c, p).events[2..]
  {
    hide ProcessRepos, CompleteMergedUpdates;
  }
}
