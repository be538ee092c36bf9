/** Counters: every scanned repo has one outcome, every send is counted, every cycle has one label. */
module Conservation {
  import opened Versions
  import opened GitHub
  import opened Filters
  import opened Cycle
  import opened PassFacts

  /** The counters and logs of the service; a counter's growth is the number of its events. */
  datatype Kind =
    | Drops
    | Skips(reason: Reason)
    | AnySkip
    | Creates
    | Decisions
    | Completions
    | PublishedCounts
    | CreatesOk
    | DecisionsOk
    | PublishedOk
    | CompletedCounts
    | CompletionsOk
    | CompletedOk
    | CycleResults

  predicate Is(e: Event, k: Kind) {
    match k
    case Drops => e.Dropped?
    case Skips(reason) => e.Skipped? && e.reason == reason
    case AnySkip => e.Skipped?
    case Creates => e.CreateSent?
    case Decisions => e.DecisionSent?
    case Completions => e.CompleteSent?
    case PublishedCounts => e.Published?
    case CreatesOk => e.CreateSent? && e.ok
    case DecisionsOk => e.DecisionSent? && e.ok
    case PublishedOk => e.Published? && e.ok
    case CompletedCounts => e.CompletedCount?
    case CompletionsOk => e.CompleteSent? && e.ok
    case CompletedOk => e.CompletedCount? && e.ok
    case CycleResults => e.CycleResult?
  }

  function One(e: Event, k: Kind): nat {
    if Is(e, k) then 1 else 0
  }

  function Count(events: seq<Event>, k: Kind): nat {
    if events == [] then 0 else One(events[0], k) + Count(events[1..], k)
  }

  lemma {:induction false} CountConcat(a: seq<Event>, b: seq<Event>)
    ensures forall k :: Count(a + b, k) == Count(a, k) + Count(b, k)
  {
    if a == [] {
      assert a + b == b;
    } else {
      CountConcat(a[1..], b);
      assert (a + b)[1..] == a[1..] + b;
    }
  }

  lemma CountFew(x: Event, y: Event, z: Event)
    ensures forall k :: Count([x], k) == One(x, k)
    ensures forall k :: Count([x, y], k) == One(x, k) + One(y, k)
    ensures forall k :: Count([x, y, z], k) == One(x, k) + One(y, k) + One(z, k)
  {
    assert [x][1..] == [] && [y][1..] == [] && [z][1..] == [];
    assert [x, y] == [x] + [y] && [x, y, z] == [x] + [y] + [z];
    CountConcat([x], [y]);
    CountConcat([x] + [y], [z]);
  }

  /** The skip counter summed over the closed label set. */
  function SkipTotal(events: seq<Event>): nat {
    Count(events, Skips(Scope)) + Count(events, Skips(NoGoMod)) + Count(events, Skips(GoModUnparsable))
    + Count(events, Skips(GoCurrent)) + Count(events, Skips(AutoUpdateDisabled))
    + Count(events, Skips(AutoUpdateUndecided)) + Count(events, Skips(ShaUnchanged))
    + Count(events, Skips(OpenUpdatePR)) + Count(events, Skips(EmissionInFlight))
  }

  lemma {:induction false} LabelsAreClosed(events: seq<Event>)
    ensures SkipTotal(events) == Count(events, AnySkip)
  {
    if events != [] {
      LabelsAreClosed(events[1..]);
      var e := events[0];
      if e.Skipped? {
        match e.reason {
          case Scope =>
          case NoGoMod =>
          case GoModUnparsable =>
          case GoCurrent =>
          case AutoUpdateDisabled =>
          case AutoUpdateUndecided =>
          case ShaUnchanged =>
          case OpenUpdatePR =>
          case EmissionInFlight =>
        }
      }
    }
  }

  /** The balance of a list of events that accounts for `repos` repos. */
  predicate Balanced(events: seq<Event>, repos: nat) {
    && Count(events, Drops) + Count(events, AnySkip) + Count(events, Creates) == repos
    && Count(events, Decisions) == Count(events, Skips(AutoUpdateUndecided))
    && Count(events, PublishedCounts) == Count(events, Creates) + Count(events, Decisions)
    && Count(events, PublishedOk) == Count(events, CreatesOk) + Count(events, DecisionsOk)
    && Count(events, Completions) == Count(events, CompletedCounts) == Count(events, CycleResults) == 0
    && Count(events, CompletionsOk) == Count(events, CompletedOk) == 0
  }

  lemma BalancedConcat(a: seq<Event>, b: seq<Event>, m: nat, n: nat)
    requires Balanced(a, m) && Balanced(b, n)
    ensures Balanced(a + b, m + n)
  {
    CountConcat(a, b);
  }

  lemma MarksCountNothing(marks: seq<Event>)
    requires |marks| <= 1
    requires forall i :: 0 <= i < |marks| ==> marks[i].Converged? || marks[i].Expiry?
    ensures Balanced(marks, 0)
  {
    if marks != [] {
      assert marks[1..] == [];
    }
  }

  /** The three shapes of the end of a visit. */
  lemma FilterShape(c: View, cand: Candidate, s: Setup, v: Visit) returns (reason: Reason)
    ensures var (key, events) := (cand.repo.Key(), FilterAndEmit(c, cand, s, v).events);
      || events == [CreateSent(cand, v.sendOk), Published(v.sendOk)]
      || (reason != AutoUpdateUndecided && events == [Skipped(key, reason)])
      || events == [Skipped(key, AutoUpdateUndecided), DecisionSent(cand, v.sendOk), Published(v.sendOk)]
  {
    var verdict := Skip(CycleFilter(s.allowed, s.force), cand.Projection(), SeenIn(c, cand.repo.Key()));
    reason := if verdict.Some? then verdict.value else Scope;
  }

  lemma SendBalance(skip: Event, send: Event, published: Event)
    requires published.Published?
    ensures send.CreateSent? && send.ok == published.ok ==> Balanced([send, published], 1)
    ensures skip.Skipped? && skip.reason == AutoUpdateUndecided && send.DecisionSent? && send.ok == published.ok
      ==> Balanced([skip, send, published], 1)
  {
    CountFew(send, published, published);
    CountFew(skip, send, published);
    hide Count;
  }

  lemma FilterBalance(c: View, cand: Candidate, s: Setup, v: Visit)
    ensures Balanced(FilterAndEmit(c, cand, s, v).events, 1)
  {
    var reason := FilterShape(c, cand, s, v);
    var key, published := cand.repo.Key(), Published(v.sendOk);
    SendBalance(Skipped(key, AutoUpdateUndecided), CreateSent(cand, v.sendOk), published);
    SendBalance(Skipped(key, AutoUpdateUndecided), DecisionSent(cand, v.sendOk), published);
    if reason != AutoUpdateUndecided {
      OneEventBalance(Skipped(key, reason));
    }
  }

  lemma OneEventBalance(x: Event)
    requires x.Dropped? || (x.Skipped? && x.reason != AutoUpdateUndecided)
    ensures Balanced([x], 1)
  {
    CountFew(x, x, x);
  }

  /** A finished visit accounts for its repo exactly once; an aborting one leaves nothing. */
  lemma VisitBalance(c: View, repo: Repo, s: Setup, v: Visit)
    ensures Balanced(VisitRepo(c, repo, s, v).events, if Aborts(v) then 0 else 1)
  {
    AbortCondition(c, repo, s, v);
    match Gather(repo, v, s.latest)
    case Abort =>
    case Drop(step) => OneEventBalance(Dropped(repo.Key(), step));
    case Have(cand) =>
      var key := repo.Key();
      match v.openPR
      case RateLimited =>
      case Failed => OneEventBalance(Dropped(key, OpenPRCheck));
      case Got(open) =>
        if open {
          OneEventBalance(Skipped(key, OpenUpdatePR));
        } else {
          var (suppressed, c', marks) := CheckClaim(c, cand, v.now);
          MarksCountNothing(marks);
          if suppressed {
            OneEventBalance(Skipped(key, EmissionInFlight));
            BalancedConcat(marks, [Skipped(key, EmissionInFlight)], 0, 1);
          } else {
            FilterBalance(c', cand, s, v);
            BalancedConcat(marks, FilterAndEmit(c', cand, s, v).events, 0, 1);
          }
        }
  }

  /** How many jobs the pass finishes: those before the first cancelled or aborting one. */
  function Finished(jobs: seq<Job>): nat {
    if jobs == [] || jobs[0].visit.cancelled || Aborts(jobs[0].visit) then 0 else 1 + Finished(jobs[1..])
  }

  lemma {:induction false} FinishedAll(jobs: seq<Job>)
    ensures Finished(jobs) <= |jobs|
    ensures Finished(jobs) == |jobs| <==> Uninterrupted(jobs)
  {
    hide Aborts;
    if jobs != [] {
      FinishedAll(jobs[1..]);
      assert forall i :: 0 < i < |jobs| ==> jobs[i] == jobs[1..][i - 1];
      assert forall i :: 0 <= i < |jobs[1..]| ==> jobs[1..][i] == jobs[i + 1];
    }
  }

  lemma NothingIsBalanced()
    ensures Balanced([], 0)
  {}

  lemma {:induction false} PassBalance(c: View, jobs: seq<Job>, s: Setup)
    ensures Balanced(ProcessRepos(c, jobs, s).events, Finished(jobs))
    decreases jobs
  {
    hide VisitRepo, Balanced, Aborts;
    NothingIsBalanced();
    if jobs != [] && !jobs[0].visit.cancelled {
      var r := VisitRepo(c, jobs[0].repo, s, jobs[0].visit);
      VisitBalance(c, jobs[0].repo, s, jobs[0].visit);
      AbortCondition(c, jobs[0].repo, s, jobs[0].visit);
      if !r.abort {
        PassBalance(r.cursor, jobs[1..], s);
        BalancedConcat(r.events, ProcessRepos(r.cursor, jobs[1..], s).events, 1, Finished(jobs[1..]));
      }
    }
  }

  ghost predicate CompletionsOnly(events: seq<Event>) {
    && Count(events, Completions) == Count(events, CompletedCounts)
    && Count(events, CompletionsOk) == Count(events, CompletedOk)
    && forall k :: k !in {Completions, CompletedCounts, CompletionsOk, CompletedOk} ==> Count(events, k) == 0
  }

  lemma CheckBalance(c: View, repo: Repo, v: Closing)
    ensures CompletionsOnly(CompleteRepo(c, repo, v).events)
  {
    var r := CompleteRepo(c, repo, v);
    if r.events != [] {
      assert r.events == [r.events[0], r.events[1]];
      CountFew(r.events[0], r.events[1], r.events[1]);
      hide Count;
    }
  }

  lemma CompletionsOnlyConcat(a: seq<Event>, b: seq<Event>)
    requires CompletionsOnly(a) && CompletionsOnly(b)
    ensures CompletionsOnly(a + b)
  {
    CountConcat(a, b);
    hide Count;
  }

  lemma {:induction false} CompletionBalance(c: View, jobs: seq<Job>)
    ensures CompletionsOnly(CompleteMergedUpdates(c, jobs).events)
    decreases jobs
  {
    NothingCompleted();
    if jobs != [] && !jobs[0].closing.cancelled {
      hide CompleteRepo, CompletionsOnly;
      var r := CompleteRepo(c, jobs[0].repo, jobs[0].closing);
      CheckBalance(c, jobs[0].repo, jobs[0].closing);
      if !r.abort {
        CompletionBalance(r.cursor, jobs[1..]);
        CompletionsOnlyConcat(r.events, CompleteMergedUpdates(r.cursor, jobs[1..]).events);
      }
    }
  }

  lemma NothingCompleted()
    ensures CompletionsOnly([])
  {}

  /** The balance of a whole poll. */
  predicate Accounted(events: seq<Event>, repos: nat) {
    && Count(events, Drops) + Count(events, AnySkip) + Count(events, Creates) == repos
    && Count(events, Decisions) == Count(events, Skips(AutoUpdateUndecided))
    && Count(events, PublishedCounts) == Count(events, Creates) + Count(events, Decisions)
    && Count(events, PublishedOk) == Count(events, CreatesOk) + Count(events, DecisionsOk)
    && Count(events, CompletedCounts) == Count(events, Completions)
    && Count(events, CompletedOk) == Count(events, CompletionsOk)
    && Count(events, CycleResults) == 1
  }

  ghost predicate Silent(events: seq<Event>) {
    forall k :: Count(events, k) == 0
  }

  ghost predicate OneLabel(events: seq<Event>) {
    forall k :: Count(events, k) == if k == CycleResults then 1 else 0
  }

  lemma Assemble(head: seq<Event>, first: seq<Event>, second: seq<Event>, tail: seq<Event>, n: nat)
    requires Silent(head) && Balanced(first, n) && CompletionsOnly(second) && OneLabel(tail)
    ensures Accounted(head + first + second + tail, n)
  {
    CountConcat(head, first);
    CountConcat(head + first, second);
    CountConcat(head + first + second, tail);
    hide Count;
  }

  lemma HeadIsSilent(n: nat)
    ensures Silent([Loaded, Scanned(n)])
  {
    CountFew(Loaded, Scanned(n), Loaded);
  }

  lemma ShortPollIsAccounted(result: CycleLabel)
    ensures Accounted([Loaded, CycleResult(result)], 0)
  {
    CountFew(Loaded, CycleResult(result), Loaded);
  }

  lemma TailIsOneLabel(result: CycleLabel, ok: bool)
    ensures OneLabel([CycleResult(result)])
    ensures OneLabel([CycleResult(result), SaveEvent(ok)])
    ensures OneLabel([SaveEvent(ok), CycleResult(result)])
  {
    CountFew(CycleResult(result), SaveEvent(ok), Loaded);
    CountFew(SaveEvent(ok), CycleResult(result), Loaded);
  }

  lemma PollIsAccounted(c: View, p: PollInput)
    ensures Accounted(Poll(c, p).events, Finished(JobsOf(p)))
  {
    hide ProcessRepos, CompleteMergedUpdates, Balanced, Accounted, Silent, OneLabel, CompletionsOnly;
    if p.latest.Got? && p.jobs.Got? {
      var jobs, s := p.jobs.value, Setup(p.allowed, p.force, p.latest.value);
      var first := ProcessRepos(c, jobs, s);
      PassBalance(c, jobs, s);
      var head := [Loaded, Scanned(|jobs|)];
      HeadIsSilent(|jobs|);
      NothingCompleted();
      TailIsOneLabel(RateLimitedCycle, p.saveOk);
      TailIsOneLabel(Success, p.saveOk);
      if first.abort {
        Assemble(head, first.events, [], [CycleResult(RateLimitedCycle)], Finished(jobs));
        assert head + (first.events + [CycleResult(RateLimitedCycle)])
            == head + first.events + [] + [CycleResult(RateLimitedCycle)];
      } else {
        var second := CompleteMergedUpdates(first.cursor, jobs);
        CompletionBalance(first.cursor, jobs);
        var tail := if second.abort then [CycleResult(RateLimitedCycle), SaveEvent(p.saveOk)]
                    else [SaveEvent(p.saveOk), CycleResult(Success)];
        Assemble(head, first.events, second.events, tail, Finished(jobs));
        assert head + (first.events + second.events + tail) == head + first.events + second.events + tail;
      }
    } else {
      ShortPollIsAccounted(GoVersionError);
      ShortPollIsAccounted(RateLimitedCycle);
      ShortPollIsAccounted(GithubError);
    }
  }

  /**
   Conservation over a whole poll: drops, skips over the closed label set and create attempts add
   up to the repos the pass finished, which is all of them exactly when nothing interrupts it;
   undecided skips and decision attempts agree; every send is counted under its outcome; one cycle
   label is bumped.
   */
  lemma PollConservation(c: View, p: PollInput)
    ensures var events := Poll(c, p).events;
      && Count(events, Drops) + SkipTotal(events) + Count(events, Creates) == Finished(JobsOf(p)) <= |JobsOf(p)|
      && (Finished(JobsOf(p)) == |JobsOf(p)| <==> Uninterrupted(JobsOf(p)))
      && Count(events, Decisions) == Count(events, Skips(AutoUpdateUndecided))
      && Count(events, PublishedCounts) == Count(events, Creates) + Count(events, Decisions)
      && Count(events, PublishedOk) == Count(events, CreatesOk) + Count(events, DecisionsOk)
      && Count(events, CompletedCounts) == Count(events, Completions)
      && Count(events, CompletedOk) == Count(events, CompletionsOk)
      && Count(events, CycleResults) == 1
  {
    PollIsAccounted(c, p);
    LabelsAreClosed(Poll(c, p).events);
    FinishedAll(JobsOf(p));
  }

  /** Where the first pass ends decides whether it aborts. */
  lemma {:induction false} AbortPoint(c: View, jobs: seq<Job>, s: Setup)
    ensures Finished(jobs) <= |jobs|
    ensures ProcessRepos(c, jobs, s).abort <==> Finished(jobs) < |jobs| && !jobs[Finished(jobs)].visit.cancelled
    decreases jobs
  {
    if jobs != [] && !jobs[0].visit.cancelled {
      var r := VisitRepo(c, jobs[0].repo, s, jobs[0].visit);
      AbortCondition(c, jobs[0].repo, s, jobs[0].visit);
      if !r.abort {
        AbortPoint(r.cursor, jobs[1..], s);
      }
    }
  }

  /**
   When a poll writes its cursor: whenever both lookups succeed and the first pass is not cut short
   by a rate limit. A cancelled pass does write, and so does one the second pass aborts, which then
   commits everything recorded so far; an abort in the first pass leaves the file as it was.
   */
  lemma SaveCondition(c: View, p: PollInput)
    ensures var jobs := JobsOf(p);
      && Finished(jobs) <= |jobs|
      && (Poll(c, p).saves <==>
            p.latest.Got? && p.jobs.Got? && (Finished(jobs) == |jobs| || jobs[Finished(jobs)].visit.cancelled))
      && DiskAfter(c, p) == if Poll(c, p).saves && p.saveOk
           then CompleteMergedUpdates(ProcessRepos(c, jobs, Setup(p.allowed, p.force, p.latest.value)).cursor, jobs).cursor
           else c
  {
    AbortPoint(c, JobsOf(p), Setup(p.allowed, p.force, if p.latest.Got? then p.latest.value else Version(0, 0, 0, "")));
  }

  lemma {:induction false} NoneCounted(events: seq<Event>, k: Kind)
    requires Count(events, k) == 0
    ensures forall i :: 0 <= i < |events| ==> !Is(events[i], k)
  {
    if events != [] {
      NoneCounted(events[1..], k);
      assert forall i :: 0 < i < |events| ==> events[i] == events[1..][i - 1];
    }
  }

  /** Every cycle result among the events carries this label. */
  ghost predicate Labelled(events: seq<Event>, result: CycleLabel) {
    forall i :: 0 <= i < |events| && events[i].CycleResult? ==> events[i].result == result
  }

  lemma LabelledConcat(a: seq<Event>, b: seq<Event>, result: CycleLabel)
    requires Labelled(a, result) && Labelled(b, result)
    ensures Labelled(a + b, result)
  {}

  lemma NothingToLabel(events: seq<Event>, result: CycleLabel)
    requires Count(events, CycleResults) == 0
    ensures Labelled(events, result)
  {
    NoneCounted(events, CycleResults);
    hide Count;
    assert forall i :: 0 <= i < |events| ==> !Is(events[i], CycleResults);
  }

  lemma PassesHaveNoLabel(c: View, d: View, jobs: seq<Job>, s: Setup, result: CycleLabel)
    ensures Labelled(ProcessRepos(c, jobs, s).events, result)
    ensures Labelled(CompleteMergedUpdates(d, jobs).events, result)
  {
    PassBalance(c, jobs, s);
    CompletionBalance(d, jobs);
    hide ProcessRepos, CompleteMergedUpdates, Count, Finished;
    NothingToLabel(ProcessRepos(c, jobs, s).events, result);
    NothingToLabel(CompleteMergedUpdates(d, jobs).events, result);
  }

  lemma TailLabel(result: CycleLabel, ok: bool)
    ensures Labelled([CycleResult(result)], result)
    ensures Labelled([CycleResult(result), SaveEvent(ok)], result)
    ensures Labelled([SaveEvent(ok), CycleResult(result)], result)
  {}

  lemma PassesLabel(c: View, jobs: seq<Job>, s: Setup, saveOk: bool)
    ensures var first := ProcessRepos(c, jobs, s);
      Labelled(Passes(c, jobs, s, saveOk).events,
               if first.abort || CompleteMergedUpdates(first.cursor, jobs).abort then RateLimitedCycle else Success)
  {
    hide ProcessRepos, CompleteMergedUpdates, Labelled;
    var first := ProcessRepos(c, jobs, s);
    var second := CompleteMergedUpdates(first.cursor, jobs);
    var result := if first.abort || second.abort then RateLimitedCycle else Success;
    PassesHaveNoLabel(c, first.cursor, jobs, s, result);
    TailLabel(result, saveOk);
    if first.abort {
      LabelledConcat(first.events, [CycleResult(result)], result);
    } else {
      var tail := if second.abort then [CycleResult(result), SaveEvent(saveOk)]
                  else [SaveEvent(saveOk), CycleResult(result)];
      LabelledConcat(first.events, second.events, result);
      LabelledConcat(first.events + second.events, tail, result);
    }
  }

  /** Some earlier job of the pass, before position `n`, has completed this repo's task. */
  predicate ClosedBefore(jobs: seq<Job>, n: nat, key: string)
    requires n <= |jobs|
  {
    exists m :: 0 <= m < n && jobs[m].repo.Key() == key && jobs[m].closing.merged == Got(true) && jobs[m].closing.sendOk
  }

  /**
   The merge-detection pass has to ask about job `n` and is throttled: no cancellation up to it, and
   its entry is open from the start and not completed by an earlier listing of the same repo.
   */
  ghost predicate ThrottledAt(c: View, jobs: seq<Job>, n: nat) {
    && n < |jobs|
    && (forall m :: 0 <= m <= n ==> !jobs[m].closing.cancelled)
    && jobs[n].closing.merged.RateLimited?
    && Open(c, jobs[n].repo.Key()) && !ClosedBefore(jobs, n, jobs[n].repo.Key())
  }

  lemma ClosedBeforeStep(jobs: seq<Job>, n: nat, key: string)
    requires n < |jobs|
    ensures ClosedBefore(jobs, n + 1, key) <==>
      || (jobs[0].repo.Key() == key && jobs[0].closing.merged == Got(true) && jobs[0].closing.sendOk)
      || ClosedBefore(jobs[1..], n, key)
  {
    assert forall m :: 0 <= m < n ==> jobs[1..][m] == jobs[m + 1];
    if ClosedBefore(jobs, n + 1, key)
       && !(jobs[0].repo.Key() == key && jobs[0].closing.merged == Got(true) && jobs[0].closing.sendOk) {
      var m :| 0 <= m < n + 1 && jobs[m].repo.Key() == key && jobs[m].closing.merged == Got(true) && jobs[m].closing.sendOk;
      assert jobs[1..][m - 1] == jobs[m];
    }
  }

  /** Seen from the second job on, after the first one went through. */
  lemma ThrottledStep(c: View, jobs: seq<Job>, n: nat)
    requires jobs != [] && !jobs[0].closing.cancelled && !CompleteRepo(c, jobs[0].repo, jobs[0].closing).abort
    ensures ThrottledAt(c, jobs, n + 1) <==> ThrottledAt(CompleteRepo(c, jobs[0].repo, jobs[0].closing).cursor, jobs[1..], n)
    ensures !ThrottledAt(c, jobs, 0)
  {
    var job, rest := jobs[0], jobs[1..];
    var d := CompleteRepo(c, job.repo, job.closing).cursor;
    if n < |rest| {
      var key := rest[n].repo.Key();
      assert rest[n] == jobs[n + 1];
      ClosedBeforeStep(jobs, n, key);
      CompletionClosesItsOwn(c, job.repo, job.closing, key);
      hide CompleteRepo, Open, ClosedBefore;
      assert forall m :: 0 <= m <= n ==> rest[m] == jobs[m + 1];
      assert forall m :: 1 <= m <= n + 1 ==> jobs[m] == rest[m - 1];
    }
  }

  lemma CompletionClosesItsOwn(c: View, repo: Repo, v: Closing, key: string)
    ensures Open(CompleteRepo(c, repo, v).cursor, key) <==>
      Open(c, key) && !(repo.Key() == key && v.merged == Got(true) && v.sendOk)
  {}

  /** The second pass aborts exactly when some question it has to ask is throttled. */
  lemma {:induction false} CloseAbortPoint(c: View, jobs: seq<Job>)
    ensures CompleteMergedUpdates(c, jobs).abort <==> exists n: nat :: ThrottledAt(c, jobs, n)
    decreases jobs
  {
    if jobs != [] && !jobs[0].closing.cancelled {
      var r := CompleteRepo(c, jobs[0].repo, jobs[0].closing);
      if r.abort {
        assert ThrottledAt(c, jobs, 0);
      } else {
        hide CompleteRepo, ThrottledAt;
        CloseAbortPoint(r.cursor, jobs[1..]);
        forall n: nat
          ensures ThrottledAt(c, jobs, n + 1) <==> ThrottledAt(r.cursor, jobs[1..], n)
          ensures !ThrottledAt(c, jobs, 0)
        {
          ThrottledStep(c, jobs, n);
        }
        if n: nat :| ThrottledAt(r.cursor, jobs[1..], n) {
          assert ThrottledAt(c, jobs, n + 1);
        }
        if n: nat :| ThrottledAt(c, jobs, n) {
          assert n > 0 && ThrottledAt(r.cursor, jobs[1..], n - 1);
        }
      }
    }
  }

  /** The answers throttle the poll: an upstream read of the first pass, or a merge question of the second. */
  ghost predicate Throttled(c: View, jobs: seq<Job>, s: Setup) {
    || (Finished(jobs) < |jobs| && !jobs[Finished(jobs)].visit.cancelled)
    || exists n: nat :: ThrottledAt(ProcessRepos(c, jobs, s).cursor, jobs, n)
  }

  /** Which label the one cycle result of a poll carries, by the answers; a cancellation is no reason for another. */
  lemma LabelCondition(c: View, p: PollInput)
    ensures var s := Setup(p.allowed, p.force, if p.latest.Got? then p.latest.value else Version(0, 0, 0, ""));
      Labelled(Poll(c, p).events,
               if !p.latest.Got? then GoVersionError
               else if p.jobs.Failed? then GithubError
               else if p.jobs.RateLimited? || Throttled(c, JobsOf(p), s) then RateLimitedCycle
               else Success)
  {
    if p.latest.Got? && p.jobs.Got? {
      var jobs, s := p.jobs.value, Setup(p.allowed, p.force, p.latest.value);
      PassesLabel(c, jobs, s, p.saveOk);
      AbortPoint(c, jobs, s);
      CloseAbortPoint(ProcessRepos(c, jobs, s).cursor, jobs);
      hide ProcessRepos, CompleteMergedUpdates, Passes, Finished, ThrottledAt;
    }
  }

  /** A cancellation at position `k` makes the pass that over the jobs before it. */
  lemma {:induction false} CancellationCuts(c: View, jobs: seq<Job>, s: Setup, k: nat)
    requires k < |jobs| && jobs[k].visit.cancelled
    requires forall i :: 0 <= i < k ==> !Aborts(jobs[i].visit)
    ensures ProcessRepos(c, jobs, s) == ProcessRepos(c, jobs[..k], s)
    ensures Finished(jobs) <= k && jobs[Finished(jobs)].visit.cancelled
    decreases jobs
  {
    hide VisitRepo, Aborts;
    if k > 0 && !jobs[0].visit.cancelled {
      var r := VisitRepo(c, jobs[0].repo, s, jobs[0].visit);
      AbortCondition(c, jobs[0].repo, s, jobs[0].visit);
      assert !Aborts(jobs[0].visit);
      assert jobs[..k][0] == jobs[0] && jobs[..k][1..] == jobs[1..][..k - 1];
      assert forall i :: 0 <= i < k - 1 ==> jobs[1..][i] == jobs[i + 1];
      CancellationCuts(r.cursor, jobs[1..], s, k - 1);
    }
  }

  /**
   A cancelled first pass is not an aborted one. Wherever the cancellation falls, if no read before
   it was throttled and the second pass is not throttled either, the poll does what the visits before
   it did, goes on to save, and counts as a success.
   */
  lemma CancelledPollCountsAsSuccess(c: View, p: PollInput, k: nat)
    requires p.latest.Got? && p.jobs.Got? && k < |p.jobs.value| && p.jobs.value[k].visit.cancelled
    requires forall i :: 0 <= i < k ==> !Aborts(p.jobs.value[i].visit)
    requires var s := Setup(p.allowed, p.force, p.latest.value);
      forall n: nat :: !ThrottledAt(ProcessRepos(c, p.jobs.value[..k], s).cursor, p.jobs.value, n)
    ensures Poll(c, p).saves && Count(Poll(c, p).events, CycleResults) == 1 && Labelled(Poll(c, p).events, Success)
    ensures var s := Setup(p.allowed, p.force, p.latest.value);
      Poll(c, p).cursor == CompleteMergedUpdates(ProcessRepos(c, p.jobs.value[..k], s).cursor, p.jobs.value).cursor
  {
    var jobs, s := p.jobs.value, Setup(p.allowed, p.force, p.latest.value);
    CancellationCuts(c, jobs, s, k);
    PollIsAccounted(c, p);
    LabelCondition(c, p);
    AbortPoint(c, jobs, s);
    CloseAbortPoint(ProcessRepos(c, jobs, s).cursor, jobs);
    hide ProcessRepos, CompleteMergedUpdates, Finished, ThrottledAt, Count, Labelled;
  }
}
