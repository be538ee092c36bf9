/**
 One poll cycle as functions on values: what each step of pkg/watcher.go does to the cursor and
 which events it produces. The methods of module Watchers are proved against these functions.
 */
module Cycle {
  import opened Text
  import opened Versions
  import opened GitHub
  import opened Filters
  import opened TaskIds
  import GoMod

  // ------------------------------------------------------------------- time

  const SECOND: int := 1_000_000_000
  const IN_FLIGHT_TTL: int := 14 * 24 * 3600 * SECOND

  /** A recorded time: RFC 3339 text carries whole seconds; any other text does not parse. */
  datatype Stamp = At(seconds: int) | Unparsable(text: string)

  const NO_STAMP := Unparsable("")

  /** Formatting an instant in nanoseconds drops the fraction of the second. */
  function Format(now: int): Stamp {
    At(now / SECOND)
  }

  // ----------------------------------------------------------------- cursor

  datatype Entry = Entry(
    lastSeenHeadSHA: string,
    lastSeenGoVersion: string,
    completedHeadSHA: string,
    inFlightTarget: string,
    inFlightSince: Stamp)

  /** The cursor as a value; a nil entry of the Go map is an absent key. */
  type View = map<string, Entry>

  const EMPTY: View := map[]

  function Get(c: View, key: string): Option<Entry> {
    if key in c then Some(c[key]) else None
  }

  function SeenIn(c: View, key: string): Seen {
    if key in c then Seen(c[key].lastSeenHeadSHA, c[key].lastSeenGoVersion) else Seen("", "")
  }

  /** The entry claims that a task for `target` was filed and is still under way. */
  predicate Claims(c: View, key: string, target: string) {
    key in c && c[key].inFlightTarget == target
  }

  predicate Expired(e: Entry, now: int) {
    e.inFlightSince.Unparsable? || now - e.inFlightSince.seconds * SECOND > IN_FLIGHT_TTL
  }

  function ClearInFlight(c: View, key: string, target: string): View {
    if Claims(c, key, target)
    then c[key := c[key].(inFlightTarget := "", inFlightSince := NO_STAMP)]
    else c
  }

  // ----------------------------------------------------------- observations

  datatype Candidate = Candidate(
    repo: Repo,
    headSHA: string,
    goModPresent: bool,
    goModParsable: bool,
    currentGo: Version,
    latestGo: Version,
    consent: Consent)
  {
    predicate GoBehind() {
      goModParsable && currentGo.Less(latestGo)
    }

    function Target(): string {
      latestGo.Number()
    }

    function Projection(): FilterCandidate {
      FilterCandidate(repo.Key(), headSHA, Target(), goModPresent, goModParsable, GoBehind(), consent)
    }

    function TaskId(): TaskId {
      DeriveTaskID(repo.owner, repo.name, Target(), headSHA)
    }
  }

  /**
   What the environment answers while one listed repo is processed: the context, the three
   upstream reads, the open-PR check, the clock at the claim check and at the recording, and the
   outcome of the one send the visit may make.
   */
  datatype Visit = Visit(
    cancelled: bool,
    head: Fetch<string>,
    goMod: Fetch<Option<string>>,
    consent: Fetch<Consent>,
    openPR: Fetch<bool>,
    now: int,
    recordedAt: int,
    sendOk: bool)

  /** The same for the merge-detection pass. */
  datatype Closing = Closing(cancelled: bool, merged: Fetch<bool>, sendOk: bool)

  /** A listed repo with the answers both passes get for it. */
  datatype Job = Job(repo: Repo, visit: Visit, closing: Closing)

  /** Settings that hold for a whole cycle. */
  datatype Setup = Setup(allowed: string -> bool, force: bool, latest: Version)

  // ----------------------------------------------------------------- events

  datatype CycleLabel = Success | RateLimitedCycle | GithubError | GoVersionError

  datatype Step = HeadSHA | GoModFile | MaintainerConfig | OpenPRCheck

  /** Log lines, metric increments and sends, in order; the marks Converged and Expiry say why a claim went. */
  datatype Event =
    | Loaded
    | Scanned(repos: nat)
    | Dropped(key: string, step: Step)
    | Skipped(key: string, reason: Reason)
    | Converged(key: string, target: string)
    | Expiry(key: string, target: string)
    | CreateSent(candidate: Candidate, ok: bool)
    | DecisionSent(candidate: Candidate, ok: bool)
    | Published(ok: bool)
    | CompleteSent(repo: Repo, goVersion: string, headSHA: string, ok: bool)
    | CompletedCount(ok: bool)
    | Saved
    | SaveFailed
    | CycleResult(result: CycleLabel)
    | DiskLost

  lemma Regroup(a: seq<Event>, b: seq<Event>, c: seq<Event>)
    ensures a + b + c == a + (b + c) && a + [] == a
  {}

  // --------------------------------------------------------- one repo visit

  datatype Gathered = Abort | Drop(step: Step) | Have(candidate: Candidate)

  function Gather(repo: Repo, v: Visit, latest: Version): Gathered {
    match v.head
    case RateLimited => Abort
    case Failed => Drop(HeadSHA)
    case Got(sha) =>
      match v.goMod
      case RateLimited => Abort
      case Failed => Drop(GoModFile)
      case Got(file) =>
        match v.consent
        case RateLimited => Abort
        case Failed => Drop(MaintainerConfig)
        case Got(consent) =>
          var parsed := if file.Some? then GoMod.ScanVersion(file.value) else None;
          Have(Candidate(repo, sha, file.Some?, parsed.Some?,
                         if parsed.Some? then parsed.value else Version(0, 0, 0, ""), latest, consent))
  }

  /** Cursor, events, and whether a rate limit aborts the pass. */
  datatype Outcome = Outcome(cursor: View, events: seq<Event>, abort: bool) {
    /** This outcome after `before` has happened. */
    function After(before: seq<Event>): Outcome {
      this.(events := before + events)
    }
  }

  function MarkPublished(c: View, cand: Candidate, recordedAt: int): View {
    c[cand.repo.Key() := Entry(
      cand.headSHA,
      cand.Target(),
      if cand.repo.Key() in c then c[cand.repo.Key()].completedHeadSHA else "",
      cand.Target(),
      Format(recordedAt))]
  }

  /** The claim check: is the emission suppressed, the cursor after it, and the mark it leaves. */
  function CheckClaim(c: View, cand: Candidate, now: int): (bool, View, seq<Event>) {
    var key, target := cand.repo.Key(), cand.Target();
    if !Claims(c, key, target) then (false, c, [])
    else if !cand.GoBehind() then (false, ClearInFlight(c, key, target), [Converged(key, target)])
    else if Expired(c[key], now) then (false, ClearInFlight(c, key, target), [Expiry(key, target)])
    else (true, c, [])
  }

  /** What the chain's answer leads to: a skip, with a decision task for the undecided, or a create. */
  function Emit(c: View, cand: Candidate, reason: Option<Reason>, v: Visit): Outcome {
    match reason
    case Some(why) =>
      Outcome(c, [Skipped(cand.repo.Key(), why)]
        + if why == AutoUpdateUndecided then [DecisionSent(cand, v.sendOk), Published(v.sendOk)] else [], false)
    case None =>
      Outcome(if v.sendOk then MarkPublished(c, cand, v.recordedAt) else c,
              [CreateSent(cand, v.sendOk), Published(v.sendOk)], false)
  }

  function FilterAndEmit(c: View, cand: Candidate, s: Setup, v: Visit): Outcome {
    Emit(c, cand, Skip(CycleFilter(s.allowed, s.force), cand.Projection(), SeenIn(c, cand.repo.Key())), v)
  }

  /** Past a clear PR gate: the claim, then the filters and the emission. */
  function Consider(c: View, cand: Candidate, s: Setup, v: Visit): Outcome {
    var (suppressed, c', marks) := CheckClaim(c, cand, v.now);
    if suppressed then Outcome(c', marks + [Skipped(cand.repo.Key(), EmissionInFlight)], false)
    else FilterAndEmit(c', cand, s, v).After(marks)
  }

  /** Everything after the observation is complete, from the PR gate on. */
  function Decide(c: View, cand: Candidate, s: Setup, v: Visit): Outcome {
    var key := cand.repo.Key();
    match v.openPR
    case RateLimited => Outcome(c, [], true)
    case Failed => Outcome(c, [Dropped(key, OpenPRCheck)], false)
    case Got(open) =>
      if open then Outcome(ClearInFlight(c, key, cand.Target()), [Skipped(key, OpenUpdatePR)], false)
      else Consider(c, cand, s, v)
  }

  function VisitRepo(c: View, repo: Repo, s: Setup, v: Visit): Outcome {
    match Gather(repo, v, s.latest)
    case Abort => Outcome(c, [], true)
    case Drop(step) => Outcome(c, [Dropped(repo.Key(), step)], false)
    case Have(cand) => Decide(c, cand, s, v)
  }

  function ProcessRepos(c: View, jobs: seq<Job>, s: Setup): Outcome
    decreases jobs
  {
    if jobs == [] || jobs[0].visit.cancelled then Outcome(c, [], false)
    else
      var r := VisitRepo(c, jobs[0].repo, s, jobs[0].visit);
      if r.abort then r else ProcessRepos(r.cursor, jobs[1..], s).After(r.events)
  }

  /** One step of the loop, seen from the job at `i`, when `done` has already happened. */
  lemma ProcessStep(c: View, jobs: seq<Job>, i: nat, s: Setup, done: seq<Event>)
    requires i <= |jobs|
    ensures ProcessRepos(c, jobs[i..], s).After(done) ==
      if i == |jobs| || jobs[i].visit.cancelled then Outcome(c, done, false)
      else
        var r := VisitRepo(c, jobs[i].repo, s, jobs[i].visit);
        if r.abort then r.After(done) else ProcessRepos(r.cursor, jobs[i + 1..], s).After(done + r.events)
  {
    if i < |jobs| && !jobs[i].visit.cancelled {
      assert jobs[i..][0] == jobs[i] && jobs[i..][1..] == jobs[i + 1..];
      var r := VisitRepo(c, jobs[i].repo, s, jobs[i].visit);
      assert done + (r.events + ProcessRepos(r.cursor, jobs[i + 1..], s).events)
          == done + r.events + ProcessRepos(r.cursor, jobs[i + 1..], s).events;
    }
  }

  // --------------------------------------------------- merge-detection pass

  /** The entry records a task that has not been completed at its HEAD. */
  predicate Open(c: View, key: string) {
    key in c && c[key].lastSeenHeadSHA != "" && c[key].lastSeenHeadSHA != c[key].completedHeadSHA
  }

  function CompleteRepo(c: View, repo: Repo, v: Closing): Outcome {
    var key := repo.Key();
    if !Open(c, key) then Outcome(c, [], false)
    else match v.merged
      case RateLimited => Outcome(c, [], true)
      case Failed => Outcome(c, [], false)
      case Got(merged) =>
        if !merged then Outcome(c, [], false)
        else
          var e := c[key];
          Outcome(if v.sendOk then c[key := e.(completedHeadSHA := e.lastSeenHeadSHA)] else c,
                  [CompleteSent(repo, e.lastSeenGoVersion, e.lastSeenHeadSHA, v.sendOk), CompletedCount(v.sendOk)],
                  false)
  }

  function CompleteMergedUpdates(c: View, jobs: seq<Job>): Outcome
    decreases jobs
  {
    if jobs == [] || jobs[0].closing.cancelled then Outcome(c, [], false)
    else
      var r := CompleteRepo(c, jobs[0].repo, jobs[0].closing);
      if r.abort then r else CompleteMergedUpdates(r.cursor, jobs[1..]).After(r.events)
  }

  lemma CompleteStep(c: View, jobs: seq<Job>, i: nat, done: seq<Event>)
    requires i <= |jobs|
    ensures CompleteMergedUpdates(c, jobs[i..]).After(done) ==
      if i == |jobs| || jobs[i].closing.cancelled then Outcome(c, done, false)
      else
        var r := CompleteRepo(c, jobs[i].repo, jobs[i].closing);
        if r.abort then r.After(done) else CompleteMergedUpdates(r.cursor, jobs[i + 1..]).After(done + r.events)
  {
    if i < |jobs| && !jobs[i].closing.cancelled {
      assert jobs[i..][0] == jobs[i] && jobs[i..][1..] == jobs[i + 1..];
      var r := CompleteRepo(c, jobs[i].repo, jobs[i].closing);
      assert done + (r.events + CompleteMergedUpdates(r.cursor, jobs[i + 1..]).events)
          == done + r.events + CompleteMergedUpdates(r.cursor, jobs[i + 1..]).events;
    }
  }

  // ------------------------------------------------------------- whole poll

  /** One Poll past LoadCursor: the two lookups, the listed repos, and whether the save succeeds. */
  datatype PollInput = PollInput(
    allowed: string -> bool,
    force: bool,
    latest: Fetch<Version>,
    jobs: Fetch<seq<Job>>,
    saveOk: bool)

  /** The jobs a poll gets as far as listing. */
  function JobsOf(p: PollInput): seq<Job> {
    if p.latest.Got? && p.jobs.Got? then p.jobs.value else []
  }

  /** The final in-memory cursor, whether a save is attempted, and the events in order. */
  datatype PollResult = PollResult(cursor: View, saves: bool, events: seq<Event>)

  function SaveEvent(ok: bool): Event {
    if ok then Saved else SaveFailed
  }

  /** Both passes over the listed repos and the save. */
  function Passes(c: View, jobs: seq<Job>, s: Setup, saveOk: bool): PollResult {
    var first := ProcessRepos(c, jobs, s);
    if first.abort then PollResult(first.cursor, false, first.events + [CycleResult(RateLimitedCycle)])
    else
      var second := CompleteMergedUpdates(first.cursor, jobs);
      PollResult(second.cursor, true, first.events + second.events
        + if second.abort then [CycleResult(RateLimitedCycle), SaveEvent(saveOk)]
          else [SaveEvent(saveOk), CycleResult(Success)])
  }

  function Poll(c: View, p: PollInput): PollResult {
    if !p.latest.Got? then PollResult(c, false, [Loaded, CycleResult(GoVersionError)])
    else if !p.jobs.Got? then
      PollResult(c, false, [Loaded, CycleResult(if p.jobs.RateLimited? then RateLimitedCycle else GithubError)])
    else
      var r := Passes(c, p.jobs.value, Setup(p.allowed, p.force, p.latest.value), p.saveOk);
      r.(events := [Loaded, Scanned(|p.jobs.value|)] + r.events)
  }

  /** The cursor on disk after the poll. */
  function DiskAfter(c: View, p: PollInput): View {
    if Poll(c, p).saves && p.saveOk then Poll(c, p).cursor else c
  }
}
