/** What one visit and one completion check do, stated without their control flow. */
module VisitFacts {
  import opened Text
  import opened Versions
  import opened GitHub
  import opened Filters
  import opened Cycle
  import GoMod

  ghost predicate Creates(events: seq<Event>) {
    exists i :: 0 <= i < |events| && events[i].CreateSent?
  }

  ghost predicate Decides(events: seq<Event>) {
    exists i :: 0 <= i < |events| && events[i].DecisionSent?
  }

  /** The observation was completed and no open update PR was seen. */
  predicate Observed(v: Visit) {
    v.head.Got? && v.goMod.Got? && v.consent.Got? && v.openPR == Got(false)
  }

  /** The go.mod that was read declares a version strictly behind the cycle's target. */
  predicate BehindTarget(v: Visit, s: Setup)
    requires v.goMod.Got?
  {
    && v.goMod.value.Some?
    && GoMod.ScanVersion(v.goMod.value.value).Some?
    && GoMod.ScanVersion(v.goMod.value.value).value.Less(s.latest)
  }

  /** The repo is allowlisted and behind. */
  predicate BehindInScope(repo: Repo, s: Setup, v: Visit)
    requires Observed(v)
  {
    s.allowed(repo.Key()) && BehindTarget(v, s)
  }

  /** The three upstream reads were answered. */
  predicate Fetched(v: Visit) {
    v.head.Got? && v.goMod.Got? && v.consent.Got?
  }

  /** The stamp is no time, or fourteen days of nanoseconds have passed since. */
  predicate Overdue(since: Stamp, now: int) {
    since.Unparsable? || now - since.seconds * 1_000_000_000 > 1_209_600_000_000_000
  }

  predicate LiveClaim(c: View, key: string, target: string, now: int) {
    key in c && c[key].inFlightTarget == target && !Overdue(c[key].inFlightSince, now)
  }

  /** The pair the SHA filter compares is already recorded for this HEAD and target. */
  predicate Recorded(c: View, key: string, head: string, target: string) {
    head != "" && key in c && c[key].lastSeenHeadSHA == head && c[key].lastSeenGoVersion == target
  }

  predicate ShouldEmit(c: View, repo: Repo, s: Setup, v: Visit) {
    && Observed(v) && BehindInScope(repo, s, v) && v.consent.value == Granted
    && !LiveClaim(c, repo.Key(), s.latest.Number(), v.now)
    && (s.force || !Recorded(c, repo.Key(), v.head.value, s.latest.Number()))
  }

  predicate ShouldAsk(c: View, repo: Repo, s: Setup, v: Visit) {
    && Observed(v) && BehindInScope(repo, s, v) && v.consent.value != Granted && v.consent.value != Refused
    && !LiveClaim(c, repo.Key(), s.latest.Number(), v.now)
  }

  /** The candidate a complete observation with a readable go.mod amounts to. */
  function CandidateOf(repo: Repo, s: Setup, v: Visit): Candidate
    requires Observed(v) && BehindInScope(repo, s, v)
  {
    Candidate(repo, v.head.value, true, true, GoMod.ScanVersion(v.goMod.value.value).value, s.latest, v.consent.value)
  }

  function ExpiryMark(c: View, repo: Repo, s: Setup): seq<Event> {
    if Claims(c, repo.Key(), s.latest.Number()) then [Expiry(repo.Key(), s.latest.Number())] else []
  }

  // ------------------------------------------------ the steps of a decision

  /** The filter chain for a candidate, as a verdict on the consent and the recorded pair. */
  predicate Eligible(cand: Candidate, s: Setup) {
    s.allowed(cand.repo.Key()) && cand.goModPresent && cand.GoBehind()
  }

  lemma FilterVerdict(c: View, cand: Candidate, s: Setup, v: Visit)
    ensures var r := FilterAndEmit(c, cand, s, v);
      var passes := Eligible(cand, s) && cand.consent == Granted
                    && (s.force || !Recorded(c, cand.repo.Key(), cand.headSHA, cand.Target()));
      var asks := Eligible(cand, s) && cand.consent != Granted && cand.consent != Refused;
      && !r.abort
      && (passes ==>
            && r.events == [CreateSent(cand, v.sendOk), Published(v.sendOk)]
            && r.cursor == if v.sendOk then MarkPublished(c, cand, v.recordedAt) else c)
      && (asks ==>
            r.events == [Skipped(cand.repo.Key(), AutoUpdateUndecided), DecisionSent(cand, v.sendOk), Published(v.sendOk)])
      && (!passes && !asks ==> exists reason :: r.events == [Skipped(cand.repo.Key(), reason)])
      && (!passes ==> r.cursor == c)
  {
    ChainVerdict(s.allowed, s.force, cand.Projection(), SeenIn(c, cand.repo.Key()));
  }

  /** Whether the claim check lets the candidate through, and what it leaves. */
  lemma ClaimVerdict(c: View, cand: Candidate, s: Setup, now: int)
    ensures var (suppressed, c', marks) := CheckClaim(c, cand, now);
      && c'.Keys == c.Keys
      && SeenIn(c', cand.repo.Key()) == SeenIn(c, cand.repo.Key())
      && (forall i :: 0 <= i < |marks| ==> marks[i].Converged? || marks[i].Expiry?)
      && (suppressed <==> cand.GoBehind() && LiveClaim(c, cand.repo.Key(), cand.Target(), now))
      && (suppressed ==> c' == c && marks == [])
      && (!suppressed ==> c' == ClearInFlight(c, cand.repo.Key(), cand.Target()))
      && (!suppressed && cand.GoBehind() ==>
            marks == if Claims(c, cand.repo.Key(), cand.Target())
                     then [Expiry(cand.repo.Key(), cand.Target())] else [])
  {}

  lemma MarksSendNothing(marks: seq<Event>, events: seq<Event>)
    requires forall i :: 0 <= i < |marks| ==> marks[i].Converged? || marks[i].Expiry?
    ensures Creates(marks + events) <==> Creates(events)
    ensures Decides(marks + events) <==> Decides(events)
  {
    var all := marks + events;
    assert forall i :: 0 <= i < |events| ==> all[|marks| + i] == events[i];
    assert forall i :: |marks| <= i < |all| ==> all[i] == events[i - |marks|];
  }

  /** The decision on a candidate whose PR check was clear and whose claim does not suppress it. */
  lemma DecideVerdict(c: View, cand: Candidate, s: Setup, v: Visit)
    ensures var r := Decide(c, cand, s, v);
      var free := v.openPR == Got(false) && Eligible(cand, s) && !LiveClaim(c, cand.repo.Key(), cand.Target(), v.now);
      var passes := free && cand.consent == Granted
                    && (s.force || !Recorded(c, cand.repo.Key(), cand.headSHA, cand.Target()));
      var asks := free && cand.consent != Granted && cand.consent != Refused;
      var c' := ClearInFlight(c, cand.repo.Key(), cand.Target());
      var marks := if Claims(c, cand.repo.Key(), cand.Target())
                   then [Expiry(cand.repo.Key(), cand.Target())] else [];
      && (Creates(r.events) <==> passes)
      && (Decides(r.events) <==> asks)
      && (passes ==> !r.abort && r.events == marks + [CreateSent(cand, v.sendOk), Published(v.sendOk)]
                     && r.cursor == if v.sendOk then MarkPublished(c', cand, v.recordedAt) else c')
      && (asks ==> !r.abort && r.cursor == c'
                   && r.events == marks + [Skipped(cand.repo.Key(), AutoUpdateUndecided),
                                           DecisionSent(cand, v.sendOk), Published(v.sendOk)])
  {
    hide CheckClaim, FilterAndEmit, MarkPublished, LiveClaim;
    if v.openPR == Got(false) {
      var (suppressed, c', marks) := CheckClaim(c, cand, v.now);
      ClaimVerdict(c, cand, s, v.now);
      if !suppressed {
        var r := FilterAndEmit(c', cand, s, v);
        FilterVerdict(c', cand, s, v);
        MarksSendNothing(marks, r.events);
        if Eligible(cand, s) && cand.consent == Granted
           && (s.force || !Recorded(c, cand.repo.Key(), cand.headSHA, cand.Target())) {
          assert r.events[0].CreateSent?;
        } else if Eligible(cand, s) && cand.consent != Granted && cand.consent != Refused {
          assert r.events[1].DecisionSent?;
        }
      }
    }
  }

  // ---------------------------------------------------------- the conditions

  /** The exact emission condition of a visit, what it sends, and what it records. */
  lemma EmissionCondition(c: View, repo: Repo, s: Setup, v: Visit)
    ensures var r := VisitRepo(c, repo, s, v);
      && (Creates(r.events) <==> ShouldEmit(c, repo, s, v))
      && (ShouldEmit(c, repo, s, v) ==>
            && r.events == ExpiryMark(c, repo, s) + [CreateSent(CandidateOf(repo, s, v), v.sendOk), Published(v.sendOk)]
            && !r.abort
            && (v.sendOk ==> r.cursor == MarkPublished(c, CandidateOf(repo, s, v), v.recordedAt))
            && (!v.sendOk ==> r.cursor == ClearInFlight(c, repo.Key(), s.latest.Number())))
  {
    match Gather(repo, v, s.latest)
    case Abort =>
    case Drop(step) =>
    case Have(cand) =>
      DecideVerdict(c, cand, s, v);
      var c' := ClearInFlight(c, repo.Key(), cand.Target());
      assert MarkPublished(c', cand, v.recordedAt) == MarkPublished(c, cand, v.recordedAt);
  }

  /** The exact condition for a decision task; it leaves the cursor alone but for an expired claim. */
  lemma DecisionCondition(c: View, repo: Repo, s: Setup, v: Visit)
    ensures var r := VisitRepo(c, repo, s, v);
      && (Decides(r.events) <==> ShouldAsk(c, repo, s, v))
      && (ShouldAsk(c, repo, s, v) ==>
            && r.events == ExpiryMark(c, repo, s)
                 + [Skipped(repo.Key(), AutoUpdateUndecided),
                    DecisionSent(CandidateOf(repo, s, v), v.sendOk), Published(v.sendOk)]
            && !r.abort
            && r.cursor == ClearInFlight(c, repo.Key(), s.latest.Number()))
  {
    match Gather(repo, v, s.latest)
    case Abort =>
    case Drop(step) =>
    case Have(cand) =>
      DecideVerdict(c, cand, s, v);
  }

  // --------------------------------------------------------------- the labels

  /** When the chain labels a candidate with `reason`. */
  predicate ChainLabels(c: View, cand: Candidate, s: Setup, reason: Reason) {
    var inScope := s.allowed(cand.repo.Key());
    match reason
    case Scope => !inScope
    case NoGoMod => inScope && !cand.goModPresent
    case GoModUnparsable => inScope && cand.goModPresent && !cand.goModParsable
    case GoCurrent => inScope && cand.goModPresent && cand.goModParsable && !cand.currentGo.Less(cand.latestGo)
    case AutoUpdateDisabled => Eligible(cand, s) && cand.consent == Refused
    case AutoUpdateUndecided => Eligible(cand, s) && cand.consent != Granted && cand.consent != Refused
    case ShaUnchanged =>
      Eligible(cand, s) && cand.consent == Granted && !s.force && Recorded(c, cand.repo.Key(), cand.headSHA, cand.Target())
    case OpenUpdatePR => false
    case EmissionInFlight => false
  }

  lemma ChainLabel(c: View, cand: Candidate, s: Setup, reason: Reason)
    ensures Skip(CycleFilter(s.allowed, s.force), cand.Projection(), SeenIn(c, cand.repo.Key())) == Some(reason)
      <==> ChainLabels(c, cand, s, reason)
  {
    ChainVerdict(s.allowed, s.force, cand.Projection(), SeenIn(c, cand.repo.Key()));
    hide Skip, CycleFilter;
  }

  lemma EmitLabels(c: View, cand: Candidate, s: Setup, v: Visit, reason: Reason)
    ensures var events := FilterAndEmit(c, cand, s, v).events;
      && (Skipped(cand.repo.Key(), reason) in events <==> ChainLabels(c, cand, s, reason))
      && forall i :: 0 <= i < |events| ==>
           && !events[i].Dropped? && !events[i].Converged? && !events[i].Expiry?
           && (events[i].Skipped? ==> events[i].key == cand.repo.Key())
  {
    ChainLabel(c, cand, s, reason);
    hide Skip, CycleFilter, ChainLabels, MarkPublished;
  }

  /** When a visit labels its repo with `reason`, by the answers and the entry. */
  predicate Labels(c: View, repo: Repo, s: Setup, v: Visit, reason: Reason) {
    if reason == OpenUpdatePR then Fetched(v) && v.openPR == Got(true)
    else
      && Observed(v)
      && var live := BehindTarget(v, s) && LiveClaim(c, repo.Key(), s.latest.Number(), v.now);
      if reason == EmissionInFlight then live
      else
        && !live
        && if reason == Scope then !s.allowed(repo.Key())
           else s.allowed(repo.Key()) && match reason
             case NoGoMod => v.goMod.value.None?
             case GoModUnparsable => v.goMod.value.Some? && GoMod.ScanVersion(v.goMod.value.value).None?
             case GoCurrent =>
               && v.goMod.value.Some? && GoMod.ScanVersion(v.goMod.value.value).Some?
               && !GoMod.ScanVersion(v.goMod.value.value).value.Less(s.latest)
             case AutoUpdateDisabled => BehindTarget(v, s) && v.consent.value == Refused
             case AutoUpdateUndecided => BehindTarget(v, s) && v.consent.value != Granted && v.consent.value != Refused
             case ShaUnchanged =>
               && BehindTarget(v, s) && v.consent.value == Granted
               && !s.force && Recorded(c, repo.Key(), v.head.value, s.latest.Number())
             case _ => false
  }

  /** The read a visit is dropped at: the first one that fails, with all before it answered. */
  predicate DropsAt(v: Visit, step: Step) {
    match step
    case HeadSHA => v.head.Failed?
    case GoModFile => v.head.Got? && v.goMod.Failed?
    case MaintainerConfig => v.head.Got? && v.goMod.Got? && v.consent.Failed?
    case OpenPRCheck => Fetched(v) && v.openPR.Failed?
  }
  /** The claim of the entry for this target, of whatever age. */
  predicate HasClaim(c: View, key: string, target: string) {
    key in c && c[key].inFlightTarget == target
  }

  lemma ConsiderLabels(c: View, cand: Candidate, s: Setup, v: Visit, e: Event)
    ensures var (key, target) := (cand.repo.Key(), cand.Target());
      var live := cand.GoBehind() && LiveClaim(c, key, target, v.now);
      var events := Consider(c, cand, s, v).events;
      && (e.Skipped? ==> (e in events <==>
            e.key == key && if live then e.reason == EmissionInFlight else ChainLabels(c, cand, s, e.reason)))
      && (e.Dropped? ==> e !in events)
      && (e.Converged? ==> (e in events <==> e == Converged(key, target) && HasClaim(c, key, target) && !cand.GoBehind()))
      && (e.Expiry? ==> (e in events <==>
            e == Expiry(key, target) && HasClaim(c, key, target) && cand.GoBehind() && Overdue(c[key].inFlightSince, v.now)))
  {
    var (suppressed, c', marks) := CheckClaim(c, cand, v.now);
    ClaimVerdict(c, cand, s, v.now);
    var reason := if e.Skipped? then e.reason else Scope;
    EmitLabels(c', cand, s, v, reason);
    SamePairSameLabels(c, c', cand, s, reason);
    var more := if suppressed then [Skipped(cand.repo.Key(), EmissionInFlight)] else FilterAndEmit(c', cand, s, v).events;
    hide FilterAndEmit, ChainLabels, ClearInFlight, LiveClaim;
    assert e in marks + more <==> e in marks || e in more;
  }

  lemma SamePairSameLabels(c: View, d: View, cand: Candidate, s: Setup, reason: Reason)
    requires SeenIn(c, cand.repo.Key()) == SeenIn(d, cand.repo.Key()) && c.Keys == d.Keys
    ensures ChainLabels(c, cand, s, reason) <==> ChainLabels(d, cand, s, reason)
  {}

  /** The label of a candidate is that of the answers it was made from. */
  lemma LabelsOfCandidate(c: View, repo: Repo, s: Setup, v: Visit, cand: Candidate, reason: Reason)
    requires Observed(v) && Gather(repo, v, s.latest) == Have(cand)
    ensures cand.GoBehind() <==> BehindTarget(v, s)
    ensures Labels(c, repo, s, v, reason) <==>
      if BehindTarget(v, s) && LiveClaim(c, repo.Key(), s.latest.Number(), v.now) then reason == EmissionInFlight
      else ChainLabels(c, cand, s, reason)
  {
    hide LiveClaim, Recorded, GoMod.ScanVersion;
  }

  /**
   Everything a visit logs or counts besides its sends, exactly: its label for every one of the nine
   reasons, the read it is dropped at, and why a claim ended. All of it concerns its own repo.
   */
  lemma LabelsOfVisit(c: View, repo: Repo, s: Setup, v: Visit, e: Event)
    ensures var (key, target) := (repo.Key(), s.latest.Number());
      var events := VisitRepo(c, repo, s, v).events;
      && (e.Skipped? ==> (e in events <==> e.key == key && Labels(c, repo, s, v, e.reason)))
      && (e.Dropped? ==> (e in events <==> e.key == key && DropsAt(v, e.step)))
      && (e.Converged? ==> (e in events <==>
            e == Converged(key, target) && Observed(v) && HasClaim(c, key, target) && !BehindTarget(v, s)))
      && (e.Expiry? ==> (e in events <==>
            && e == Expiry(key, target) && Observed(v) && HasClaim(c, key, target) && BehindTarget(v, s)
            && Overdue(c[key].inFlightSince, v.now)))
  {
    hide Consider, ChainLabels, LiveClaim, HasClaim, Overdue, ClearInFlight;
    match Gather(repo, v, s.latest)
    case Abort =>
    case Drop(step) =>
    case Have(cand) =>
      if v.openPR == Got(false) {
        ConsiderLabels(c, cand, s, v, e);
        LabelsOfCandidate(c, repo, s, v, cand, if e.Skipped? then e.reason else Scope);
        hide Labels, BehindTarget, Gather;
      }
  }

  /**
   When a visit is labelled `sha_unchanged`: an actionable, granted, unforced observation without a
   live claim whose HEAD and target are the recorded pair. How earlier cycles ended plays no part.
   */
  lemma UnchangedCondition(c: View, repo: Repo, s: Setup, v: Visit)
    ensures Skipped(repo.Key(), ShaUnchanged) in VisitRepo(c, repo, s, v).events <==>
      && Observed(v) && BehindInScope(repo, s, v) && v.consent.value == Granted
      && !LiveClaim(c, repo.Key(), s.latest.Number(), v.now)
      && !s.force && Recorded(c, repo.Key(), v.head.value, s.latest.Number())
  {
    LabelsOfVisit(c, repo, s, v, Skipped(repo.Key(), ShaUnchanged));
  }

  // ----------------------------------------------------------------- the entry

  /**
   The entry a visit leaves, field by field, and the rest of the cursor untouched: a task filed is
   recorded with its HEAD, target and time and keeps the completion marker there was; a claim that ends
   takes its two fields with it and nothing else; otherwise the entry is what it was.
   */
  lemma EntryOfVisit(c: View, repo: Repo, s: Setup, v: Visit)
    ensures var (key, target) := (repo.Key(), s.latest.Number());
      Get(VisitRepo(c, repo, s, v).cursor, key) ==
        if ShouldEmit(c, repo, s, v) && v.sendOk then
          Some(Entry(v.head.value, target, if key in c then c[key].completedHeadSHA else "",
                     target, At(v.recordedAt / 1_000_000_000)))
        else if ClaimEnds(c, repo, s, v) then
          Some(Entry(c[key].lastSeenHeadSHA, c[key].lastSeenGoVersion, c[key].completedHeadSHA, "", Unparsable("")))
        else if key in c then Some(c[key]) else None
    ensures forall k :: k != repo.Key() ==> Get(VisitRepo(c, repo, s, v).cursor, k) == Get(c, k)
  {
    EmissionCondition(c, repo, s, v);
    if !(ShouldEmit(c, repo, s, v) && v.sendOk) {
      ClaimLifetime(c, repo, s, v);
    }
    hide VisitRepo, BehindInScope, BehindTarget, Overdue;
  }

  /** A claim whose recorded time does not parse suppresses nothing: a forced visit, or one with a new pair, files the task. */
  lemma UnreadableStampDoesNotSuppress(c: View, repo: Repo, s: Setup, v: Visit)
    requires repo.Key() in c && c[repo.Key()].inFlightSince.Unparsable?
    requires Observed(v) && BehindInScope(repo, s, v) && v.consent.value == Granted
    requires s.force || !Recorded(c, repo.Key(), v.head.value, s.latest.Number())
    ensures Creates(VisitRepo(c, repo, s, v).events)
  {
    EmissionCondition(c, repo, s, v);
  }

  /** One observation never files both an update task and a decision task. */
  lemma NeverBoth(c: View, repo: Repo, s: Setup, v: Visit)
    ensures !(Creates(VisitRepo(c, repo, s, v).events) && Decides(VisitRepo(c, repo, s, v).events))
  {
    EmissionCondition(c, repo, s, v);
    DecisionCondition(c, repo, s, v);
  }

  /** A completed observation ends the claim for the target: an open update PR, a go.mod not behind, or its age. */
  predicate ClaimEnds(c: View, repo: Repo, s: Setup, v: Visit) {
    && Fetched(v) && v.openPR.Got?
    && repo.Key() in c && c[repo.Key()].inFlightTarget == s.latest.Number()
    && (v.openPR.value || !BehindTarget(v, s) || Overdue(c[repo.Key()].inFlightSince, v.now))
  }

  /**
   The claim of an entry after a visit that files nothing. A claim for another target is never
   touched; one for this target goes exactly when a completed observation shows an open update
   PR, or a go.mod that is not behind, or the claim has run out.
   */
  lemma ClaimLifetime(c: View, repo: Repo, s: Setup, v: Visit)
    requires !(ShouldEmit(c, repo, s, v) && v.sendOk)
    ensures VisitRepo(c, repo, s, v).cursor ==
      if ClaimEnds(c, repo, s, v) then ClearInFlight(c, repo.Key(), s.latest.Number()) else c
  {
    EmissionCondition(c, repo, s, v);
    match Gather(repo, v, s.latest)
    case Abort =>
    case Drop(step) =>
    case Have(cand) =>
      if v.openPR == Got(false) {
        var (suppressed, after, marks) := CheckClaim(c, cand, v.now);
        ClaimVerdict(c, cand, s, v.now);
        FilterVerdict(after, cand, s, v);
        DecideVerdict(c, cand, s, v);
        hide FilterAndEmit, CheckClaim, CandidateOf;
      }
  }

  /** Running out is not enough for a re-emission: an unforced visit is still stopped by the recorded pair. */
  lemma ExpiredClaimStillFiltered(c: View, repo: Repo, s: Setup, v: Visit)
    requires Observed(v) && !s.force && Recorded(c, repo.Key(), v.head.value, s.latest.Number())
    ensures !Creates(VisitRepo(c, repo, s, v).events)
    ensures Claims(c, repo.Key(), s.latest.Number()) && Expired(c[repo.Key()], v.now)
      ==> !Claims(VisitRepo(c, repo, s, v).cursor, repo.Key(), s.latest.Number())
  {
    EmissionCondition(c, repo, s, v);
    ClaimLifetime(c, repo, s, v);
    NumberHasDigits(s.latest);
  }

  /**
   How long a recorded claim lives: to within the second that formatting drops, exactly fourteen
   days from the recording, and not a nanosecond longer.
   */
  lemma ClaimWindow(c: View, cand: Candidate, recordedAt: int, now: int)
    ensures var (d, key, target) := (MarkPublished(c, cand, recordedAt), cand.repo.Key(), cand.Target());
      && (now - recordedAt > 1_209_600_000_000_000 ==> !LiveClaim(d, key, target, now))
      && (now - recordedAt <= 1_209_599_000_000_000 ==> LiveClaim(d, key, target, now))
      && (recordedAt % 1_000_000_000 == 0 ==> (LiveClaim(d, key, target, now) <==> now - recordedAt <= 1_209_600_000_000_000))
  {
    assert recordedAt == recordedAt / SECOND * SECOND + recordedAt % SECOND;
  }

  lemma NumberHasDigits(v: Version)
    ensures v.Number() != ""
  {}

  /** No event of the list is a completion. */
  ghost predicate NoCompletion(events: seq<Event>) {
    forall i :: 0 <= i < |events| ==> !events[i].CompleteSent?
  }

  lemma NoCompletionConcat(a: seq<Event>, b: seq<Event>)
    requires NoCompletion(a) && NoCompletion(b)
    ensures NoCompletion(a + b)
  {}

  lemma EmissionIsNoCompletion(c: View, cand: Candidate, s: Setup, v: Visit)
    ensures NoCompletion(FilterAndEmit(c, cand, s, v).events)
  {
    FilterVerdict(c, cand, s, v);
    hide FilterAndEmit;
  }

  lemma VisitSendsNoCompletion(c: View, repo: Repo, s: Setup, v: Visit)
    ensures NoCompletion(VisitRepo(c, repo, s, v).events)
  {
    match Gather(repo, v, s.latest)
    case Abort =>
    case Drop(step) =>
    case Have(cand) =>
      if v.openPR == Got(false) {
        var (suppressed, c', marks) := CheckClaim(c, cand, v.now);
        ClaimVerdict(c, cand, s, v.now);
        assert NoCompletion(marks);
        hide FilterAndEmit, CheckClaim, Gather;
        EmissionIsNoCompletion(c', cand, s, v);
        NoCompletionConcat(marks, FilterAndEmit(c', cand, s, v).events);
        NoCompletionConcat(marks, [Skipped(cand.repo.Key(), EmissionInFlight)]);
      }
  }

  // ------------------------------------------------------------- completion

  /**
   A completion is sent exactly for an entry with a HEAD that is not the completed one and whose
   update PR was seen merged; it names the recorded task, and its success moves the marker alone.
   */
  lemma CompletionCondition(c: View, repo: Repo, v: Closing)
    ensures var (r, key) := (CompleteRepo(c, repo, v), repo.Key());
      var open := key in c && c[key].lastSeenHeadSHA != "" && c[key].lastSeenHeadSHA != c[key].completedHeadSHA;
      && (open <==> Open(c, key))
      && (r.events != [] <==> open && v.merged == Got(true))
      && (r.events != [] ==>
            var e := c[key];
            && r.events == [CompleteSent(repo, e.lastSeenGoVersion, e.lastSeenHeadSHA, v.sendOk), CompletedCount(v.sendOk)]
            && (v.sendOk ==>
                  && !Open(r.cursor, key) && r.cursor - {key} == c - {key} && key in r.cursor
                  && r.cursor[key] == Entry(e.lastSeenHeadSHA, e.lastSeenGoVersion, e.lastSeenHeadSHA,
                                            e.inFlightTarget, e.inFlightSince)))
      && (r.events == [] || !v.sendOk ==> r.cursor == c)
  {}

  /**
   The completion marker knows HEADs only. A task filed for a newer Go version at an already
   completed HEAD is recorded, yet the next completion check is silent whatever it is answered.
   */
  lemma SecondVersionAtSameHead(c: View, cand: Candidate, recordedAt: int, v: Closing)
    requires var key := cand.repo.Key();
      key in c && c[key].lastSeenHeadSHA == c[key].completedHeadSHA == cand.headSHA
      && c[key].lastSeenGoVersion != cand.Target()
    ensures var d := MarkPublished(c, cand, recordedAt);
      && d[cand.repo.Key()].lastSeenGoVersion == cand.Target()
      && CompleteRepo(d, cand.repo, v) == Outcome(d, [], false)
  {}

  /** A task filed and completed at another HEAD in between lets the first HEAD be completed again. */
  lemma AnotherHeadReopens(c: View, away: Candidate, back: Candidate, t: int, u: int, v: Closing, w: Closing)
    requires away.repo == back.repo && away.headSHA != back.headSHA && back.headSHA != ""
    requires v == Closing(false, Got(true), true) && w.merged == Got(true)
    requires Open(MarkPublished(c, away, t), away.repo.Key())
    ensures var d := CompleteRepo(MarkPublished(c, away, t), away.repo, v).cursor;
      CompleteRepo(MarkPublished(d, back, u), back.repo, w).events
      == [CompleteSent(back.repo, back.Target(), back.headSHA, w.sendOk), CompletedCount(w.sendOk)]
  {
    CompletionCondition(MarkPublished(c, away, t), away.repo, v);
    var d := CompleteRepo(MarkPublished(c, away, t), away.repo, v).cursor;
    CompletionCondition(MarkPublished(d, back, u), back.repo, w);
  }
}
