/** Properties of a whole pass: locality, its abort, order independence. */
module PassFacts {
  import opened Text
  import opened GitHub
  import opened Filters
  import opened Cycle
  import opened VisitFacts

  // ------------------------------------------------------------- locality

  /** A visit reads and writes the entry of its own repo only. */
  lemma VisitIsLocal(c: View, d: View, repo: Repo, s: Setup, v: Visit)
    requires Get(c, repo.Key()) == Get(d, repo.Key())
    ensures var (r, q) := (VisitRepo(c, repo, s, v), VisitRepo(d, repo, s, v));
      r.events == q.events && r.abort == q.abort && Get(r.cursor, repo.Key()) == Get(q.cursor, repo.Key())
    ensures forall k :: k != repo.Key() ==> Get(VisitRepo(c, repo, s, v).cursor, k) == Get(c, k)
  {
    match Gather(repo, v, s.latest)
    case Abort =>
    case Drop(step) =>
    case Have(cand) =>
      assert cand.repo.Key() == repo.Key();
      DecideIsLocal(c, d, cand, s, v);
  }

  lemma DecideIsLocal(c: View, d: View, cand: Candidate, s: Setup, v: Visit)
    requires Get(c, cand.repo.Key()) == Get(d, cand.repo.Key())
    ensures var (r, q) := (Decide(c, cand, s, v), Decide(d, cand, s, v));
      r.events == q.events && r.abort == q.abort && Get(r.cursor, cand.repo.Key()) == Get(q.cursor, cand.repo.Key())
    ensures forall k :: k != cand.repo.Key() ==> Get(Decide(c, cand, s, v).cursor, k) == Get(c, k)
  {
    var key := cand.repo.Key();
    if v.openPR == Got(false) {
      var (suppressed, c', marks) := CheckClaim(c, cand, v.now);
      var (suppressed', d', marks') := CheckClaim(d, cand, v.now);
      assert suppressed == suppressed' && marks == marks';
      assert Get(c', key) == Get(d', key) && forall k :: k != key ==> Get(c', k) == Get(c, k);
      hide CheckClaim, FilterAndEmit;
      EmissionIsLocal(c', d', cand, s, v);
    }
  }

  lemma EmissionIsLocal(c: View, d: View, cand: Candidate, s: Setup, v: Visit)
    requires Get(c, cand.repo.Key()) == Get(d, cand.repo.Key())
    ensures var (r, q) := (FilterAndEmit(c, cand, s, v), FilterAndEmit(d, cand, s, v));
      r.events == q.events && r.abort == q.abort && Get(r.cursor, cand.repo.Key()) == Get(q.cursor, cand.repo.Key())
    ensures forall k :: k != cand.repo.Key() ==> Get(FilterAndEmit(c, cand, s, v).cursor, k) == Get(c, k)
  {
    hide Skip, CycleFilter;
    assert SeenIn(c, cand.repo.Key()) == SeenIn(d, cand.repo.Key());
  }

  /** Whether a visit aborts the cycle depends on the answers alone. */
  predicate Aborts(v: Visit) {
    v.head.RateLimited? || (v.head.Got? &&
      (v.goMod.RateLimited? || (v.goMod.Got? &&
        (v.consent.RateLimited? || (v.consent.Got? && v.openPR.RateLimited?)))))
  }

  lemma AbortCondition(c: View, repo: Repo, s: Setup, v: Visit)
    ensures VisitRepo(c, repo, s, v).abort <==> Aborts(v)
    ensures Aborts(v) ==> VisitRepo(c, repo, s, v) == Outcome(c, [], true)
  {
    match Gather(repo, v, s.latest)
    case Abort =>
    case Drop(step) =>
    case Have(cand) =>
      if v.openPR == Got(false) {
        var (suppressed, c', marks) := CheckClaim(c, cand, v.now);
        FilterVerdict(c', cand, s, v);
      }
  }

  // ----------------------------------------------------- the pointwise map

  predicate DistinctKeys(jobs: seq<Job>) {
    forall i, j :: 0 <= i < j < |jobs| ==> jobs[i].repo.Key() != jobs[j].repo.Key()
  }

  predicate Uninterrupted(jobs: seq<Job>) {
    forall i :: 0 <= i < |jobs| ==> !jobs[i].visit.cancelled && !Aborts(jobs[i].visit)
  }

  predicate Listed(jobs: seq<Job>, key: string) {
    exists i :: 0 <= i < |jobs| && jobs[i].repo.Key() == key
  }

  /** What one job does to its own entry of the cursor the cycle started from. */
  function EntryAfter(c: View, job: Job, s: Setup): Option<Entry> {
    Get(VisitRepo(c, job.repo, s, job.visit).cursor, job.repo.Key())
  }

  function FlatMap<A, B>(f: A -> seq<B>, xs: seq<A>): seq<B> {
    if xs == [] then [] else f(xs[0]) + FlatMap(f, xs[1..])
  }

  function EventsFrom(c: View, s: Setup): Job -> seq<Event> {
    (job: Job) => VisitRepo(c, job.repo, s, job.visit).events
  }

  /** The events of the jobs, each taken against the cursor the cycle started from. */
  function SeparateEvents(c: View, jobs: seq<Job>, s: Setup): seq<Event> {
    FlatMap(EventsFrom(c, s), jobs)
  }

  /** `r` is the pointwise image of `c` under the jobs. */
  ghost predicate Pointwise(c: View, jobs: seq<Job>, s: Setup, r: View) {
    && (forall i :: 0 <= i < |jobs| ==> Get(r, jobs[i].repo.Key()) == EntryAfter(c, jobs[i], s))
    && (forall k :: !Listed(jobs, k) ==> Get(r, k) == Get(c, k))
  }

  /** The loop over distinct repos is a map over entries: no repo sees what another one did. */
  lemma {:induction false} ProcessIsPointwise(c: View, jobs: seq<Job>, s: Setup)
    requires DistinctKeys(jobs) && Uninterrupted(jobs)
    ensures var r := ProcessRepos(c, jobs, s);
      !r.abort && Pointwise(c, jobs, s, r.cursor) && r.events == SeparateEvents(c, jobs, s)
    decreases jobs
  {
    if jobs != [] {
      var job, rest := jobs[0], jobs[1..];
      var first := VisitRepo(c, job.repo, s, job.visit);
      AbortCondition(c, job.repo, s, job.visit);
      VisitIsLocal(c, c, job.repo, s, job.visit);
      assert forall i :: 0 <= i < |rest| ==> rest[i] == jobs[i + 1];
      ProcessIsPointwise(first.cursor, rest, s);
      var r := ProcessRepos(c, jobs, s);
      assert r.cursor == ProcessRepos(first.cursor, rest, s).cursor;
      forall i | 0 <= i < |jobs|
        ensures Get(r.cursor, jobs[i].repo.Key()) == EntryAfter(c, jobs[i], s)
      {
        if i == 0 {
          assert !Listed(rest, job.repo.Key());
        } else {
          VisitIsLocal(first.cursor, c, jobs[i].repo, s, jobs[i].visit);
          assert rest[i - 1] == jobs[i];
        }
      }
      forall k | !Listed(jobs, k)
        ensures Get(r.cursor, k) == Get(c, k)
      {
        assert jobs[0].repo.Key() != k;
        assert !Listed(rest, k);
      }
      SeparateEventsAgree(c, first.cursor, rest, s);
    }
  }

  lemma {:induction false} SeparateEventsAgree(c: View, d: View, jobs: seq<Job>, s: Setup)
    requires forall i :: 0 <= i < |jobs| ==> Get(c, jobs[i].repo.Key()) == Get(d, jobs[i].repo.Key())
    ensures SeparateEvents(c, jobs, s) == SeparateEvents(d, jobs, s)
  {
    if jobs != [] {
      VisitIsLocal(c, d, jobs[0].repo, s, jobs[0].visit);
      SeparateEventsAgree(c, d, jobs[1..], s);
    }
  }

  lemma {:induction false} FlatMapConcat<A, B>(f: A -> seq<B>, xs: seq<A>, ys: seq<A>)
    ensures FlatMap(f, xs + ys) == FlatMap(f, xs) + FlatMap(f, ys)
  {
    if xs == [] {
      assert xs + ys == ys;
    } else {
      FlatMapConcat(f, xs[1..], ys);
      assert (xs + ys)[1..] == xs[1..] + ys;
      var x, y, z := f(xs[0]), FlatMap(f, xs[1..]), FlatMap(f, ys);
      assert FlatMap(f, xs + ys) == x + (y + z) && FlatMap(f, xs) == x + y;
      hide FlatMap;
    }
  }

  lemma FindFirst<T>(a: seq<T>, b: seq<T>) returns (i: nat)
    requires a != [] && multiset(a) == multiset(b)
    ensures i < |b| && b[i] == a[0] && multiset(a[1..]) == multiset(b[..i] + b[i + 1..])
  {
    assert a[0] in multiset(b);
    i :| 0 <= i < |b| && b[i] == a[0];
    assert a == [a[0]] + a[1..];
    assert b == b[..i] + [b[i]] + b[i + 1..];
    var rest := multiset(b[..i]) + multiset(b[i + 1..]);
    assert multiset(b) == rest + multiset{a[0]};
    assert multiset(a[1..]) == multiset(a) - multiset{a[0]} == rest;
    assert multiset(b[..i] + b[i + 1..]) == rest;
  }

  lemma {:induction false} FlatMapPermute<A, B>(f: A -> seq<B>, a: seq<A>, b: seq<A>)
    requires multiset(a) == multiset(b)
    ensures multiset(FlatMap(f, a)) == multiset(FlatMap(f, b))
  {
    if a == [] {
      assert |b| == |multiset(b)| == 0;
    } else {
      var i := FindFirst(a, b);
      FlatMapPermute(f, a[1..], b[..i] + b[i + 1..]);
      assert b == b[..i] + b[i..] && b[i..][1..] == b[i + 1..];
      FlatMapConcat(f, b[..i], b[i..]);
      FlatMapConcat(f, b[..i], b[i + 1..]);
    }
  }

  /** The order of the repo list does not matter: same cursor, same events up to order. */
  lemma OrderDoesNotMatter(c: View, a: seq<Job>, b: seq<Job>, s: Setup)
    requires DistinctKeys(a) && DistinctKeys(b) && Uninterrupted(a) && multiset(a) == multiset(b)
    ensures ProcessRepos(c, a, s).cursor == ProcessRepos(c, b, s).cursor
    ensures multiset(ProcessRepos(c, a, s).events) == multiset(ProcessRepos(c, b, s).events)
  {
    forall i | 0 <= i < |b|
      ensures exists j :: 0 <= j < |a| && a[j] == b[i]
    {
      assert b[i] in multiset(a);
    }
    assert Uninterrupted(b);
    ProcessIsPointwise(c, a, s);
    ProcessIsPointwise(c, b, s);
    FlatMapPermute(EventsFrom(c, s), a, b);
    var x, y := ProcessRepos(c, a, s).cursor, ProcessRepos(c, b, s).cursor;
    forall k
      ensures Get(x, k) == Get(y, k)
    {
      if Listed(a, k) {
        var i :| 0 <= i < |a| && a[i].repo.Key() == k;
        assert a[i] in multiset(b);
        var j :| 0 <= j < |b| && b[j] == a[i];
      }
    }
    SameByGet(x, y);
  }

  lemma SameByGet(x: View, y: View)
    requires forall k :: Get(x, k) == Get(y, k)
    ensures x == y
  {
    assert forall k :: k in x ==> Get(y, k) == Some(x[k]);
    assert forall k :: k in y ==> Get(x, k) == Some(y[k]);
  }
}
