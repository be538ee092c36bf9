/** The newest stable release reported by go.dev (pkg/godevclient.go), after the response is decoded. */
module GoDev {
  import opened Text
  import opened Versions

  datatype Release = Release(version: string, stable: bool)

  /** Releases that take part in the selection. */
  predicate Counts(r: Release) {
    r.stable && ParseGoRelease(r.version).Some?
  }

  function Parsed(r: Release): Version
    requires Counts(r)
  {
    ParseGoRelease(r.version).value
  }

  /** Release `i` counts, is greater than every earlier and at least every later one, and reads `v`. */
  ghost predicate FirstGreatestAt(releases: seq<Release>, v: Version, i: int) {
    && 0 <= i < |releases|
    && Counts(releases[i]) && v == Parsed(releases[i])
    && (forall j :: 0 <= j < i && Counts(releases[j]) ==> Parsed(releases[j]).Less(v))
    && (forall j :: i <= j < |releases| && Counts(releases[j]) ==> !v.Less(Parsed(releases[j])))
  }

  ghost predicate FirstGreatest(releases: seq<Release>, v: Version) {
    exists i :: FirstGreatestAt(releases, v, i)
  }

  /** Release `i` is stable and its name spells `v`. */
  ghost predicate StableAt(releases: seq<Release>, i: int, v: Version) {
    0 <= i < |releases| && releases[i].stable && Spells("go", releases[i].version, v)
  }

  /** The version of release `i` is above that of every earlier stable one and not below that of any later one. */
  ghost predicate NewestStableAt(releases: seq<Release>, v: Version, i: int) {
    && StableAt(releases, i, v)
    && (forall j, u :: j < i && StableAt(releases, j, u) ==> LexLess(u.Triple(), v.Triple()))
    && (forall j, u :: i <= j && StableAt(releases, j, u) ==> !LexLess(v.Triple(), u.Triple()))
  }

  /** What counts in the selection, by the name pattern and the order of triples. */
  lemma StableMeans(releases: seq<Release>, i: int, v: Version)
    ensures StableAt(releases, i, v) <==> 0 <= i < |releases| && Counts(releases[i]) && Parsed(releases[i]) == v
  {
    if 0 <= i < |releases| {
      ParseMeansPattern(releases[i].version, v);
      hide ParseGoRelease, Spells;
    }
  }

  lemma GreatestIsNewest(releases: seq<Release>, v: Version, i: int)
    ensures FirstGreatestAt(releases, v, i) <==> NewestStableAt(releases, v, i)
  {
    hide StableAt, Parsed, Counts, Version.Less, LexLess;
    StableMeans(releases, i, v);
    forall j, u
      ensures StableAt(releases, j, u) <==> 0 <= j < |releases| && Counts(releases[j]) && Parsed(releases[j]) == u
    {
      StableMeans(releases, j, u);
    }
    if 0 <= i < |releases| && Counts(releases[i]) && Parsed(releases[i]) == v {
      forall j | 0 <= j < |releases| && Counts(releases[j])
        ensures Parsed(releases[j]).Less(v) <==> LexLess(Parsed(releases[j]).Triple(), v.Triple())
        ensures v.Less(Parsed(releases[j])) <==> LexLess(v.Triple(), Parsed(releases[j]).Triple())
      {
        OrderMeans(releases[j], releases[i]);
      }
      assert forall j :: 0 <= j < |releases| && Counts(releases[j]) ==> StableAt(releases, j, Parsed(releases[j]));
    }
  }

  lemma OrderMeans(r: Release, q: Release)
    requires Counts(r) && Counts(q)
    ensures Parsed(r).Less(Parsed(q)) <==> LexLess(Parsed(r).Triple(), Parsed(q).Triple())
    ensures Parsed(q).Less(Parsed(r)) <==> LexLess(Parsed(q).Triple(), Parsed(r).Triple())
  {
    CompareIsLexicographic(Parsed(r), Parsed(q));
    CompareIsLexicographic(Parsed(q), Parsed(r));
  }

  const NO_VERSION := Version(0, 0, 0, "")

  /** `max` is right for the releases seen so far; an empty raw text says that none counted. */
  ghost predicate Selected(seen: seq<Release>, max: Version) {
    if max.raw == "" then forall r :: r in seen ==> !Counts(r)
    else max.InRange() && FirstGreatest(seen, max)
  }

  lemma SelectionMeans(releases: seq<Release>, max: Version)
    requires Selected(releases, max)
    ensures max.raw == "" <==> forall i, v :: !StableAt(releases, i, v)
    ensures max.raw != "" ==> exists i :: NewestStableAt(releases, max, i)
  {
    hide StableAt;
    if max.raw != "" {
      var i :| FirstGreatestAt(releases, max, i);
      GreatestIsNewest(releases, max, i);
      hide FirstGreatestAt;
      assert StableAt(releases, i, max);
    } else {
      forall i, v
        ensures !StableAt(releases, i, v)
      {
        StableMeans(releases, i, v);
      }
    }
  }

  method LatestStable(releases: seq<Release>) returns (latest: Option<Version>)
    ensures latest.Some? ==> latest.value.InRange() && FirstGreatest(releases, latest.value)
    ensures latest.None? <==> forall r :: r in releases ==> !Counts(r)
    ensures latest.Some? ==> exists i :: NewestStableAt(releases, latest.value, i)
    ensures latest.None? <==> forall i, v :: !StableAt(releases, i, v)
  {
    var max := NO_VERSION;
    for k := 0 to |releases|
      invariant Selected(releases[..k], max)
    {
      var r := releases[k];
      assert releases[..k + 1] == releases[..k] + [r];
      if r.stable {
        var v := ParseGoRelease(r.version);
        if v.Some? && (max.raw == "" || max.Less(v.value)) {
          TakesOver(releases[..k], r, max);
          max := v.value;
        } else {
          Stays(releases[..k], r, max);
        }
      } else {
        Stays(releases[..k], r, max);
      }
    }
    assert releases[..|releases|] == releases;
    SelectionMeans(releases, max);
    if max.raw == "" {
      return None;
    }
    assert exists r :: r in releases && Counts(r);
    return Some(max);
  }

  lemma Stays(seen: seq<Release>, r: Release, max: Version)
    requires Selected(seen, max)
    requires Counts(r) ==> max.raw != "" && !max.Less(Parsed(r))
    ensures Selected(seen + [r], max)
  {
    if max.raw != "" {
      var i :| FirstGreatestAt(seen, max, i);
      assert FirstGreatestAt(seen + [r], max, i);
    }
  }

  lemma LessOrEqualThenLess(u: Version, max: Version, v: Version)
    requires u.InRange() && max.InRange() && v.InRange()
    requires !max.Less(u) && max.Less(v)
    ensures u.Less(v)
  {
    CompareIsLexicographic(max, u);
    CompareIsLexicographic(max, v);
    CompareIsLexicographic(u, v);
  }

  /** A counting release that is the first, or greater than the greatest so far, is the greatest so far. */
  lemma TakesOver(seen: seq<Release>, r: Release, max: Version)
    requires Counts(r) && Selected(seen, max)
    requires max.raw != "" ==> max.Less(Parsed(r))
    ensures Selected(seen + [r], Parsed(r))
  {
    var v := Parsed(r);
    LessIsStrictWeakOrder(v, v, v);
    if max.raw != "" {
      var i :| FirstGreatestAt(seen, max, i);
      forall j | 0 <= j < |seen| && Counts(seen[j])
        ensures Parsed(seen[j]).Less(v)
      {
        if j < i {
          LessIsStrictWeakOrder(Parsed(seen[j]), max, v);
        } else {
          LessOrEqualThenLess(Parsed(seen[j]), max, v);
        }
      }
    }
    assert FirstGreatestAt(seen + [r], v, |seen|);
  }

  /** The specification leaves one result: two first-greatest versions of a list are equal. */
  lemma FirstGreatestIsUnique(releases: seq<Release>, v: Version, w: Version)
    requires FirstGreatest(releases, v) && FirstGreatest(releases, w)
    ensures v == w
  {
    var i :| FirstGreatestAt(releases, v, i);
    var k :| FirstGreatestAt(releases, w, k);
    assert i == k;
  }
}
