/**
 The task-creation filter chain (pkg/filter) in its frozen wiring order (pkg/factory/factory.go),
 and the operator's allowlist text.
 */
module Filters {
  import opened Text

  /** `Unknown` is any text other than the three verdicts, the empty zero value included. */
  datatype Consent = Granted | Refused | Undecided | Unknown(text: string)

  /** The closed set of skip labels. */
  datatype Reason =
    | Scope
    | NoGoMod
    | GoModUnparsable
    | GoCurrent
    | AutoUpdateDisabled
    | AutoUpdateUndecided
    | ShaUnchanged
    | OpenUpdatePR
    | EmissionInFlight

  datatype FilterCandidate = FilterCandidate(
    repoKey: string,
    headSHA: string,
    latestGoVersion: string,
    goModPresent: bool,
    goModParsable: bool,
    goBehind: bool,
    consent: Consent)

  /** What a cursor reader answers for the candidate's repo at the moment of the question. */
  datatype Seen = Seen(sha: string, goVersion: string)

  /** `allowed` stands for the external allowlist matcher applied to the configured list. */
  datatype Filter =
    | RepoAllowlist(allowed: string -> bool)
    | GoModPresent
    | GoModParsable
    | GoBehind
    | AutoUpdate
    | SHAUnchanged
    | FilterList(members: seq<Filter>)

  function AutoUpdateVerdict(consent: Consent): Option<Reason> {
    match consent
    case Granted => None
    case Refused => Some(AutoUpdateDisabled)
    case _ => Some(AutoUpdateUndecided)
  }

  function Skip(f: Filter, c: FilterCandidate, seen: Seen): Option<Reason>
    decreases f, 0
  {
    match f
    case RepoAllowlist(allowed) => if allowed(c.repoKey) then None else Some(Scope)
    case GoModPresent => if c.goModPresent then None else Some(NoGoMod)
    case GoModParsable => if c.goModPresent && !c.goModParsable then Some(GoModUnparsable) else None
    case GoBehind => if c.goBehind then None else Some(GoCurrent)
    case AutoUpdate => AutoUpdateVerdict(c.consent)
    case SHAUnchanged =>
      if c.headSHA != "" && c.headSHA == seen.sha && c.latestGoVersion == seen.goVersion
      then Some(ShaUnchanged) else None
    case FilterList(members) => SkipFirst(members, c, seen)
  }

  function SkipFirst(fs: seq<Filter>, c: FilterCandidate, seen: Seen): Option<Reason>
    decreases fs, 1
  {
    if fs == [] then None
    else match Skip(fs[0], c, seen)
      case Some(reason) => Some(reason)
      case None => SkipFirst(fs[1..], c, seen)
  }

  /** Member `i` objects with `reason` and no earlier member objects. */
  ghost predicate FirstObjection(fs: seq<Filter>, c: FilterCandidate, seen: Seen, i: int, reason: Reason) {
    && 0 <= i < |fs|
    && Skip(fs[i], c, seen) == Some(reason)
    && forall j :: 0 <= j < i ==> Skip(fs[j], c, seen).None?
  }

  /** The composite answers with the first objection, and passes iff there is none. */
  lemma {:induction false} FirstHit(fs: seq<Filter>, c: FilterCandidate, seen: Seen, reason: Reason)
    ensures SkipFirst(fs, c, seen) == Some(reason) <==> exists i :: FirstObjection(fs, c, seen, i, reason)
    ensures SkipFirst(fs, c, seen).None? <==> forall i :: 0 <= i < |fs| ==> Skip(fs[i], c, seen).None?
  {
    if fs != [] {
      if Skip(fs[0], c, seen).Some? {
        if SkipFirst(fs, c, seen) == Some(reason) {
          assert FirstObjection(fs, c, seen, 0, reason);
        }
      } else {
        var rest := fs[1..];
        FirstHit(rest, c, seen, reason);
        assert forall i :: 0 <= i < |rest| ==> rest[i] == fs[i + 1];
        if SkipFirst(fs, c, seen) == Some(reason) {
          var i :| FirstObjection(rest, c, seen, i, reason);
          assert FirstObjection(fs, c, seen, i + 1, reason);
        }
        forall i | FirstObjection(fs, c, seen, i, reason)
          ensures FirstObjection(rest, c, seen, i - 1, reason)
        {}
        if SkipFirst(fs, c, seen).None? {
          forall i | 0 <= i < |fs|
            ensures Skip(fs[i], c, seen).None?
          {
            assert i > 0 ==> fs[i] == rest[i - 1];
          }
        }
      }
    }
  }

  lemma SkipCons(f: Filter, rest: seq<Filter>, c: FilterCandidate, seen: Seen)
    ensures SkipFirst([f] + rest, c, seen) == if Skip(f, c, seen).Some? then Skip(f, c, seen) else SkipFirst(rest, c, seen)
  {
    assert ([f] + rest)[1..] == rest;
  }

  function StaticFilters(allowed: string -> bool): Filter {
    FilterList([RepoAllowlist(allowed), GoModPresent, GoModParsable, GoBehind, AutoUpdate])
  }

  /** The chain of one cycle: a forced cycle leaves the SHA filter out and nothing else. */
  function CycleFilter(allowed: string -> bool, force: bool): Filter {
    FilterList([StaticFilters(allowed)] + if force then [] else [SHAUnchanged])
  }

  /** An observation the four filters before the consent gate let through. */
  predicate Actionable(allowed: string -> bool, c: FilterCandidate) {
    allowed(c.repoKey) && c.goModPresent && c.goModParsable && c.goBehind
  }

  /** The five static filters, by the first that objects. */
  function StaticVerdict(allowed: string -> bool, c: FilterCandidate): Option<Reason> {
    if !allowed(c.repoKey) then Some(Scope)
    else if !c.goModPresent then Some(NoGoMod)
    else if !c.goModParsable then Some(GoModUnparsable)
    else if !c.goBehind then Some(GoCurrent)
    else AutoUpdateVerdict(c.consent)
  }

  lemma StaticChain(allowed: string -> bool, c: FilterCandidate, seen: Seen)
    ensures Skip(StaticFilters(allowed), c, seen) == StaticVerdict(allowed, c)
  {
    SkipCons(AutoUpdate, [], c, seen);
    SkipCons(GoBehind, [AutoUpdate], c, seen);
    SkipCons(GoModParsable, [GoBehind, AutoUpdate], c, seen);
    SkipCons(GoModPresent, [GoModParsable, GoBehind, AutoUpdate], c, seen);
    SkipCons(RepoAllowlist(allowed), [GoModPresent, GoModParsable, GoBehind, AutoUpdate], c, seen);
    assert [AutoUpdate] + [] == [AutoUpdate];
    assert [GoBehind] + [AutoUpdate] == [GoBehind, AutoUpdate];
    assert [GoModParsable] + [GoBehind, AutoUpdate] == [GoModParsable, GoBehind, AutoUpdate];
    assert [GoModPresent] + [GoModParsable, GoBehind, AutoUpdate]
        == [GoModPresent, GoModParsable, GoBehind, AutoUpdate];
    assert [RepoAllowlist(allowed)] + [GoModPresent, GoModParsable, GoBehind, AutoUpdate]
        == [RepoAllowlist(allowed), GoModPresent, GoModParsable, GoBehind, AutoUpdate];
  }

  /** The whole chain in one formula per verdict. */
  lemma ChainVerdict(allowed: string -> bool, force: bool, c: FilterCandidate, seen: Seen)
    ensures Skip(CycleFilter(allowed, force), c, seen).None? <==>
      && Actionable(allowed, c) && c.consent == Granted
      && (force || c.headSHA == "" || Seen(c.headSHA, c.latestGoVersion) != seen)
    ensures Skip(CycleFilter(allowed, force), c, seen) == Some(AutoUpdateUndecided) <==>
      Actionable(allowed, c) && c.consent != Granted && c.consent != Refused
    ensures Skip(CycleFilter(allowed, force), c, seen) == Some(AutoUpdateDisabled) <==>
      Actionable(allowed, c) && c.consent == Refused
    ensures Skip(CycleFilter(allowed, force), c, seen) == Some(GoCurrent) <==>
      allowed(c.repoKey) && c.goModPresent && c.goModParsable && !c.goBehind
    ensures Skip(CycleFilter(allowed, force), c, seen) == Some(GoModUnparsable) <==>
      allowed(c.repoKey) && c.goModPresent && !c.goModParsable
    ensures Skip(CycleFilter(allowed, force), c, seen) == Some(NoGoMod) <==>
      allowed(c.repoKey) && !c.goModPresent
    ensures Skip(CycleFilter(allowed, force), c, seen) == Some(Scope) <==> !allowed(c.repoKey)
    ensures Skip(CycleFilter(allowed, force), c, seen) == Some(ShaUnchanged) <==>
      && Actionable(allowed, c) && c.consent == Granted
      && !force && c.headSHA != "" && Seen(c.headSHA, c.latestGoVersion) == seen
    ensures Skip(CycleFilter(allowed, force), c, seen) !in {Some(OpenUpdatePR), Some(EmissionInFlight)}
  {
    var last := if force then [] else [SHAUnchanged];
    StaticChain(allowed, c, seen);
    SkipCons(SHAUnchanged, [], c, seen);
    SkipCons(StaticFilters(allowed), last, c, seen);
    assert [SHAUnchanged] + [] == [SHAUnchanged];
    hide StaticFilters;
  }

  // ------------------------------------------------------ the allowlist text

  /** The trimmed non-empty entries, in order. */
  function Entries(parts: seq<string>): seq<string> {
    if parts == [] then []
    else (if TrimSpace(parts[0]) == "" then [] else [TrimSpace(parts[0])]) + Entries(parts[1..])
  }

  lemma {:induction false} EntriesSnoc(parts: seq<string>, last: string)
    ensures Entries(parts + [last]) == Entries(parts) + if TrimSpace(last) == "" then [] else [TrimSpace(last)]
  {
    if parts == [] {
      assert parts + [last] == [last] && [last][1..] == [];
    } else {
      EntriesSnoc(parts[1..], last);
      assert (parts + [last])[1..] == parts[1..] + [last];
    }
  }

  method ParseRepoAllowlist(raw: string) returns (result: seq<string>)
    ensures result == Entries(Split(raw, ','))
  {
    result := [];
    if raw == "" {
      assert Entries([""]) == [] + Entries([""][1..]);
      return;
    }
    var parts := Split(raw, ',');
    for k := 0 to |parts|
      invariant result == Entries(parts[..k])
    {
      var entry := TrimSpace(parts[k]);
      assert parts[..k + 1] == parts[..k] + [parts[k]];
      EntriesSnoc(parts[..k], parts[k]);
      if entry == "" {
        continue;
      }
      result := result + [entry];
    }
    assert parts[..|parts|] == parts;
  }

  /** A clean entry: not empty, no comma, no white space at its ends. */
  predicate IsEntry(s: string) {
    s != "" && Free(s, ',') && !IsSpace(s[0]) && !IsSpace(s[|s| - 1])
  }

  lemma TrimmedIsEntry(s: string)
    requires Free(s, ',')
    ensures TrimSpace(s) == "" || IsEntry(TrimSpace(s))
    ensures IsEntry(s) ==> TrimSpace(s) == s
  {
    TrimLeftIsSuffix(s);
  }

  lemma {:induction false} TrimLeftIsSuffix(s: string)
    ensures TrimLeft(s) == s[|s| - |TrimLeft(s)|..]
  {
    if s != "" && IsSpace(s[0]) {
      TrimLeftIsSuffix(s[1..]);
    }
  }

  predicate CleanList(entries: seq<string>) {
    forall i :: 0 <= i < |entries| ==> IsEntry(entries[i])
  }

  /** Every list of clean entries is the parse of its comma-joined text. */
  lemma AllowlistRoundTrip(entries: seq<string>)
    requires entries != [] && CleanList(entries)
    ensures Entries(Split(Join(entries, ','), ',')) == entries
  {
    assert forall i :: 0 <= i < |entries| ==> IsEntry(entries[i]) && Free(entries[i], ',');
    SplitOfJoin(entries, ',');
    EntriesOfClean(entries);
  }

  lemma {:induction false} EntriesOfClean(entries: seq<string>)
    requires CleanList(entries)
    ensures Entries(entries) == entries
  {
    if entries != [] {
      assert IsEntry(entries[0]);
      TrimmedIsEntry(entries[0]);
      EntriesOfClean(entries[1..]);
    }
  }

  /** Parsing yields clean entries only, whatever the text. */
  lemma AllowlistIsClean(raw: string)
    ensures CleanList(Entries(Split(raw, ',')))
  {
    EntriesAreClean(Split(raw, ','));
  }

  lemma {:induction false} EntriesAreClean(parts: seq<string>)
    requires forall i :: 0 <= i < |parts| ==> Free(parts[i], ',')
    ensures CleanList(Entries(parts))
  {
    if parts != [] {
      TrimmedIsEntry(parts[0]);
      EntriesAreClean(parts[1..]);
    }
  }

  /** Each part is its core with white space around it. */
  ghost predicate Around(parts: seq<string>, cores: seq<string>) {
    && |parts| == |cores|
    && forall i :: 0 <= i < |parts| ==>
      && Trimmed(cores[i])
      && exists left: string, right: string :: Blank(left) && Blank(right) && parts[i] == left + cores[i] + right
  }

  function NonEmpty(cores: seq<string>): seq<string> {
    if cores == [] then [] else (if cores[0] == "" then [] else [cores[0]]) + NonEmpty(cores[1..])
  }

  lemma {:induction false} EntriesAreCores(parts: seq<string>, cores: seq<string>)
    requires Around(parts, cores)
    ensures Entries(parts) == NonEmpty(cores)
  {
    if parts != [] {
      TrimMeans(parts[0], cores[0]);
      hide TrimSpace;
      EntriesAreCores(parts[1..], cores[1..]);
    }
  }

  /**
   The allowlist by its text: cut it at the commas, take the white space from around every part, and
   what is left of the parts that are not empty is the list, in order, repetitions included.
   */
  lemma AllowlistMeans(parts: seq<string>, cores: seq<string>)
    requires parts != [] && Around(parts, cores)
    requires forall i :: 0 <= i < |parts| ==> ',' !in parts[i]
    ensures Entries(Split(Join(parts, ','), ',')) == NonEmpty(cores)
  {
    SplitOfJoin(parts, ',');
    EntriesAreCores(parts, cores);
  }

  /** Every text has that form. */
  lemma EveryTextIsAllowlist(raw: string) returns (parts: seq<string>, cores: seq<string>)
    ensures parts != [] && Around(parts, cores) && raw == Join(parts, ',')
    ensures forall i :: 0 <= i < |parts| ==> ',' !in parts[i]
  {
    parts := Split(raw, ',');
    JoinOfSplit(raw, ',');
    cores := seq(|parts|, i requires 0 <= i < |parts| => TrimSpace(parts[i]));
    forall i | 0 <= i < |parts|
      ensures Trimmed(cores[i])
      ensures exists left: string, right: string :: Blank(left) && Blank(right) && parts[i] == left + cores[i] + right
    {
      TrimMeans(parts[i], cores[i]);
    }
  }
}
