/** The loops of the GitHub client (pkg/githubclient.go) over what the API answers. */
module GitHub {
  import opened Text

  datatype Repo = Repo(owner: string, name: string, defaultBranch: string) {
    function Key(): string {
      "github.com/" + owner + "/" + name
    }
  }

  /** The key is the host, the owner and the name between slashes; owners have no slash, so it names both. */
  lemma KeyNamesRepo(r: Repo, s: Repo)
    requires Free(r.owner, '/') && Free(s.owner, '/')
    ensures r.Key() == s.Key() <==> r.owner == s.owner && r.name == s.name
    ensures Split(r.Key(), '/') == ["github.com", r.owner] + Split(r.name, '/')
  {
    KeyParts(r);
    KeyParts(s);
    if r.Key() == s.Key() {
      assert Split(r.Key(), '/')[1] == r.owner && Split(s.Key(), '/')[1] == s.owner;
      KeyInjective(r, s);
    }
  }

  lemma KeyParts(r: Repo)
    requires Free(r.owner, '/')
    ensures Split(r.Key(), '/') == ["github.com", r.owner] + Split(r.name, '/')
  {
    assert r.Key() == "github.com" + "/" + (r.owner + "/" + r.name);
    SplitWord("github.com", r.owner + "/" + r.name, '/');
    SplitWord(r.owner, r.name, '/');
  }

  /** With the owner fixed the key names the repo. */
  lemma KeyInjective(r: Repo, s: Repo)
    requires r.owner == s.owner
    ensures r.Key() == s.Key() <==> r.name == s.name
  {
    var head := "github.com/" + r.owner + "/";
    assert (head + r.name)[|head|..] == r.name;
    assert (head + s.name)[|head|..] == s.name;
  }

  datatype Fetch<+T> = Got(value: T) | RateLimited | Failed

  // ----------------------------------------------------------- repo listing

  datatype ApiRepo = ApiRepo(archived: bool, login: string, name: string, defaultBranch: string)

  predicate InScope(r: ApiRepo, owner: string) {
    !r.archived && r.login == owner && r.name != ""
  }

  function Mapped(repos: seq<ApiRepo>, owner: string): (result: seq<Repo>)
    ensures forall r :: r in result ==> r.owner == owner && r.name != ""
  {
    if repos == [] then []
    else
      var last := repos[|repos| - 1];
      Mapped(repos[..|repos| - 1], owner)
      + if InScope(last, owner) then [Repo(last.login, last.name, last.defaultBranch)] else []
  }

  /** The API objects a listing must not contain. */
  predicate Excluded(r: ApiRepo, owner: string) {
    r.archived || r.login != owner || r.name == ""
  }

  /**
   `result` is what the API objects at the increasing positions `ix` say, field by field, and every
   object elsewhere is archived, foreign or nameless.
   */
  ghost predicate PicksAt(repos: seq<ApiRepo>, owner: string, result: seq<Repo>, ix: seq<int>) {
    && |ix| == |result|
    && (forall i :: 0 <= i < |ix| ==> 0 <= ix[i] < |repos| && !Excluded(repos[ix[i]], owner))
    && (forall i, j :: 0 <= i < j < |ix| ==> ix[i] < ix[j])
    && (forall i :: 0 <= i < |ix| ==>
          result[i] == Repo(repos[ix[i]].login, repos[ix[i]].name, repos[ix[i]].defaultBranch))
    && (forall k :: 0 <= k < |repos| && k !in ix ==> Excluded(repos[k], owner))
  }

  ghost predicate Picks(repos: seq<ApiRepo>, owner: string, result: seq<Repo>) {
    exists ix :: PicksAt(repos, owner, result, ix)
  }

  lemma SkipNext(repos: seq<ApiRepo>, owner: string, result: seq<Repo>, ix: seq<int>, r: ApiRepo)
    requires PicksAt(repos, owner, result, ix) && Excluded(r, owner)
    ensures PicksAt(repos + [r], owner, result, ix)
  {
    hide Excluded;
    var all := repos + [r];
    assert forall k :: 0 <= k < |repos| ==> all[k] == repos[k];
  }

  lemma TakeNext(repos: seq<ApiRepo>, owner: string, result: seq<Repo>, ix: seq<int>, r: ApiRepo)
    requires PicksAt(repos, owner, result, ix) && !Excluded(r, owner)
    ensures PicksAt(repos + [r], owner, result + [Repo(r.login, r.name, r.defaultBranch)], ix + [|repos|])
  {
    hide Excluded;
    var all, more := repos + [r], ix + [|repos|];
    assert forall k :: 0 <= k < |repos| ==> all[k] == repos[k];
    assert forall i :: 0 <= i < |ix| ==> more[i] == ix[i];
    assert more[|ix|] == |repos| && all[|repos|] == r;
    forall k | 0 <= k < |all| && k !in more
      ensures Excluded(all[k], owner)
    {
      assert k !in ix && k != |repos|;
    }
  }

  lemma PickNext(repos: seq<ApiRepo>, owner: string, result: seq<Repo>, r: ApiRepo)
    requires Picks(repos, owner, result)
    ensures Picks(repos + [r], owner,
                  result + if Excluded(r, owner) then [] else [Repo(r.login, r.name, r.defaultBranch)])
  {
    var ix :| PicksAt(repos, owner, result, ix);
    hide PicksAt;
    if Excluded(r, owner) {
      assert result + [] == result;
      SkipNext(repos, owner, result, ix, r);
    } else {
      TakeNext(repos, owner, result, ix, r);
    }
  }

  lemma PickNothing(owner: string)
    ensures Picks([], owner, [])
  {
    assert PicksAt([], owner, [], []);
  }

  /** The mapping picks every object that is not archived, foreign or nameless, once and in order. */
  lemma {:induction false} MappedPicks(repos: seq<ApiRepo>, owner: string)
    ensures Picks(repos, owner, Mapped(repos, owner))
  {
    hide Picks;
    if repos == [] {
      PickNothing(owner);
    } else {
      var front, last := repos[..|repos| - 1], repos[|repos| - 1];
      MappedPicks(front, owner);
      PickNext(front, owner, Mapped(front, owner), last);
      assert front + [last] == repos;
    }
  }

  method MapGitHubRepos(repos: seq<ApiRepo>, owner: string) returns (result: seq<Repo>)
    ensures result == Mapped(repos, owner)
    ensures Picks(repos, owner, result)
  {
    MappedPicks(repos, owner);
    hide Picks;
    result := [];
    for k := 0 to |repos|
      invariant result == Mapped(repos[..k], owner)
    {
      assert repos[..k + 1][..k] == repos[..k];
      var repo := repos[k];
      if repo.archived {
        continue;
      }
      if repo.login != owner {
        continue;
      }
      if repo.name == "" {
        continue;
      }
      result := result + [Repo(repo.login, repo.name, repo.defaultBranch)];
    }
    assert repos[..|repos|] == repos;
  }

  const MAX_LIST_PAGES: nat := 100

  /** One reply of the listing endpoint; a missing response object is `next == 0`. */
  datatype Page = Page(repos: seq<ApiRepo>, next: int)

  /** The server may answer the same page number differently at every request. */
  type Server = (nat, int) -> Fetch<Page>

  /** The page number of request `n`, following next links from page 1. */
  function PageNumber(server: Server, n: nat): int {
    if n == 0 then 1
    else match server(n - 1, PageNumber(server, n - 1))
      case Got(page) => page.next
      case _ => 0
  }

  function Reply(server: Server, n: nat): Fetch<Page> {
    server(n, PageNumber(server, n))
  }

  /** Requests 0..n-1 were made, answered, and each links to another page. */
  ghost predicate Linked(server: Server, cancelled: nat -> bool, n: nat) {
    forall k :: 0 <= k < n ==> !cancelled(k) && Reply(server, k).Got? && Reply(server, k).value.next != 0
  }

  /** The chain ends regularly at request `n`. */
  ghost predicate EndsAt(server: Server, cancelled: nat -> bool, n: nat) {
    && n < 100 && Linked(server, cancelled, n) && !cancelled(n)
    && Reply(server, n).Got? && Reply(server, n).value.next == 0
  }

  function Collected(server: Server, owner: string, n: nat): (result: seq<Repo>)
    requires forall k :: 0 <= k < n ==> Reply(server, k).Got?
    ensures forall r :: r in result ==> r.owner == owner && r.name != ""
  {
    if n == 0 then [] else Collected(server, owner, n - 1) + Mapped(Reply(server, n - 1).value.repos, owner)
  }

  lemma NothingCollected(server: Server, owner: string)
    ensures Collected(server, owner, 0) == []
  {}

  lemma CollectNext(server: Server, owner: string, n: nat)
    requires forall k :: 0 <= k <= n ==> Reply(server, k).Got?
    ensures Collected(server, owner, n + 1) == Collected(server, owner, n) + Mapped(Reply(server, n).value.repos, owner)
  {}

  /** Reply `k` links to the page `next`. */
  predicate LinksTo(server: Server, k: nat, page: int, next: int) {
    server(k, page).Got? && server(k, page).value.next == next != 0
  }

  /** The page numbers asked for: page 1 first, then what the reply before links to. */
  ghost predicate FollowsLinks(server: Server, asked: seq<int>) {
    && (asked != [] ==> asked[0] == 1)
    && forall k :: 0 <= k < |asked| - 1 ==> LinksTo(server, k, asked[k], asked[k + 1])
  }

  ghost predicate AllAnswered(server: Server, asked: seq<int>) {
    forall k :: 0 <= k < |asked| ==> server(k, asked[k]).Got?
  }

  /** The API objects of all replies, in order. */
  ghost function Objects(server: Server, asked: seq<int>): seq<ApiRepo>
    requires AllAnswered(server, asked)
  {
    if asked == [] then []
    else Objects(server, asked[..|asked| - 1]) + server(|asked| - 1, asked[|asked| - 1]).value.repos
  }

  lemma {:induction false} MappedConcat(a: seq<ApiRepo>, b: seq<ApiRepo>, owner: string)
    ensures Mapped(a + b, owner) == Mapped(a, owner) + Mapped(b, owner)
  {
    if b == [] {
      assert a + b == a;
    } else {
      MappedConcat(a, b[..|b| - 1], owner);
      assert (a + b)[..|a + b| - 1] == a + b[..|b| - 1];
    }
  }

  lemma {:induction false} CollectedIsMapped(server: Server, asked: seq<int>, owner: string)
    requires AllAnswered(server, asked)
    requires forall k :: 0 <= k < |asked| ==> asked[k] == PageNumber(server, k)
    ensures forall k :: 0 <= k < |asked| ==> Reply(server, k).Got?
    ensures Collected(server, owner, |asked|) == Mapped(Objects(server, asked), owner)
  {
    hide PageNumber, Mapped;
    if asked == [] {
      MappedNothing(owner);
    } else {
      var front := asked[..|asked| - 1];
      CollectedIsMapped(server, front, owner);
      MappedConcat(Objects(server, front), server(|front|, asked[|front|]).value.repos, owner);
    }
  }

  lemma MappedNothing(owner: string)
    ensures Mapped([], owner) == []
  {}

  /** What the collected pages pick from all the objects that were sent. */
  lemma CollectedPicks(server: Server, asked: seq<int>, owner: string)
    requires AllAnswered(server, asked)
    requires forall k :: 0 <= k < |asked| ==> asked[k] == PageNumber(server, k)
    ensures forall k :: 0 <= k < |asked| ==> Reply(server, k).Got?
    ensures Picks(Objects(server, asked), owner, Collected(server, owner, |asked|))
  {
    hide Picks, PageNumber;
    CollectedIsMapped(server, asked, owner);
    MappedPicks(Objects(server, asked), owner);
  }

  lemma NothingAsked(server: Server, cancelled: nat -> bool)
    ensures FollowsLinks(server, []) && AllAnswered(server, []) && Linked(server, cancelled, 0) && PageNumber(server, 0) == 1
  {}

  lemma AskNext(server: Server, asked: seq<int>, number: int)
    requires FollowsLinks(server, asked) && AllAnswered(server, asked)
    requires if asked == [] then number == 1 else LinksTo(server, |asked| - 1, asked[|asked| - 1], number)
    ensures FollowsLinks(server, asked + [number])
    ensures server(|asked|, number).Got? ==> AllAnswered(server, asked + [number])
  {
    hide LinksTo;
  }

  lemma LinkNext(server: Server, cancelled: nat -> bool, n: nat)
    requires Linked(server, cancelled, n) && !cancelled(n)
    requires Reply(server, n).Got? && Reply(server, n).value.next != 0
    ensures Linked(server, cancelled, n + 1) && PageNumber(server, n + 1) == Reply(server, n).value.next
    ensures LinksTo(server, n, PageNumber(server, n), PageNumber(server, n + 1))
  {}

  lemma AllGot(server: Server, cancelled: nat -> bool, n: nat)
    requires Linked(server, cancelled, n) && Reply(server, n).Got?
    ensures forall k :: 0 <= k <= n ==> Reply(server, k).Got?
  {}

  /**
   For any behaviour of the next links the listing makes at most 100 requests, from page 1 along the
   links, and yields what the mapping picks from all the objects sent, in order, exactly when the
   chain ends by then; otherwise it fails, without a partial list, and as rate limited exactly when
   such a reply broke the chain.
   */
  method ListRepos(server: Server, cancelled: nat -> bool, owner: string)
    returns (r: Fetch<seq<Repo>>, requests: nat, asked: seq<int>)
    ensures requests == |asked| <= 100 && FollowsLinks(server, asked)
    ensures r.Got? <==> exists n: nat :: EndsAt(server, cancelled, n)
    ensures r.Got? ==> requests > 0 && EndsAt(server, cancelled, requests - 1)
                       && r.value == Collected(server, owner, requests)
    ensures r.Got? ==> AllAnswered(server, asked) && Picks(Objects(server, asked), owner, r.value)
    ensures r.RateLimited? <==> exists n: nat ::
      n < 100 && Linked(server, cancelled, n) && !cancelled(n) && Reply(server, n).RateLimited?
  {
    hide Mapped, Collected, Picks, Objects, FollowsLinks, AllAnswered, PageNumber, LinksTo;
    NothingAsked(server, cancelled);
    var repos: seq<Repo> := [];
    var number := 1;
    requests, asked := 0, [];
    NothingCollected(server, owner);
    while true
      invariant requests == |asked| < MAX_LIST_PAGES
      invariant number == PageNumber(server, requests)
      invariant forall k :: 0 <= k < requests ==> asked[k] == PageNumber(server, k)
      invariant FollowsLinks(server, asked) && AllAnswered(server, asked)
      invariant if requests == 0 then number == 1 else LinksTo(server, requests - 1, asked[requests - 1], number)
      invariant Linked(server, cancelled, requests)
      invariant repos == Collected(server, owner, requests)
      decreases MAX_LIST_PAGES - requests
    {
      if cancelled(requests) {
        StopsHere(server, cancelled, requests);
        return Failed, requests, asked;
      }
      var reply := server(requests, number);
      AskNext(server, asked, number);
      requests, asked := requests + 1, asked + [number];
      assert reply == Reply(server, requests - 1);
      if reply.RateLimited? {
        StopsHere(server, cancelled, requests - 1);
        return RateLimited, requests, asked;
      }
      if reply.Failed? {
        StopsHere(server, cancelled, requests - 1);
        return Failed, requests, asked;
      }
      var mapped := MapGitHubRepos(reply.value.repos, owner);
      repos := repos + mapped;
      AllGot(server, cancelled, requests - 1);
      CollectNext(server, owner, requests - 1);
      if reply.value.next == 0 {
        assert EndsAt(server, cancelled, requests - 1);
        CollectedPicks(server, asked, owner);
        return Got(repos), requests, asked;
      }
      if requests >= MAX_LIST_PAGES {
        return Failed, requests, asked;
      }
      LinkNext(server, cancelled, requests - 1);
      number := reply.value.next;
    }
  }

  /** When request `n` is not answered with a further link, nothing after it is part of the chain. */
  lemma StopsHere(server: Server, cancelled: nat -> bool, n: nat)
    requires cancelled(n) || !Reply(server, n).Got? || Reply(server, n).value.next == 0
    ensures forall m: nat :: m > n ==> !Linked(server, cancelled, m)
  {}

  // ----------------------------------------------------- pull request scans

  const UPDATE_BRANCH_PREFIX := "fix/update-go-"

  function UpdateBranchName(headSHA: string): string {
    UPDATE_BRANCH_PREFIX + if |headSHA| > 7 then headSHA[..7] else headSHA
  }

  /**
   The open-PR gate recognises the branch of every update task, whatever SHA it was filed at. Tasks
   share a branch exactly when their SHAs agree in the first seven characters.
   */
  lemma GateSeesEveryUpdateBranch(sha: string, sha': string)
    ensures "fix/update-go-" <= UpdateBranchName(sha)
    ensures |UpdateBranchName(sha)| <= 21
    ensures UpdateBranchName(sha) == UpdateBranchName(sha') <==>
      (if |sha| > 7 then sha[..7] else sha) == (if |sha'| > 7 then sha'[..7] else sha')
  {
    var p := UPDATE_BRANCH_PREFIX;
    assert UpdateBranchName(sha)[|p|..] == if |sha| > 7 then sha[..7] else sha;
    assert UpdateBranchName(sha')[|p|..] == if |sha'| > 7 then sha'[..7] else sha';
  }

  /** Scans the head branches of the open pull requests; `None` is a cancelled context. */
  method HasOpenUpdatePR(heads: seq<string>, cancelled: nat -> bool) returns (open: Option<bool>)
    ensures open == Some(true) <==>
      exists k :: 0 <= k < |heads| && "fix/update-go-" <= heads[k] && forall j :: 0 <= j <= k ==> !cancelled(j)
    ensures open == Some(false) <==>
      forall k :: 0 <= k < |heads| ==> !("fix/update-go-" <= heads[k]) && !cancelled(k)
  {
    for k := 0 to |heads|
      invariant forall j :: 0 <= j < k ==> !HasPrefix(heads[j], UPDATE_BRANCH_PREFIX) && !cancelled(j)
    {
      if cancelled(k) {
        return None;
      }
      if HasPrefix(heads[k], UPDATE_BRANCH_PREFIX) {
        return Some(true);
      }
    }
    return Some(false);
  }

  /** Scans the pull requests of one update branch for a merge time. */
  method GetMergedUpdatePR(merged: seq<bool>, cancelled: nat -> bool) returns (found: Option<bool>)
    ensures found == Some(true) <==>
      exists k :: 0 <= k < |merged| && merged[k] && forall j :: 0 <= j <= k ==> !cancelled(j)
    ensures found == Some(false) <==> forall k :: 0 <= k < |merged| ==> !merged[k] && !cancelled(k)
  {
    for k := 0 to |merged|
      invariant forall j :: 0 <= j < k ==> !merged[j] && !cancelled(j)
    {
      if cancelled(k) {
        return None;
      }
      if merged[k] {
        return Some(true);
      }
    }
    return Some(false);
  }
}
