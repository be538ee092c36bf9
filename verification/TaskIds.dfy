/**
 Task identity (pkg/taskid.go). An identifier is a name-based UUID, version 5, of a frozen
 namespace and a seed text; the hash is left out and a task is its namespace and seed.
 */
module TaskIds {
  import opened Text
  import opened Versions

  datatype Namespace = UpdateTasks | DecisionTasks

  datatype TaskId = TaskId(namespace: Namespace, seed: string)

  function DeriveTaskID(owner: string, repo: string, goVersion: string, headSHA: string): TaskId {
    TaskId(UpdateTasks, "update-go-" + owner + "-" + repo + "-" + goVersion + "-" + headSHA)
  }

  function DeriveDecisionTaskID(owner: string, repo: string): TaskId {
    TaskId(DecisionTasks, "update-go-decision-" + owner + "-" + repo)
  }

  /** The frozen seeds: every part in its place, joined by dashes, each kind of task in a namespace of its own. */
  lemma SeedsAreDashed(owner: string, repo: string, version: string, sha: string)
    ensures DeriveTaskID(owner, repo, version, sha).seed == Join(["update", "go", owner, repo, version, sha], '-')
    ensures DeriveDecisionTaskID(owner, repo).seed == Join(["update", "go", "decision", owner, repo], '-')
    ensures DeriveTaskID(owner, repo, version, sha).namespace == UpdateTasks
    ensures DeriveDecisionTaskID(owner, repo).namespace == DecisionTasks
  {
    hide Join;
    JoinMore("update", ["go", owner, repo, version, sha], ["update", "go", owner, repo, version, sha]);
    JoinMore("go", [owner, repo, version, sha], ["go", owner, repo, version, sha]);
    JoinMore(owner, [repo, version, sha], [owner, repo, version, sha]);
    JoinMore(repo, [version, sha], [repo, version, sha]);
    JoinMore(version, [sha], [version, sha]);
    Dashes(owner, repo, version, sha);
    JoinMore("update", ["go", "decision", owner, repo], ["update", "go", "decision", owner, repo]);
    JoinMore("go", ["decision", owner, repo], ["go", "decision", owner, repo]);
    JoinMore("decision", [owner, repo], ["decision", owner, repo]);
    JoinMore(owner, [repo], [owner, repo]);
    MoreDashes(owner, repo);
  }

  lemma Dashes(a: string, b: string, c: string, d: string)
    ensures "update" + "-" + ("go" + "-" + (a + "-" + (b + "-" + (c + "-" + d))))
         == "update-go-" + a + "-" + b + "-" + c + "-" + d
  {
    assert "update" + "-" + ("go" + "-" + a) == "update-go-" + a;
  }

  lemma MoreDashes(a: string, b: string)
    ensures "update" + "-" + ("go" + "-" + ("decision" + "-" + (a + "-" + b))) == "update-go-decision-" + a + "-" + b
  {
    assert "update" + "-" + ("go" + "-" + ("decision" + "-" + a)) == "update-go-decision-" + a;
  }

  lemma JoinMore(head: string, rest: seq<string>, all: seq<string>)
    requires rest != [] && all == [head] + rest
    ensures Join(all, '-') == head + "-" + Join(rest, '-')
    ensures |rest| == 1 ==> Join(rest, '-') == rest[0]
  {
    assert all[1..] == rest;
  }

  /** For one owner, equal update seeds mean equal repo, version and SHA, dashes in repo names included. */
  lemma TaskIdInjective(owner: string, repo: string, version: string, sha: string,
                        repo': string, version': string, sha': string)
    requires Free(version, '-') && Free(version', '-') && Free(sha, '-') && Free(sha', '-')
    requires DeriveTaskID(owner, repo, version, sha) == DeriveTaskID(owner, repo', version', sha')
    ensures repo == repo' && version == version' && sha == sha'
  {
    var head := "update-go-" + owner + "-";
    LastSeparator(head + repo + "-" + version, sha, head + repo' + "-" + version', sha', '-');
    LastSeparator(head + repo, version, head + repo', version', '-');
    assert repo == (head + repo)[|head|..] == (head + repo')[|head|..] == repo';
  }

  /** The same with the versions as the watcher prints them: no assumption on their text is left. */
  lemma TaskIdNamesVersion(owner: string, repo: string, v: Version, sha: string,
                           repo': string, v': Version, sha': string)
    requires v.InRange() && v'.InRange() && Free(sha, '-') && Free(sha', '-')
    ensures DeriveTaskID(owner, repo, v.Number(), sha) == DeriveTaskID(owner, repo', v'.Number(), sha')
      <==> repo == repo' && v.Triple() == v'.Triple() && sha == sha'
  {
    NumberHasNoDash(v);
    NumberHasNoDash(v');
    NumberInjective(v, v');
    if DeriveTaskID(owner, repo, v.Number(), sha) == DeriveTaskID(owner, repo', v'.Number(), sha') {
      TaskIdInjective(owner, repo, v.Number(), sha, repo', v'.Number(), sha');
    }
  }

  /** One decision task per repo of an owner, and never an update task. */
  lemma DecisionIdInjective(owner: string, repo: string, repo': string, version: string, sha: string)
    ensures DeriveDecisionTaskID(owner, repo) == DeriveDecisionTaskID(owner, repo') <==> repo == repo'
    ensures DeriveDecisionTaskID(owner, repo) != DeriveTaskID(owner, repo', version, sha)
  {
    var head := "update-go-decision-" + owner + "-";
    assert (head + repo)[|head|..] == repo;
    assert (head + repo')[|head|..] == repo';
  }

  /** The fixed owner is needed: across owners two repos can share a seed. */
  lemma OwnersCanCollide(version: string, sha: string)
    ensures DeriveTaskID("a-b", "c", version, sha) == DeriveTaskID("a", "b-c", version, sha)
  {
    assert "update-go-" + "a-b" + "-" + "c" == "update-go-" + "a" + "-" + "b-c";
  }
}
