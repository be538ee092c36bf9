/**
 The cursor in memory and on disk (pkg/cursor.go, pkg/cursorreader.go): entries behind pointers,
 a file replaced by rename, and every file state a crash can leave.
 */
module Cursors {
  import opened Text
  import opened Filters
  import opened Cycle

  // ---------------------------------------------------------------- on disk

  /** What a file can hold; a JSON null entry is `None`. */
  datatype Content = Json(entries: map<string, Option<Entry>>) | NotJson(text: string)

  datatype Files = Files(path: Option<Content>, tmp: Option<Content>, corrupt: Option<Content>)

  /** The cursor a readable file stands for: a missing or corrupt one is a cold start. */
  function Decode(file: Option<Content>): View {
    if file.Some? && file.value.Json?
    then map k | k in file.value.entries && file.value.entries[k].Some? :: file.value.entries[k].value
    else EMPTY
  }

  /** Whether an existing file can be read, and whether setting a corrupt one aside works. */
  datatype LoadEnv = LoadEnv(readable: bool, renameOk: bool)

  predicate LoadFails(f: Files, env: LoadEnv) {
    f.path.Some? && !env.readable
  }

  /** The file states of a load, first to last. */
  function LoadStates(f: Files, env: LoadEnv): (states: seq<Files>)
    ensures states != [] && states[0] == f
  {
    if f.path.Some? && env.readable && f.path.value.NotJson? && env.renameOk
    then [f, Files(None, f.tmp, f.path)]
    else [f]
  }

  /** What happens to a save: `torn` lists what the temporary file holds while it is being written. */
  datatype SaveEnv = SaveEnv(
    marshalOk: bool,
    torn: seq<Option<Content>>,
    writeOk: bool,
    renameOk: bool,
    removeOk: bool)

  predicate SaveSucceeds(env: SaveEnv) {
    env.marshalOk && env.writeOk && env.renameOk
  }

  function TornStates(f: Files, torn: seq<Option<Content>>): (states: seq<Files>)
    ensures states != [] && forall i :: 0 <= i < |states| ==> states[i].path == f.path && states[i].corrupt == f.corrupt
  {
    if torn == [] then [f]
    else TornStates(f, torn[..|torn| - 1]) + [f.(tmp := torn[|torn| - 1])]
  }

  /** The file states of a save, first to last. */
  function SaveStates(f: Files, data: Content, env: SaveEnv): (states: seq<Files>)
    ensures states != []
  {
    if !env.marshalOk then [f]
    else
      var writing := TornStates(f, env.torn);
      var written := f.(tmp := Some(data));
      if !env.writeOk then writing
      else if env.renameOk then writing + [written, Files(Some(data), None, f.corrupt)]
      else writing + [written] + if env.removeOk then [written.(tmp := None)] else []
  }

  function Last<T>(s: seq<T>): T
    requires s != []
  {
    s[|s| - 1]
  }

  /** The file states of a whole poll; `data` is the cursor it would write. */
  function PollStates(f: Files, p: PollInput, data: Content, load: LoadEnv, save: SaveEnv): (states: seq<Files>)
    ensures states != []
  {
    var loaded := LoadStates(f, load);
    if LoadFails(f, load) || !Poll(Decode(f.path), p).saves then loaded
    else loaded + SaveStates(Last(loaded), data, save)
  }

  /**
   A crash at any point of load, poll or save leaves the last committed cursor or the one being
   committed, never a mix: there is one commit point, passed exactly when the poll gets to its
   save and the rename succeeds. A poll that does not save leaves the old cursor in every state.
   */
  lemma PollIsAtomicOnDisk(f: Files, p: PollInput, data: Content, load: LoadEnv, save: SaveEnv)
    returns (commit: nat)
    requires Decode(Some(data)) == Poll(Decode(f.path), p).cursor
    requires p.saveOk <==> SaveSucceeds(save)
    ensures var states := PollStates(f, p, data, load, save);
      && 0 < commit <= |states|
      && (forall i :: 0 <= i < commit ==> Decode(states[i].path) == Decode(f.path))
      && (forall i :: commit <= i < |states| ==> Decode(states[i].path) == Poll(Decode(f.path), p).cursor)
      && (commit < |states| <==> !LoadFails(f, load) && Poll(Decode(f.path), p).saves && p.saveOk)
      && (commit < |states| ==> Last(states).tmp == None)
      && (!LoadFails(f, load) ==> Decode(Last(states).path) == DiskAfter(Decode(f.path), p))
  {
    hide Poll, SaveStates;
    var loaded := LoadStates(f, load);
    var states := PollStates(f, p, data, load, save);
    var saves := !LoadFails(f, load) && Poll(Decode(f.path), p).saves;
    commit := if saves && p.saveOk then |states| - 1 else |states|;
    assert forall i :: 0 <= i < |loaded| ==> Decode(loaded[i].path) == Decode(f.path);
    hide Decode, LoadStates;
    if saves {
      var g := Last(loaded);
      var saving := SaveStates(g, data, save);
      assert states == loaded + saving;
      SaveKeepsOrCommits(g, data, save);
      assert forall i :: |loaded| <= i < |states| ==> states[i] == saving[i - |loaded|];
      assert Last(states) == Last(saving);
    }
  }

  lemma SaveKeepsOrCommits(f: Files, data: Content, env: SaveEnv)
    ensures var states := SaveStates(f, data, env);
      && (forall i :: 0 <= i < |states| - 1 ==> states[i].path == f.path)
      && (SaveSucceeds(env) ==> |states| > 1 && Last(states) == Files(Some(data), None, f.corrupt))
      && (!SaveSucceeds(env) ==> Last(states).path == f.path)
  {}

  /**
   What a save leaves beside the cursor file. The rename that commits starts from a complete temporary
   file; after a failed rename the temporary file is gone exactly when removing it works; a save that
   cannot marshal touches nothing; the file set aside is never touched.
   */
  lemma SaveLeavesBeside(f: Files, data: Content, env: SaveEnv)
    ensures var states := SaveStates(f, data, env);
      && states[0] == f
      && (forall i :: 0 <= i < |states| ==> states[i].corrupt == f.corrupt)
      && (SaveSucceeds(env) ==> |states| > 1 && states[|states| - 2] == Files(f.path, Some(data), f.corrupt))
      && (!env.marshalOk ==> states == [f])
      && (env.marshalOk && !env.writeOk ==>
            |states| == |env.torn| + 1 && forall i :: 0 <= i < |env.torn| ==> states[i + 1].tmp == env.torn[i])
      && (env.marshalOk && env.writeOk && !env.renameOk ==>
            Last(states) == Files(f.path, if env.removeOk then None else Some(data), f.corrupt))
  {
    TornMeans(f, env.torn);
  }

  lemma {:induction false} TornMeans(f: Files, torn: seq<Option<Content>>)
    ensures var states := TornStates(f, torn);
      |states| == |torn| + 1 && states[0] == f && forall i :: 0 <= i < |torn| ==> states[i + 1].tmp == torn[i]
  {
    if torn != [] {
      TornMeans(f, torn[..|torn| - 1]);
    }
  }

  /**
   What a load does, by the file. A missing file is a cold start and changes nothing; so is a corrupt
   one that can be read, whether or not it can be set aside; a readable cursor file is what it says, its
   null entries apart; only a file that exists and cannot be read is an error, and it stays as it is.
   */
  lemma LoadMeans(f: Files, env: LoadEnv)
    ensures LoadFails(f, env) <==> f.path != None && !env.readable
    ensures f.path == None || f.path.value.NotJson? ==> Decode(f.path) == map[]
    ensures f.path.Some? && f.path.value.Json? ==>
      forall k :: (k in Decode(f.path) <==> k in f.path.value.entries && f.path.value.entries[k].Some?)
        && (k in Decode(f.path) ==> f.path.value.entries[k] == Some(Decode(f.path)[k]))
    ensures f.path.Some? && f.path.value.NotJson? && env.readable && env.renameOk ==>
      Last(LoadStates(f, env)) == Files(None, f.tmp, f.path)
    ensures !(f.path.Some? && f.path.value.NotJson? && env.readable && env.renameOk) ==> LoadStates(f, env) == [f]
  {}

  /** A corrupt file is kept aside when it can be, and the next successful save ends the cold start. */
  lemma CorruptFileIsKeptAndReplaced(f: Files, load: LoadEnv, data: Content, save: SaveEnv)
    requires f.path.Some? && f.path.value.NotJson? && load.readable && SaveSucceeds(save)
    ensures var g := Last(LoadStates(f, load));
      && !LoadFails(f, load) && Decode(f.path) == Decode(g.path) == EMPTY
      && (load.renameOk ==> g.corrupt == f.path && g.path == None)
      && Last(SaveStates(g, data, save)).path == Some(data)
  {
    SaveKeepsOrCommits(Last(LoadStates(f, load)), data, save);
  }

  // -------------------------------------------------------------- in memory

  class RepoState {
    var lastSeenHeadSHA: string
    var lastSeenGoVersion: string
    var completedHeadSHA: string
    var inFlightTarget: string
    var inFlightSince: Stamp

    constructor (e: Entry)
      ensures Value() == e
    {
      lastSeenHeadSHA := e.lastSeenHeadSHA;
      lastSeenGoVersion := e.lastSeenGoVersion;
      completedHeadSHA := e.completedHeadSHA;
      inFlightTarget := e.inFlightTarget;
      inFlightSince := e.inFlightSince;
    }

    function Value(): Entry
      reads this
    {
      Entry(lastSeenHeadSHA, lastSeenGoVersion, completedHeadSHA, inFlightTarget, inFlightSince)
    }
  }

  /** Keys to pointers; `None` is a nil pointer. */
  class Cursor {
    var repos: map<string, Option<RepoState>>

    constructor ()
      ensures repos == map[]
    {
      repos := map[];
    }

    ghost function Entries(): set<RepoState>
      reads this
    {
      set k | k in repos && repos[k].Some? :: repos[k].value
    }

    /** No two keys share an entry: a decoded file and every recording allocate entries of their own. */
    ghost predicate Valid()
      reads this
    {
      forall j, k :: j in repos && k in repos && repos[j].Some? && repos[j] == repos[k] ==> j == k
    }

    ghost function View(): View
      reads this, Entries()
    {
      map k | k in repos && repos[k].Some? :: repos[k].value.Value()
    }

    /** Points the key at an entry of its own. */
    method Put(key: string, state: RepoState)
      requires Valid() && state !in Entries()
      modifies this
      ensures Valid() && repos == old(repos)[key := Some(state)]
      ensures View() == old(View())[key := state.Value()]
    {
      repos := repos[key := Some(state)];
    }

    /** What marshalling writes: nil pointers as nulls. */
    function Marshal(): (data: Content)
      reads this, set k | k in repos && repos[k].Some? :: repos[k].value
      ensures Decode(Some(data)) == View()
    {
      Json(map k | k in repos :: if repos[k].Some? then Some(repos[k].value.Value()) else None)
    }
  }

  /** The view at one key, nil entries being absent. */
  lemma ViewAt(c: Cursor, key: string)
    ensures key in c.View() <==> key in c.repos && c.repos[key].Some?
    ensures key in c.View() ==> c.View()[key] == c.repos[key].value.Value()
  {}

  /** The filter's live view of the cursor: it sees what earlier repos of the same cycle recorded. */
  class CursorReader {
    const c: Cursor

    constructor (c: Cursor)
      ensures this.c == c
    {
      this.c := c;
    }

    function Read(repoKey: string): (seen: Seen)
      reads c, set k | k in c.repos && c.repos[k].Some? :: c.repos[k].value
      ensures seen == SeenIn(c.View(), repoKey)
    {
      if repoKey !in c.repos || c.repos[repoKey].None? then Seen("", "")
      else Seen(c.repos[repoKey].value.lastSeenHeadSHA, c.repos[repoKey].value.lastSeenGoVersion)
    }
  }

  class Store {
    var files: Files

    constructor (files: Files)
      ensures this.files == files
    {
      this.files := files;
    }

    /** `None` is an unreadable file; anything else starts the cycle, cold or warm. */
    method LoadCursor(env: LoadEnv) returns (r: Option<Cursor>)
      modifies this
      ensures r.None? <==> LoadFails(old(files), env)
      ensures r.None? <==> old(files.path).Some? && !env.readable
      ensures old(files.path).None? ==> r.value.View() == map[] && files == old(files)
      ensures env.readable && old(files.path).Some? && old(files.path).value.NotJson? ==> r.value.View() == map[]
      ensures r.Some? ==> fresh(r.value) && fresh(r.value.Entries()) && r.value.Valid()
                          && r.value.View() == Decode(old(files.path))
      ensures files == Last(LoadStates(old(files), env))
    {
      if files.path.None? {
        var cold := new Cursor();
        return Some(cold);
      }
      if !env.readable {
        return None;
      }
      match files.path.value
      case NotJson(text) =>
        if env.renameOk {
          files := Files(None, files.tmp, files.path);
        }
        var cold := new Cursor();
        return Some(cold);
      case Json(entries) =>
        var c := Unmarshal(entries);
        return Some(c);
    }

    /** Allocates one entry per key that is not null. */
    method Unmarshal(entries: map<string, Option<Entry>>) returns (c: Cursor)
      ensures fresh(c) && fresh(c.Entries()) && c.Valid()
      ensures c.View() == Decode(Some(Json(entries)))
    {
      c := new Cursor();
      var todo := entries.Keys;
      while todo != {}
        invariant todo <= entries.Keys
        invariant fresh(c) && c.Valid()
        invariant c.repos.Keys == entries.Keys - todo
        invariant forall k :: k in c.repos && c.repos[k].Some? ==> fresh(c.repos[k].value)
        invariant forall k :: k in c.repos ==> (c.repos[k].Some? <==> entries[k].Some?)
        invariant forall k :: k in c.repos && c.repos[k].Some? ==> c.repos[k].value.Value() == entries[k].value
        decreases todo
      {
        var key :| key in todo;
        todo := todo - {key};
        if entries[key].Some? {
          var state := new RepoState(entries[key].value);
          c.repos := c.repos[key := Some(state)];
        } else {
          c.repos := c.repos[key := None];
        }
      }
    }

    /** Writes a temporary file and renames it over the cursor; `states` are the file states on the way. */
    method SaveCursor(c: Cursor, env: SaveEnv) returns (ok: bool, ghost states: seq<Files>)
      modifies this
      ensures ok <==> SaveSucceeds(env)
      ensures states == SaveStates(old(files), c.Marshal(), env) && files == Last(states)
    {
      ghost var before := files;
      states := [files];
      if !env.marshalOk {
        return false, states;
      }
      var data := c.Marshal();
      for i := 0 to |env.torn|
        invariant states == TornStates(before, env.torn[..i])
        invariant files == Last(states) && files.path == before.path && files.corrupt == before.corrupt
      {
        files := files.(tmp := env.torn[i]);
        states := states + [files];
        assert env.torn[..i + 1][..i] == env.torn[..i];
      }
      assert env.torn[..|env.torn|] == env.torn;
      if !env.writeOk {
        return false, states;
      }
      files := files.(tmp := Some(data));
      states := states + [files];
      if !env.renameOk {
        if env.removeOk {
          files := files.(tmp := None);
          states := states + [files];
        }
        return false, states;
      }
      files := Files(files.tmp, None, files.corrupt);
      states := states + [files];
      return true, states;
    }
  }
}
