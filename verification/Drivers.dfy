/**
 The two callers of the watcher: the ticker's poll (main.go) and the trigger endpoint
 (pkg/handler/trigger_handler.go), each as one call on the shared gate. Module Gate interleaves them.
 */
module Drivers {
  import opened Text
  import opened Cursors
  import opened Gate
  import opened Watchers
  import opened Cycle

  /** One tick: skipped when a cycle holds the slot, otherwise a whole poll, and the slot is free again. */
  method Tick(gate: CycleGate, watcher: Watcher, p: PollInput, load: LoadEnv, save: SaveEnv) returns (ran: bool)
    requires p.allowed == watcher.allowed && (p.saveOk <==> SaveSucceeds(save)) && !p.force
    modifies gate, watcher`trace, watcher.store
    ensures ran == !old(gate.full)
    ensures gate.full == old(gate.full)
    ensures ran && !LoadFails(old(watcher.store.files), load) ==>
      var c := Decode(old(watcher.store.files).path);
      && watcher.trace == old(watcher.trace) + Cycle.Poll(c, p).events
      && Decode(watcher.store.files.path) == DiskAfter(c, p)
    ensures ran && (old(watcher.store.files.path).None?
                    || (load.readable && old(watcher.store.files.path).value.NotJson?)) ==>
      && watcher.trace == old(watcher.trace) + Cycle.Poll(EMPTY, p).events
      && Decode(watcher.store.files.path) == DiskAfter(EMPTY, p)
    ensures !ran || LoadFails(old(watcher.store.files), load) ==>
      watcher.trace == old(watcher.trace) && Decode(watcher.store.files.path) == Decode(old(watcher.store.files).path)
  {
    ran := gate.TryAcquire();
    if !ran {
      return;
    }
    ghost var before := watcher.store.files;
    LoadMeans(before, load);
    var failed, data, states := watcher.Poll(p, load, save);
    if failed {
      assert states == LoadStates(before, load);
    } else {
      var commit := PollIsAtomicOnDisk(before, p, data, load, save);
    }
    gate.Release();
  }

  /**
   A trigger request. A full slot is answered with a conflict and nothing starts; a runner that
   cannot start gives the slot back; otherwise the cycle owns the slot and runs with the parsed flag.
   */
  method ServeHTTP(gate: CycleGate, forceParam: string, runnerStarts: bool)
    returns (answer: Answer, started: Option<bool>)
    modifies gate
    ensures answer == Conflict <==> old(gate.full)
    ensures started.Some? <==> answer == Accepted
    ensures started.Some? ==> (started.value <==> forceParam == "true" || forceParam == "1")
    ensures gate.full <==> old(gate.full) || runnerStarts
    ensures !old(gate.full) ==> (answer == Accepted <==> runnerStarts)
  {
    var force := forceParam == "true" || forceParam == "1";
    var ok := gate.TryAcquire();
    if !ok {
      return Conflict, None;
    }
    if !runnerStarts {
      gate.Release();
      return InternalError, None;
    }
    return Accepted, Some(force);
  }
}
