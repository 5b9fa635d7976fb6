/**
 The worker's asynchronous dumps: submitted at the end of a step, reaped by polling,
 flushed on preemption, awaited before a finished request is handed back.
 */
module AsyncDump {
  import opened Wrappers
  import opened DumpManager
  import opened NullBlocks

  type Handle = nat

  // The device's event table. A handle of 0 means that no event was recorded.
  class Device {
    var events: set<Handle>
    ghost var created: multiset<Handle>
    ghost var destroyed: multiset<Handle>

    // Every event created was destroyed once, except those still in the table.
    ghost predicate Valid()
      reads this
    {
      0 !in events && created == destroyed + multiset(events)
    }

    constructor ()
      ensures Valid() && events == {} && created == multiset{}
    {
      events, created, destroyed := {}, multiset{}, multiset{};
    }

    // `handle` is what the runtime answers: 0 on failure, else a handle not in use.
    method GetEventHandle(handle: Handle) returns (h: Handle)
      requires Valid() && handle !in events
      modifies this
      ensures Valid() && h == handle && destroyed == old(destroyed)
      ensures events == if handle == 0 then old(events) else old(events) + {handle}
      ensures created == if handle == 0 then old(created) else old(created) + multiset{handle}
    {
      h := handle;
      if handle != 0 {
        events := events + {handle};
        created := created + multiset{handle};
      }
    }

    method DestroyEventHandle(handle: Handle)
      requires Valid() && handle in events
      modifies this
      ensures Valid() && events == old(events) - {handle}
      ensures created == old(created) && destroyed == old(destroyed) + multiset{handle}
    {
      events := events - {handle};
      destroyed := destroyed + multiset{handle};
    }
  }

  datatype PendingDumpTask = PendingDumpTask(task: TaskId, requestIds: set<RequestId>, eventHandle: Handle)

  // What the store answers about a task when polled.
  datatype CheckOutcome = Finished | InProgress | CheckRaised

  ghost function Handles(tasks: seq<PendingDumpTask>): set<Handle> {
    set i | 0 <= i < |tasks| && tasks[i].eventHandle != 0 :: tasks[i].eventHandle
  }

  ghost predicate OwnHandles(tasks: seq<PendingDumpTask>) {
    forall i, j :: 0 <= i < j < |tasks| && tasks[i].eventHandle != 0 ==> tasks[i].eventHandle != tasks[j].eventHandle
  }

  ghost predicate DistinctTasks(tasks: seq<PendingDumpTask>) {
    forall i, j :: 0 <= i < j < |tasks| ==> tasks[i].task != tasks[j].task
  }

  // The pending list and the manager's contexts agree task by task.
  ghost predicate Tracked(tasks: seq<PendingDumpTask>, contexts: map<TaskId, Blocks>, enabled: bool) {
    && DistinctTasks(tasks)
    && (forall i :: 0 <= i < |tasks| ==> tasks[i].task in contexts)
    && (forall t :: t in contexts ==> exists i :: 0 <= i < |tasks| && tasks[i].task == t)
    && (enabled ==> forall i :: 0 <= i < |tasks| ==> contexts[tasks[i].task].Keys == tasks[i].requestIds)
  }

  // The events outstanding are those of the given tasks, one each.
  ghost predicate Held(tasks: seq<PendingDumpTask>, events: set<Handle>, enableEventSync: bool) {
    && OwnHandles(tasks) && Handles(tasks) == events
    && (!enableEventSync ==> forall i :: 0 <= i < |tasks| ==> tasks[i].eventHandle == 0)
  }

  // Every request with a dump in flight is awaited before it is handed back.
  ghost predicate Awaited(tasks: seq<PendingDumpTask>, ids: set<RequestId>) {
    forall i :: 0 <= i < |tasks| ==> tasks[i].requestIds <= ids
  }

  class UCMDirectWorker {
    const enableEventSync: bool
    const skipsDump: bool  // MLA ranks other than rank 0 track requests but dump nothing
    const skipNullBlocks: bool
    const manager: RankConsistencyManager
    const device: Device
    var pendingDumpTasks: seq<PendingDumpTask>
    var asyncDumpReqIds: set<RequestId>

    // The given tasks are exactly what is in flight.
    ghost predicate Consistent(tasks: seq<PendingDumpTask>)
      reads this`asyncDumpReqIds, manager, device
    {
      && manager.Valid() && device.Valid()
      && Tracked(tasks, manager.dumpTaskContexts, manager.enabled)
      && Held(tasks, device.events, enableEventSync)
      && Awaited(tasks, asyncDumpReqIds)
    }

    // Between calls: the pending list is exactly what is in flight.
    ghost predicate Valid()
      reads this, manager, device
    {
      Consistent(pendingDumpTasks)
    }

    constructor (enableEventSync: bool, skipsDump: bool, skipNullBlocks: bool, consistency: bool)
      ensures Valid() && fresh(manager) && fresh(device)
      ensures pendingDumpTasks == [] && asyncDumpReqIds == {}
    {
      this.enableEventSync := enableEventSync;
      this.skipsDump := skipsDump;
      this.skipNullBlocks := skipNullBlocks;
      manager := new RankConsistencyManager(consistency);
      device := new Device();
      pendingDumpTasks, asyncDumpReqIds := [], {};
    }

    // Waits for one task, whatever its outcome, and releases its event.
    method WaitPendingDumpTask(ghost before: seq<PendingDumpTask>, t: PendingDumpTask, ghost after: seq<PendingDumpTask>, ok: bool)
      requires Consistent(before + [t] + after)
      modifies manager`dumpTaskContexts, manager`dumpFailedBlocksByRequest, manager`attempts, manager`attemptOf, device
      ensures Consistent(before + after)
      ensures manager.dumpTaskContexts == old(manager.dumpTaskContexts) - {t.task}
      ensures device.events <= old(device.events)
    {
      TrackedRemove(before, t, after, manager.dumpTaskContexts, manager.enabled);
      HeldRemove(before, t, after, device.events, enableEventSync);
      AwaitedRemove(before, t, after, asyncDumpReqIds);
      var waited := manager.WaitDump(t.task, ok);
      if enableEventSync && t.eventHandle != 0 {
        device.DestroyEventHandle(t.eventHandle);
      }
    }

    // One iteration over the pending list: keeps the task at i, or waits for it.
    method KeepOrWait(keep: PendingDumpTask -> bool, remaining: seq<PendingDumpTask>, tasks: seq<PendingDumpTask>, i: nat, ok: bool,
                      ghost inFlight: seq<PendingDumpTask>)
        returns (more: seq<PendingDumpTask>, ghost left: seq<PendingDumpTask>)
      requires i < |tasks| && Consistent(inFlight) && Reaped(keep, tasks, i, remaining, inFlight)
      modifies manager`dumpTaskContexts, manager`dumpFailedBlocksByRequest, manager`attempts, manager`attemptOf, device
      ensures Consistent(left) && Reaped(keep, tasks, i + 1, more, left)
      ensures manager.dumpTaskContexts.Keys <= old(manager.dumpTaskContexts.Keys)
      ensures device.events <= old(device.events)
    {
      assert inFlight == remaining + [tasks[i]] + tasks[i + 1..];
      KeptNext(tasks, keep, i);
      if keep(tasks[i]) {
        more := remaining + [tasks[i]];
      } else {
        WaitPendingDumpTask(remaining, tasks[i], tasks[i + 1..], ok);
        more := remaining;
      }
      left := more + tasks[i + 1..];
    }

    // Waits for the tasks that are not to be kept, in order.
    method Reap(keep: PendingDumpTask -> bool, waits: TaskId -> bool)
      requires Valid()
      modifies this`pendingDumpTasks, manager`dumpTaskContexts, manager`dumpFailedBlocksByRequest,
               manager`attempts, manager`attemptOf, device
      ensures Valid()
      ensures pendingDumpTasks == Kept(old(pendingDumpTasks), keep)
      ensures manager.dumpTaskContexts.Keys <= old(manager.dumpTaskContexts.Keys)
      ensures device.events <= old(device.events)
    {
      var remaining := GoThrough(pendingDumpTasks, keep, waits);
      pendingDumpTasks := remaining;
    }

    method GoThrough(tasks: seq<PendingDumpTask>, keep: PendingDumpTask -> bool, waits: TaskId -> bool)
        returns (remaining: seq<PendingDumpTask>)
      requires Consistent(tasks)
      modifies manager`dumpTaskContexts, manager`dumpFailedBlocksByRequest, manager`attempts, manager`attemptOf, device
      ensures Consistent(remaining) && remaining == Kept(tasks, keep)
      ensures manager.dumpTaskContexts.Keys <= old(manager.dumpTaskContexts.Keys)
      ensures device.events <= old(device.events)
    {
      remaining := [];
      ghost var inFlight := tasks;
      NoneReaped(keep, tasks);
      for i := 0 to |tasks|
        invariant Consistent(inFlight) && Reaped(keep, tasks, i, remaining, inFlight)
        invariant manager.dumpTaskContexts.Keys <= old(manager.dumpTaskContexts.Keys)
        invariant device.events <= old(device.events)
      {
        remaining, inFlight := KeepOrWait(keep, remaining, tasks, i, waits(tasks[i].task), inFlight);
      }
      AllReaped(keep, tasks, remaining, inFlight);
    }

    // Reaps the tasks the store says are finished.
    method PollPendingDumpTasks(checks: TaskId -> CheckOutcome, waits: TaskId -> bool)
      requires Valid()
      modifies this`pendingDumpTasks, manager`dumpTaskContexts, manager`dumpFailedBlocksByRequest,
               manager`attempts, manager`attemptOf, device
      ensures Valid()
      ensures pendingDumpTasks == Kept(old(pendingDumpTasks), Unfinished(checks))
      ensures Polled(pendingDumpTasks, old(pendingDumpTasks), checks)
      ensures manager.dumpTaskContexts.Keys <= old(manager.dumpTaskContexts.Keys)
      ensures device.events <= old(device.events)
    {
      Reap(Unfinished(checks), waits);
      PolledIsKept(old(pendingDumpTasks), checks);
    }

    // Waits for every task that carries one of the given requests.
    method FlushPendingDumpTasks(ids: set<RequestId>, waits: TaskId -> bool)
      requires Valid()
      modifies this`pendingDumpTasks, manager`dumpTaskContexts, manager`dumpFailedBlocksByRequest,
               manager`attempts, manager`attemptOf, device
      ensures Valid()
      ensures pendingDumpTasks == Kept(old(pendingDumpTasks), Sparing(ids))
      ensures Flushed(pendingDumpTasks, old(pendingDumpTasks), ids)
      ensures forall r :: r in ids ==> !InFlightFor(r)
    {
      Reap(Sparing(ids), waits);
      FlushedIsKept(old(pendingDumpTasks), ids);
      assert forall t: PendingDumpTask, r :: r in ids && r in t.requestIds ==> r in t.requestIds * ids;
    }

    method HandlePreemptions(preempted: set<RequestId>, waits: TaskId -> bool)
      requires Valid()
      modifies this`pendingDumpTasks, manager, device
      ensures Valid()
      ensures pendingDumpTasks == Kept(old(pendingDumpTasks), Sparing(preempted))
      ensures Flushed(pendingDumpTasks, old(pendingDumpTasks), preempted)
      ensures forall r :: r in preempted ==> !InFlightFor(r)
    {
      if preempted != {} {
        FlushPendingDumpTasks(preempted, waits);
      } else {
        KeptAll(pendingDumpTasks, Sparing({}));
        FlushedIsKept(pendingDumpTasks, {});
      }
    }

    ghost predicate InFlightFor(r: RequestId)
      reads this
    {
      exists i :: 0 <= i < |pendingDumpTasks| && r in pendingDumpTasks[i].requestIds
    }

    method GetDumpEventHandle(handle: Handle) returns (h: Handle)
      requires device.Valid() && handle !in device.events
      modifies device
      ensures device.Valid() && h == if enableEventSync then handle else 0
      ensures device.events == old(device.events) + (if h == 0 then {} else {h})
    {
      if !enableEventSync {
        return 0;
      }
      h := device.GetEventHandle(handle);
    }

    // Submits the dumps of a step as one task and queues it.
    method SubmitDumps(blocks: Blocks, handle: Handle, task: TaskId, accepted: bool)
      requires Valid() && handle !in device.events && task !in manager.dumpTaskContexts
      requires blocks.Keys <= asyncDumpReqIds
      modifies this`pendingDumpTasks, manager, device
      ensures Valid()
      ensures pendingDumpTasks == old(pendingDumpTasks) +
                (if accepted then [PendingDumpTask(task, blocks.Keys, if enableEventSync then handle else 0)] else [])
      ensures accepted ==> task in manager.dumpTaskContexts && manager.dumpTaskContexts[task] == manager.Context(blocks)
    {
      var eventHandle := GetDumpEventHandle(handle);
      var submitted := manager.SubmitDump(task, blocks, accepted);
      if submitted.Err? {
        if eventHandle != 0 {
          device.DestroyEventHandle(eventHandle);
          assert device.events == old(device.events);
        }
        return;
      }
      var t := PendingDumpTask(task, blocks.Keys, eventHandle);
      TrackedAppend(pendingDumpTasks, t, old(manager.dumpTaskContexts), manager.dumpTaskContexts, manager.enabled);
      HeldAppend(pendingDumpTasks, t, old(device.events), enableEventSync);
      AwaitedAppend(pendingDumpTasks, t, asyncDumpReqIds);
      pendingDumpTasks := pendingDumpTasks + [t];
    }

    // The end of a step. `handle` and `task` are the identities the device and the store
    // would give, `addressed` and `accepted` the outcomes of addressing and submission.
    // A request whose blocks are all null is awaited all the same, but not dumped.
    method WaitForSave(dumps: map<RequestId, DumpPlan>, checks: TaskId -> CheckOutcome, waits: TaskId -> bool,
                       handle: Handle, task: TaskId, addressed: bool, accepted: bool)
      requires Valid() && handle !in device.events && task !in manager.dumpTaskContexts
      modifies this`pendingDumpTasks, this`asyncDumpReqIds, manager, device
      ensures Valid()
      ensures forall r :: r in asyncDumpReqIds <==> r in old(asyncDumpReqIds) || (r in dumps && dumps[r].ids != [])
      ensures StepSaved(pendingDumpTasks, old(pendingDumpTasks), checks, dumps, skipNullBlocks, !skipsDump && addressed && accepted,
                        task, if enableEventSync then handle else 0)
      ensures manager.enabled && !skipsDump && addressed && accepted ==>
                CarriesStep(manager.dumpTaskContexts, task, dumps, skipNullBlocks)
    {
      PollPendingDumpTasks(checks, waits);
      asyncDumpReqIds := asyncDumpReqIds + Dumping(dumps);
      SubmitStep(dumps, handle, task, addressed, accepted);
      StepIsSaved(old(pendingDumpTasks), Kept(old(pendingDumpTasks), Unfinished(checks)), checks, dumps, skipNullBlocks,
                  !skipsDump && addressed && accepted, task, if enableEventSync then handle else 0);
    }

    // Submits what is to be dumped of a step, if anything.
    method SubmitStep(dumps: map<RequestId, DumpPlan>, handle: Handle, task: TaskId, addressed: bool, accepted: bool)
      requires Valid() && handle !in device.events && task !in manager.dumpTaskContexts
      requires Dumping(dumps) <= asyncDumpReqIds
      modifies this`pendingDumpTasks, manager, device
      ensures Valid()
      ensures pendingDumpTasks == old(pendingDumpTasks) +
                StepTasks(dumps, skipNullBlocks, !skipsDump && addressed && accepted, task, if enableEventSync then handle else 0)
      ensures manager.enabled && !skipsDump && addressed && accepted ==>
                CarriesStep(manager.dumpTaskContexts, task, dumps, skipNullBlocks)
    {
      if skipsDump {
        return;
      }
      var blocks := BlocksOf(dumps, skipNullBlocks);
      if blocks == map[] || !addressed {
        return;
      }
      SubmitDumps(blocks, handle, task, accepted);
    }

    // Hands back the finished requests that dumped asynchronously, none of them with
    // a dump in flight; the manager's complaint about pending dumps never occurs.
    method GetFinished(finished: set<RequestId>, waits: TaskId -> bool) returns (result: Result<set<RequestId>>)
      requires Valid()
      modifies this, manager, device
      ensures Valid()
      ensures result == Ok(finished * old(asyncDumpReqIds))
      ensures asyncDumpReqIds == old(asyncDumpReqIds) - finished
      ensures pendingDumpTasks == Kept(old(pendingDumpTasks), Sparing(finished * old(asyncDumpReqIds)))
      ensures Flushed(pendingDumpTasks, old(pendingDumpTasks), finished * old(asyncDumpReqIds))
      ensures forall r :: r in finished ==> !InFlightFor(r)
    {
      var asyncFinished := finished * asyncDumpReqIds;
      if asyncFinished != {} {
        FlushPendingDumpTasks(asyncFinished, waits);
      } else {
        KeptAll(pendingDumpTasks, Sparing({}));
        FlushedIsKept(pendingDumpTasks, {});
      }
      result := FinishAwaited(asyncFinished);
    }

    // Reports requests that have no dump in flight, and no longer awaits them.
    method FinishAwaited(ids: set<RequestId>) returns (result: Result<set<RequestId>>)
      requires Valid() && forall r :: r in ids ==> !InFlightFor(r)
      modifies this`asyncDumpReqIds, manager
      ensures Valid()
      ensures result == Ok(ids) && asyncDumpReqIds == old(asyncDumpReqIds) - ids
      ensures forall r :: old(!InFlightFor(r)) ==> !InFlightFor(r)
    {
      NonePending(ids);
      var reported := manager.FinishDump(ids);
      if reported.Ok? {
        asyncDumpReqIds := asyncDumpReqIds - ids;
      }
      result := if reported.Ok? then Ok(ids) else Err("Dump tasks are still pending");
    }

    lemma NonePending(ids: set<RequestId>)
      requires Valid()
      requires forall r :: r in ids ==> !InFlightFor(r)
      ensures manager.enabled ==> forall r :: r in ids ==> !manager.DumpPending(r)
    {
      if manager.enabled {
        forall t, r | t in manager.dumpTaskContexts && r in ids ensures r !in manager.dumpTaskContexts[t] {
          var i :| 0 <= i < |pendingDumpTasks| && pendingDumpTasks[i].task == t;
          assert !InFlightFor(r);
        }
      }
    }
  }

  // What a step dumps for one request: store keys paired with device blocks.
  datatype DumpPlan = DumpPlan(ids: seq<BlockId>, blocks: seq<nat>)

  // The requests that a step plans to dump for.
  function Dumping(dumps: map<RequestId, DumpPlan>): set<RequestId> {
    set r | r in dumps && dumps[r].ids != []
  }

  // The keys to dump for a request, without those of null blocks.
  function RealIds(d: DumpPlan, skipNullBlocks: bool): seq<BlockId> {
    if skipNullBlocks then DropNull(d.ids, d.blocks).0 else d.ids
  }

  // A key is dumped when its block is real, or when null blocks are not looked for.
  ghost predicate ToDump(d: DumpPlan, skipNullBlocks: bool, key: BlockId) {
    if skipNullBlocks && d.blocks != []
    then exists i :: 0 <= i < |d.ids| && i < |d.blocks| && d.ids[i] == key && d.blocks[i] != 0
    else key in d.ids
  }

  lemma RealIdsMeaning(d: DumpPlan, skipNullBlocks: bool, key: BlockId)
    ensures key in RealIds(d, skipNullBlocks) <==> ToDump(d, skipNullBlocks, key)
  {
    if skipNullBlocks && d.ids != [] && d.blocks != [] {
      RealKeys(d.ids, d.blocks, if |d.ids| <= |d.blocks| then |d.ids| else |d.blocks|, key);
    }
  }

  // What is left to dump of a step.
  function BlocksOf(dumps: map<RequestId, DumpPlan>, skipNullBlocks: bool): (blocks: Blocks)
    ensures blocks.Keys <= Dumping(dumps)
    ensures forall r :: r in blocks <==> r in dumps && Dumps(dumps[r], skipNullBlocks)
    ensures forall r, key :: r in blocks ==> (key in blocks[r] <==> ToDump(dumps[r], skipNullBlocks, key))
  {
    RealRequests(dumps, skipNullBlocks);
    map r | r in dumps && dumps[r].ids != [] && RealIds(dumps[r], skipNullBlocks) != [] ::
      set b | b in RealIds(dumps[r], skipNullBlocks)
  }

  // A request has something to dump.
  ghost predicate Dumps(d: DumpPlan, skipNullBlocks: bool) {
    exists key :: ToDump(d, skipNullBlocks, key)
  }

  // The task a step queues, if any: its requests are those with something to dump.
  ghost predicate IsStepTask(queued: seq<PendingDumpTask>, dumps: map<RequestId, DumpPlan>, skipNullBlocks: bool, submits: bool,
                             task: TaskId, handle: Handle)
  {
    && |queued| == (if submits && exists r :: r in dumps && Dumps(dumps[r], skipNullBlocks) then 1 else 0)
    && (forall t :: t in queued ==> t.task == task && t.eventHandle == handle)
    && (forall t, r :: t in queued ==> (r in t.requestIds <==> r in dumps && Dumps(dumps[r], skipNullBlocks)))
  }

  // If a step has anything to dump, its task carries exactly the keys to dump.
  ghost predicate CarriesStep(contexts: map<TaskId, Blocks>, task: TaskId, dumps: map<RequestId, DumpPlan>, skipNullBlocks: bool) {
    (exists r :: r in dumps && Dumps(dumps[r], skipNullBlocks)) ==>
      && task in contexts
      && forall r, key :: r in dumps ==> (key in Get(contexts[task], r) <==> ToDump(dumps[r], skipNullBlocks, key))
  }

  // After a step the polled tasks are followed by the one it queued.
  ghost predicate StepSaved(after: seq<PendingDumpTask>, before: seq<PendingDumpTask>, checks: TaskId -> CheckOutcome,
                            dumps: map<RequestId, DumpPlan>, skipNullBlocks: bool, submits: bool, task: TaskId, handle: Handle)
  {
    exists kept, queued :: after == kept + queued && Polled(kept, before, checks) &&
                           IsStepTask(queued, dumps, skipNullBlocks, submits, task, handle)
  }

  ghost function StepTasks(dumps: map<RequestId, DumpPlan>, skipNullBlocks: bool, submits: bool, task: TaskId, handle: Handle)
      : seq<PendingDumpTask>
  {
    var blocks := BlocksOf(dumps, skipNullBlocks);
    if submits && blocks != map[] then [PendingDumpTask(task, blocks.Keys, handle)] else []
  }

  lemma StepIsSaved(before: seq<PendingDumpTask>, kept: seq<PendingDumpTask>, checks: TaskId -> CheckOutcome,
                    dumps: map<RequestId, DumpPlan>, skipNullBlocks: bool, submits: bool, task: TaskId, handle: Handle)
    requires Polled(kept, before, checks)
    ensures StepSaved(kept + StepTasks(dumps, skipNullBlocks, submits, task, handle), before, checks, dumps, skipNullBlocks, submits, task, handle)
    ensures BlocksOf(dumps, skipNullBlocks) != map[] <==> exists r :: r in dumps && Dumps(dumps[r], skipNullBlocks)
  {
    var blocks := BlocksOf(dumps, skipNullBlocks);
    if blocks != map[] {
      var r :| r in blocks;
    }
    assert IsStepTask(StepTasks(dumps, skipNullBlocks, submits, task, handle), dumps, skipNullBlocks, submits, task, handle);
  }

  lemma RealRequests(dumps: map<RequestId, DumpPlan>, skipNullBlocks: bool)
    ensures forall r, key :: r in dumps ==> (key in RealIds(dumps[r], skipNullBlocks) <==> ToDump(dumps[r], skipNullBlocks, key))
    ensures forall r :: r in dumps ==> (RealIds(dumps[r], skipNullBlocks) != [] <==> Dumps(dumps[r], skipNullBlocks))
  {
    forall r, key | r in dumps ensures key in RealIds(dumps[r], skipNullBlocks) <==> ToDump(dumps[r], skipNullBlocks, key) {
      RealIdsMeaning(dumps[r], skipNullBlocks, key);
    }
    forall r | r in dumps
      ensures RealIds(dumps[r], skipNullBlocks) != [] <==> Dumps(dumps[r], skipNullBlocks)
    {
      var ids := RealIds(dumps[r], skipNullBlocks);
      if ids != [] { assert ids[0] in ids; }
    }
  }

  // A list with some of the entries of another, in the same order.
  ghost predicate InOrder(some: seq<PendingDumpTask>, all: seq<PendingDumpTask>) {
    exists at: seq<nat> :: Places(at, some, all)
  }

  ghost predicate Places(at: seq<nat>, some: seq<PendingDumpTask>, all: seq<PendingDumpTask>) {
    && |at| == |some|
    && (forall i, j :: 0 <= i < j < |at| ==> at[i] < at[j])
    && forall i :: 0 <= i < |at| ==> at[i] < |all| && some[i] == all[at[i]]
  }

  // After polling, the tasks not reported finished are left, in order.
  ghost predicate Polled(after: seq<PendingDumpTask>, before: seq<PendingDumpTask>, checks: TaskId -> CheckOutcome) {
    InOrder(after, before) && forall t :: t in after <==> t in before && checks(t.task) != Finished
  }

  // After flushing, the tasks that share no request with the given ones are left, in order.
  ghost predicate Flushed(after: seq<PendingDumpTask>, before: seq<PendingDumpTask>, ids: set<RequestId>) {
    InOrder(after, before) && forall t :: t in after <==> t in before && t.requestIds !! ids
  }

  lemma PolledIsKept(tasks: seq<PendingDumpTask>, checks: TaskId -> CheckOutcome)
    ensures Polled(Kept(tasks, Unfinished(checks)), tasks, checks)
  {
    KeptMeaning(tasks, Unfinished(checks));
    var _ := KeptPlaces(tasks, Unfinished(checks));
  }

  lemma FlushedIsKept(tasks: seq<PendingDumpTask>, ids: set<RequestId>)
    ensures Flushed(Kept(tasks, Sparing(ids)), tasks, ids)
  {
    KeptMeaning(tasks, Sparing(ids));
    var _ := KeptPlaces(tasks, Sparing(ids));
    forall t: PendingDumpTask ensures Sparing(ids)(t) <==> t.requestIds !! ids {
      if t.requestIds !! ids {
        assert t.requestIds * ids == {};
      } else {
        var r :| r in t.requestIds && r in ids;
        assert r in t.requestIds * ids;
      }
    }
  }

  lemma {:induction false} KeptPlaces(tasks: seq<PendingDumpTask>, keep: PendingDumpTask -> bool) returns (at: seq<nat>)
    ensures Places(at, Kept(tasks, keep), tasks)
  {
    if tasks == [] {
      return [];
    }
    var n := |tasks| - 1;
    at := KeptPlaces(tasks[..n], keep);
    if keep(tasks[n]) {
      at := at + [n];
    }
  }

  function Unfinished(checks: TaskId -> CheckOutcome): PendingDumpTask -> bool {
    (t: PendingDumpTask) => checks(t.task) != Finished
  }

  // Picks the tasks that carry none of the given requests.
  function Sparing(ids: set<RequestId>): PendingDumpTask -> bool {
    (t: PendingDumpTask) => t.requestIds * ids == {}
  }

  ghost function Kept(tasks: seq<PendingDumpTask>, keep: PendingDumpTask -> bool): seq<PendingDumpTask> {
    if tasks == [] then []
    else
      var n := |tasks| - 1;
      Kept(tasks[..n], keep) + if keep(tasks[n]) then [tasks[n]] else []
  }

  // The first i tasks have been gone through.
  ghost predicate Reaped(keep: PendingDumpTask -> bool, tasks: seq<PendingDumpTask>, i: nat, remaining: seq<PendingDumpTask>,
                         inFlight: seq<PendingDumpTask>)
  {
    i <= |tasks| && inFlight == remaining + tasks[i..] && remaining == Kept(tasks[..i], keep)
  }

  lemma NoneReaped(keep: PendingDumpTask -> bool, tasks: seq<PendingDumpTask>)
    ensures Reaped(keep, tasks, 0, [], tasks)
  {
    assert tasks[..0] == [] && tasks[0..] == tasks;
  }

  lemma AllReaped(keep: PendingDumpTask -> bool, tasks: seq<PendingDumpTask>, remaining: seq<PendingDumpTask>,
                  inFlight: seq<PendingDumpTask>)
    requires Reaped(keep, tasks, |tasks|, remaining, inFlight)
    ensures inFlight == remaining == Kept(tasks, keep)
  {
    assert tasks[..|tasks|] == tasks;
  }

  lemma KeptNext(tasks: seq<PendingDumpTask>, keep: PendingDumpTask -> bool, i: nat)
    requires i < |tasks|
    ensures Kept(tasks[..i + 1], keep) == Kept(tasks[..i], keep) + if keep(tasks[i]) then [tasks[i]] else []
  {
    assert tasks[..i + 1][..i] == tasks[..i];
  }

  lemma {:induction false} KeptAll(tasks: seq<PendingDumpTask>, keep: PendingDumpTask -> bool)
    requires forall t :: keep(t)
    ensures Kept(tasks, keep) == tasks
  {
    if tasks != [] {
      KeptAll(tasks[..|tasks| - 1], keep);
    }
  }

  lemma {:induction false} KeptMeaning(tasks: seq<PendingDumpTask>, keep: PendingDumpTask -> bool)
    ensures forall t :: t in Kept(tasks, keep) <==> t in tasks && keep(t)
    ensures forall i :: 0 <= i < |Kept(tasks, keep)| ==> keep(Kept(tasks, keep)[i])
  {
    if tasks != [] {
      var n := |tasks| - 1;
      KeptMeaning(tasks[..n], keep);
      assert tasks == tasks[..n] + [tasks[n]];
    }
  }

  lemma TrackedAppend(tasks: seq<PendingDumpTask>, t: PendingDumpTask, contexts: map<TaskId, Blocks>,
                      contexts': map<TaskId, Blocks>, enabled: bool)
    requires Tracked(tasks, contexts, enabled) && t.task !in contexts
    requires t.task in contexts' && contexts' == contexts[t.task := contexts'[t.task]]
    requires enabled ==> contexts'[t.task].Keys == t.requestIds
    ensures Tracked(tasks + [t], contexts', enabled)
  {
    Appended(tasks, t);
    forall c | c in contexts' ensures exists i :: 0 <= i < |tasks + [t]| && (tasks + [t])[i].task == c {
      if c != t.task {
        var i :| 0 <= i < |tasks| && tasks[i].task == c;
        assert (tasks + [t])[i].task == c;
      }
    }
  }

  lemma Appended(tasks: seq<PendingDumpTask>, t: PendingDumpTask)
    ensures forall i :: 0 <= i < |tasks| ==> (tasks + [t])[i] == tasks[i]
    ensures (tasks + [t])[|tasks|] == t
  {
  }

  lemma HeldAppend(tasks: seq<PendingDumpTask>, t: PendingDumpTask, events: set<Handle>, enableEventSync: bool)
    requires Held(tasks, events, enableEventSync) && t.eventHandle !in events
    requires !enableEventSync ==> t.eventHandle == 0
    ensures Held(tasks + [t], events + (if t.eventHandle == 0 then {} else {t.eventHandle}), enableEventSync)
  {
    var more := tasks + [t];
    Appended(tasks, t);
    forall h ensures h in Handles(more) <==> h in events || (h != 0 && h == t.eventHandle) {
      if h in events {
        var i :| 0 <= i < |tasks| && tasks[i].eventHandle != 0 && tasks[i].eventHandle == h;
        assert more[i] == tasks[i];
      }
    }
  }

  lemma AwaitedAppend(tasks: seq<PendingDumpTask>, t: PendingDumpTask, ids: set<RequestId>)
    requires Awaited(tasks, ids) && t.requestIds <= ids
    ensures Awaited(tasks + [t], ids)
  {
    Appended(tasks, t);
  }

  ghost function After(n: nat, i: nat): nat {
    if i < n then i else i + 1
  }

  lemma Removal(before: seq<PendingDumpTask>, t: PendingDumpTask, after: seq<PendingDumpTask>)
    ensures (before + [t] + after)[|before|] == t
    ensures forall i :: 0 <= i < |before + after| ==> (before + after)[i] == (before + [t] + after)[After(|before|, i)]
  {
  }

  lemma HeldRemove(before: seq<PendingDumpTask>, t: PendingDumpTask, after: seq<PendingDumpTask>,
                   events: set<Handle>, enableEventSync: bool)
    requires Held(before + [t] + after, events, enableEventSync)
    ensures t.eventHandle != 0 ==> enableEventSync && t.eventHandle in events
    ensures Held(before + after, if t.eventHandle == 0 then events else events - {t.eventHandle}, enableEventSync)
  {
    var tasks, rest, n := before + [t] + after, before + after, |before|;
    Removal(before, t, after);
    forall h ensures h in Handles(rest) <==> h in events && (h != t.eventHandle || t.eventHandle == 0) {
      if h in Handles(rest) {
        var i :| 0 <= i < |rest| && rest[i].eventHandle != 0 && rest[i].eventHandle == h;
        assert tasks[After(n, i)] == rest[i];
      }
      if h in events && h != t.eventHandle {
        var i :| 0 <= i < |tasks| && tasks[i].eventHandle != 0 && tasks[i].eventHandle == h;
        assert rest[if i < n then i else i - 1] == tasks[i];
      }
    }
  }

  lemma AwaitedRemove(before: seq<PendingDumpTask>, t: PendingDumpTask, after: seq<PendingDumpTask>, ids: set<RequestId>)
    requires Awaited(before + [t] + after, ids)
    ensures Awaited(before + after, ids)
  {
    Removal(before, t, after);
  }

  lemma TrackedRemove(before: seq<PendingDumpTask>, t: PendingDumpTask, after: seq<PendingDumpTask>,
                      contexts: map<TaskId, Blocks>, enabled: bool)
    requires Tracked(before + [t] + after, contexts, enabled)
    ensures Tracked(before + after, contexts - {t.task}, enabled)
    ensures t.task in contexts
  {
    var tasks, rest, n := before + [t] + after, before + after, |before|;
    Removal(before, t, after);
    OtherTasks(tasks, t, rest, n);
    forall c | c in contexts - {t.task} ensures exists i :: 0 <= i < |rest| && rest[i].task == c {
      var i :| 0 <= i < |tasks| && tasks[i].task == c;
      var j := if i < n then i else i - 1;
      assert tasks[After(n, j)] == rest[j];
    }
  }

  lemma OtherTasks(tasks: seq<PendingDumpTask>, t: PendingDumpTask, rest: seq<PendingDumpTask>, n: nat)
    requires DistinctTasks(tasks) && n < |tasks| == |rest| + 1 && tasks[n] == t
    requires forall i :: 0 <= i < |rest| ==> rest[i] == tasks[After(n, i)]
    ensures DistinctTasks(rest) && forall i :: 0 <= i < |rest| ==> rest[i].task != t.task
  {
    assert forall i, j :: 0 <= i < j < |rest| ==> After(n, i) < After(n, j);
  }

  // ------------------------------------------------- handing requests back

  // The scheduler's and the worker's record of asynchronously dumping requests; those a
  // step has planned but the worker not yet recorded; the requests finished since the last
  // step, those the worker is told of in the current one, and the finished requests whose
  // blocks the scheduler keeps until the worker hands them back.
  datatype Sides = Sides(scheduler: set<RequestId>, worker: set<RequestId>, planned: set<RequestId>,
                         finished: set<RequestId>, told: set<RequestId>, delayed: set<RequestId>)

  datatype Move =
    | Scheduled(ids: set<RequestId>)    // a step that dumps for these requests goes to the worker
    | Saved                             // the worker records them at the end of the step
    | RequestFinished(id: RequestId)    // the scheduler decides whether to delay the free
    | Collected                         // the worker answers for the requests it was told of

  function Moved(s: Sides, m: Move): Sides {
    match m
    case Scheduled(ids) =>
      s.(scheduler := s.scheduler + ids, planned := s.planned + ids, told := s.told + s.finished, finished := {})
    case Saved => s.(worker := s.worker + s.planned, planned := {})
    case RequestFinished(id) =>
      if id in s.scheduler
      then s.(scheduler := s.scheduler - {id}, finished := s.finished + {id}, delayed := s.delayed + {id})
      else s.(finished := s.finished + {id})
    case Collected => s.(worker := s.worker - s.told, told := {}, delayed := s.delayed - HandedBack(s))
  }

  // The finished requests the worker hands back when asked.
  function HandedBack(s: Sides): set<RequestId> {
    s.told * s.worker
  }

  function SidesAfter(moves: seq<Move>): Sides {
    if moves == [] then Sides({}, {}, {}, {}, {}, {}) else Moved(SidesAfter(moves[..|moves| - 1]), moves[|moves| - 1])
  }

  // The engine schedules no request that has finished, finishes none twice, and asks the
  // worker after it has saved; a request may finish anywhere in between.
  ghost predicate Allowed(s: Sides, m: Move) {
    match m
    case Scheduled(ids) => ids !! s.finished && ids !! s.told
    case RequestFinished(id) => id !in s.finished && id !in s.told
    case Collected => s.planned == {}
    case Saved => true
  }

  ghost predicate Orderly(moves: seq<Move>) {
    forall k :: 0 <= k < |moves| ==> Allowed(SidesAfter(moves[..k]), moves[k])
  }

  ghost predicate InStep(s: Sides) {
    && (s.finished + s.told) * (s.worker + s.planned) == s.delayed
    && s.worker + s.planned == s.scheduler + s.delayed
    && s.scheduler !! s.finished + s.told && s.finished !! s.told
  }

  lemma MoveKeepsStep(s: Sides, m: Move)
    requires InStep(s) && Allowed(s, m)
    ensures InStep(Moved(s, m))
  {
  }

  lemma {:induction false} SidesStayInStep(moves: seq<Move>)
    requires Orderly(moves)
    ensures InStep(SidesAfter(moves))
  {
    if moves != [] {
      var n := |moves| - 1;
      assert forall k :: 0 <= k < n ==> moves[..n][..k] == moves[..k];
      SidesStayInStep(moves[..n]);
      MoveKeepsStep(SidesAfter(moves[..n]), moves[n]);
    }
  }

  // Whenever the worker is asked, it hands back exactly those of the finished requests it
  // was told of whose blocks were kept: none is forgotten, and none that was freed already
  // is handed back.
  lemma HandedBackIffDelayed(moves: seq<Move>)
    requires Orderly(moves) && moves != [] && moves[|moves| - 1] == Collected
    ensures var s := SidesAfter(moves[..|moves| - 1]);
            HandedBack(s) == s.told * s.delayed && SidesAfter(moves).delayed == s.delayed - s.told
  {
    var n := |moves| - 1;
    assert forall k :: 0 <= k < n ==> moves[..n][..k] == moves[..k];
    SidesStayInStep(moves[..n]);
    assert Allowed(SidesAfter(moves[..n]), moves[n]);
  }
}
