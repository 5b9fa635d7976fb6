/**
 The worker's half of the consistency manager: which tasks are in flight for which
 requests, which blocks a load found missing, and which dumps may be reported as
 successful. The store's answers are parameters of the operations.
 */
module DumpManager {
  import opened Wrappers

  type TaskId = nat
  type RequestId = nat
  type BlockId = nat
  type Blocks = map<RequestId, set<BlockId>>

  datatype StoreOutcome = Done | NotFound | Failed

  // One submitted dump and what became of it.
  datatype Fate = InFlight(task: TaskId) | Stored | Lost
  datatype Attempt = Attempt(blocks: Blocks, fate: Fate)

  function Get(m: Blocks, r: RequestId): set<BlockId> {
    if r in m then m[r] else {}
  }

  // Adds every request's blocks to those already collected for it.
  function Collected(m: Blocks, more: Blocks): (c: Blocks)
    ensures forall r :: Get(c, r) == Get(m, r) + Get(more, r)
  {
    map r | r in m.Keys + more.Keys :: Get(m, r) + Get(more, r)
  }

  // The blocks of a request in all dumps, and in those that failed.
  ghost function Submitted(attempts: seq<Attempt>, r: RequestId): set<BlockId> {
    if attempts == [] then {}
    else Submitted(attempts[..|attempts| - 1], r) + Get(attempts[|attempts| - 1].blocks, r)
  }

  ghost function LostBlocks(attempts: seq<Attempt>, r: RequestId): set<BlockId> {
    if attempts == [] then {}
    else
      var last := attempts[|attempts| - 1];
      LostBlocks(attempts[..|attempts| - 1], r) + (if last.fate == Lost then Get(last.blocks, r) else {})
  }

  // Forgets the finished requests.
  ghost function Without(attempts: seq<Attempt>, ids: set<RequestId>): seq<Attempt> {
    seq(|attempts|, i requires 0 <= i < |attempts| => Attempt(attempts[i].blocks - ids, attempts[i].fate))
  }

  lemma {:induction false} AppendAttempt(attempts: seq<Attempt>, a: Attempt, r: RequestId)
    ensures Submitted(attempts + [a], r) == Submitted(attempts, r) + Get(a.blocks, r)
    ensures LostBlocks(attempts + [a], r) == LostBlocks(attempts, r) + (if a.fate == Lost then Get(a.blocks, r) else {})
  {
    assert (attempts + [a])[..|attempts|] == attempts;
  }

  lemma {:induction false} SettleAttempt(attempts: seq<Attempt>, i: nat, fate: Fate, r: RequestId)
    requires i < |attempts| && attempts[i].fate.InFlight? && !fate.InFlight?
    ensures var after := attempts[i := attempts[i].(fate := fate)];
            && Submitted(after, r) == Submitted(attempts, r)
            && LostBlocks(after, r) == LostBlocks(attempts, r) + (if fate == Lost then Get(attempts[i].blocks, r) else {})
  {
    var n := |attempts| - 1;
    var after := attempts[i := attempts[i].(fate := fate)];
    if i < n {
      SettleAttempt(attempts[..n], i, fate, r);
      assert after[..n] == attempts[..n][i := attempts[i].(fate := fate)];
    } else {
      assert after[..n] == attempts[..n];
    }
  }

  lemma {:induction false} ForgetRequests(attempts: seq<Attempt>, ids: set<RequestId>, r: RequestId)
    ensures Submitted(Without(attempts, ids), r) == if r in ids then {} else Submitted(attempts, r)
    ensures LostBlocks(Without(attempts, ids), r) == if r in ids then {} else LostBlocks(attempts, r)
  {
    if attempts != [] {
      var n := |attempts| - 1;
      ForgetRequests(attempts[..n], ids, r);
      assert Without(attempts, ids)[..n] == Without(attempts[..n], ids);
    }
  }

  // What is reported for a request: blocks that some dump covered and no failed one did.
  lemma {:induction false} ReportedMeaning(attempts: seq<Attempt>, r: RequestId, b: BlockId)
    ensures b in Submitted(attempts, r) <==> exists i :: 0 <= i < |attempts| && b in Get(attempts[i].blocks, r)
    ensures b in LostBlocks(attempts, r) <==>
            exists i :: 0 <= i < |attempts| && attempts[i].fate == Lost && b in Get(attempts[i].blocks, r)
  {
    if attempts != [] {
      var n := |attempts| - 1;
      var front := attempts[..n];
      ReportedMeaning(front, r, b);
      assert forall i :: 0 <= i < n ==> front[i] == attempts[i];
    }
  }

  // The collected blocks are those of the attempts since each request last finished.
  ghost predicate Accounts(blocks: Blocks, failed: Blocks, attempts: seq<Attempt>) {
    && (forall r :: Get(blocks, r) == Submitted(attempts, r))
    && (forall r :: Get(failed, r) == LostBlocks(attempts, r))
  }

  // The attempts in flight are exactly the pending contexts.
  ghost predicate Matches(contexts: map<TaskId, Blocks>, attemptOf: map<TaskId, nat>, attempts: seq<Attempt>) {
    && attemptOf.Keys == contexts.Keys
    && (forall t :: t in contexts ==>
          attemptOf[t] < |attempts| && attempts[attemptOf[t]] == Attempt(contexts[t], InFlight(t)))
    && (forall i :: 0 <= i < |attempts| && attempts[i].fate.InFlight? ==>
          attempts[i].fate.task in attemptOf && attemptOf[attempts[i].fate.task] == i)
  }

  lemma AccountsAppend(blocks: Blocks, failed: Blocks, attempts: seq<Attempt>, a: Attempt)
    requires Accounts(blocks, failed, attempts)
    ensures Accounts(Collected(blocks, a.blocks), if a.fate == Lost then Collected(failed, a.blocks) else failed, attempts + [a])
  {
    forall r { AppendAttempt(attempts, a, r); }
  }

  lemma MatchesAppend(contexts: map<TaskId, Blocks>, attemptOf: map<TaskId, nat>, attempts: seq<Attempt>, a: Attempt)
    requires Matches(contexts, attemptOf, attempts) && (a.fate.InFlight? ==> a.fate.task !in contexts)
    ensures if a.fate.InFlight?
            then Matches(contexts[a.fate.task := a.blocks], attemptOf[a.fate.task := |attempts|], attempts + [a])
            else Matches(contexts, attemptOf, attempts + [a])
  {
  }

  lemma AccountsSettle(blocks: Blocks, failed: Blocks, attempts: seq<Attempt>, i: nat, fate: Fate)
    requires Accounts(blocks, failed, attempts)
    requires i < |attempts| && attempts[i].fate.InFlight? && !fate.InFlight?
    ensures Accounts(blocks, if fate == Lost then Collected(failed, attempts[i].blocks) else failed,
                     attempts[i := Attempt(attempts[i].blocks, fate)])
  {
    assert attempts[i].(fate := fate) == Attempt(attempts[i].blocks, fate);
    forall r { SettleAttempt(attempts, i, fate, r); }
  }

  lemma MatchesSettle(contexts: map<TaskId, Blocks>, attemptOf: map<TaskId, nat>, attempts: seq<Attempt>, task: TaskId, fate: Fate)
    requires Matches(contexts, attemptOf, attempts) && task in contexts && !fate.InFlight?
    ensures Matches(contexts - {task}, attemptOf - {task}, attempts[attemptOf[task] := Attempt(contexts[task], fate)])
  {
  }

  lemma AccountsForget(blocks: Blocks, failed: Blocks, attempts: seq<Attempt>, ids: set<RequestId>)
    requires Accounts(blocks, failed, attempts)
    ensures Accounts(blocks - ids, failed - ids, Without(attempts, ids))
    ensures Reported(blocks, failed, ids) == ReportedFrom(attempts, ids)
  {
    forall r
      ensures Get(blocks - ids, r) == Submitted(Without(attempts, ids), r)
      ensures Get(failed - ids, r) == LostBlocks(Without(attempts, ids), r)
    {
      ForgetRequests(attempts, ids, r);
    }
  }

  lemma MatchesForget(contexts: map<TaskId, Blocks>, attemptOf: map<TaskId, nat>, attempts: seq<Attempt>, ids: set<RequestId>)
    requires Matches(contexts, attemptOf, attempts)
    requires forall t, r :: t in contexts && r in contexts[t] ==> r !in ids
    ensures Matches(contexts, attemptOf, Without(attempts, ids))
  {
    forall t | t in contexts
      ensures attemptOf[t] < |attempts| && Without(attempts, ids)[attemptOf[t]] == Attempt(contexts[t], InFlight(t))
    {
      assert contexts[t] - ids == contexts[t];
    }
    assert forall i :: 0 <= i < |attempts| ==> Without(attempts, ids)[i].fate == attempts[i].fate;
  }

  // The blocks of finished requests that every dump covering them stored.
  ghost function ReportedFrom(attempts: seq<Attempt>, ids: set<RequestId>): set<BlockId> {
    set r, b | r in ids && b in Submitted(attempts, r) - LostBlocks(attempts, r) :: b
  }

  // A block is reported for finished requests exactly when one of them dumped it
  // and none of that request's dumps covering it was lost.
  lemma ReportedIffNeverLost(attempts: seq<Attempt>, ids: set<RequestId>, b: BlockId)
    ensures b in ReportedFrom(attempts, ids) <==>
            exists r :: r in ids
              && (exists i :: 0 <= i < |attempts| && b in Get(attempts[i].blocks, r))
              && (forall i :: 0 <= i < |attempts| && b in Get(attempts[i].blocks, r) ==> attempts[i].fate != Lost)
  {
    forall r | r in ids
      ensures b in Submitted(attempts, r) - LostBlocks(attempts, r) <==>
              && (exists i :: 0 <= i < |attempts| && b in Get(attempts[i].blocks, r))
              && (forall i :: 0 <= i < |attempts| && b in Get(attempts[i].blocks, r) ==> attempts[i].fate != Lost)
    {
      ReportedMeaning(attempts, r, b);
    }
  }

  ghost function Reported(blocks: Blocks, failed: Blocks, ids: set<RequestId>): set<BlockId> {
    set r, b | r in ids && b in Get(blocks, r) - Get(failed, r) :: b
  }

  lemma ReportedNext(blocks: Blocks, failed: Blocks, ids: set<RequestId>, r: RequestId)
    ensures Reported(blocks, failed, ids + {r}) == Reported(blocks, failed, ids) + (Get(blocks, r) - Get(failed, r))
  {
    forall b ensures b in Reported(blocks, failed, ids + {r}) <==>
                     b in Reported(blocks, failed, ids) + (Get(blocks, r) - Get(failed, r)) {
      if b in Reported(blocks, failed, ids + {r}) {
        var q :| q in ids + {r} && b in Get(blocks, q) - Get(failed, q);
        assert q == r || q in ids;
      }
      if b in Get(blocks, r) - Get(failed, r) {
        assert r in ids + {r};
      }
      if b in Reported(blocks, failed, ids) {
        var q :| q in ids && b in Get(blocks, q) - Get(failed, q);
        assert q in ids + {r};
      }
    }
  }

  class RankConsistencyManager {
    const enabled: bool
    var missingReqs: set<RequestId>
    var missingBlocks: set<BlockId>
    var dumpSucceededBlocks: set<BlockId>
    var loadTaskContexts: map<TaskId, Blocks>
    var dumpTaskContexts: map<TaskId, Blocks>
    var dumpBlocksByRequest: Blocks
    var dumpFailedBlocksByRequest: Blocks

    ghost var attempts: seq<Attempt>
    ghost var attemptOf: map<TaskId, nat>

    ghost predicate Valid()
      reads this
    {
      && Matches(dumpTaskContexts, attemptOf, attempts)
      && Accounts(dumpBlocksByRequest, dumpFailedBlocksByRequest, attempts)
      && (!enabled ==> forall t :: t in dumpTaskContexts ==> dumpTaskContexts[t] == map[])
    }

    constructor (enabled: bool)
      ensures Valid() && this.enabled == enabled
      ensures dumpTaskContexts == map[] && loadTaskContexts == map[] && attempts == []
      ensures missingReqs == {} && missingBlocks == {} && dumpSucceededBlocks == {}
    {
      this.enabled := enabled;
      missingReqs, missingBlocks, dumpSucceededBlocks := {}, {}, {};
      loadTaskContexts, dumpTaskContexts := map[], map[];
      dumpBlocksByRequest, dumpFailedBlocksByRequest := map[], map[];
      attempts, attemptOf := [], map[];
    }

    // What is remembered of a call: nothing when the manager is disabled.
    function Context(blocks: Blocks): Blocks
      reads this
    {
      if enabled then blocks else map[]
    }

    method MarkLoadContextMissing(context: Blocks)
      modifies this`missingReqs, this`missingBlocks
      ensures missingReqs == old(missingReqs) + context.Keys
      ensures missingBlocks == old(missingBlocks) + set r, b | r in context && b in context[r] :: b
    {
      missingReqs := missingReqs + context.Keys;
      missingBlocks := missingBlocks + set r, b | r in context && b in context[r] :: b;
    }

    method SubmitLoad(task: TaskId, blocks: Blocks, outcome: StoreOutcome) returns (result: Result<TaskId>)
      requires Valid() && task !in loadTaskContexts
      modifies this`loadTaskContexts, this`missingReqs, this`missingBlocks
      ensures Valid() && (result.Ok? <==> outcome == Done)
      ensures loadTaskContexts == if outcome == Done then old(loadTaskContexts)[task := Context(blocks)] else old(loadTaskContexts)
      ensures outcome == NotFound && enabled ==>
                && missingReqs == old(missingReqs) + blocks.Keys
                && missingBlocks == old(missingBlocks) + set r, b | r in blocks && b in blocks[r] :: b
      ensures outcome != NotFound || !enabled ==>
                missingReqs == old(missingReqs) && missingBlocks == old(missingBlocks)
    {
      var context := Context(blocks);
      if outcome != Done {
        if enabled && outcome == NotFound {
          MarkLoadContextMissing(context);
        }
        return Err("load submission failed");
      }
      loadTaskContexts := loadTaskContexts[task := context];
      return Ok(task);
    }

    method WaitLoad(task: TaskId, outcome: StoreOutcome) returns (result: Result<()>)
      requires Valid()
      modifies this`loadTaskContexts, this`missingReqs, this`missingBlocks
      ensures Valid() && loadTaskContexts == old(loadTaskContexts) - {task}
      ensures result.Ok? <==> task in old(loadTaskContexts) && outcome == Done
      ensures task in old(loadTaskContexts) && outcome == NotFound && enabled ==>
                && missingReqs == old(missingReqs) + old(loadTaskContexts)[task].Keys
                && missingBlocks == old(missingBlocks) +
                   set r, b | r in old(loadTaskContexts)[task] && b in old(loadTaskContexts)[task][r] :: b
      ensures task !in old(loadTaskContexts) || outcome != NotFound || !enabled ==>
                missingReqs == old(missingReqs) && missingBlocks == old(missingBlocks)
    {
      if task !in loadTaskContexts {
        assert loadTaskContexts - {task} == loadTaskContexts;
        return Err("Load task was not submitted through submit_load().");
      }
      var context := loadTaskContexts[task];
      loadTaskContexts := loadTaskContexts - {task};
      if outcome != Done {
        if enabled && outcome == NotFound {
          MarkLoadContextMissing(context);
        }
        return Err("load failed");
      }
      return Ok(());
    }

    method SubmitDump(task: TaskId, blocks: Blocks, ok: bool) returns (result: Result<TaskId>)
      requires Valid() && task !in dumpTaskContexts
      modifies this`dumpTaskContexts, this`dumpBlocksByRequest, this`dumpFailedBlocksByRequest, this`attempts, this`attemptOf
      ensures Valid() && (result.Ok? <==> ok) && (ok ==> result.value == task)
      ensures dumpTaskContexts == if ok then old(dumpTaskContexts)[task := Context(blocks)] else old(dumpTaskContexts)
      ensures attempts == old(attempts) + [Attempt(Context(blocks), if ok then InFlight(task) else Lost)]
    {
      var context := Context(blocks);
      ghost var a := Attempt(context, if ok then InFlight(task) else Lost);
      AccountsAppend(dumpBlocksByRequest, dumpFailedBlocksByRequest, attempts, a);
      MatchesAppend(dumpTaskContexts, attemptOf, attempts, a);
      dumpBlocksByRequest := Collected(dumpBlocksByRequest, context);
      attempts := attempts + [a];
      if !ok {
        dumpFailedBlocksByRequest := Collected(dumpFailedBlocksByRequest, context);
        return Err("dump submission failed");
      }
      attemptOf := attemptOf[task := |attempts| - 1];
      dumpTaskContexts := dumpTaskContexts[task := context];
      return Ok(task);
    }

    method WaitDump(task: TaskId, ok: bool) returns (result: Result<()>)
      requires Valid()
      modifies this`dumpTaskContexts, this`dumpFailedBlocksByRequest, this`attempts, this`attemptOf
      ensures Valid() && (result.Ok? <==> task in old(dumpTaskContexts) && ok)
      ensures dumpTaskContexts == old(dumpTaskContexts) - {task}
      ensures task in old(dumpTaskContexts) ==>
                && old(attemptOf[task]) < |old(attempts)|
                && attempts == old(attempts)[old(attemptOf[task]) :=
                     Attempt(old(dumpTaskContexts)[task], if ok then Stored else Lost)]
      ensures task !in old(dumpTaskContexts) ==> attempts == old(attempts)
    {
      if task !in dumpTaskContexts {
        assert dumpTaskContexts - {task} == dumpTaskContexts;
        return Err("Dump task was not submitted through submit_dump().");
      }
      var context := dumpTaskContexts[task];
      dumpTaskContexts := dumpTaskContexts - {task};
      ghost var i, fate := attemptOf[task], if ok then Stored else Lost;
      AccountsSettle(dumpBlocksByRequest, dumpFailedBlocksByRequest, attempts, i, fate);
      MatchesSettle(old(dumpTaskContexts), attemptOf, attempts, task, fate);
      attempts := attempts[i := Attempt(context, fate)];
      attemptOf := attemptOf - {task};
      if !ok {
        dumpFailedBlocksByRequest := Collected(dumpFailedBlocksByRequest, context);
        return Err("dump failed");
      }
      return Ok(());
    }

    ghost predicate DumpPending(r: RequestId)
      reads this
    {
      exists t :: t in dumpTaskContexts && r in dumpTaskContexts[t]
    }

    method ReportRequest(r: RequestId)
      modifies this`dumpSucceededBlocks, this`dumpBlocksByRequest, this`dumpFailedBlocksByRequest
      ensures dumpBlocksByRequest == old(dumpBlocksByRequest) - {r}
      ensures dumpFailedBlocksByRequest == old(dumpFailedBlocksByRequest) - {r}
      ensures dumpSucceededBlocks ==
              old(dumpSucceededBlocks) + (Get(old(dumpBlocksByRequest), r) - Get(old(dumpFailedBlocksByRequest), r))
    {
      var blocks, failed := Get(dumpBlocksByRequest, r), Get(dumpFailedBlocksByRequest, r);
      dumpSucceededBlocks := dumpSucceededBlocks + (blocks - failed);
      dumpBlocksByRequest := dumpBlocksByRequest - {r};
      dumpFailedBlocksByRequest := dumpFailedBlocksByRequest - {r};
    }

    // Moves the finished requests' blocks to the report.
    method ReportRequests(ids: set<RequestId>)
      modifies this`dumpSucceededBlocks, this`dumpBlocksByRequest, this`dumpFailedBlocksByRequest
      ensures dumpBlocksByRequest == old(dumpBlocksByRequest) - ids
      ensures dumpFailedBlocksByRequest == old(dumpFailedBlocksByRequest) - ids
      ensures dumpSucceededBlocks == old(dumpSucceededBlocks) +
                                     Reported(old(dumpBlocksByRequest), old(dumpFailedBlocksByRequest), ids)
    {
      var rest, done: set<RequestId> := ids, {};
      while rest != {}
        invariant rest + done == ids && rest !! done
        invariant dumpBlocksByRequest == old(dumpBlocksByRequest) - done
        invariant dumpFailedBlocksByRequest == old(dumpFailedBlocksByRequest) - done
        invariant dumpSucceededBlocks == old(dumpSucceededBlocks) +
                                         Reported(old(dumpBlocksByRequest), old(dumpFailedBlocksByRequest), done)
        decreases rest
      {
        var r :| r in rest;
        ReportedNext(old(dumpBlocksByRequest), old(dumpFailedBlocksByRequest), done, r);
        rest, done := rest - {r}, done + {r};
        ReportRequest(r);
      }
      assert done == ids;
    }

    // Reports the blocks of the finished requests that reached the store in every dump.
    method FinishDump(ids: set<RequestId>) returns (result: Result<()>)
      requires Valid()
      modifies this`dumpSucceededBlocks, this`dumpBlocksByRequest, this`dumpFailedBlocksByRequest, this`attempts
      ensures Valid()
      ensures result.Err? <==> enabled && exists r :: r in ids && DumpPending(r)
      ensures result.Err? || !enabled ==> dumpSucceededBlocks == old(dumpSucceededBlocks) && attempts == old(attempts)
      ensures result.Ok? && enabled ==>
                && attempts == Without(old(attempts), ids)
                && dumpSucceededBlocks == old(dumpSucceededBlocks) +
                                          ReportedFrom(old(attempts), ids)
    {
      if !enabled {
        return Ok(());
      }
      var pending := PendingRequests();
      if pending * ids != {} {
        var r :| r in pending * ids;
        return Err("Dump tasks are still pending");
      }
      assert forall r :: r in ids ==> r !in pending * ids;
      MatchesForget(dumpTaskContexts, attemptOf, attempts, ids) by {
        assert forall t, r :: t in dumpTaskContexts && r in dumpTaskContexts[t] ==> DumpPending(r);
      }
      AccountsForget(dumpBlocksByRequest, dumpFailedBlocksByRequest, attempts, ids);
      ReportRequests(ids);
      attempts := Without(attempts, ids);
      return Ok(());
    }

    method PendingRequests() returns (pending: set<RequestId>)
      ensures forall r :: r in pending <==> DumpPending(r)
    {
      pending := set t, r | t in dumpTaskContexts && r in dumpTaskContexts[t] :: r;
    }

    // Hands the collected events over for reporting and starts afresh.
    method UpdateWorkerMeta() returns (reqs: set<RequestId>, missing: set<BlockId>, dumped: set<BlockId>)
      requires Valid()
      modifies this`missingReqs, this`missingBlocks, this`dumpSucceededBlocks
      ensures Valid()
      ensures enabled ==> reqs == old(missingReqs) && missing == old(missingBlocks) && dumped == old(dumpSucceededBlocks)
      ensures enabled ==> missingReqs == {} && missingBlocks == {} && dumpSucceededBlocks == {}
      ensures !enabled ==> reqs == {} && missing == {} && dumped == {}
    {
      if !enabled {
        return {}, {}, {};
      }
      reqs, missing, dumped := missingReqs, missingBlocks, dumpSucceededBlocks;
      missingReqs, missingBlocks, dumpSucceededBlocks := {}, {}, {};
    }
  }
}
