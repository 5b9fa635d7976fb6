/**
 The row-by-row load pipeline of the layerwise hybrid connector: loads of a few rows are
 kept in flight, and each row is waited for one hook before its layers run.
 */
module RowPipelines {
  import opened NullBlocks
  import opened Sets

  // The load of one row for one request.
  datatype Load = Load(row: nat, req: nat)

  // Tasks in flight, by row and request.
  type Tasks = map<nat, map<nat, nat>>

  // ------------------------------------------------------------------- book-keeping

  ghost predicate InFlight(tasks: Tasks, l: Load, t: nat) {
    l.row in tasks && l.req in tasks[l.row] && tasks[l.row][l.req] == t
  }

  ghost predicate Distinct<T(!new)>(s: seq<T>) {
    forall i, j :: 0 <= i < j < |s| ==> s[i] != s[j]
  }

  // Task t is the t-th submission. Each submission is either in flight or waited for,
  // and is waited for at most once.
  ghost predicate Tracks(tasks: Tasks, submissions: seq<Load>, waits: seq<nat>) {
    && (forall l, t: nat :: InFlight(tasks, l, t) ==> t < |submissions| && submissions[t] == l)
    && (forall t :: 0 <= t < |submissions| ==> (t in waits <==> !InFlight(tasks, submissions[t], t)))
    && (forall k :: 0 <= k < |waits| ==> waits[k] < |submissions|)
    && Distinct(waits)
    && Distinct(submissions)
  }

  function WithTask(tasks: Tasks, row: nat, req: nat, t: nat): Tasks {
    tasks[row := (if row in tasks then tasks[row] else map[])[req := t]]
  }

  lemma TracksSubmission(tasks: Tasks, submissions: seq<Load>, waits: seq<nat>, row: nat, req: nat)
    requires Tracks(tasks, submissions, waits) && Load(row, req) !in submissions
    ensures Tracks(WithTask(tasks, row, req, |submissions|), submissions + [Load(row, req)], waits)
  {
    var after, all := WithTask(tasks, row, req, |submissions|), submissions + [Load(row, req)];
    forall t | 0 <= t < |all| ensures t in waits <==> !InFlight(after, all[t], t) {
      if t < |submissions| {
        assert all[t] == submissions[t];
        assert InFlight(after, all[t], t) <==> InFlight(tasks, submissions[t], t);
      }
    }
    forall l, t: nat | InFlight(after, l, t) ensures t < |all| && all[t] == l {
      if l != Load(row, req) {
        assert InFlight(tasks, l, t);
      }
    }
  }

  lemma TracksWait(tasks: Tasks, submissions: seq<Load>, waits: seq<nat>, row: nat, req: nat)
    requires Tracks(tasks, submissions, waits) && row in tasks && req in tasks[row]
    ensures Tracks(tasks[row := tasks[row] - {req}], submissions, waits + [tasks[row][req]])
  {
    var t0 := tasks[row][req];
    var after, more := tasks[row := tasks[row] - {req}], waits + [t0];
    assert InFlight(tasks, Load(row, req), t0);
    assert forall l, t: nat :: InFlight(after, l, t) ==> InFlight(tasks, l, t);
    forall t | 0 <= t < |submissions| ensures t in more <==> !InFlight(after, submissions[t], t) {
      if t == t0 {
        assert more[|waits|] == t;
      } else {
        assert t in more <==> t in waits;
        assert submissions[t] != Load(row, req);
      }
    }
  }

  lemma TracksDrained(tasks: Tasks, submissions: seq<Load>, waits: seq<nat>, row: nat)
    requires Tracks(tasks[row := map[]], submissions, waits) && row !in tasks
    ensures Tracks(tasks, submissions, waits)
  {
    var before := tasks[row := map[]];
    forall t | 0 <= t < |submissions| ensures InFlight(tasks, submissions[t], t) <==> InFlight(before, submissions[t], t) {
    }
    forall l, t: nat | InFlight(tasks, l, t) ensures t < |submissions| && submissions[t] == l {
      assert InFlight(before, l, t);
    }
  }

  // Every request has been submitted for a row, unless its load has failed.
  ghost predicate Covers(row: nat, requests: seq<nat>, n: nat, submissions: seq<Load>, failed: set<nat>)
    requires n <= |requests|
  {
    forall k :: 0 <= k < n ==> Load(row, requests[k]) in submissions || requests[k] in failed
  }

  // The first n requests have been submitted for a row, after `before`.
  ghost predicate RowProgress(before: seq<Load>, submissions: seq<Load>, row: nat, requests: seq<nat>, n: nat, failed: set<nat>)
    requires n <= |requests|
  {
    && before <= submissions
    && (forall t :: |before| <= t < |submissions| ==>
          submissions[t].row == row && exists j :: 0 <= j < n && submissions[t].req == requests[j])
    && Covers(row, requests, n, submissions, failed)
  }

  lemma RowProgressStep(before: seq<Load>, submissions: seq<Load>, row: nat, requests: seq<nat>, n: nat, failed: set<nat>,
                        more: seq<Load>, moreFailed: set<nat>)
    requires n < |requests| && Distinct(requests) && RowProgress(before, submissions, row, requests, n, failed)
    requires forall t :: 0 <= t < |before| ==> before[t].row != row
    ensures Load(row, requests[n]) !in submissions
    ensures failed <= moreFailed && (more == submissions + [Load(row, requests[n])] || (more == submissions && requests[n] in moreFailed)) ==>
              RowProgress(before, more, row, requests, n + 1, moreFailed)
  {
    forall t | 0 <= t < |submissions| ensures submissions[t] != Load(row, requests[n]) {
      if t < |before| { assert submissions[t] == before[t]; }
    }
    if failed <= moreFailed && (more == submissions + [Load(row, requests[n])] || (more == submissions && requests[n] in moreFailed)) {
      forall k | 0 <= k < n + 1 ensures Load(row, requests[k]) in more || requests[k] in moreFailed {
        if k < n {
          assert Load(row, requests[k]) in submissions ==> Load(row, requests[k]) in more;
        } else if more != submissions {
          assert more[|submissions|] == Load(row, requests[n]);
        }
      }
      forall t | |before| <= t < |more| ensures more[t].row == row && exists j :: 0 <= j < n + 1 && more[t].req == requests[j] {
        if t < |submissions| { assert more[t] == submissions[t]; }
      }
    }
  }

  function Min(a: int, b: int): int { if a < b then a else b }

  // The rows below `upTo` have been submitted, and only rows from `low` on are in flight.
  ghost predicate Between(low: nat, upTo: nat, requests: seq<nat>, tasks: Tasks, submitted: set<nat>,
                          submissions: seq<Load>, waits: seq<nat>, failed: set<nat>)
  {
    && Tracks(tasks, submissions, waits)
    && low <= upTo && (forall row: nat :: row in submitted <==> row < upTo)
    && (forall row :: row in tasks ==> low <= row < upTo)
    && (forall t :: 0 <= t < |submissions| ==> submissions[t].row in submitted)
    && (forall row :: row in submitted ==> Covers(row, requests, |requests|, submissions, failed))
  }

  // Every request has a row loaded: its load was submitted and waited for, or the request
  // is marked failed.
  ghost predicate RowReady(row: nat, requests: seq<nat>, submissions: seq<Load>, waits: seq<nat>, failed: set<nat>) {
    forall k :: 0 <= k < |requests| ==>
      requests[k] in failed || exists t :: 0 <= t < |submissions| && submissions[t] == Load(row, requests[k]) && t in waits
  }

  lemma RowsAreReady(low: nat, upTo: nat, requests: seq<nat>, tasks: Tasks, submitted: set<nat>,
                     submissions: seq<Load>, waits: seq<nat>, failed: set<nat>, row: nat)
    requires Between(low, upTo, requests, tasks, submitted, submissions, waits, failed)
    requires row < low && row < upTo
    ensures RowReady(row, requests, submissions, waits, failed)
  {
    assert row in submitted;
    assert Covers(row, requests, |requests|, submissions, failed);
    forall k | 0 <= k < |requests| && requests[k] !in failed
      ensures exists t :: 0 <= t < |submissions| && submissions[t] == Load(row, requests[k]) && t in waits
    {
      var t :| 0 <= t < |submissions| && submissions[t] == Load(row, requests[k]);
      assert !InFlight(tasks, submissions[t], t);
    }
  }

  lemma {:induction false} FewRows(s: set<nat>, lo: nat, hi: nat)
    requires lo <= hi && forall r :: r in s ==> lo <= r < hi
    ensures |s| <= hi - lo
    decreases hi
  {
    if lo < hi {
      FewRows(s - {hi - 1}, lo, hi - 1);
    } else {
      assert s == {};
    }
  }

  // -------------------------------------------------------------------- requests

  // What a step loads for one request: store keys paired with device blocks.
  datatype RequestLoad = RequestLoad(req: nat, ids: seq<nat>, blocks: seq<nat>)

  ghost predicate OneEach(loads: seq<RequestLoad>) {
    forall i, j :: 0 <= i < j < |loads| ==> loads[i].req != loads[j].req
  }

  function Loads(l: RequestLoad, skipNullBlocks: bool): bool {
    l.ids != [] && (skipNullBlocks ==> DropNull(l.ids, l.blocks).0 != [])
  }

  // The requests with something to load, in order.
  function Loading(loads: seq<RequestLoad>, skipNullBlocks: bool): seq<nat> {
    if loads == [] then []
    else
      var early, last := Loading(loads[..|loads| - 1], skipNullBlocks), loads[|loads| - 1];
      if Loads(last, skipNullBlocks) then early + [last.req] else early
  }

  // A request has something to load: a real block, or any where null blocks are not looked
  // for or no blocks are given.
  ghost predicate HasLoad(l: RequestLoad, skipNullBlocks: bool) {
    if skipNullBlocks && l.blocks != [] then exists i :: 0 <= i < |l.ids| && i < |l.blocks| && l.blocks[i] != 0
    else l.ids != []
  }

  lemma LoadsMeaning(l: RequestLoad, skipNullBlocks: bool)
    ensures Loads(l, skipNullBlocks) <==> HasLoad(l, skipNullBlocks)
  {
    if skipNullBlocks && l.ids != [] && l.blocks != [] {
      var n := if |l.ids| <= |l.blocks| then |l.ids| else |l.blocks|;
      var keys := RealPairs(l.ids, l.blocks, n).0;
      forall id { RealKeys(l.ids, l.blocks, n, id); }
      if keys != [] {
        assert keys[0] in keys;
      }
      if i :| 0 <= i < n && l.blocks[i] != 0 {
        assert l.ids[i] in keys;
      }
    }
  }

  // A pass serves the requests at some places of a list: in order, those that have
  // something to load.
  ghost predicate ServesAt(at: seq<nat>, requests: seq<nat>, loads: seq<RequestLoad>, skipNullBlocks: bool) {
    && |at| == |requests|
    && (forall k, l :: 0 <= k < l < |at| ==> at[k] < at[l])
    && (forall k :: 0 <= k < |at| ==> at[k] < |loads| && requests[k] == loads[at[k]].req && HasLoad(loads[at[k]], skipNullBlocks))
    && (forall i :: 0 <= i < |loads| && HasLoad(loads[i], skipNullBlocks) ==> i in at)
  }

  ghost predicate Serves(requests: seq<nat>, loads: seq<RequestLoad>, skipNullBlocks: bool) {
    exists at :: ServesAt(at, requests, loads, skipNullBlocks)
  }

  lemma {:induction false} LoadingServes(loads: seq<RequestLoad>, skipNullBlocks: bool) returns (at: seq<nat>)
    ensures ServesAt(at, Loading(loads, skipNullBlocks), loads, skipNullBlocks)
  {
    if loads == [] {
      return [];
    }
    var n := |loads| - 1;
    at := LoadingServes(loads[..n], skipNullBlocks);
    LoadsMeaning(loads[n], skipNullBlocks);
    ServesNext(at, Loading(loads[..n], skipNullBlocks), loads, skipNullBlocks);
    if Loads(loads[n], skipNullBlocks) {
      at := at + [n];
    }
  }

  lemma ServesNext(at: seq<nat>, requests: seq<nat>, loads: seq<RequestLoad>, skipNullBlocks: bool)
    requires loads != [] && ServesAt(at, requests, loads[..|loads| - 1], skipNullBlocks)
    ensures var n := |loads| - 1;
            if HasLoad(loads[n], skipNullBlocks) then ServesAt(at + [n], requests + [loads[n].req], loads, skipNullBlocks)
            else ServesAt(at, requests, loads, skipNullBlocks)
  {
    var n := |loads| - 1;
    var more := at + [n];
    assert forall i :: 0 <= i < n ==> loads[..n][i] == loads[i];
    assert forall i :: i in at ==> i in more;
    assert more[|at|] == n;
  }

  // The device blocks of every request, null blocks included.
  function BlocksOf(loads: seq<RequestLoad>): map<nat, set<nat>>
    requires OneEach(loads)
  {
    if loads == [] then map[]
    else
      var last := loads[|loads| - 1];
      BlocksOf(loads[..|loads| - 1])[last.req := set b | b in last.blocks]
  }

  lemma {:induction false} BlocksOfMeaning(loads: seq<RequestLoad>, i: nat)
    requires OneEach(loads) && i < |loads|
    ensures loads[i].req in BlocksOf(loads) && BlocksOf(loads)[loads[i].req] == set b | b in loads[i].blocks
  {
    if i < |loads| - 1 {
      BlocksOfMeaning(loads[..|loads| - 1], i);
    }
  }

  lemma {:induction false} LoadingIsDistinct(loads: seq<RequestLoad>, skipNullBlocks: bool)
    requires OneEach(loads)
    ensures Distinct(Loading(loads, skipNullBlocks))
    ensures forall r :: r in Loading(loads, skipNullBlocks) <==>
              exists i :: 0 <= i < |loads| && loads[i].req == r && Loads(loads[i], skipNullBlocks)
  {
    if loads != [] {
      var early, last := loads[..|loads| - 1], loads[|loads| - 1];
      LoadingIsDistinct(early, skipNullBlocks);
      assert forall i :: 0 <= i < |early| ==> early[i] == loads[i];
      assert last.req !in Loading(early, skipNullBlocks);
    }
  }

  // --------------------------------------------------------------------- failures

  // A load that was refused, or was submitted and lost.
  ghost predicate FailsAt(row: nat, req: nat, submissions: seq<Load>, submitFails: set<Load>, waitFails: set<Load>) {
    Load(row, req) in submitFails || (Load(row, req) in submissions && Load(row, req) in waitFails)
  }

  // Only requests with a failing load have failed, no refused load counts as submitted, and
  // every lost load that was waited for has failed its request.
  ghost predicate Explains(submissions: seq<Load>, waits: seq<nat>, failed: set<nat>, requests: seq<nat>, rows: nat,
                           submitFails: set<Load>, waitFails: set<Load>)
  {
    && (forall r :: r in failed ==> r in requests && exists row: nat :: row < rows && FailsAt(row, r, submissions, submitFails, waitFails))
    && (forall l :: l in submissions ==> l !in submitFails && l.row < rows && l.req in requests)
    && (forall t :: t in waits ==> t < |submissions| && (submissions[t] in waitFails ==> submissions[t].req in failed))
  }

  lemma ExplainsSubmission(submissions: seq<Load>, waits: seq<nat>, failed: set<nat>, requests: seq<nat>, rows: nat,
                           submitFails: set<Load>, waitFails: set<Load>, row: nat, req: nat)
    requires Explains(submissions, waits, failed, requests, rows, submitFails, waitFails) && req in requests && row < rows
    ensures Load(row, req) in submitFails ==> Explains(submissions, waits, failed + {req}, requests, rows, submitFails, waitFails)
    ensures Load(row, req) !in submitFails ==>
              Explains(submissions + [Load(row, req)], waits, failed, requests, rows, submitFails, waitFails)
  {
    var l := Load(row, req);
    if l in submitFails {
      assert FailsAt(row, req, submissions, submitFails, waitFails);
    } else {
      var more := submissions + [l];
      forall r | r in failed ensures exists q: nat :: q < rows && FailsAt(q, r, more, submitFails, waitFails) {
        var q: nat :| q < rows && FailsAt(q, r, submissions, submitFails, waitFails);
        assert FailsAt(q, r, more, submitFails, waitFails);
      }
      assert forall t :: 0 <= t < |submissions| ==> more[t] == submissions[t];
    }
  }

  lemma ExplainsWait(submissions: seq<Load>, waits: seq<nat>, failed: set<nat>, requests: seq<nat>, rows: nat,
                     submitFails: set<Load>, waitFails: set<Load>, t: nat)
    requires Explains(submissions, waits, failed, requests, rows, submitFails, waitFails) && t < |submissions|
    ensures var l := submissions[t];
            Explains(submissions, waits + [t], if l in waitFails then failed + {l.req} else failed, requests, rows, submitFails, waitFails)
  {
    var l := submissions[t];
    assert l in submissions;
    if l in waitFails {
      assert FailsAt(l.row, l.req, submissions, submitFails, waitFails);
    }
  }

  // What the submission of a row has done for the first n requests.
  ghost predicate RowOutcome(row: nat, requests: seq<nat>, n: nat, submissions: seq<Load>, before: set<nat>, failed: set<nat>,
                             submitFails: set<Load>)
    requires n <= |requests|
  {
    && (forall k :: 0 <= k < n ==>
          (Load(row, requests[k]) in submissions <==> requests[k] !in before && Load(row, requests[k]) !in submitFails))
    && (forall q :: q in failed <==> q in before || (q in requests[..n] && Load(row, q) in submitFails))
  }

  lemma NextOutcome(row: nat, requests: seq<nat>, n: nat, submissions: seq<Load>, before: set<nat>, failed: set<nat>,
                    submitFails: set<Load>, more: seq<Load>, moreFailed: set<nat>)
    requires n < |requests| && Distinct(requests) && RowOutcome(row, requests, n, submissions, before, failed, submitFails)
    requires Load(row, requests[n]) !in submissions
    requires more == submissions + if requests[n] in failed || Load(row, requests[n]) in submitFails then [] else [Load(row, requests[n])]
    requires moreFailed == failed + if Load(row, requests[n]) in submitFails then {requests[n]} else {}
    ensures RowOutcome(row, requests, n + 1, more, before, moreFailed, submitFails)
  {
    var q := requests[n];
    assert q !in requests[..n];
    assert requests[..n + 1] == requests[..n] + [q];
    assert q in failed <==> q in before;
    forall k | 0 <= k < n ensures Load(row, requests[k]) in more <==> Load(row, requests[k]) in submissions {
      assert requests[k] != q;
    }
  }

  // ---------------------------------------------------------------------- the pipeline

  class LoadPipeline {
    const rows: nat
    const prefetch: nat
    const skipNullBlocks: bool
    var needLoad: bool
    var requestData: seq<nat>
    var loadBlocks: map<nat, set<nat>>
    var loadTasks: Tasks
    var submittedRows: set<nat>
    var failureReqs: set<nat>
    var invalidBlocks: set<nat>
    var nextTask: nat
    // The submissions and waits of the current pass, and the most rows ever in flight.
    ghost var submissions: seq<Load>
    ghost var waits: seq<nat>
    ghost var peak: nat

    constructor (rows: nat, prefetch: nat, skipNullBlocks: bool)
      ensures this.rows == rows && this.prefetch == prefetch && this.skipNullBlocks == skipNullBlocks && !needLoad
    {
      this.rows, this.prefetch, this.skipNullBlocks := rows, prefetch, skipNullBlocks;
      needLoad, requestData, loadBlocks := false, [], map[];
      loadTasks, submittedRows, failureReqs, invalidBlocks := map[], {}, {}, {};
      submissions, waits, peak := [], [], 0;
      nextTask := 0;
    }

    // What holds at every point of a pass.
    ghost predicate Sound() reads this {
      && Tracks(loadTasks, submissions, waits)
      && nextTask == |submissions|
      && Distinct(requestData)
      && peak <= prefetch + 1
      && FailuresReported()
    }

    // The pipeline stands between two hooks with the rows up to `done` loaded.
    ghost predicate At(done: nat) reads this {
      Partly(done + 1, Min(done + prefetch + 1, rows))
    }

    ghost predicate Partly(low: nat, upTo: nat) reads this {
      && Sound()
      && Between(low, upTo, requestData, loadTasks, submittedRows, submissions, waits, failureReqs)
    }

    // Failures have a cause, and every cause has had its effect.
    ghost predicate Explained(submitFails: set<Load>, waitFails: set<Load>) reads this {
      Explains(submissions, waits, failureReqs, requestData, rows, submitFails, waitFails)
    }

    // The blocks of every failed request are reported to the engine.
    ghost predicate FailuresReported() reads this {
      forall r, b :: r in failureReqs && r in loadBlocks && b in loadBlocks[r] ==> b in invalidBlocks
    }

    method MarkLoadFailed(req: nat)
      modifies this`failureReqs, this`invalidBlocks
      ensures failureReqs == old(failureReqs) + {req}
      ensures invalidBlocks == old(invalidBlocks) + if req in loadBlocks then loadBlocks[req] else {}
    {
      if req in loadBlocks {
        invalidBlocks := invalidBlocks + loadBlocks[req];
      }
      failureReqs := failureReqs + {req};
    }

    method SubmitOne(row: nat, req: nat, submitFails: set<Load>, ghost waitFails: set<Load>)
      requires row < rows && Explained(submitFails, waitFails)
      requires Sound() && Load(row, req) !in submissions && req in requestData
      modifies this`loadTasks, this`submissions, this`failureReqs, this`invalidBlocks, this`nextTask
      ensures Sound()
      ensures submissions == old(submissions) +
                if req in old(failureReqs) || Load(row, req) in submitFails then [] else [Load(row, req)]
      ensures req in failureReqs || Load(row, req) in submissions
      ensures old(loadTasks).Keys <= loadTasks.Keys <= old(loadTasks).Keys + {row}
      ensures failureReqs == old(failureReqs) + if Load(row, req) in submitFails then {req} else {}
      ensures Explained(submitFails, waitFails)
    {
      ExplainsSubmission(submissions, waits, failureReqs, requestData, rows, submitFails, waitFails, row, req);
      if req in failureReqs {
        assert failureReqs + {req} == failureReqs;
        return;
      }
      if Load(row, req) in submitFails {
        MarkLoadFailed(req);
        return;
      }
      TracksSubmission(loadTasks, submissions, waits, row, req);
      loadTasks := WithTask(loadTasks, row, req, nextTask);
      nextTask := nextTask + 1;
      submissions := submissions + [Load(row, req)];
    }

    // Submits a row for every request that has not failed.
    method SubmitAll(row: nat, submitFails: set<Load>, ghost waitFails: set<Load>)
      requires row < rows && Explained(submitFails, waitFails)
      requires Sound() && forall t :: 0 <= t < |submissions| ==> submissions[t].row != row
      modifies this`loadTasks, this`submissions, this`failureReqs, this`invalidBlocks, this`nextTask
      ensures Sound()
      ensures RowProgress(old(submissions), submissions, row, requestData, |requestData|, failureReqs)
      ensures old(loadTasks).Keys <= loadTasks.Keys <= old(loadTasks).Keys + {row}
      ensures old(failureReqs) <= failureReqs
      ensures RowOutcome(row, requestData, |requestData|, submissions, old(failureReqs), failureReqs, submitFails)
      ensures Explained(submitFails, waitFails)
    {
      ghost var before, keys := submissions, loadTasks.Keys;
      for i := 0 to |requestData|
        invariant Sound() && Explained(submitFails, waitFails)
        invariant RowOutcome(row, requestData, i, submissions, old(failureReqs), failureReqs, submitFails)
        invariant keys <= loadTasks.Keys <= keys + {row} && old(failureReqs) <= failureReqs
        invariant RowProgress(before, submissions, row, requestData, i, failureReqs)
      {
        ghost var earlier, failed := submissions, failureReqs;
        RowProgressStep(before, earlier, row, requestData, i, failed, earlier, failed);
        SubmitOne(row, requestData[i], submitFails, waitFails);
        RowProgressStep(before, earlier, row, requestData, i, failed, submissions, failureReqs);
        NextOutcome(row, requestData, i, earlier, old(failureReqs), failed, submitFails, submissions, failureReqs);
      }
    }

    // Submits a row that has not been submitted, for every request that has not failed.
    method SubmitRow(row: nat, submitFails: set<Load>, ghost waitFails: set<Load>)
      requires row < rows && Explained(submitFails, waitFails)
      requires Sound() && row !in submittedRows
      requires forall t :: 0 <= t < |submissions| ==> submissions[t].row != row
      requires |loadTasks.Keys + {row}| <= prefetch + 1
      modifies this`loadTasks, this`submissions, this`failureReqs, this`invalidBlocks, this`nextTask, this`submittedRows, this`peak
      ensures Sound()
      ensures submittedRows == old(submittedRows) + {row}
      ensures old(submissions) <= submissions
      ensures forall t :: |old(submissions)| <= t < |submissions| ==> submissions[t].row == row
      ensures old(loadTasks).Keys <= loadTasks.Keys <= old(loadTasks).Keys + {row}
      ensures old(failureReqs) <= failureReqs
      ensures Covers(row, requestData, |requestData|, submissions, failureReqs)
      ensures RowOutcome(row, requestData, |requestData|, submissions, old(failureReqs), failureReqs, submitFails)
      ensures Explained(submitFails, waitFails)
    {
      SubmitAll(row, submitFails, waitFails);
      submittedRows := submittedRows + {row};
      if peak < |loadTasks.Keys| {
        peak := |loadTasks.Keys|;
        SubsetSize(loadTasks.Keys, old(loadTasks).Keys + {row});
      }
    }

    method SubmitRowOnce(row: nat, submitFails: set<Load>, ghost waitFails: set<Load>)
      requires row < rows && Explained(submitFails, waitFails)
      requires Sound()
      requires row !in submittedRows ==>
                 (forall t :: 0 <= t < |submissions| ==> submissions[t].row != row) && |loadTasks.Keys + {row}| <= prefetch + 1
      requires row in submittedRows ==> Covers(row, requestData, |requestData|, submissions, failureReqs)
      modifies this`loadTasks, this`submissions, this`failureReqs, this`invalidBlocks, this`nextTask, this`submittedRows, this`peak
      ensures Sound()
      ensures submittedRows == old(submittedRows) + {row}
      ensures old(submissions) <= submissions
      ensures row in old(submittedRows) ==> unchanged(this)
      ensures forall t :: |old(submissions)| <= t < |submissions| ==> submissions[t].row == row
      ensures old(loadTasks).Keys <= loadTasks.Keys <= old(loadTasks).Keys + {row}
      ensures old(failureReqs) <= failureReqs
      ensures Covers(row, requestData, |requestData|, submissions, failureReqs)
      ensures Explained(submitFails, waitFails)
    {
      if row in submittedRows {
        return;
      }
      SubmitRow(row, submitFails, waitFails);
    }

    // Takes the tasks of a row and waits for each, marking the requests whose load failed.
    method WaitRow(row: nat, ghost submitFails: set<Load>, waitFails: set<Load>) returns (n: nat)
      requires Explained(submitFails, waitFails)
      requires Sound()
      modifies this`loadTasks, this`waits, this`failureReqs, this`invalidBlocks
      ensures old(waits) <= waits
      ensures Sound()
      ensures loadTasks == old(loadTasks) - {row}
      ensures n == if row in old(loadTasks) then |old(loadTasks)[row]| else 0
      ensures forall q :: q in failureReqs <==>
                q in old(failureReqs) || (row in old(loadTasks) && q in old(loadTasks)[row] && Load(row, q) in waitFails)
      ensures row !in old(loadTasks) ==> waits == old(waits) && failureReqs == old(failureReqs) && invalidBlocks == old(invalidBlocks)
      ensures Explained(submitFails, waitFails)
    {
      if row !in loadTasks {
        return 0;
      }
      var tasks := loadTasks[row];
      n := |tasks|;
      loadTasks := loadTasks - {row};
      assert old(loadTasks) == loadTasks[row := tasks];
      WaitTasks(row, tasks, submitFails, waitFails);
    }

    // Waits for the given tasks of a row, which are no longer listed.
    method WaitTasks(row: nat, tasks: map<nat, nat>, ghost submitFails: set<Load>, waitFails: set<Load>)
      requires Explained(submitFails, waitFails)
      requires row !in loadTasks && Tracks(loadTasks[row := tasks], submissions, waits) && FailuresReported()
      modifies this`waits, this`failureReqs, this`invalidBlocks
      ensures old(waits) <= waits
      ensures Tracks(loadTasks, submissions, waits) && FailuresReported()
      ensures forall q :: q in failureReqs <==> q in old(failureReqs) || (q in tasks && Load(row, q) in waitFails)
      ensures Explained(submitFails, waitFails)
    {
      var rest := tasks;
      while rest != map[]
        invariant rest.Keys <= tasks.Keys
        invariant old(waits) <= waits
        invariant Tracks(loadTasks[row := rest], submissions, waits) && FailuresReported() && Explained(submitFails, waitFails)
        invariant forall q :: q in failureReqs <==>
                    q in old(failureReqs) || (q in tasks && q !in rest && Load(row, q) in waitFails)
        decreases |rest|
      {
        var req :| req in rest;
        WaitOne(row, req, rest, submitFails, waitFails);
        rest := rest - {req};
      }
      TracksDrained(loadTasks, submissions, waits, row);
    }

    method WaitOne(row: nat, req: nat, rest: map<nat, nat>, ghost submitFails: set<Load>, waitFails: set<Load>)
      requires Explained(submitFails, waitFails)
      requires req in rest && row !in loadTasks && FailuresReported()
      requires Tracks(loadTasks[row := rest], submissions, waits)
      modifies this`waits, this`failureReqs, this`invalidBlocks
      ensures old(waits) <= waits
      ensures Tracks(loadTasks[row := rest - {req}], submissions, waits) && FailuresReported()
      ensures failureReqs == old(failureReqs) + if Load(row, req) in waitFails then {req} else {}
      ensures Explained(submitFails, waitFails)
    {
      TracksWait(loadTasks[row := rest], submissions, waits, row, req);
      assert InFlight(loadTasks[row := rest], Load(row, req), rest[req]);
      ExplainsWait(submissions, waits, failureReqs, requestData, rows, submitFails, waitFails, rest[req]);
      assert loadTasks[row := rest][row := rest - {req}] == loadTasks[row := rest - {req}];
      waits := waits + [rest[req]];
      if Load(row, req) in waitFails {
        MarkLoadFailed(req);
      }
    }

    // Waits for the first row in flight, or for a row waited for before.
    method WaitInOrder(ghost low: nat, ghost upTo: nat, row: nat, ghost submitFails: set<Load>, waitFails: set<Load>)
      requires Explained(submitFails, waitFails)
      requires Partly(low, upTo) && row <= low && row < upTo
      modifies this`loadTasks, this`waits, this`failureReqs, this`invalidBlocks
      ensures old(waits) <= waits
      ensures Partly(if row == low then low + 1 else low, upTo)
      ensures row < low ==> unchanged(this)
      ensures old(failureReqs) <= failureReqs
      ensures Explained(submitFails, waitFails)
    {
      var _ := WaitRow(row, submitFails, waitFails);
      if row == low {
        FirstRowWaited(low, upTo, requestData, old(loadTasks), submittedRows, submissions, old(waits), old(failureReqs),
                       waits, failureReqs);
      } else {
        assert loadTasks == old(loadTasks);
      }
    }

    // Starts a pass: the first rows are submitted and row 0 is waited for.
    method StartLoad(loads: seq<RequestLoad>, submitFails: set<Load>, waitFails: set<Load>)
      requires OneEach(loads)
      modifies this
      ensures requestData == Loading(loads, skipNullBlocks) && loadBlocks == BlocksOf(loads)
      ensures Serves(requestData, loads, skipNullBlocks)
      ensures needLoad == (requestData != [])
      ensures needLoad && 0 < rows ==> At(0)
      ensures !needLoad ==> Partly(0, 0)
      ensures Explained(submitFails, waitFails)
    {
      var requests := RequestsToLoad(loads);
      LoadingIsDistinct(loads, skipNullBlocks);
      ghost var _ := LoadingServes(loads, skipNullBlocks);
      Reset(requests, BlocksOf(loads), submitFails, waitFails);
      if needLoad && 0 < rows {
        LoadFirstRows(submitFails, waitFails);
      }
    }

    method LoadFirstRows(submitFails: set<Load>, waitFails: set<Load>)
      requires 0 < rows && Partly(0, 0) && Explained(submitFails, waitFails)
      modifies this`loadTasks, this`submissions, this`failureReqs, this`invalidBlocks, this`nextTask, this`submittedRows, this`peak, this`waits
      ensures At(0) && Explained(submitFails, waitFails)
    {
      SubmitRows(0, 0, 0, Min(prefetch + 1, rows), submitFails, waitFails);
      WaitInOrder(0, Min(prefetch + 1, rows), 0, submitFails, waitFails);
    }

    // The requests that have a real block to load.
    method RequestsToLoad(loads: seq<RequestLoad>) returns (requests: seq<nat>)
      ensures requests == Loading(loads, skipNullBlocks)
    {
      requests := [];
      for i := 0 to |loads|
        invariant requests == Loading(loads[..i], skipNullBlocks)
      {
        assert loads[..i + 1][..i] == loads[..i];
        if loads[i].ids == [] {
          continue;
        }
        if skipNullBlocks {
          var ids, blocks := DropNullBlocks(loads[i].ids, loads[i].blocks);
          if ids == [] {
            continue;
          }
        }
        requests := requests + [loads[i].req];
      }
      assert loads[..|loads|] == loads;
    }

    method Reset(requests: seq<nat>, blocks: map<nat, set<nat>>, ghost submitFails: set<Load>, ghost waitFails: set<Load>)
      requires Distinct(requests)
      modifies this
      ensures requestData == requests && loadBlocks == blocks && needLoad == (requests != [])
      ensures Partly(0, 0) && Explained(submitFails, waitFails)
    {
      loadTasks, submittedRows, failureReqs := map[], {}, {};
      nextTask, submissions, waits, peak := 0, [], [], 0;
      requestData, loadBlocks := requests, blocks;
      needLoad := requests != [];
    }

    // Submits the rows [from..to) that have not been submitted.
    method SubmitRows(ghost low: nat, ghost upTo: nat, from: nat, to: nat, submitFails: set<Load>, ghost waitFails: set<Load>)
      requires to <= rows && Explained(submitFails, waitFails)
      requires Partly(low, upTo) && from <= upTo && to <= low + prefetch + 1
      modifies this`loadTasks, this`submissions, this`failureReqs, this`invalidBlocks, this`nextTask, this`submittedRows, this`peak
      ensures Partly(low, if upTo < to then to else upTo)
      ensures to <= upTo ==> unchanged(this)
      ensures old(failureReqs) <= failureReqs && old(submissions) <= submissions
      ensures Explained(submitFails, waitFails)
    {
      ghost var reached: nat := upTo;
      var idx := from;
      while idx < to
        invariant from <= idx && Partly(low, reached) && idx <= reached && Explained(submitFails, waitFails)
        invariant reached == if upTo < idx <= to then idx else upTo
        invariant idx <= to || idx == from
        invariant reached == upTo ==> unchanged(this)
        invariant old(failureReqs) <= failureReqs && old(submissions) <= submissions
      {
        SubmitRowInOrder(low, reached, idx, submitFails, waitFails);
        idx := idx + 1;
        if reached < idx { reached := idx; }
      }
    }

    // Submits one row, at most the first that has not been submitted.
    method SubmitRowInOrder(ghost low: nat, ghost upTo: nat, row: nat, submitFails: set<Load>, ghost waitFails: set<Load>)
      requires row < rows && Explained(submitFails, waitFails)
      requires Partly(low, upTo) && row <= upTo && row < low + prefetch + 1 && (row == upTo ==> low <= row)
      modifies this`loadTasks, this`submissions, this`failureReqs, this`invalidBlocks, this`nextTask, this`submittedRows, this`peak
      ensures Partly(low, if row == upTo then upTo + 1 else upTo)
      ensures row < upTo ==> unchanged(this)
      ensures old(failureReqs) <= failureReqs && old(submissions) <= submissions
      ensures Explained(submitFails, waitFails)
    {
      if row == upTo {
        FewRows(loadTasks.Keys + {row}, low, row + 1);
      }
      SubmitRowOnce(row, submitFails, waitFails);
      if row == upTo {
        NextRow(low, upTo, requestData, old(loadTasks), old(submittedRows), old(submissions), waits, old(failureReqs),
                loadTasks, submissions, failureReqs);
      }
    }

    // The hook of a row already loaded: loads the next row and submits those after it.
    method WaitForLayerLoad(row: nat, ghost done: nat, submitFails: set<Load>, waitFails: set<Load>)
      requires Explained(submitFails, waitFails)
      requires row <= done < rows && (needLoad ==> At(done))
      modifies this`loadTasks, this`submissions, this`failureReqs, this`invalidBlocks, this`nextTask, this`submittedRows, this`peak, this`waits
      ensures needLoad ==> old(RowReady(row, requestData, submissions, waits, failureReqs))
      ensures needLoad ==> At(if row == done && done + 1 < rows then done + 1 else done)
      ensures !needLoad || row < done || done + 1 == rows ==> unchanged(this)
      ensures old(failureReqs) <= failureReqs && old(submissions) <= submissions && old(waits) <= waits
      ensures Explained(submitFails, waitFails)
    {
      if !needLoad {
        return;
      }
      RowsAreReady(done + 1, Min(done + prefetch + 1, rows), requestData, loadTasks, submittedRows, submissions, waits, failureReqs, row);
      var next := row + 1;
      if next >= rows {
        return;
      }
      ghost var upTo := Min(done + prefetch + 1, rows);
      SubmitRowInOrder(done + 1, upTo, next, submitFails, waitFails);
      if upTo < next + 1 { upTo := next + 1; }
      WaitInOrder(done + 1, upTo, next, submitFails, waitFails);
      ghost var low := if row == done then done + 2 else done + 1;
      SubmitRows(low, upTo, next + 1, Min(next + 1 + prefetch, rows), submitFails, waitFails);
    }
  }

  // Submitting the first row that has not been submitted.
  lemma NextRow(low: nat, upTo: nat, requests: seq<nat>, tasks: Tasks, submitted: set<nat>, submissions: seq<Load>,
                waits: seq<nat>, failed: set<nat>, moreTasks: Tasks, moreSubmissions: seq<Load>, moreFailed: set<nat>)
    requires Between(low, upTo, requests, tasks, submitted, submissions, waits, failed)
    requires Tracks(moreTasks, moreSubmissions, waits)
    requires moreTasks.Keys <= tasks.Keys + {upTo}
    requires submissions <= moreSubmissions && failed <= moreFailed
    requires forall t :: |submissions| <= t < |moreSubmissions| ==> moreSubmissions[t].row == upTo
    requires Covers(upTo, requests, |requests|, moreSubmissions, moreFailed)
    ensures Between(low, upTo + 1, requests, moreTasks, submitted + {upTo}, moreSubmissions, waits, moreFailed)
  {
    assert forall l :: l in submissions ==> l in moreSubmissions;
    forall row | row in submitted ensures Covers(row, requests, |requests|, moreSubmissions, moreFailed) {
      assert Covers(row, requests, |requests|, submissions, failed);
    }
    assert forall t :: 0 <= t < |submissions| ==> moreSubmissions[t] == submissions[t];
  }

  // Waiting for the first row in flight.
  lemma FirstRowWaited(low: nat, upTo: nat, requests: seq<nat>, tasks: Tasks, submitted: set<nat>, submissions: seq<Load>,
                       waits: seq<nat>, failed: set<nat>, moreWaits: seq<nat>, moreFailed: set<nat>)
    requires low < upTo && Between(low, upTo, requests, tasks, submitted, submissions, waits, failed)
    requires Tracks(tasks - {low}, submissions, moreWaits) && failed <= moreFailed
    ensures Between(low + 1, upTo, requests, tasks - {low}, submitted, submissions, moreWaits, moreFailed)
  {
    forall row | row in submitted ensures Covers(row, requests, |requests|, submissions, moreFailed) {
      assert Covers(row, requests, |requests|, submissions, failed);
    }
  }

  // ------------------------------------------------------------------- a whole pass

  // Hooks in order: no row is passed over, while rows may be visited again.
  ghost predicate InOrder(visits: seq<nat>) {
    forall k :: 0 <= k < |visits| ==> visits[k] <= Furthest(visits[..k])
  }

  // The first row whose hook has not run.
  function Furthest(visits: seq<nat>): nat {
    if visits == [] then 0
    else
      var before, last := Furthest(visits[..|visits| - 1]), visits[|visits| - 1];
      if before <= last then last + 1 else before
  }

  lemma {:induction false} FurthestBounds(visits: seq<nat>, rows: nat)
    requires forall k :: 0 <= k < |visits| ==> visits[k] < rows
    ensures Furthest(visits) <= rows
    ensures forall k :: 0 <= k < |visits| ==> visits[k] < Furthest(visits)
  {
    if visits != [] {
      FurthestBounds(visits[..|visits| - 1], rows);
    }
  }

  // What the pipeline had done when a hook was called.
  datatype Snapshot = Snapshot(row: nat, submissions: seq<Load>, waits: seq<nat>, failed: set<nat>)

  // Every row was ready when its hook was called; `submissions`, `waits` and `failed` are
  // the history since, of which each hook saw an earlier part.
  ghost predicate AllReady(hooks: seq<Snapshot>, visits: seq<nat>, requests: seq<nat>,
                           submissions: seq<Load>, waits: seq<nat>, failed: set<nat>)
  {
    && |hooks| == |visits|
    && forall k :: 0 <= k < |hooks| ==>
         && hooks[k].row == visits[k]
         && hooks[k].submissions <= submissions && hooks[k].waits <= waits && hooks[k].failed <= failed
         && RowReady(visits[k], requests, hooks[k].submissions, hooks[k].waits, hooks[k].failed)
  }

  lemma OneMoreHook(hooks: seq<Snapshot>, visits: seq<nat>, requests: seq<nat>, now: Snapshot,
                    submissions: seq<Load>, waits: seq<nat>, failed: set<nat>)
    requires AllReady(hooks, visits, requests, now.submissions, now.waits, now.failed)
    requires RowReady(now.row, requests, now.submissions, now.waits, now.failed)
    requires now.submissions <= submissions && now.waits <= waits && now.failed <= failed
    ensures AllReady(hooks + [now], visits + [now.row], requests, submissions, waits, failed)
  {
  }

  // A whole pass, for any number of rows, prefetch depth, failures and repeated visits:
  // every row is ready when its hook is called, at most prefetch + 1 rows are ever in
  // flight, no load is submitted or waited for twice, and none is left in the end.
  method RunPass(p: LoadPipeline, loads: seq<RequestLoad>, visits: seq<nat>, submitFails: set<Load>, waitFails: set<Load>)
      returns (ghost hooks: seq<Snapshot>)
    requires OneEach(loads) && 0 < p.rows
    requires InOrder(visits) && (forall k :: 0 <= k < |visits| ==> visits[k] < p.rows) && p.rows - 1 in visits
    modifies p
    ensures Serves(p.requestData, loads, p.skipNullBlocks)
    ensures p.needLoad ==> AllReady(hooks, visits, p.requestData, p.submissions, p.waits, p.failureReqs)
    ensures p.loadTasks == map[] && p.peak <= p.prefetch + 1
    ensures Distinct(p.submissions) && Distinct(p.waits)
    ensures forall t :: t in p.waits <==> 0 <= t < |p.submissions|
    ensures forall row, k :: 0 <= row < p.rows && 0 <= k < |p.requestData| ==>
              Load(row, p.requestData[k]) in p.submissions || p.requestData[k] in p.failureReqs
    ensures forall r :: r in p.failureReqs <==>
              r in p.requestData && exists row: nat :: row < p.rows && FailsAt(row, r, p.submissions, submitFails, waitFails)
    ensures forall i, b :: 0 <= i < |loads| && loads[i].req in p.failureReqs && b in loads[i].blocks ==> b in p.invalidBlocks
  {
    p.StartLoad(loads, submitFails, waitFails);
    hooks := CallHooks(p, visits, submitFails, waitFails);
    PassIsOver(p, p.rows - 1, loads, submitFails, waitFails);
  }

  ghost function Done(visits: seq<nat>, rows: nat): nat
    requires 0 < rows
  {
    if Furthest(visits) < rows then Furthest(visits) else rows - 1
  }

  // Calls the hooks of a pass that has been started.
  method CallHooks(p: LoadPipeline, visits: seq<nat>, submitFails: set<Load>, waitFails: set<Load>)
      returns (ghost hooks: seq<Snapshot>)
    requires 0 < p.rows && Passing(p, 0, [], [], submitFails, waitFails)
    requires InOrder(visits) && (forall k :: 0 <= k < |visits| ==> visits[k] < p.rows) && p.rows - 1 in visits
    modifies p`loadTasks, p`submissions, p`failureReqs, p`invalidBlocks, p`nextTask, p`submittedRows, p`peak, p`waits
    ensures Passing(p, p.rows - 1, visits, hooks, submitFails, waitFails)
  {
    hooks := [];
    ghost var done := 0;
    for i := 0 to |visits|
      invariant Passed(p, visits, i, done, hooks, submitFails, waitFails)
    {
      hooks, done := CallNext(p, visits, i, done, hooks, submitFails, waitFails);
    }
    AllVisited(visits, p.rows);
  }

  // A pass after the first i visits.
  ghost predicate Passed(p: LoadPipeline, visits: seq<nat>, i: nat, done: nat, hooks: seq<Snapshot>,
                         submitFails: set<Load>, waitFails: set<Load>)
    requires 0 < p.rows && i <= |visits|
    reads p
  {
    done == Done(visits[..i], p.rows) && Passing(p, done, visits[..i], hooks, submitFails, waitFails)
  }

  method CallNext(p: LoadPipeline, visits: seq<nat>, i: nat, ghost done: nat, ghost hooks: seq<Snapshot>,
                  submitFails: set<Load>, waitFails: set<Load>)
      returns (ghost more: seq<Snapshot>, ghost next: nat)
    requires 0 < p.rows && i < |visits| && InOrder(visits) && visits[i] < p.rows
    requires Passed(p, visits, i, done, hooks, submitFails, waitFails)
    modifies p`loadTasks, p`submissions, p`failureReqs, p`invalidBlocks, p`nextTask, p`submittedRows, p`peak, p`waits
    ensures Passed(p, visits, i + 1, next, more, submitFails, waitFails)
  {
    OneMoreVisit(visits, i, p.rows);
    more, next := CallHook(p, done, visits[..i], visits[i], hooks, submitFails, waitFails);
  }

  lemma OneMoreVisit(visits: seq<nat>, i: nat, rows: nat)
    requires i < |visits| && visits[i] < rows && InOrder(visits)
    ensures visits[..i + 1] == visits[..i] + [visits[i]]
    ensures visits[i] <= Done(visits[..i], rows)
    ensures var done := Done(visits[..i], rows);
            Done(visits[..i + 1], rows) == if visits[i] == done && done + 1 < rows then done + 1 else done
  {
    assert visits[..i + 1][..i] == visits[..i];
  }

  lemma AllVisited(visits: seq<nat>, rows: nat)
    requires (forall k :: 0 <= k < |visits| ==> visits[k] < rows) && rows - 1 in visits
    ensures visits[..|visits|] == visits && Done(visits, rows) == rows - 1
  {
    FurthestBounds(visits, rows);
  }

  // A pass after some hooks, with the rows up to `done` loaded.
  ghost predicate Passing(p: LoadPipeline, done: nat, visits: seq<nat>, hooks: seq<Snapshot>,
                          submitFails: set<Load>, waitFails: set<Load>)
    reads p
  {
    && p.Explained(submitFails, waitFails)
    && (if p.needLoad then p.At(done) else p.Partly(0, 0))
    && (p.needLoad ==> AllReady(hooks, visits, p.requestData, p.submissions, p.waits, p.failureReqs))
  }

  method CallHook(p: LoadPipeline, ghost done: nat, ghost visits: seq<nat>, row: nat, ghost hooks: seq<Snapshot>,
                  submitFails: set<Load>, waitFails: set<Load>)
      returns (ghost more: seq<Snapshot>, ghost next: nat)
    requires row <= done < p.rows && Passing(p, done, visits, hooks, submitFails, waitFails)
    modifies p`loadTasks, p`submissions, p`failureReqs, p`invalidBlocks, p`nextTask, p`submittedRows, p`peak, p`waits
    ensures next == (if row == done && done + 1 < p.rows then done + 1 else done) && Passing(p, next, visits + [row], more, submitFails, waitFails)
  {
    next := if row == done && done + 1 < p.rows then done + 1 else done;
    ghost var now := Snapshot(row, p.submissions, p.waits, p.failureReqs);
    more := hooks + [now];
    p.WaitForLayerLoad(row, done, submitFails, waitFails);
    if p.needLoad {
      OneMoreHook(hooks, visits, p.requestData, now, p.submissions, p.waits, p.failureReqs);
    }
  }

  // After the last row nothing is in flight, and every load was waited for. Exactly the
  // requests with a failing load have failed.
  lemma PassIsOver(p: LoadPipeline, done: nat, loads: seq<RequestLoad>, submitFails: set<Load>, waitFails: set<Load>)
    requires 0 < p.rows && done == p.rows - 1 && if p.needLoad then p.At(done) else p.Partly(0, 0)
    requires p.needLoad == (p.requestData != []) && p.Explained(submitFails, waitFails)
    requires OneEach(loads) && p.loadBlocks == BlocksOf(loads)
    ensures p.loadTasks == map[] && p.peak <= p.prefetch + 1 && Distinct(p.submissions) && Distinct(p.waits)
    ensures forall t :: t in p.waits <==> 0 <= t < |p.submissions|
    ensures forall row, k :: 0 <= row < p.rows && 0 <= k < |p.requestData| ==>
              Load(row, p.requestData[k]) in p.submissions || p.requestData[k] in p.failureReqs
    ensures forall r :: r in p.failureReqs <==>
              r in p.requestData && exists row: nat :: row < p.rows && FailsAt(row, r, p.submissions, submitFails, waitFails)
    ensures forall i, b :: 0 <= i < |loads| && loads[i].req in p.failureReqs && b in loads[i].blocks ==> b in p.invalidBlocks
  {
    assert forall row :: row !in p.loadTasks;
    forall t | 0 <= t < |p.submissions| ensures t in p.waits {
      assert !InFlight(p.loadTasks, p.submissions[t], t);
    }
    forall row: nat, k | row < p.rows && 0 <= k < |p.requestData|
      ensures Load(row, p.requestData[k]) in p.submissions || p.requestData[k] in p.failureReqs
    {
      assert row in p.submittedRows;
      assert Covers(row, p.requestData, |p.requestData|, p.submissions, p.failureReqs);
    }
    forall row: nat, r | row < p.rows && r in p.requestData && FailsAt(row, r, p.submissions, submitFails, waitFails)
      ensures r in p.failureReqs
    {
      FailureCounts(p.submissions, p.waits, p.failureReqs, p.requestData, p.rows, submitFails, waitFails, row, r);
    }
    forall i | 0 <= i < |loads| ensures loads[i].req in p.loadBlocks && p.loadBlocks[loads[i].req] == set b | b in loads[i].blocks {
      BlocksOfMeaning(loads, i);
    }
  }

  lemma FailureCounts(submissions: seq<Load>, waits: seq<nat>, failed: set<nat>, requests: seq<nat>, rows: nat,
                      submitFails: set<Load>, waitFails: set<Load>, row: nat, r: nat)
    requires Explains(submissions, waits, failed, requests, rows, submitFails, waitFails)
    requires (forall t :: 0 <= t < |submissions| ==> t in waits) && (Load(row, r) in submissions || r in failed)
    requires FailsAt(row, r, submissions, submitFails, waitFails)
    ensures r in failed
  {
    if Load(row, r) in submissions {
      var t :| 0 <= t < |submissions| && submissions[t] == Load(row, r);
    }
  }
}
