/** The dispatcher of one function: which worker runs which call. */
module Dispatchers {
  import opened Logs

  datatype FuncCall = FuncCall(id: nat, clientId: nat)

  // ---------------------------------------------------------------- what stays true

  predicate AssigneeOk(assignees: map<nat, nat>, running: map<nat, FuncCall>, ended: Option<nat>, id: nat)
  {
    id in assignees && Some(id) != ended ==> assignees[id] in running && running[assignees[id]].id == id
  }

  predicate RunnerOk(assignees: map<nat, nat>, running: map<nat, FuncCall>, ended: Option<nat>, w: nat)
  {
    w in running ==> running[w].id in assignees && assignees[running[w].id] == w && Some(running[w].id) != ended
  }

  /** Running workers and assigned calls point at each other; one call may just have ended. */
  ghost predicate Inverse(assignees: map<nat, nat>, running: map<nat, FuncCall>, ended: Option<nat>)
  {
    (forall id {:trigger AssigneeOk(assignees, running, ended, id)} :: AssigneeOk(assignees, running, ended, id)) &&
    (forall w {:trigger RunnerOk(assignees, running, ended, w)} :: RunnerOk(assignees, running, ended, w))
  }

  predicate NoRepeats(s: seq<nat>) { forall i, j :: 0 <= i < j < |s| ==> s[i] != s[j] }

  predicate PlacedAt(workers: set<nat>, running: map<nat, FuncCall>, idle: seq<nat>, between: Option<nat>, w: nat)
  {
    (w in running ==> w in workers) &&
    (w in workers && Some(w) != between ==> (w in running <==> w !in idle)) &&
    (Some(w) == between ==> w in workers && w !in running && w !in idle)
  }

  /** Every connected worker runs a call or is listed as idle, once; one worker may be in between. */
  ghost predicate Placed(workers: set<nat>, running: map<nat, FuncCall>, idle: seq<nat>, between: Option<nat>)
  {
    NoRepeats(idle) &&
    forall w {:trigger PlacedAt(workers, running, idle, between, w)} :: PlacedAt(workers, running, idle, between, w)
  }

  /** A call goes to a worker. */
  lemma {:induction false} Give(workers: set<nat>, assignees: map<nat, nat>, running: map<nat, FuncCall>,
                                idle: seq<nat>, ended: Option<nat>, w: nat, c: FuncCall)
    requires Inverse(assignees, running, ended) && Placed(workers, running, idle, Some(w)) && c.id !in assignees &&
             Some(c.id) != ended
    ensures Inverse(assignees[c.id := w], running[w := c], ended) && Placed(workers, running[w := c], idle, None)
  {
    var assignees', running' := assignees[c.id := w], running[w := c];
    assert PlacedAt(workers, running, idle, Some(w), w);
    forall id: nat
      ensures AssigneeOk(assignees', running', ended, id)
    {
      assert AssigneeOk(assignees, running, ended, id);
    }
    forall v: nat
      ensures RunnerOk(assignees', running', ended, v) && PlacedAt(workers, running', idle, None, v)
    {
      assert RunnerOk(assignees, running, ended, v) && PlacedAt(workers, running, idle, Some(w), v);
    }
  }

  /** A worker ends its call. */
  lemma {:induction false} EndRun(workers: set<nat>, assignees: map<nat, nat>, running: map<nat, FuncCall>,
                                  idle: seq<nat>, w: nat)
    requires Inverse(assignees, running, None) && Placed(workers, running, idle, None) && w in running
    ensures Inverse(assignees, running - {w}, Some(running[w].id)) && Placed(workers, running - {w}, idle, Some(w))
  {
    var running', ended := running - {w}, Some(running[w].id);
    assert RunnerOk(assignees, running, None, w) && PlacedAt(workers, running, idle, None, w);
    forall id: nat
      ensures AssigneeOk(assignees, running', ended, id)
    {
      assert AssigneeOk(assignees, running, None, id);
    }
    forall v: nat
      ensures RunnerOk(assignees, running', ended, v) && PlacedAt(workers, running', idle, Some(w), v)
    {
      assert RunnerOk(assignees, running, None, v) && PlacedAt(workers, running, idle, None, v);
    }
  }

  lemma {:induction false} Unassign(assignees: map<nat, nat>, running: map<nat, FuncCall>, id: nat)
    requires Inverse(assignees, running, Some(id))
    ensures Inverse(assignees - {id}, running, None)
  {
    var assignees' := assignees - {id};
    forall x: nat
      ensures AssigneeOk(assignees', running, None, x) && RunnerOk(assignees', running, None, x)
    {
      assert AssigneeOk(assignees, running, Some(id), x) && RunnerOk(assignees, running, Some(id), x);
    }
  }

  /** A worker that is in between becomes idle. */
  lemma {:induction false} BecomeIdle(workers: set<nat>, running: map<nat, FuncCall>, idle: seq<nat>, w: nat)
    requires Placed(workers, running, idle, Some(w))
    ensures Placed(workers, running, idle + [w], None)
  {
    var idle' := idle + [w];
    assert PlacedAt(workers, running, idle, Some(w), w);
    forall v: nat
      ensures PlacedAt(workers, running, idle', None, v)
    {
      assert PlacedAt(workers, running, idle, Some(w), v);
    }
  }

  /** The last idle worker leaves the list; it is in between, or has gone. */
  lemma {:induction false} PopIdle(workers: set<nat>, running: map<nat, FuncCall>, idle: seq<nat>)
    requires Placed(workers, running, idle, None) && idle != []
    ensures var last, idle' := idle[|idle| - 1], idle[..|idle| - 1];
      Placed(workers, running, idle', if last in workers && last !in running then Some(last) else None)
  {
    var last, idle' := idle[|idle| - 1], idle[..|idle| - 1];
    var between := if last in workers && last !in running then Some(last) else None;
    assert idle == idle' + [last] && last !in idle';
    forall v: nat
      ensures PlacedAt(workers, running, idle', between, v)
    {
      assert PlacedAt(workers, running, idle, None, v);
    }
  }

  /** A worker comes, in between at first, or an idle worker goes. */
  lemma {:induction false} ComeAndGo(workers: set<nat>, running: map<nat, FuncCall>, idle: seq<nat>, w: nat)
    requires Placed(workers, running, idle, None)
    ensures w !in workers && w !in idle ==> Placed(workers + {w}, running, idle, Some(w))
    ensures w !in running ==> Placed(workers - {w}, running, idle, None)
  {
    var more, fewer := workers + {w}, workers - {w};
    forall v: nat
      ensures w !in workers && w !in idle ==> PlacedAt(more, running, idle, Some(w), v)
      ensures w !in running ==> PlacedAt(fewer, running, idle, None, v)
    {
      assert PlacedAt(workers, running, idle, None, v) && PlacedAt(workers, running, idle, None, w);
    }
  }

  predicate IsPending(pending: seq<FuncCall>, id: nat) { exists i :: 0 <= i < |pending| && pending[i].id == id }

  /** Pending calls are accepted calls that have no worker. */
  ghost predicate Queued(pending: seq<FuncCall>, assignees: map<nat, nat>, accepted: map<nat, FuncCall>)
  {
    (forall i, j :: 0 <= i < j < |pending| ==> pending[i].id != pending[j].id) &&
    forall i :: 0 <= i < |pending| ==>
      pending[i].id !in assignees && pending[i].id in accepted && accepted[pending[i].id] == pending[i]
  }

  predicate ExactlyOne(a: bool, b: bool, c: bool, d: bool)
  {
    (a || b || c || d) && !(a && b) && !(a && c) && !(a && d) && !(b && c) && !(b && d) && !(c && d)
  }

  /** A call is in exactly one place. */
  predicate InOnePlace(pending: seq<FuncCall>, assignees: map<nat, nat>, finished: set<nat>, discarded: set<nat>,
                       id: nat)
  {
    ExactlyOne(IsPending(pending, id), id in assignees, id in finished, id in discarded)
  }

  function Ids(calls: seq<FuncCall>): set<nat> { set c | c in calls :: c.id }

  lemma {:induction false} IdsMore(calls: seq<FuncCall>, k: nat)
    requires k < |calls|
    ensures Ids(calls[..k + 1]) == Ids(calls[..k]) + {calls[k].id}
  {
    assert calls[..k + 1] == calls[..k] + [calls[k]];
    assert calls[k] in calls[..k + 1] && forall c :: c in calls[..k] ==> c in calls[..k + 1];
  }

  lemma {:induction false} PendingTail(pending: seq<FuncCall>, id: nat)
    requires pending != []
    ensures IsPending(pending, id) <==> pending[0].id == id || IsPending(pending[1..], id)
  {
    if IsPending(pending, id) {
      var i :| 0 <= i < |pending| && pending[i].id == id;
      assert i > 0 ==> pending[1..][i - 1].id == id;
    }
    if IsPending(pending[1..], id) {
      var i :| 0 <= i < |pending| - 1 && pending[1..][i].id == id;
      assert pending[i + 1].id == id;
    }
  }

  lemma {:induction false} PendingMore(pending: seq<FuncCall>, c: FuncCall, id: nat)
    ensures IsPending(pending + [c], id) <==> IsPending(pending, id) || c.id == id
  {
    var more := pending + [c];
    assert more[|pending|] == c;
    if IsPending(pending, id) {
      var i :| 0 <= i < |pending| && pending[i].id == id;
      assert more[i].id == id;
    }
  }

  /**
   A call is in one place, and the tracer knows it while it is pending or running; it forgets a call that ends
   first.
   */
  predicate Located(pending: seq<FuncCall>, assignees: map<nat, nat>, finished: set<nat>, discarded: set<nat>,
                    infos: set<nat>, ended: Option<nat>, id: nat)
  {
    InOnePlace(pending, assignees, finished, discarded, id) &&
    (id in infos <==> Some(id) != ended && (IsPending(pending, id) || id in assignees))
  }

  /** Every accepted call is located. */
  ghost predicate InPlace(accepted: map<nat, FuncCall>, pending: seq<FuncCall>, assignees: map<nat, nat>,
                          finished: set<nat>, discarded: set<nat>, infos: set<nat>, ended: Option<nat>)
  {
    forall id {:trigger Located(pending, assignees, finished, discarded, infos, ended, id)} ::
      id in accepted ==> Located(pending, assignees, finished, discarded, infos, ended, id)
  }

  /** The first pending call leaves the queue: it is dropped, or it gets a worker. */
  lemma {:induction false} FirstLeaves(accepted: map<nat, FuncCall>, pending: seq<FuncCall>, assignees: map<nat, nat>,
                                       finished: set<nat>, discarded: set<nat>, infos: set<nat>, ended: Option<nat>,
                                       w: nat)
    requires pending != [] && Queued(pending, assignees, accepted) && Some(pending[0].id) != ended
    requires InPlace(accepted, pending, assignees, finished, discarded, infos, ended)
    ensures var id := pending[0].id;
            InPlace(accepted, pending[1..], assignees, finished, discarded + {id}, infos - {id}, ended)
    ensures var id := pending[0].id;
            InPlace(accepted, pending[1..], assignees[id := w], finished, discarded, infos, ended)
  {
    var first, rest := pending[0].id, pending[1..];
    var dropped, known, given := discarded + {first}, infos - {first}, assignees[first := w];
    assert !IsPending(rest, first);
    forall id | id in accepted
      ensures Located(rest, assignees, finished, dropped, known, ended, id)
      ensures Located(rest, given, finished, discarded, infos, ended, id)
    {
      PendingTail(pending, id);
      assert Located(pending, assignees, finished, discarded, infos, ended, id);
      assert Located(pending, assignees, finished, discarded, infos, ended, first);
    }
  }

  lemma {:induction false} QueueTail(pending: seq<FuncCall>, assignees: map<nat, nat>, accepted: map<nat, FuncCall>,
                                     w: nat)
    requires pending != [] && Queued(pending, assignees, accepted)
    ensures Queued(pending[1..], assignees, accepted) && Queued(pending[1..], assignees[pending[0].id := w], accepted)
  {
  }

  lemma {:induction false} QueueMore(pending: seq<FuncCall>, assignees: map<nat, nat>, accepted: map<nat, FuncCall>,
                                     c: FuncCall, w: nat)
    requires Queued(pending, assignees, accepted) && c.id !in accepted && c.id !in assignees
    ensures Queued(pending + [c], assignees, accepted[c.id := c]) &&
            Queued(pending, assignees[c.id := w], accepted[c.id := c])
  {
  }

  lemma {:induction false} QueueLess(pending: seq<FuncCall>, assignees: map<nat, nat>, accepted: map<nat, FuncCall>,
                                     id: nat)
    requires Queued(pending, assignees, accepted)
    ensures Queued(pending, assignees - {id}, accepted)
  {
  }

  /** A new call waits, or gets a worker at once. */
  lemma {:induction false} NewCall(accepted: map<nat, FuncCall>, pending: seq<FuncCall>, assignees: map<nat, nat>,
                                   finished: set<nat>, discarded: set<nat>, infos: set<nat>, c: FuncCall, w: nat)
    requires InPlace(accepted, pending, assignees, finished, discarded, infos, None) && c.id !in accepted
    requires Queued(pending, assignees, accepted) && c.id !in assignees && c.id !in finished && c.id !in discarded
    ensures InPlace(accepted[c.id := c], pending + [c], assignees, finished, discarded, infos + {c.id}, None)
    ensures InPlace(accepted[c.id := c], pending, assignees[c.id := w], finished, discarded, infos + {c.id}, None)
  {
    assert !IsPending(pending, c.id);
    var more, known, given := pending + [c], infos + {c.id}, assignees[c.id := w];
    forall id | id in accepted[c.id := c]
      ensures Located(more, assignees, finished, discarded, known, None, id)
      ensures Located(pending, given, finished, discarded, known, None, id)
    {
      PendingMore(pending, c, id);
      assert id in accepted ==> Located(pending, assignees, finished, discarded, infos, None, id);
    }
  }

  /** A call with a worker ends: first the tracer forgets it. */
  lemma {:induction false} TracerForgets(accepted: map<nat, FuncCall>, pending: seq<FuncCall>,
                                         assignees: map<nat, nat>, finished: set<nat>, discarded: set<nat>,
                                         infos: set<nat>, id: nat)
    requires InPlace(accepted, pending, assignees, finished, discarded, infos, None)
    ensures InPlace(accepted, pending, assignees, finished, discarded, infos - {id}, Some(id))
  {
    var known := infos - {id};
    forall x | x in accepted
      ensures Located(pending, assignees, finished, discarded, known, Some(id), x)
    {
      assert Located(pending, assignees, finished, discarded, infos, None, x);
    }
  }

  /** At last the call leaves its worker. */
  lemma {:induction false} CallEnds(accepted: map<nat, FuncCall>, pending: seq<FuncCall>, assignees: map<nat, nat>,
                                    finished: set<nat>, discarded: set<nat>, infos: set<nat>, id: nat)
    requires id in assignees && InPlace(accepted, pending, assignees, finished, discarded, infos, Some(id))
    ensures InPlace(accepted, pending, assignees - {id}, finished + {id}, discarded, infos, None)
  {
    var left, done := assignees - {id}, finished + {id};
    forall x | x in accepted
      ensures Located(pending, left, done, discarded, infos, None, x)
    {
      assert Located(pending, assignees, finished, discarded, infos, Some(id), x);
    }
  }

  /** A call that ends without a worker is still waiting, and then it is in two places. */
  lemma {:induction false} WaitingEnds(accepted: map<nat, FuncCall>, pending: seq<FuncCall>, assignees: map<nat, nat>,
                                       finished: set<nat>, discarded: set<nat>, infos: set<nat>, id: nat)
    requires InPlace(accepted, pending, assignees, finished, discarded, infos, None)
    requires id in accepted && id in infos && id !in assignees
    ensures IsPending(pending, id) &&
            !InPlace(accepted, pending, assignees, finished + {id}, discarded, infos - {id}, None)
  {
    assert Located(pending, assignees, finished, discarded, infos, None, id);
    var done, known := finished + {id}, infos - {id};
    assert !Located(pending, assignees, done, discarded, known, None, id);
  }

  /** The part of the dispatcher's state that changes when a worker comes free. */
  datatype Desk = Desk(pending: seq<FuncCall>, running: map<nat, FuncCall>, assignees: map<nat, nat>, idle: seq<nat>,
                       discarded: set<nat>)

  /** Only calls that have waited too long are dropped, and never one with client 0. */
  predicate IsDropped(c: FuncCall, late: FuncCall -> bool)
  {
    c.clientId != 0 && late(c)
  }

  /**
   A free worker takes the first pending call that is not dropped; exactly the calls before it are discarded. It
   becomes idle only when there is none, and then nothing is left pending.
   */
  ghost predicate TakesNext(before: Desk, after: Desk, w: nat, late: FuncCall -> bool, dropped: nat)
  {
    dropped <= |before.pending| && (forall i :: 0 <= i < dropped ==> IsDropped(before.pending[i], late)) &&
    after.discarded == before.discarded + Ids(before.pending[..dropped]) &&
    if dropped < |before.pending|
    then var c := before.pending[dropped];
         !IsDropped(c, late) && after.pending == before.pending[dropped + 1..] && after.idle == before.idle &&
         after.running == before.running[w := c] && after.assignees == before.assignees[c.id := w]
    else after.pending == [] && after.idle == before.idle + [w] && after.running == before.running &&
         after.assignees == before.assignees
  }

  /** The first pending calls have been dropped. */
  ghost predicate DroppedSoFar(before: Desk, now: Desk, late: FuncCall -> bool, dropped: nat)
  {
    dropped <= |before.pending| && (forall i :: 0 <= i < dropped ==> IsDropped(before.pending[i], late)) &&
    now == before.(pending := before.pending[dropped..], discarded := before.discarded + Ids(before.pending[..dropped]))
  }

  lemma {:induction false} DropOneMore(before: Desk, now: Desk, next: Desk, late: FuncCall -> bool, dropped: nat)
    requires DroppedSoFar(before, now, late, dropped) && now.pending != [] && IsDropped(now.pending[0], late)
    requires next == now.(pending := now.pending[1..], discarded := now.discarded + {now.pending[0].id})
    ensures DroppedSoFar(before, next, late, dropped + 1)
  {
    IdsMore(before.pending, dropped);
  }

  lemma {:induction false} TakeFirst(before: Desk, now: Desk, after: Desk, w: nat, late: FuncCall -> bool, dropped: nat)
    requires DroppedSoFar(before, now, late, dropped) && now.pending != [] && !IsDropped(now.pending[0], late)
    requires var c := now.pending[0];
             after == now.(pending := now.pending[1..], running := now.running[w := c],
                           assignees := now.assignees[c.id := w])
    ensures dropped < |before.pending| && TakesNext(before, after, w, late, dropped)
  {
  }

  predicate Busy(workers: set<nat>, running: map<nat, FuncCall>, w: nat)
  {
    w !in workers || w in running
  }

  /** The worker that became idle last, of those that are still there and run nothing. */
  ghost predicate LastIdle(workers: set<nat>, running: map<nat, FuncCall>, before: seq<nat>, after: seq<nat>, w: nat)
  {
    after + [w] <= before && !Busy(workers, running, w) &&
    forall i :: |after| < i < |before| ==> Busy(workers, running, before[i])
  }

  /** A new call runs on the worker that became idle last. */
  ghost predicate Starts(workers: set<nat>, before: Desk, after: Desk, c: FuncCall)
  {
    c.id in after.assignees &&
    var w := after.assignees[c.id];
    LastIdle(workers, before.running, before.idle, after.idle, w) &&
    after == before.(running := before.running[w := c], assignees := before.assignees[c.id := w], idle := after.idle)
  }

  /** The call leaves its worker, and the worker takes the next. */
  ghost predicate Frees(before: Desk, after: Desk, id: nat, late: FuncCall -> bool, dropped: nat)
  {
    id in before.assignees &&
    var w := before.assignees[id];
    TakesNext(before.(running := before.running - {w}, assignees := before.assignees - {id}), after, w, late, dropped)
  }

  /** It does not matter whether the call that ended leaves its worker before or after the worker takes the next. */
  lemma {:induction false} LeavesFirst(before: Desk, after: Desk, w: nat, late: FuncCall -> bool, dropped: nat, id: nat)
    requires TakesNext(before, after, w, late, dropped)
    requires forall i :: 0 <= i < |before.pending| ==> before.pending[i].id != id
    ensures TakesNext(before.(assignees := before.assignees - {id}), after.(assignees := after.assignees - {id}), w,
                      late, dropped)
  {
    if dropped < |before.pending| {
      var c := before.pending[dropped];
      assert before.assignees[c.id := w] - {id} == (before.assignees - {id})[c.id := w];
    }
  }

  class Dispatcher {
    var workers: set<nat>
    var runningWorkers: map<nat, FuncCall>
    var idleWorkers: seq<nat>
    var pendingFuncCalls: seq<FuncCall>
    var assignedWorkers: map<nat, nat>
    var infos: set<nat>                       // calls the tracer knows
    ghost var clients: set<nat>               // identifiers of all workers so far
    ghost var accepted: map<nat, FuncCall>    // all calls so far
    ghost var finished: set<nat>
    ghost var discarded: set<nat>

    constructor ()
      ensures Valid() && Partitioned() && workers == {} && accepted == map[]
    {
      workers, runningWorkers, idleWorkers, pendingFuncCalls, assignedWorkers, infos := {}, map[], [], [], map[], {};
      clients, accepted, finished, discarded := {}, map[], {}, {};
    }

    ghost function Now(): Desk
      reads this
    {
      Desk(pendingFuncCalls, runningWorkers, assignedWorkers, idleWorkers, discarded)
    }

    /** After every event. */
    ghost predicate Valid()
      reads this
    {
      Inverse(assignedWorkers, runningWorkers, None) && Placed(workers, runningWorkers, idleWorkers, None) && Records()
    }

    ghost predicate Records()
      reads this
    {
      Queued(pendingFuncCalls, assignedWorkers, accepted) && assignedWorkers.Keys <= accepted.Keys &&
      workers <= clients && (forall w :: w in idleWorkers ==> w in clients) &&
      discarded <= accepted.Keys && finished <= accepted.Keys && infos <= accepted.Keys &&
      (forall id :: id in discarded ==> accepted[id].clientId != 0)
    }

    /** Every accepted call is in exactly one place, and the tracer knows those that are pending or running. */
    ghost predicate Partitioned()
      reads this
    {
      Partition(None)
    }

    ghost predicate Partition(ended: Option<nat>)
      reads this
    {
      InPlace(accepted, pendingFuncCalls, assignedWorkers, finished, discarded, infos, ended)
    }

    /** Gives a call to a worker. */
    method DispatchFuncCall(w: nat, call: FuncCall, ghost ended: Option<nat>)
      requires Inverse(assignedWorkers, runningWorkers, ended) && Placed(workers, runningWorkers, idleWorkers, Some(w))
      requires call.id !in assignedWorkers && Some(call.id) != ended
      modifies this`assignedWorkers, this`runningWorkers
      ensures Inverse(assignedWorkers, runningWorkers, ended) && Placed(workers, runningWorkers, idleWorkers, None)
      ensures assignedWorkers == old(assignedWorkers)[call.id := w] && runningWorkers == old(runningWorkers)[w := call]
    {
      Give(workers, assignedWorkers, runningWorkers, idleWorkers, ended, w, call);
      assignedWorkers := assignedWorkers[call.id := w];
      runningWorkers := runningWorkers[w := call];
    }

    method DispatchFirst(w: nat, ghost ended: Option<nat>)
      requires Inverse(assignedWorkers, runningWorkers, ended) &&
               Placed(workers, runningWorkers, idleWorkers, Some(w)) && Records()
      requires pendingFuncCalls != [] && (ended.Some? ==> ended.value in assignedWorkers)
      modifies this`assignedWorkers, this`runningWorkers, this`pendingFuncCalls
      ensures Inverse(assignedWorkers, runningWorkers, ended) && Placed(workers, runningWorkers, idleWorkers, None) &&
              Records()
      ensures (old(Partition(ended)) ==> Partition(ended)) && pendingFuncCalls == old(pendingFuncCalls)[1..]
      ensures assignedWorkers == old(assignedWorkers)[old(pendingFuncCalls)[0].id := w]
      ensures runningWorkers == old(runningWorkers)[w := old(pendingFuncCalls)[0]]
    {
      var call := pendingFuncCalls[0];
      QueueTail(pendingFuncCalls, assignedWorkers, accepted, w);
      if Partition(ended) {
        FirstLeaves(accepted, pendingFuncCalls, assignedWorkers, finished, discarded, infos, ended, w);
      }
      pendingFuncCalls := pendingFuncCalls[1..];
      DispatchFuncCall(w, call, ended);
    }

    method DropFirst(ghost ended: Option<nat>)
      requires Records() && pendingFuncCalls != [] && pendingFuncCalls[0].clientId != 0
      requires ended.Some? ==> ended.value in assignedWorkers
      modifies this`pendingFuncCalls, this`infos, this`discarded
      ensures Records() && (old(Partition(ended)) ==> Partition(ended)) &&
              pendingFuncCalls == old(pendingFuncCalls)[1..]
      ensures discarded == old(discarded) + {old(pendingFuncCalls)[0].id}
    {
      var call := pendingFuncCalls[0];
      QueueTail(pendingFuncCalls, assignedWorkers, accepted, 0);
      if Partition(ended) {
        FirstLeaves(accepted, pendingFuncCalls, assignedWorkers, finished, discarded, infos, ended, 0);
      }
      pendingFuncCalls := pendingFuncCalls[1..];
      infos := infos - {call.id};
      discarded := discarded + {call.id};
    }

    /**
     Gives the next pending call to a worker; calls that have waited too long are dropped, but never one with
     client 0.
     */
    method DispatchPendingFuncCall(w: nat, late: FuncCall -> bool, ghost ended: Option<nat>)
        returns (dispatched: bool, ghost dropped: nat)
      requires Inverse(assignedWorkers, runningWorkers, ended) &&
               Placed(workers, runningWorkers, idleWorkers, Some(w)) && Records()
      requires ended.Some? ==> ended.value in assignedWorkers
      modifies this`assignedWorkers, this`runningWorkers, this`pendingFuncCalls, this`infos, this`discarded
      ensures Inverse(assignedWorkers, runningWorkers, ended) && Records() &&
              (old(Partition(ended)) ==> Partition(ended))
      ensures Placed(workers, runningWorkers, idleWorkers, if dispatched then None else Some(w))
      ensures dispatched <==> dropped < |old(pendingFuncCalls)|
      ensures TakesNext(old(Now()), if dispatched then Now() else Now().(idle := idleWorkers + [w]), w, late, dropped)
      ensures ended.Some? ==> ended.value in assignedWorkers
    {
      dropped := 0;
      while pendingFuncCalls != []
        invariant Inverse(assignedWorkers, runningWorkers, ended) &&
                  Placed(workers, runningWorkers, idleWorkers, Some(w)) && Records()
        invariant old(Partition(ended)) ==> Partition(ended)
        invariant DroppedSoFar(old(Now()), Now(), late, dropped)
        decreases |pendingFuncCalls|
      {
        ghost var now := Now();
        var call := pendingFuncCalls[0];
        if call.clientId == 0 || !late(call) {
          DispatchFirst(w, ended);
          TakeFirst(old(Now()), now, Now(), w, late, dropped);
          dispatched := true;
          return;
        }
        DropFirst(ended);
        DropOneMore(old(Now()), now, Now(), late, dropped);
        dropped := dropped + 1;
      }
      dispatched := false;
    }

    /** A worker that is between calls gets a pending call or becomes idle. */
    method Place(w: nat, late: FuncCall -> bool, ghost ended: Option<nat>) returns (ghost dropped: nat)
      requires Inverse(assignedWorkers, runningWorkers, ended) &&
               Placed(workers, runningWorkers, idleWorkers, Some(w)) && Records()
      requires ended.Some? ==> ended.value in assignedWorkers
      modifies this`assignedWorkers, this`runningWorkers, this`pendingFuncCalls, this`infos, this`discarded,
               this`idleWorkers
      ensures Inverse(assignedWorkers, runningWorkers, ended) && Placed(workers, runningWorkers, idleWorkers, None) &&
              Records()
      ensures old(Partition(ended)) ==> Partition(ended)
      ensures TakesNext(old(Now()), Now(), w, late, dropped)
      ensures ended.Some? ==> ended.value in assignedWorkers
    {
      var dispatched;
      dispatched, dropped := DispatchPendingFuncCall(w, late, ended);
      if !dispatched {
        BecomeIdle(workers, runningWorkers, idleWorkers, w);
        assert PlacedAt(workers, runningWorkers, idleWorkers, Some(w), w);
        idleWorkers := idleWorkers + [w];
      }
    }

    method OnFuncWorkerConnected(w: nat, late: FuncCall -> bool) returns (ghost dropped: nat)
      requires Valid() && w !in clients
      modifies this
      ensures Valid() && workers == old(workers) + {w} && clients == old(clients) + {w} &&
              (old(Partitioned()) ==> Partitioned())
      ensures accepted == old(accepted) && finished == old(finished)
      ensures TakesNext(old(Now()), Now(), w, late, dropped)
    {
      ComeAndGo(workers, runningWorkers, idleWorkers, w);
      workers := workers + {w};
      clients := clients + {w};
      dropped := Place(w, late, None);
    }

    /** A worker goes away; the engine stops if it was running a call. */
    method OnFuncWorkerDisconnected(w: nat)
      requires Valid() && w in workers && w !in runningWorkers
      modifies this`workers
      ensures Valid() && workers == old(workers) - {w} && (old(Partitioned()) ==> Partitioned())
    {
      ComeAndGo(workers, runningWorkers, idleWorkers, w);
      workers := workers - {w};
    }

    /** The worker that became idle last, if the concurrency limit allows; workers that have gone are skipped. */
    method PickIdleWorker(limit: nat) returns (w: Option<nat>)
      requires Valid()
      modifies this`idleWorkers
      ensures Placed(workers, runningWorkers, idleWorkers, w) && Records() && (old(Partitioned()) ==> Partitioned())
      ensures w.Some? ==>
                |runningWorkers| < limit && LastIdle(workers, runningWorkers, old(idleWorkers), idleWorkers, w.value)
      ensures w.None? ==> |runningWorkers| >= limit || runningWorkers.Keys == workers
    {
      if |runningWorkers| >= limit {
        return None;
      }
      while idleWorkers != []
        invariant Placed(workers, runningWorkers, idleWorkers, None) && Records()
        invariant old(Partitioned()) ==> Partitioned()
        invariant idleWorkers <= old(idleWorkers) &&
                  forall i :: |idleWorkers| <= i < |old(idleWorkers)| ==>
                    Busy(workers, runningWorkers, old(idleWorkers)[i])
        decreases |idleWorkers|
      {
        var last := idleWorkers[|idleWorkers| - 1];
        PopIdle(workers, runningWorkers, idleWorkers);
        idleWorkers := idleWorkers[..|idleWorkers| - 1];
        if last in workers && last !in runningWorkers {
          return Some(last);
        }
      }
      AllRunning();
      return None;
    }

    lemma {:induction false} AllRunning()
      requires Placed(workers, runningWorkers, [], None)
      ensures runningWorkers.Keys == workers
    {
      forall w: nat
        ensures w in runningWorkers <==> w in workers
      {
        assert PlacedAt(workers, runningWorkers, [], None, w);
      }
    }

    method OnNewFuncCall(call: FuncCall, limit: nat)
      requires Valid() && call.id !in accepted
      modifies this
      ensures Valid() && accepted == old(accepted)[call.id := call] && (old(Partitioned()) ==> Partitioned())
      ensures workers == old(workers) && finished == old(finished) && discarded == old(discarded)
      ensures if call.id in assignedWorkers
              then |old(runningWorkers)| < limit && Starts(workers, old(Now()), Now(), call)
              else Now() == old(Now()).(pending := old(pendingFuncCalls) + [call], idle := idleWorkers)
      ensures call.id !in assignedWorkers ==> |old(runningWorkers)| >= limit || old(runningWorkers).Keys == workers
    {
      var idle := PickIdleWorker(limit);
      if idle.Some? {
        AcceptRunning(call, idle.value);
      } else {
        AcceptWaiting(call);
      }
    }

    method AcceptRunning(call: FuncCall, w: nat)
      requires Inverse(assignedWorkers, runningWorkers, None) &&
               Placed(workers, runningWorkers, idleWorkers, Some(w)) && Records()
      requires call.id !in accepted
      modifies this`accepted, this`infos, this`assignedWorkers, this`runningWorkers
      ensures Valid() && accepted == old(accepted)[call.id := call] && (old(Partitioned()) ==> Partitioned())
      ensures Now() == old(Now()).(running := old(runningWorkers)[w := call],
                                   assignees := old(assignedWorkers)[call.id := w])
    {
      QueueMore(pendingFuncCalls, assignedWorkers, accepted, call, w);
      if Partitioned() {
        NewCall(accepted, pendingFuncCalls, assignedWorkers, finished, discarded, infos, call, w);
      }
      infos := infos + {call.id};
      accepted := accepted[call.id := call];
      DispatchFuncCall(w, call, None);
    }

    method AcceptWaiting(call: FuncCall)
      requires Valid() && call.id !in accepted
      modifies this`accepted, this`infos, this`pendingFuncCalls
      ensures Valid() && accepted == old(accepted)[call.id := call] && (old(Partitioned()) ==> Partitioned())
      ensures pendingFuncCalls == old(pendingFuncCalls) + [call]
    {
      QueueMore(pendingFuncCalls, assignedWorkers, accepted, call, 0);
      if Partitioned() {
        NewCall(accepted, pendingFuncCalls, assignedWorkers, finished, discarded, infos, call, 0);
      }
      infos := infos + {call.id};
      accepted := accepted[call.id := call];
      pendingFuncCalls := pendingFuncCalls + [call];
    }

    /** The worker of a call that has ended takes the next call or becomes idle. */
    method FuncWorkerFinished(w: nat, late: FuncCall -> bool, ghost id: nat) returns (ghost dropped: nat)
      requires Valid() && w in runningWorkers && runningWorkers[w].id == id
      modifies this`assignedWorkers, this`runningWorkers, this`pendingFuncCalls, this`infos, this`discarded,
               this`idleWorkers
      ensures Inverse(assignedWorkers, runningWorkers, Some(id)) &&
              Placed(workers, runningWorkers, idleWorkers, None) && Records()
      ensures (old(Partition(Some(id))) ==> Partition(Some(id))) && id in assignedWorkers
      ensures TakesNext(old(Now()).(running := old(runningWorkers) - {w}), Now(), w, late, dropped)
    {
      EndRun(workers, assignedWorkers, runningWorkers, idleWorkers, w);
      assert RunnerOk(assignedWorkers, runningWorkers, None, w);
      runningWorkers := runningWorkers - {w};
      dropped := Place(w, late, Some(id));
    }

    /**
     A call has ended. The bookkeeping stays consistent, and the worker it had takes the next call; every call
     stays in exactly one place if and only if the call was not still waiting for a worker.
     */
    method OnFuncCallCompleted(id: nat, late: FuncCall -> bool) returns (known: bool, ghost dropped: nat)
      requires Valid()
      modifies this
      ensures Valid() && (known <==> id in old(infos)) && workers == old(workers) && accepted == old(accepted)
      ensures finished == if known then old(finished) + {id} else old(finished)
      ensures known ==> id !in assignedWorkers
      ensures old(Partitioned()) ==> (Partitioned() <==> !(known && IsPending(old(pendingFuncCalls), id)))
      ensures if known && id in old(assignedWorkers) then Frees(old(Now()), Now(), id, late, dropped)
              else Now() == old(Now())
    {
      dropped := 0;
      if id !in infos {
        return false, 0;
      }
      if id !in assignedWorkers {
        if Partitioned() {
          WaitingEnds(accepted, pendingFuncCalls, assignedWorkers, finished, discarded, infos, id);
        }
        infos := infos - {id};
        finished := finished + {id};
        return true, 0;
      }
      assert Partitioned() ==> Located(pendingFuncCalls, assignedWorkers, finished, discarded, infos, None, id);
      if Partitioned() {
        TracerForgets(accepted, pendingFuncCalls, assignedWorkers, finished, discarded, infos, id);
      }
      infos := infos - {id};
      dropped := EndAssigned(id, late);
      known := true;
    }

    method EndAssigned(id: nat, late: FuncCall -> bool) returns (ghost dropped: nat)
      requires Valid() && id in assignedWorkers
      modifies this`assignedWorkers, this`runningWorkers, this`pendingFuncCalls, this`infos, this`discarded,
               this`idleWorkers, this`finished
      ensures Valid() && id !in assignedWorkers && finished == old(finished) + {id}
      ensures old(Partition(Some(id))) ==> Partitioned()
      ensures Frees(old(Now()), Now(), id, late, dropped)
    {
      var w := assignedWorkers[id];
      assert AssigneeOk(assignedWorkers, runningWorkers, None, id) &&
             PlacedAt(workers, runningWorkers, idleWorkers, None, w);
      ghost var before := Now();
      dropped := 0;
      if w in workers {
        dropped := FuncWorkerFinished(w, late, id);
      }
      LeavesFirst(before.(running := before.running - {w}), Now(), w, late, dropped, id);
      Leave(id);
    }

    method Leave(id: nat)
      requires Inverse(assignedWorkers, runningWorkers, Some(id)) &&
               Placed(workers, runningWorkers, idleWorkers, None) && Records()
      requires id in assignedWorkers
      modifies this`assignedWorkers, this`finished
      ensures Valid() && id !in assignedWorkers && finished == old(finished) + {id}
      ensures old(Partition(Some(id))) ==> Partitioned()
      ensures Now() == old(Now()).(assignees := old(assignedWorkers) - {id})
    {
      Unassign(assignedWorkers, runningWorkers, id);
      QueueLess(pendingFuncCalls, assignedWorkers, accepted, id);
      if Partition(Some(id)) {
        CallEnds(accepted, pendingFuncCalls, assignedWorkers, finished, discarded, infos, id);
      }
      assignedWorkers := assignedWorkers - {id};
      finished := finished + {id};
    }
  }

  /** A call that is reported as ended while it waits for a worker is both finished and pending. */
  method EndedWhileWaiting() returns (d: Dispatcher)
    ensures d.Valid() && !d.Partitioned()
  {
    var call := FuncCall(1, 1);
    d := new Dispatcher();
    d.OnNewFuncCall(call, 0);
    assert d.pendingFuncCalls[|d.pendingFuncCalls| - 1] == call;
    assert IsPending(d.pendingFuncCalls, 1);
    assert Located(d.pendingFuncCalls, d.assignedWorkers, d.finished, d.discarded, d.infos, None, 1);
    var known, dropped := d.OnFuncCallCompleted(1, _ => false);
  }
}
