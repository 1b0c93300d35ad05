/** The log progress an engine keeps for every function call, and why it makes reads monotonic. */
module Engines {
  import opened Logs
  import opened SpaceIndexes
  import opened IndexContents
  import opened IndexAnswers
  import opened Indexes
  import opened IndexPackages
  import opened CompleteIndexes

  /** One log space in the current view, with the metalog that all index replicas follow. */
  datatype Space = Space(viewId: nat, id: nat, history: History, metas: seq<nat>)

  ghost predicate ValidSpace(s: Space)
  {
    ValidMetalog(s.history, s.metas) && (forall i :: 0 <= i < |s.metas| ==> s.metas[i] + 1 < LOW_HALF) &&
    GetViewId(JoinTwo32(s.id, 0)) == s.viewId && GetViewId(JoinTwo32(s.id, LOW_HALF - 1)) == s.viewId
  }

  /** The progress value of an index that has applied a number of cuts. */
  function ProgressOf(s: Space, cuts: nat): nat
    requires cuts < |s.metas|
  {
    JoinTwo32(s.id, PositionAfter(s.metas, cuts))
  }

  /** A progress value stands for a number of cuts; 0 is the value of a call that has seen nothing. */
  predicate Carries(s: Space, progress: nat, cuts: nat)
  {
    cuts < |s.metas| && (progress == ProgressOf(s, cuts) || (progress == 0 && cuts == 0))
  }

  function Max(a: nat, b: nat): nat { if a < b then b else a }

  /** Comparing progress values compares cuts. */
  lemma {:induction false} RaiseProgress(s: Space, progress: nat, cuts: nat, cuts': nat)
    requires ValidSpace(s) && Carries(s, progress, cuts) && cuts' < |s.metas|
    ensures Carries(s, Max(progress, ProgressOf(s, cuts')), Max(cuts, cuts'))
  {
    PositionOrder(s.history, s.metas, cuts, cuts');
    PositionOrder(s.history, s.metas, cuts', cuts);
  }

  /**
   A read was evaluated by some index replica that had applied a number of cuts and met the progress the read
   asked for.
   */
  ghost predicate EvaluatedOn(s: Space, cuts: nat, q: Query, r: QueryResult)
  {
    ValidSpace(s) && cuts < |s.metas| && q.initial && !r.state.Continue? &&
    PositionOf(s.viewId, q) <= PositionAfter(s.metas, cuts) && s.history.ends[cuts] <= |s.history.data| &&
    Answers(s.viewId, s.id, Prefix(s.history, s.history.ends[cuts]), ProgressOf(s, cuts), q, r)
  }

  /** What the complete index hands out was evaluated on the cuts it had applied. */
  lemma {:induction false} CompleteIndexEvaluates(index: IndexComplete, s: Space, r: QueryResult)
    requires index.Valid() && ValidSpace(s) && s.history == index.history && s.metas == index.metas
    requires s.viewId == index.core.viewId && s.id == index.core.logspaceId
    requires index.Justifies(r) && !r.state.Continue? && r.query.initial
    ensures EvaluatedOn(s, index.applied, r.query, r)
  {
    var core := index.core;
    var q :| Due(core.viewId, core.indexedMetalogPosition, core.finalized, q) &&
             Answers(core.viewId, core.logspaceId, core.records, index.IndexMetalogProgress(), q, r);
    AnswersWhatItIsAbout(core.viewId, core.logspaceId, core.records, index.IndexMetalogProgress(), q, r.query, r);
  }

  /** An index that may answer a read has applied all the cuts its progress stands for. */
  lemma {:induction false} ProgressIsMet(s: Space, cuts: nat, q: Query, r: QueryResult, asked: nat)
    requires EvaluatedOn(s, cuts, q, r) && Carries(s, q.metalogProgress, asked)
    ensures asked <= cuts && r.metalogProgress == ProgressOf(s, cuts)
  {
    AnswersWhatItIsAbout(s.viewId, s.id, Prefix(s.history, s.history.ends[cuts]), ProgressOf(s, cuts), q, r.query, r);
    PositionOrder(s.history, s.metas, asked, cuts);
    if asked > 0 {
      var position := PositionAfter(s.metas, asked);
      assert q.metalogProgress == s.id * LOW_HALF + position && position < LOW_HALF;
      assert GetViewId(q.metalogProgress) == s.viewId;
      assert q.metalogProgress % LOW_HALF == position;
    }
  }

  /** An index may answer a fresh query at once if and only if it has applied all the cuts its progress stands for. */
  lemma {:induction false} AnswersAtOnce(index: IndexComplete, s: Space, q: Query, asked: nat)
    requires index.Valid() && ValidSpace(s) && s.history == index.history && s.metas == index.metas
    requires s.viewId == index.core.viewId && s.id == index.core.logspaceId
    requires q.initial && Carries(s, q.metalogProgress, asked)
    ensures index.core.Now(q) <==> asked <= index.applied
  {
    PositionAsked(s, q, asked);
    PositionOrder(s.history, s.metas, asked, index.applied);
    PositionOrder(s.history, s.metas, index.applied, asked);
  }

  /** The position a fresh query waits for is the one after the cuts that its progress stands for. */
  lemma {:induction false} PositionAsked(s: Space, q: Query, asked: nat)
    requires ValidSpace(s) && q.initial && Carries(s, q.metalogProgress, asked)
    ensures PositionOf(s.viewId, q) == PositionAfter(s.metas, asked)
  {
    var position := PositionAfter(s.metas, asked);
    if q.metalogProgress == ProgressOf(s, asked) {
      assert q.metalogProgress == s.id * LOW_HALF + position && position < LOW_HALF;
      assert GetViewId(q.metalogProgress) == s.viewId;
      assert q.metalogProgress % LOW_HALF == position;
    }
  }

  /** Whatever the index held after the first cuts, it holds after the second. */
  ghost predicate HoldsAtLeast(s: Space, a: nat, b: nat)
  {
    ValidSpace(s) && a <= b < |s.metas| && s.history.ends[a] <= s.history.ends[b] <= |s.history.data| &&
    forall x :: x in Prefix(s.history, s.history.ends[a]) ==> x in Prefix(s.history, s.history.ends[b])
  }

  lemma {:induction false} MoreCutsMoreLog(s: Space, a: nat, b: nat)
    requires ValidSpace(s) && a <= b < |s.metas|
    ensures HoldsAtLeast(s, a, b)
  {
    var last := |s.history.ends| - 1;
    assert (a < b ==> s.history.ends[a] < s.history.ends[b]) && (b < last ==> s.history.ends[b] < s.history.ends[last]);
  }

  datatype FnCallContext = FnCallContext(userLogspace: nat, metalogProgress: nat, parentCallId: Option<nat>)

  datatype LocalOp = LocalOp(funcCallId: nat, userLogspace: nat, metalogProgress: nat)

  ghost predicate AllValid(spaces: nat -> Space)
  {
    forall l {:trigger ValidSpace(spaces(l))} :: ValidSpace(spaces(l))
  }

  /** A call's progress stands for the cuts it has seen. */
  predicate CallOk(spaces: nat -> Space, calls: map<nat, FnCallContext>, seen: map<nat, nat>, c: nat)
  {
    c in calls ==> c in seen && Carries(spaces(calls[c].userLogspace), calls[c].metalogProgress, seen[c])
  }

  /** An operation's progress stands for the cuts its call had seen. */
  predicate OpOk(spaces: nat -> Space, used: set<nat>, calls: map<nat, FnCallContext>, seen: map<nat, nat>,
                 ops: map<nat, LocalOp>, issued: map<nat, nat>, o: nat)
  {
    o in ops ==>
      var op := ops[o];
      o in issued && Carries(spaces(op.userLogspace), op.metalogProgress, issued[o]) && op.funcCallId in used &&
      (op.funcCallId in calls ==>
        op.funcCallId in seen && calls[op.funcCallId].userLogspace == op.userLogspace &&
        issued[o] <= seen[op.funcCallId])
  }

  /** Calls change, but those with operations under way only see more. */
  lemma {:induction false} CallsChange(spaces: nat -> Space, used: set<nat>, calls: map<nat, FnCallContext>,
                                       seen: map<nat, nat>, used': set<nat>, calls': map<nat, FnCallContext>,
                                       seen': map<nat, nat>, ops: map<nat, LocalOp>, issued: map<nat, nat>, c: nat)
    requires forall x :: x != c ==> (x in calls <==> x in calls') && (x in calls ==> calls[x] == calls'[x])
    requires forall x :: x != c ==> (x in seen <==> x in seen') && (x in seen ==> seen[x] == seen'[x])
    requires used <= used' && (c in calls' && c !in calls ==> c !in used)
    requires c in calls && c in calls' ==>
               calls'[c].userLogspace == calls[c].userLogspace && c in seen && c in seen' && seen[c] <= seen'[c]
    requires CallOk(spaces, calls', seen', c)
    requires forall x {:trigger CallOk(spaces, calls, seen, x)} :: CallOk(spaces, calls, seen, x)
    requires forall o {:trigger OpOk(spaces, used, calls, seen, ops, issued, o)} ::
               OpOk(spaces, used, calls, seen, ops, issued, o)
    ensures forall x {:trigger CallOk(spaces, calls', seen', x)} :: CallOk(spaces, calls', seen', x)
    ensures forall o {:trigger OpOk(spaces, used', calls', seen', ops, issued, o)} ::
              OpOk(spaces, used', calls', seen', ops, issued, o)
  {
    forall x {:trigger CallOk(spaces, calls', seen', x)}
      ensures CallOk(spaces, calls', seen', x)
    {
      assert CallOk(spaces, calls, seen, x);
    }
    forall o {:trigger OpOk(spaces, used', calls', seen', ops, issued, o)}
      ensures OpOk(spaces, used', calls', seen', ops, issued, o)
    {
      assert OpOk(spaces, used, calls, seen, ops, issued, o);
    }
  }

  lemma {:induction false} OpsShrink(spaces: nat -> Space, used: set<nat>, calls: map<nat, FnCallContext>,
                                     seen: map<nat, nat>, ops: map<nat, LocalOp>, issued: map<nat, nat>, o: nat)
    requires forall x {:trigger OpOk(spaces, used, calls, seen, ops, issued, x)} ::
               OpOk(spaces, used, calls, seen, ops, issued, x)
    ensures forall x {:trigger OpOk(spaces, used, calls, seen, ops - {o}, issued - {o}, x)} ::
              OpOk(spaces, used, calls, seen, ops - {o}, issued - {o}, x)
  {
    var ops', issued' := ops - {o}, issued - {o};
    forall x {:trigger OpOk(spaces, used, calls, seen, ops', issued', x)}
      ensures OpOk(spaces, used, calls, seen, ops', issued', x)
    {
      assert OpOk(spaces, used, calls, seen, ops, issued, x);
    }
  }

  /** The progress of one call rises to at least a value, and nothing else changes. */
  function Raised(calls: map<nat, FnCallContext>, c: nat, progress: nat): map<nat, FnCallContext>
    requires c in calls
  {
    calls[c := calls[c].(metalogProgress := Max(calls[c].metalogProgress, progress))]
  }

  class Engine {
    ghost const spaces: nat -> Space
    var calls: map<nat, FnCallContext>
    var ops: map<nat, LocalOp>
    var nextOpId: nat
    ghost var used: set<nat>             // identifiers of all calls so far
    ghost var seen: map<nat, nat>        // cuts that a call, or its parent before spawning it, has seen
    ghost var issued: map<nat, nat>      // cuts that the call had seen when an operation was issued

    constructor (ghost spaces: nat -> Space)
      requires AllValid(spaces)
      ensures Valid() && calls == map[] && ops == map[] && used == {}
    {
      this.spaces, calls, ops, nextOpId, used, seen, issued := spaces, map[], map[], 0, {}, map[], map[];
    }

    /** The progress of every call and every operation stands for what was seen. */
    ghost predicate Valid()
      reads this
    {
      AllValid(spaces) && seen.Keys == calls.Keys && issued.Keys == ops.Keys && calls.Keys <= used &&
      (forall c {:trigger CallOk(spaces, calls, seen, c)} :: CallOk(spaces, calls, seen, c)) &&
      (forall o {:trigger OpOk(spaces, used, calls, seen, ops, issued, o)} ::
         OpOk(spaces, used, calls, seen, ops, issued, o)) &&
      (forall o :: o in ops ==> o < nextOpId)
    }

    method OnNewExternalFuncCall(callId: nat, userLogspace: nat)
      requires Valid() && callId !in used
      modifies this`calls, this`used, this`seen
      ensures Valid() && calls == old(calls)[callId := FnCallContext(userLogspace, 0, None)]
      ensures used == old(used) + {callId} && seen == old(seen)[callId := 0]
    {
      ghost var calls0, used0, seen0 := calls, used, seen;
      calls := calls[callId := FnCallContext(userLogspace, 0, None)];
      used := used + {callId};
      seen := seen[callId := 0];
      assert ValidSpace(spaces(userLogspace));
      CallsChange(spaces, used0, calls0, seen0, used, calls, seen, ops, issued, callId);
    }

    /** A child call starts from what its parent has seen. */
    method OnNewInternalFuncCall(callId: nat, parentId: nat)
      requires Valid() && callId !in used && parentId in calls
      modifies this`calls, this`used, this`seen
      ensures Valid() && calls == old(calls)[callId := old(calls)[parentId].(parentCallId := Some(parentId))]
      ensures used == old(used) + {callId} && seen == old(seen)[callId := old(seen)[parentId]]
    {
      ghost var calls0, used0, seen0 := calls, used, seen;
      assert CallOk(spaces, calls, seen, parentId);
      calls := calls[callId := calls[parentId].(parentCallId := Some(parentId))];
      used := used + {callId};
      seen := seen[callId := seen[parentId]];
      CallsChange(spaces, used0, calls0, seen0, used, calls, seen, ops, issued, callId);
    }

    method OnFuncCallCompleted(callId: nat)
      requires Valid() && callId in calls
      modifies this`calls, this`seen
      ensures Valid() && calls == old(calls) - {callId} && seen == old(seen) - {callId}
    {
      ghost var calls0, seen0 := calls, seen;
      calls := calls - {callId};
      seen := seen - {callId};
      CallsChange(spaces, used, calls0, seen0, used, calls, seen, ops, issued, callId);
    }

    /** An operation of a call carries the progress of the call; unknown calls are refused. */
    method OnMessageFromFuncWorker(callId: nat) returns (o: Option<nat>)
      requires Valid()
      modifies this`ops, this`nextOpId, this`issued
      ensures Valid() && (o.None? <==> callId !in calls)
      ensures o.None? ==> ops == old(ops) && issued == old(issued)
      ensures o.Some? ==>
                var ctx := calls[callId];
                o.value !in old(ops) && issued == old(issued)[o.value := seen[callId]] &&
                ops == old(ops)[o.value := LocalOp(callId, ctx.userLogspace, ctx.metalogProgress)]
    {
      if callId !in calls {
        return None;
      }
      var ctx := calls[callId];
      assert CallOk(spaces, calls, seen, callId);
      ghost var ops0, issued0 := ops, issued;
      o := Some(nextOpId);
      ops := ops[nextOpId := LocalOp(callId, ctx.userLogspace, ctx.metalogProgress)];
      issued := issued[nextOpId := seen[callId]];
      nextOpId := nextOpId + 1;
      forall x {:trigger OpOk(spaces, used, calls, seen, ops, issued, x)}
        ensures OpOk(spaces, used, calls, seen, ops, issued, x)
      {
        assert OpOk(spaces, used, calls, seen, ops0, issued0, x);
      }
    }

    /** A call has seen a number of cuts. */
    method RaiseCall(c: nat, metalogProgress: nat, ghost cuts: nat)
      requires Valid() && c in calls
      requires Carries(spaces(calls[c].userLogspace), metalogProgress, cuts)
      modifies this`calls, this`seen
      ensures Valid() && seen == old(seen)[c := Max(old(seen)[c], cuts)]
      ensures calls == Raised(old(calls), c, metalogProgress)
    {
      ghost var calls0, seen0 := calls, seen;
      var ctx := calls[c];
      assert ValidSpace(spaces(ctx.userLogspace)) && CallOk(spaces, calls, seen, c);
      RaiseProgress(spaces(ctx.userLogspace), ctx.metalogProgress, seen[c], cuts);
      if metalogProgress > 0 {
        if metalogProgress > ctx.metalogProgress {
          calls := calls[c := ctx.(metalogProgress := metalogProgress)];
        }
      }
      seen := seen[c := Max(seen[c], cuts)];
      CallsChange(spaces, used, calls0, seen0, used, calls, seen, ops, issued, c);
    }

    /** An operation ends; its call has now seen what the operation saw. */
    method FinishLocalOpWithResponse(o: nat, metalogProgress: nat, ghost cuts: nat)
      requires Valid() && o in ops
      requires Carries(spaces(ops[o].userLogspace), metalogProgress, cuts)
      modifies this`calls, this`ops, this`seen, this`issued
      ensures Valid() && ops == old(ops) - {o} && issued == old(issued) - {o}
      ensures var c := old(ops)[o].funcCallId;
              if c in old(calls)
              then seen == old(seen)[c := Max(old(seen)[c], cuts)] && calls == Raised(old(calls), c, metalogProgress)
              else seen == old(seen) && calls == old(calls)
    {
      var op := ops[o];
      assert OpOk(spaces, used, calls, seen, ops, issued, o) && ValidSpace(spaces(op.userLogspace));
      if op.funcCallId in calls {
        RaiseCall(op.funcCallId, metalogProgress, cuts);
      }
      OpsShrink(spaces, used, calls, seen, ops, issued, o);
      ops := ops - {o};
      issued := issued - {o};
    }

    /**
     Monotonic reads: a read is evaluated on every record that was there for any read which its call, or
     the parent before it spawned the call, had finished when the read was issued.
     */
    method FinishRead(o: nat, q: Query, r: QueryResult, ghost cuts: nat)
      requires Valid() && o in ops && q.metalogProgress == ops[o].metalogProgress
      requires EvaluatedOn(spaces(ops[o].userLogspace), cuts, q, r)
      modifies this`calls, this`ops, this`seen, this`issued
      ensures Valid() && ops == old(ops) - {o} && issued == old(issued) - {o}
      ensures HoldsAtLeast(spaces(old(ops)[o].userLogspace), old(issued)[o], cuts)
      ensures var c := old(ops)[o].funcCallId;
              seen == if c in old(calls) then old(seen)[c := Max(old(seen)[c], cuts)] else old(seen)
    {
      assert OpOk(spaces, used, calls, seen, ops, issued, o);
      ProgressIsMet(spaces(ops[o].userLogspace), cuts, q, r, issued[o]);
      MoreCutsMoreLog(spaces(ops[o].userLogspace), issued[o], cuts);
      FinishLocalOpWithResponse(o, r.metalogProgress, cuts);
    }

    /** A call that has appended a record sees its cut from then on. */
    method FinishAppend(o: nat, metalogProgress: nat, ghost cut: nat)
      requires Valid() && o in ops
      requires var s := spaces(ops[o].userLogspace);
               0 < cut < |s.metas| && metalogProgress == JoinTwo32(s.id, s.metas[cut] + 1)
      modifies this`calls, this`ops, this`seen, this`issued
      ensures Valid() && ops == old(ops) - {o} && issued == old(issued) - {o}
      ensures var c := old(ops)[o].funcCallId;
              seen == if c in old(calls) then old(seen)[c := Max(old(seen)[c], cut)] else old(seen)
    {
      FinishLocalOpWithResponse(o, metalogProgress, cut);
    }
  }
}
