/** A read that is passed on from the current view to older views. */
module ViewWalks {
  import opened Logs
  import opened SpaceIndexes
  import opened IndexContents
  import opened IndexAnswers
  import opened Indexes

  /** What is known about the index of one view: its log space, its records, and whether it says it has ended. */
  datatype View = View(id: nat, records: Records, finalized: bool)

  /** The log space of each view lies in the range of that view. */
  ghost predicate ValidViews(views: seq<View>)
  {
    forall v :: 0 <= v < |views| ==> InRange(views[v], v)
  }

  ghost predicate InRange(view: View, v: nat)
  {
    GetViewId(JoinTwo32(view.id, 0)) == v && GetViewId(JoinTwo32(view.id, LOW_HALF - 1)) == v &&
    JoinTwo32(view.id, LOW_HALF) <= INVALID_SEQNUM && AllBelow(view.records, LOW_HALF)
  }

  /** A record of a view that a read could return. */
  ghost predicate Candidate(view: View, q: Query, s: nat)
  {
    s in Visible(view.records, q.userLogspace, q.userTag) && Beyond(q, JoinTwo32(view.id, s))
  }

  lemma {:induction false} ViewsInOrder(views: seq<View>, u: nat, s: nat, v: nat, t: nat)
    requires ValidViews(views) && u < v < |views| && s < LOW_HALF && t < LOW_HALF
    ensures JoinTwo32(views[u].id, s) < JoinTwo32(views[v].id, t)
  {
    assert InRange(views[u], u) && InRange(views[v], v);
  }

  lemma {:induction false} ViewOfRecord(view: View, v: nat, s: nat)
    requires InRange(view, v) && s < LOW_HALF
    ensures GetViewId(JoinTwo32(view.id, s)) == v && JoinTwo32(view.id, s) < INVALID_SEQNUM
  {
  }

  /** A found result names a record of a view, with the shard that stores it. */
  ghost predicate Names(views: seq<View>, q: Query, f: FoundResult, u: nat, s: nat)
  {
    u < |views| && Candidate(views[u], q, s) && s in views[u].records &&
    f == FoundResult(u, views[u].records[s].engineId, JoinTwo32(views[u].id, s))
  }

  /** The nearest candidate of the views from `low` up, or nothing if there is none. */
  ghost predicate BestFrom(views: seq<View>, q: Query, low: nat, f: Option<FoundResult>)
  {
    (f.Some? ==> exists u, s :: low <= u && Names(views, q, f.value, u, s)) &&
    forall u, s :: low <= u < |views| && Candidate(views[u], q, s) ==>
      f.Some? && Nearer(q, f.value.seqNum, JoinTwo32(views[u].id, s))
  }

  /** The older views a read has to ask: down to its own view, or, looking backward, until one has a candidate. */
  ghost predicate Needs(views: seq<View>, q: Query, v: nat)
  {
    v + 1 < |views| &&
    if q.direction.ReadPrev?
    then forall u, s :: v < u < |views| ==> !Candidate(views[u], q, s)
    else GetViewId(q.seqNum) <= v
  }

  // ---------------------------------------------------------------- one step

  /** The query that an answer passes on to the next view. */
  function BuildIndexQuery(r: QueryResult): Query
  {
    r.query.(initial := false, metalogProgress := r.metalogProgress, prevFound := r.found)
  }

  /** The same read: what it looks for, and who has asked. */
  predicate SameQuestion(q: Query, query: Query)
  {
    (query.direction.ReadPrev? <==> q.direction.ReadPrev?) && query.userLogspace == q.userLogspace &&
    query.userTag == q.userTag && query.seqNum == q.seqNum && query.clientData == q.clientData &&
    query.masterNodeId == q.masterNodeId && query.useAggregator == q.useAggregator
  }

  function Carried(query: Query): Option<FoundResult>
  {
    if query.prevFound.seqNum == INVALID_SEQNUM then None else Some(query.prevFound)
  }

  /** The walk has reached a view, and the query carries the best of the views above it. */
  ghost predicate Reached(views: seq<View>, q: Query, v: nat, query: Query)
  {
    ValidViews(views) && v < |views| && SameQuestion(q, query) && Sane(query) &&
    (if v + 1 == |views| then query == q && q.initial else !query.initial && Needs(views, q, v)) &&
    if q.direction.ReadPrev? then BestFrom(views, q, v + 1, None) else BestFrom(views, q, v + 1, Carried(query))
  }

  /** The search in one view, seen as the best of that view alone. */
  ghost predicate BestIn(view: View, v: nat, q: Query, f: Option<FoundResult>)
  {
    (f.Some? ==> exists s :: Candidate(view, q, s) && s in view.records &&
                             f.value == FoundResult(v, view.records[s].engineId, JoinTwo32(view.id, s))) &&
    forall s :: Candidate(view, q, s) ==> f.Some? && Nearer(q, f.value.seqNum, JoinTwo32(view.id, s))
  }

  lemma {:induction false} SearchIsBest(view: View, v: nat, q: Query, query: Query, found: Option<Indexed>)
    requires SameQuestion(q, query) && Nearest(view.id, view.records, query, found)
    ensures BestIn(view, v, q, ToFound(v, view.id, found))
  {
    if found.Some? {
      assert Candidate(view, q, found.value.lowHalf);
    }
  }

  /** Looking forward, a candidate of an older view is nearer than all of the views above. */
  lemma {:induction false} AddOlder(views: seq<View>, q: Query, v: nat, here: Option<FoundResult>,
                                    above: Option<FoundResult>)
    requires ValidViews(views) && v < |views| && !q.direction.ReadPrev?
    requires BestIn(views[v], v, q, here) && BestFrom(views, q, v + 1, above)
    ensures BestFrom(views, q, v, if here.Some? then here else above)
  {
    var best := if here.Some? then here else above;
    if here.Some? {
      var s :| Candidate(views[v], q, s) && s in views[v].records &&
               here.value == FoundResult(v, views[v].records[s].engineId, JoinTwo32(views[v].id, s));
      assert Names(views, q, here.value, v, s);
      forall u, t | v <= u < |views| && Candidate(views[u], q, t)
        ensures Nearer(q, here.value.seqNum, JoinTwo32(views[u].id, t))
      {
        if u > v {
          assert InRange(views[u], u) && InRange(views[v], v);
          ViewsInOrder(views, v, s, u, t);
        }
      }
    }
  }

  /** Looking backward, the first candidate met is the nearest of all. */
  lemma {:induction false} AddOlderPrev(views: seq<View>, q: Query, v: nat, here: Option<FoundResult>)
    requires v < |views| && q.direction.ReadPrev? && BestIn(views[v], v, q, here) && BestFrom(views, q, v + 1, None)
    ensures BestFrom(views, q, v, here)
  {
    if here.Some? {
      var s :| Candidate(views[v], q, s) && s in views[v].records &&
               here.value == FoundResult(v, views[v].records[s].engineId, JoinTwo32(views[v].id, s));
      assert Names(views, q, here.value, v, s);
    }
  }

  lemma {:induction false} OlderHaveNone(views: seq<View>, q: Query, u: nat, s: nat)
    requires ValidViews(views) && u < |views| && s < LOW_HALF
    ensures !q.direction.ReadPrev? && u < GetViewId(q.seqNum) ==> !Candidate(views[u], q, s)
    ensures q.direction.ReadPrev? && u > GetViewId(q.seqNum) ==> !Candidate(views[u], q, s)
  {
    ViewOfRecord(views[u], u, s);
  }

  /** The answer is right: the nearest candidate of all views, or nothing because there is none. */
  ghost predicate Concludes(views: seq<View>, q: Query, r: QueryResult)
  {
    SameQuestion(q, r.query) &&
    match r.state
    case Found => BestFrom(views, q, 0, Some(r.found))
    case Empty => BestFrom(views, q, 0, None) && r.found.seqNum == INVALID_SEQNUM
    case Continue => false
  }

  /**
   Either the walk goes on to the next older view, which the read needs, or it ends with the right answer and
   needs no older view.
   */
  ghost predicate Moves(views: seq<View>, q: Query, v: nat, r: QueryResult)
  {
    if r.state.Continue? then v > 0 && r.nextViewId == v - 1 && Reached(views, q, v - 1, BuildIndexQuery(r))
    else Concludes(views, q, r) && forall u: nat :: u < v ==> !Needs(views, q, u)
  }

  lemma {:induction false} StepNext(views: seq<View>, q: Query, v: nat, query: Query, progress: nat,
                                    found: Option<Indexed>)
    requires Reached(views, q, v, query) && !q.direction.ReadPrev? &&
             Nearest(views[v].id, views[v].records, query, found)
    ensures Moves(views, q, v, Answer(v, views[v].id, progress, query, found))
  {
    var here := ToFound(v, views[v].id, found);
    var r := Answer(v, views[v].id, progress, query, found);
    SearchIsBest(views[v], v, q, query, found);
    AddOlder(views, q, v, here, Carried(query));
    FoundValid(views, q, v, here);
    if !r.state.Continue? {
      ExtendDown(views, q, v, if here.Some? then here else Carried(query));
    }
  }

  lemma {:induction false} FoundValid(views: seq<View>, q: Query, v: nat, here: Option<FoundResult>)
    requires ValidViews(views) && v < |views| && BestIn(views[v], v, q, here)
    ensures here.Some? ==> here.value.seqNum != INVALID_SEQNUM
    ensures !q.direction.ReadPrev? && GetViewId(q.seqNum) > v ==> here.None?
    ensures q.direction.ReadPrev? && GetViewId(q.seqNum) < v ==> here.None?
  {
    if here.Some? {
      var s :| Candidate(views[v], q, s) && s in views[v].records &&
               here.value == FoundResult(v, views[v].records[s].engineId, JoinTwo32(views[v].id, s));
      assert InRange(views[v], v);
      ViewOfRecord(views[v], v, s);
    }
  }

  /** Looking forward, the views below the bound's own have no candidates. */
  lemma {:induction false} ExtendDown(views: seq<View>, q: Query, v: nat, f: Option<FoundResult>)
    requires ValidViews(views) && v < |views| && !q.direction.ReadPrev? && v <= GetViewId(q.seqNum) &&
             BestFrom(views, q, v, f)
    ensures BestFrom(views, q, 0, f) && forall u: nat :: u < v ==> !Needs(views, q, u)
  {
    forall u, s | 0 <= u < |views| && Candidate(views[u], q, s)
      ensures v <= u
    {
      assert InRange(views[u], u);
      OlderHaveNone(views, q, u, s);
    }
  }

  lemma {:induction false} StepPrev(views: seq<View>, q: Query, v: nat, query: Query, progress: nat,
                                    found: Option<Indexed>)
    requires Reached(views, q, v, query) && q.direction.ReadPrev? &&
             Nearest(views[v].id, views[v].records, query, found)
    ensures Moves(views, q, v, Answer(v, views[v].id, progress, query, found))
  {
    var here := ToFound(v, views[v].id, found);
    SearchIsBest(views[v], v, q, query, found);
    FoundValid(views, q, v, here);
    AddOlderPrev(views, q, v, here);
    if here.Some? {
      FartherBelow(views, q, v, here.value);
    }
  }

  /** Looking backward, everything in older views is farther away. */
  lemma {:induction false} FartherBelow(views: seq<View>, q: Query, v: nat, f: FoundResult)
    requires ValidViews(views) && v < |views| && q.direction.ReadPrev?
    requires BestIn(views[v], v, q, Some(f)) && BestFrom(views, q, v, Some(f))
    ensures BestFrom(views, q, 0, Some(f)) && forall u: nat :: u < v ==> !Needs(views, q, u)
  {
    var s :| Candidate(views[v], q, s) && s in views[v].records &&
             f == FoundResult(v, views[v].records[s].engineId, JoinTwo32(views[v].id, s));
    forall u, t | 0 <= u < |views| && Candidate(views[u], q, t)
      ensures Nearer(q, f.seqNum, JoinTwo32(views[u].id, t))
    {
      if u < v {
        assert InRange(views[u], u) && InRange(views[v], v);
        ViewsInOrder(views, u, t, v, s);
      }
    }
    var u', s' :| v <= u' && Names(views, q, f, u', s');
  }

  /** One step of the walk. */
  lemma {:induction false} StepOfWalk(views: seq<View>, q: Query, v: nat, query: Query, progress: nat, r: QueryResult)
    requires Reached(views, q, v, query) && Answers(v, views[v].id, views[v].records, progress, query, r)
    ensures Moves(views, q, v, r)
  {
    var found :| Nearest(views[v].id, views[v].records, query, found) &&
                 r == Answer(v, views[v].id, progress, query, found);
    if q.direction.ReadPrev? {
      StepPrev(views, q, v, query, progress, found);
    } else {
      StepNext(views, q, v, query, progress, found);
    }
  }

  /** A result is an answer from one view. */
  ghost predicate AnswersIn(view: View, v: nat, query: Query, r: QueryResult)
  {
    exists progress :: Answers(v, view.id, view.records, progress, query, r)
  }

  /** The results of a query in one view after another, each passed on to the view below except the last. */
  ghost predicate WalkedDown(views: seq<View>, v: nat, query: Query, results: seq<QueryResult>)
    decreases |results|
  {
    results != [] && v < |views| && AnswersIn(views[v], v, query, results[0]) &&
    if results[0].state.Continue?
    then v > 0 && results[0].nextViewId == v - 1 && WalkedDown(views, v - 1, BuildIndexQuery(results[0]), results[1..])
    else |results| == 1
  }

  /**
   However many views a read walks through, its last result is right for all views, belongs to the read, and
   reports the progress of the first view.
   */
  lemma {:induction false} WalkConcludes(views: seq<View>, q: Query, v: nat, query: Query, results: seq<QueryResult>)
    requires Reached(views, q, v, query) && WalkedDown(views, v, query, results)
    ensures Concludes(views, q, results[|results| - 1])
    ensures results[|results| - 1].metalogProgress == results[0].metalogProgress
    ensures !query.initial ==> results[0].metalogProgress == query.metalogProgress
    decreases |results|
  {
    AnyStepOfWalk(views, q, v, query, results[0]);
    if results[0].state.Continue? {
      WalkConcludes(views, q, v - 1, BuildIndexQuery(results[0]), results[1..]);
    }
  }

  lemma {:induction false} AnyStepOfWalk(views: seq<View>, q: Query, v: nat, query: Query, r: QueryResult)
    requires Reached(views, q, v, query) && AnswersIn(views[v], v, query, r)
    ensures Moves(views, q, v, r)
    ensures !query.initial ==> r.metalogProgress == query.metalogProgress
  {
    var progress :| Answers(v, views[v].id, views[v].records, progress, query, r);
    StepOfWalk(views, q, v, query, progress, r);
    ReportedProgress(v, views[v].id, views[v].records, progress, query, r);
  }

  // ---------------------------------------------------------------- the walk

  /** A blocking read finds nothing in its own view. */
  ghost predicate BlocksIn(view: View, v: nat, q: Query)
  {
    q.direction.ReadNextB? && GetViewId(q.seqNum) == v && forall s :: !Candidate(view, q, s)
  }

  /**
   Asks the index of one view. A query passed on to an index that does not say it has ended is left
   waiting there, and so is a blocking read that finds nothing in its own view.
   */
  method Ask(index: Index, query: Query, progress: nat) returns (r: Option<QueryResult>)
    requires index.Valid() && index.results == [] && Sane(query)
    requires query.initial ==> GetViewId(query.metalogProgress) <= index.viewId &&
                               PositionOf(index.viewId, query) <= index.indexedMetalogPosition
    modifies index`results, index`blockingReads, index`pendingQueries
    ensures index.Valid() && index.results == []
    ensures r.Some? <==> (query.initial || index.finalized) && !index.Blocks(query)
    ensures r.Some? ==> Answers(index.viewId, index.logspaceId, index.records, progress, query, r.value)
    ensures r.None? ==> if index.Blocks(query) then index.blockingReads == old(index.blockingReads) + [query]
                        else Inserted(old(index.pendingQueries), Pending(MAX_METALOG_POSITION, query),
                                      index.pendingQueries)
  {
    index.MakeQuery(query, progress);
    var results := index.PollQueryResults();
    r := if results == [] then None else Some(results[0]);
  }

  /** The indexes of all views hold what the views say. */
  ghost predicate Shows(indexes: seq<Index>, views: seq<View>)
    reads indexes
  {
    |indexes| == |views| &&
    (forall v {:trigger indexes[v]} :: 0 <= v < |indexes| ==> ShowsOne(indexes[v], views[v], v)) &&
    forall v, u :: 0 <= v < u < |indexes| ==> indexes[v] != indexes[u]
  }

  ghost predicate ShowsOne(index: Index, view: View, v: nat)
    reads index
  {
    index.Valid() && index.results == [] && index.viewId == v && index.logspaceId == view.id &&
    index.records == view.records && index.finalized == view.finalized
  }

  /** Every older view that the read needs says that it has ended. */
  ghost predicate AllEnded(views: seq<View>, q: Query)
  {
    forall v: nat :: Needs(views, q, v) ==> views[v].finalized
  }

  ghost predicate EndedAbove(views: seq<View>, q: Query, v: nat)
  {
    forall u: nat :: v < u && Needs(views, q, u) ==> views[u].finalized
  }

  lemma {:induction false} AfterStep(views: seq<View>, q: Query, v: nat, query: Query, r: QueryResult)
    requires Reached(views, q, v, query) && EndedAbove(views, q, v) && (query.initial || views[v].finalized) &&
             Moves(views, q, v, r)
    ensures if r.state.Continue?
            then v > 0 && r.nextViewId == v - 1 && Reached(views, q, v - 1, BuildIndexQuery(r)) &&
                 EndedAbove(views, q, v - 1) &&
                 !BuildIndexQuery(r).initial && Sane(BuildIndexQuery(r))
            else AllEnded(views, q) && Concludes(views, q, r)
  {
  }

  lemma {:induction false} BlocksHere(view: View, q: Query)
    requires q.direction.ReadNextB?
    ensures IsNext(Visible(view.records, q.userLogspace, q.userTag), view.id, q.seqNum, None) <==>
            forall s :: !Candidate(view, q, s)
  {
    if forall s :: !Candidate(view, q, s) {
      forall s | s in Visible(view.records, q.userLogspace, q.userTag)
        ensures JoinTwo32(view.id, s) < q.seqNum
      {
        assert !Candidate(view, q, s);
      }
    }
  }

  method AskView(indexes: seq<Index>, ghost views: seq<View>, v: nat, query: Query, progress: nat)
      returns (r: Option<QueryResult>)
    requires Shows(indexes, views) && v < |indexes| && Sane(query)
    requires query.initial ==>
               GetViewId(query.metalogProgress) <= v && PositionOf(v, query) <= indexes[v].indexedMetalogPosition
    modifies indexes
    ensures Shows(indexes, views)
    ensures r.Some? <==> (query.initial || views[v].finalized) && !BlocksIn(views[v], v, query)
    ensures r.Some? ==> Answers(v, views[v].id, views[v].records, progress, query, r.value)
  {
    assert ShowsOne(indexes[v], views[v], v);
    if query.direction.ReadNextB? {
      BlocksHere(views[v], query);
    }
    r := Ask(indexes[v], query, progress);
    forall u {:trigger indexes[u]} | 0 <= u < |indexes|
      ensures ShowsOne(indexes[u], views[u], u)
    {
      assert u != v ==> old(ShowsOne(indexes[u], views[u], u));
    }
  }

  /**
   The walk of a fresh read from the current view, the last one, to older views. Its answer is the
   nearest candidate over all views, belongs to the read, and reports the progress of the current view.
   There is no answer if and only if it is a blocking read that finds nothing in its own view, the current
   one, or an older index that the read needs does not say that its view has ended; the read then waits there.
   */
  method Walk(indexes: seq<Index>, q: Query, progress: seq<nat>, ghost views: seq<View>)
      returns (r: Option<QueryResult>)
    requires indexes != [] && Shows(indexes, views) && ValidViews(views) && |progress| == |indexes|
    requires q.initial && Sane(q) && GetViewId(q.metalogProgress) < |indexes|
    requires PositionOf(|indexes| - 1, q) <= indexes[|indexes| - 1].indexedMetalogPosition
    modifies indexes
    ensures Shows(indexes, views)
    ensures r.Some? ==> Concludes(views, q, r.value) && r.value.metalogProgress == progress[|progress| - 1]
    ensures r.None? <==> BlocksIn(views[|views| - 1], |views| - 1, q) || !AllEnded(views, q)
  {
    var v, query := |indexes| - 1, q;
    while true
      invariant 0 <= v < |indexes| && Shows(indexes, views) && Reached(views, q, v, query) && Sane(query)
      invariant query.initial ==> v == |indexes| - 1 && PositionOf(v, q) <= indexes[v].indexedMetalogPosition
      invariant EndedAbove(views, q, v) && (!query.initial ==> query.metalogProgress == progress[|progress| - 1])
      decreases v
    {
      r := AskView(indexes, views, v, query, progress[v]);
      if r.None? {
        return;
      }
      StepOfWalk(views, q, v, query, progress[v], r.value);
      ReportedProgress(v, views[v].id, views[v].records, progress[v], query, r.value);
      AfterStep(views, q, v, query, r.value);
      if !r.value.state.Continue? {
        return;
      }
      v, query := r.value.nextViewId, BuildIndexQuery(r.value);
    }
  }

  const ONE_RECORD: Records := map[0 := IndexData(0, 0, [])]
  const OLDEST := Query(ReadPrev, true, 0, 0, EMPTY_TAG, 0, 0, 0, false, NOTHING_FOUND)

  const TWO_VIEWS := [View(0, ONE_RECORD, false), View(0x1_0000, map[], false)]

  lemma {:induction false} ExampleViews()
    ensures ValidViews(TWO_VIEWS) && Needs(TWO_VIEWS, OLDEST, 0) && Candidate(TWO_VIEWS[0], OLDEST, 0)
  {
  }

  /**
   Nothing ever makes an index say that its view has ended. So a backward read from an empty second
   view gets no answer, although the first view holds the very record it asks for.
   */
  method ReadLeftWaiting() returns (r: Option<QueryResult>)
    ensures r.None? && Candidate(TWO_VIEWS[0], OLDEST, 0)
  {
    var first := new Index(0, 0, 0);
    var left := first.Absorb(ONE_RECORD, 1);
    assert first.records == ONE_RECORD;
    var second := new Index(1, 0x1_0000, 0);
    ExampleViews();
    r := Walk([first, second], OLDEST, [0, 0], TWO_VIEWS);
    assert Needs(TWO_VIEWS, OLDEST, 0) && !TWO_VIEWS[0].finalized;
  }
}
