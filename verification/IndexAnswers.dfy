/** Queries to an index, the answer of one view to a query, and what becomes of many queries. */
module IndexAnswers {
  import opened Logs
  import opened SpaceIndexes
  import opened IndexContents

  const INVALID_SEQNUM: nat := 0xffff_ffff_ffff_ffff
  const MAX_METALOG_POSITION: nat := 0xffff_ffff
  const VIEW_UNIT: nat := 0x1_0000_0000_0000

  /** The view a sequence number or a progress value belongs to: its upper 16 bits. */
  function GetViewId(x: nat): nat { x / VIEW_UNIT }

  datatype Direction = ReadNext | ReadPrev | ReadNextB

  datatype FoundResult = FoundResult(viewId: nat, storageShardId: nat, seqNum: nat)

  datatype Query = Query(direction: Direction, initial: bool, clientData: nat, userLogspace: nat, userTag: nat,
                         seqNum: nat, metalogProgress: nat, masterNodeId: nat, useAggregator: bool,
                         prevFound: FoundResult)

  datatype ResultState = Found | Empty | Continue

  datatype QueryResult = QueryResult(state: ResultState, metalogProgress: nat, nextViewId: nat, query: Query,
                                     found: FoundResult)

  const NOTHING_FOUND := FoundResult(0, 0, INVALID_SEQNUM)

  // ---------------------------------------------------------------- answers

  function BuildFoundResult(q: Query, progress: nat, found: FoundResult): QueryResult
  {
    QueryResult(Found, if q.initial then progress else q.metalogProgress, 0, q, found)
  }

  function BuildEmptyResult(q: Query, progress: nat): QueryResult
  {
    QueryResult(Empty, if q.initial then progress else q.metalogProgress, 0, q, NOTHING_FOUND)
  }

  /** Passes a query on to the view below, with the best record found so far. */
  function BuildContinueResult(viewId: nat, q: Query, progress: nat, found: Option<FoundResult>): QueryResult
    requires viewId > 0
  {
    QueryResult(Continue, if q.initial then progress else q.metalogProgress, viewId - 1,
                if q.direction.ReadNextB? then q.(direction := ReadNext) else q,
                if found.Some? then found.value else if q.initial then NOTHING_FOUND else q.prevFound)
  }

  /** What a view answers to a forward read, given the nearest record in this view. */
  function AnswerNext(viewId: nat, progress: nat, q: Query, found: Option<FoundResult>): QueryResult
  {
    if GetViewId(q.seqNum) > viewId then BuildEmptyResult(q, progress)
    else if GetViewId(q.seqNum) < viewId then BuildContinueResult(viewId, q, progress, found)
    else if found.Some? then BuildFoundResult(q, progress, found.value)
    else if q.prevFound.seqNum != INVALID_SEQNUM then BuildFoundResult(q, progress, q.prevFound)
    else BuildEmptyResult(q, progress)
  }

  /** What a view answers to a backward read, given the nearest record in this view. */
  function AnswerPrev(viewId: nat, progress: nat, q: Query, found: Option<FoundResult>): QueryResult
  {
    if GetViewId(q.seqNum) < viewId then BuildContinueResult(viewId, q, progress, None)
    else if found.Some? then BuildFoundResult(q, progress, found.value)
    else if viewId > 0 then BuildContinueResult(viewId, q, progress, None)
    else BuildEmptyResult(q, progress)
  }

  /** A search result of one view is the nearest record the query can see, with the shard that stores it. */
  ghost predicate Nearest(id: nat, records: Records, q: Query, found: Option<Indexed>)
  {
    var visible := Visible(records, q.userLogspace, q.userTag);
    (found.Some? ==> found.value.lowHalf in records && records[found.value.lowHalf].engineId == found.value.engineId) &&
    if q.direction.ReadPrev?
    then IsPrev(visible, id, q.seqNum, LowHalf(found))
    else IsNext(visible, id, q.seqNum, LowHalf(found))
  }

  function ToFound(viewId: nat, id: nat, found: Option<Indexed>): Option<FoundResult>
  {
    if found.Some? then Some(FoundResult(viewId, found.value.engineId, JoinTwo32(id, found.value.lowHalf))) else None
  }

  function Answer(viewId: nat, id: nat, progress: nat, q: Query, found: Option<Indexed>): QueryResult
  {
    if q.direction.ReadPrev? then AnswerPrev(viewId, progress, q, ToFound(viewId, id, found))
    else AnswerNext(viewId, progress, q, ToFound(viewId, id, found))
  }

  /** A result is the answer to a query by a view that holds a set of records. */
  ghost predicate Answers(viewId: nat, id: nat, records: Records, progress: nat, q: Query, r: QueryResult)
  {
    exists found :: Nearest(id, records, q, found) && r == Answer(viewId, id, progress, q, found)
  }

  /** A record on the side of the bound that the read looks at. */
  predicate Beyond(q: Query, x: nat)
  {
    if q.direction.ReadPrev? then x <= q.seqNum else q.seqNum <= x
  }

  /** At least as near to the bound. */
  predicate Nearer(q: Query, x: nat, y: nat)
  {
    if q.direction.ReadPrev? then y <= x else x <= y
  }

  /** A result is about a query; a blocking read that is passed on no longer blocks. */
  predicate IsAbout(q: Query, r: QueryResult)
  {
    r.query == q || (r.state.Continue? && q.direction.ReadNextB? && r.query == q.(direction := ReadNext))
  }

  /**
   A result that answers some query answers every query it is about, and tells a fresh one the progress of the
   index.
   */
  lemma {:induction false} AnswersWhatItIsAbout(viewId: nat, id: nat, records: Records, progress: nat, q: Query,
                                                q': Query, r: QueryResult)
    requires Answers(viewId, id, records, progress, q, r) && IsAbout(q', r)
    ensures Answers(viewId, id, records, progress, q', r)
    ensures IsAbout(q, r) && (q'.initial ==> r.metalogProgress == progress)
  {
    var found :| Nearest(id, records, q, found) && r == Answer(viewId, id, progress, q, found);
    SameAnswer(viewId, id, progress, q, q', found);
    assert Nearest(id, records, q', found);
  }

  lemma {:induction false} SameAnswer(viewId: nat, id: nat, progress: nat, q: Query, q': Query, found: Option<Indexed>)
    requires IsAbout(q', Answer(viewId, id, progress, q, found))
    ensures Answer(viewId, id, progress, q', found) == Answer(viewId, id, progress, q, found)
    ensures q.direction.ReadPrev? <==> q'.direction.ReadPrev?
    ensures q'.userLogspace == q.userLogspace && q'.userTag == q.userTag && q'.seqNum == q.seqNum
    ensures IsAbout(q, Answer(viewId, id, progress, q, found))
    ensures q'.initial ==> Answer(viewId, id, progress, q, found).metalogProgress == progress
  {
  }

  /** The progress a result reports: that of the index to a fresh query, and what it carries to one passed on. */
  lemma {:induction false} ReportedProgress(viewId: nat, id: nat, records: Records, progress: nat, q: Query,
                                            r: QueryResult)
    requires Answers(viewId, id, records, progress, q, r)
    ensures r.metalogProgress == if q.initial then progress else q.metalogProgress
  {
  }

  /**
   The position an index must have reached before it may answer a query; passed-on queries wait for the end of
   the view.
   */
  function PositionOf(viewId: nat, q: Query): nat
  {
    if !q.initial then MAX_METALOG_POSITION
    else if GetViewId(q.metalogProgress) < viewId then 0
    else q.metalogProgress % LOW_HALF
  }

  /** A fresh query carries no earlier find, and only fresh queries may block. */
  predicate Sane(q: Query)
  {
    if q.initial then q.prevFound.seqNum == INVALID_SEQNUM else !q.direction.ReadNextB?
  }

  /** An index at a position may answer a query. */
  predicate Due(viewId: nat, position: nat, finalized: bool, q: Query)
  {
    PositionOf(viewId, q) <= position || (!q.initial && finalized)
  }

  predicate AllDue(viewId: nat, position: nat, finalized: bool, qs: seq<Query>)
  {
    forall q :: q in qs ==> Due(viewId, position, finalized, q)
  }

  predicate AllBlocking(qs: seq<Query>)
  {
    forall q :: q in qs ==> q.direction.ReadNextB? && q.initial && Sane(q)
  }

  /** A result answers some query that was due, from the records held then. */
  ghost predicate Justified(viewId: nat, id: nat, position: nat, finalized: bool, records: Records, progress: nat,
                            r: QueryResult)
  {
    exists q :: Due(viewId, position, finalized, q) && Answers(viewId, id, records, progress, q, r)
  }

  datatype Pending = Pending(position: nat, query: Query)

  /** Waiting queries are kept in the order of the positions they wait for. */
  ghost predicate InOrder(viewId: nat, ps: seq<Pending>)
  {
    (forall i, j :: 0 <= i < j < |ps| ==> ps[i].position <= ps[j].position) &&
    forall i :: 0 <= i < |ps| ==> ps[i].position == PositionOf(viewId, ps[i].query) && Sane(ps[i].query)
  }

  /** One more query waits, and the others wait in the order they were in. */
  ghost predicate Inserted(ps: seq<Pending>, p: Pending, ps': seq<Pending>)
  {
    exists k :: 0 <= k <= |ps| && ps' == ps[..k] + [p] + ps[k..]
  }

  /** Lets a query wait behind those that need no more progress than it does. */
  method InsertPending(viewId: nat, ps: seq<Pending>, p: Pending) returns (ps': seq<Pending>)
    requires InOrder(viewId, ps) && Sane(p.query) && p.position == PositionOf(viewId, p.query)
    ensures InOrder(viewId, ps') && Inserted(ps, p, ps')
  {
    var k := |ps|;
    while k > 0 && ps[k - 1].position > p.position
      invariant 0 <= k <= |ps| && (k < |ps| ==> ps[k].position > p.position)
    {
      k := k - 1;
    }
    ps' := ps[..k] + [p] + ps[k..];
    InsertInOrder(viewId, ps, ps', p, k);
  }

  lemma {:induction false} InsertInOrder(viewId: nat, ps: seq<Pending>, ps': seq<Pending>, p: Pending, k: nat)
    requires InOrder(viewId, ps) && Sane(p.query) && p.position == PositionOf(viewId, p.query)
    requires k <= |ps| && ps' == ps[..k] + [p] + ps[k..]
    requires k > 0 ==> ps[k - 1].position <= p.position
    requires k < |ps| ==> p.position <= ps[k].position
    ensures InOrder(viewId, ps')
  {
    assert forall i :: 0 <= i < |ps'| ==> ps'[i] == if i < k then ps[i] else if i == k then p else ps[i - 1];
  }

  // ---------------------------------------------------------------- what becomes of queries

  /** A blocking read becomes a plain forward read when it is passed on; otherwise a query stays what it was. */
  function Plain(q: Query): Query { if q.direction.ReadNextB? then q.(direction := ReadNext) else q }

  /** How often a query occurs in a list. */
  function Times(qs: seq<Query>, x: Query): nat
  {
    if qs == [] then 0 else Times(qs[..|qs| - 1], x) + if Plain(qs[|qs| - 1]) == x then 1 else 0
  }

  lemma {:induction false} TimesConcat(a: seq<Query>, b: seq<Query>, x: Query)
    ensures Times(a + b, x) == Times(a, x) + Times(b, x)
  {
    if b == [] {
      assert a + b == a;
    } else {
      TimesConcat(a, b[..|b| - 1], x);
      assert (a + b)[..|a + b| - 1] == a + b[..|b| - 1];
    }
  }

  lemma {:induction false} TimesOne(q: Query, x: Query)
    ensures Times([q], x) == if Plain(q) == x then 1 else 0
  {
    assert [q][..0] == [];
  }

  /** Of some queries, those that are kept waiting, or those that are not. */
  function Kept(qs: seq<Query>, waits: seq<bool>, w: bool): (kept: seq<Query>)
    requires |waits| == |qs|
    ensures forall q :: q in kept ==> q in qs
  {
    if qs == [] then []
    else Kept(qs[..|qs| - 1], waits[..|qs| - 1], w) + if waits[|qs| - 1] == w then [qs[|qs| - 1]] else []
  }

  lemma {:induction false} KeptMore(qs: seq<Query>, waits: seq<bool>, q: Query, v: bool, w: bool)
    requires |waits| == |qs|
    ensures Kept(qs + [q], waits + [v], w) == Kept(qs, waits, w) + if v == w then [q] else []
  {
    assert (qs + [q])[..|qs|] == qs && (waits + [v])[..|qs|] == waits;
  }

  /** No query is lost and none appears: each is either kept or not. */
  lemma {:induction false} KeptTimes(qs: seq<Query>, waits: seq<bool>, x: Query)
    requires |waits| == |qs|
    ensures Times(Kept(qs, waits, true), x) + Times(Kept(qs, waits, false), x) == Times(qs, x)
  {
    if qs != [] {
      var n := |qs| - 1;
      KeptTimes(qs[..n], waits[..n], x);
      TimesOne(qs[n], x);
      TimesConcat(Kept(qs[..n], waits[..n], waits[n]), [qs[n]], x);
      assert Kept(qs, waits, !waits[n]) == Kept(qs[..n], waits[..n], !waits[n]) + [];
      assert Kept(qs[..n], waits[..n], !waits[n]) + [] == Kept(qs[..n], waits[..n], !waits[n]);
    }
  }

  /** The queries that results answer. */
  function Asked(rs: seq<QueryResult>): (qs: seq<Query>)
    ensures |qs| == |rs| && forall i :: 0 <= i < |rs| ==> qs[i] == rs[i].query
  {
    seq(|rs|, i requires 0 <= i < |rs| => rs[i].query)
  }

  function QueriesOf(ps: seq<Pending>): (qs: seq<Query>)
    ensures |qs| == |ps| && forall i :: 0 <= i < |ps| ==> qs[i] == ps[i].query
  {
    seq(|ps|, i requires 0 <= i < |ps| => ps[i].query)
  }

  /** Results answer queries one by one. */
  ghost predicate AnswersAll(viewId: nat, id: nat, records: Records, progress: nat, qs: seq<Query>,
                             rs: seq<QueryResult>)
  {
    |rs| == |qs| && forall i :: 0 <= i < |qs| ==> Answers(viewId, id, records, progress, qs[i], rs[i])
  }

  lemma {:induction false} AnswersAllTimes(viewId: nat, id: nat, records: Records, progress: nat, qs: seq<Query>,
                                           rs: seq<QueryResult>, x: Query)
    requires AnswersAll(viewId, id, records, progress, qs, rs)
    ensures Times(Asked(rs), x) == Times(qs, x)
  {
    if qs != [] {
      var n := |qs| - 1;
      AnswersAllTimes(viewId, id, records, progress, qs[..n], rs[..n], x);
      assert Asked(rs)[..n] == Asked(rs[..n]);
      AnswersPlain(viewId, id, records, progress, qs[n], rs[n]);
    }
  }

  /** A result is about the query it answers, also when it passes the query on. */
  lemma {:induction false} AnswersPlain(viewId: nat, id: nat, records: Records, progress: nat, q: Query, r: QueryResult)
    requires Answers(viewId, id, records, progress, q, r)
    ensures Plain(r.query) == Plain(q)
  {
  }

  /** Queries were handled in order: those marked are now blocking reads, the others have been answered. */
  ghost predicate Handled(viewId: nat, id: nat, records: Records, progress: nat, qs: seq<Query>, waits: seq<bool>,
                          blocking0: seq<Query>, results0: seq<QueryResult>, blocking: seq<Query>,
                          results: seq<QueryResult>)
  {
    |waits| == |qs| && blocking == blocking0 + Kept(qs, waits, true) && results0 <= results &&
    AnswersAll(viewId, id, records, progress, Kept(qs, waits, false), results[|results0|..])
  }

  /** A blocking read finds nothing in its own view. */
  ghost predicate BlocksOn(viewId: nat, id: nat, records: Records, q: Query)
  {
    q.direction.ReadNextB? && GetViewId(q.seqNum) == viewId &&
    IsNext(Visible(records, q.userLogspace, q.userTag), id, q.seqNum, None)
  }

  /** Exactly those queries are kept that have to block and have not waited too long. */
  ghost predicate KeepsBlocked(viewId: nat, id: nat, records: Records, late: Query -> bool, qs: seq<Query>,
                               waits: seq<bool>)
  {
    |waits| == |qs| &&
    forall i :: 0 <= i < |qs| ==> (waits[i] <==> BlocksOn(viewId, id, records, qs[i]) && !late(qs[i]))
  }

  /** A query met for the first time has not waited yet. */
  predicate Never(q: Query) { false }

  lemma {:induction false} KeepsOneMore(viewId: nat, id: nat, records: Records, late: Query -> bool, qs: seq<Query>,
                                        waits: seq<bool>, q: Query, w: bool)
    requires KeepsBlocked(viewId, id, records, late, qs, waits)
    requires w <==> BlocksOn(viewId, id, records, q) && !late(q)
    ensures KeepsBlocked(viewId, id, records, late, qs + [q], waits + [w])
  {
  }

  /** Every blocking read has to block. */
  ghost predicate AllBlocked(viewId: nat, id: nat, records: Records, qs: seq<Query>)
  {
    forall q :: q in qs ==> BlocksOn(viewId, id, records, q)
  }

  /** No read that still has to block is given up before it has waited too long. */
  ghost predicate NoneGivenUp(viewId: nat, id: nat, records: Records, late: Query -> bool, before: seq<Query>,
                              after: seq<Query>)
  {
    forall q :: q in before && BlocksOn(viewId, id, records, q) && !late(q) ==> q in after
  }

  lemma {:induction false} KeptAreBlocked(viewId: nat, id: nat, records: Records, late: Query -> bool, qs: seq<Query>,
                                          waits: seq<bool>)
    requires KeepsBlocked(viewId, id, records, late, qs, waits)
    ensures AllBlocked(viewId, id, records, Kept(qs, waits, true))
    ensures NoneGivenUp(viewId, id, records, late, qs, Kept(qs, waits, true))
  {
    if qs != [] {
      var n := |qs| - 1;
      KeptAreBlocked(viewId, id, records, late, qs[..n], waits[..n]);
      assert waits[n] <==> BlocksOn(viewId, id, records, qs[n]) && !late(qs[n]);
    }
  }

  lemma {:induction false} LaterGivesUpMore(viewId: nat, id: nat, records: Records, now: Query -> bool,
                                            late: Query -> bool, before: seq<Query>, after: seq<Query>)
    requires NoneGivenUp(viewId, id, records, now, before, after) && forall q :: now(q) ==> late(q)
    ensures NoneGivenUp(viewId, id, records, late, before, after)
  {
  }

  /** A read that has to block on some records has to block on fewer. */
  lemma {:induction false} BlocksOnFewer(viewId: nat, id: nat, fewer: Records, records: Records, q: Query)
    requires BlocksOn(viewId, id, records, q) && forall s :: s in fewer ==> s in records && records[s] == fewer[s]
    ensures BlocksOn(viewId, id, fewer, q)
  {
    forall s | s in Visible(fewer, q.userLogspace, q.userTag)
      ensures s in Visible(records, q.userLogspace, q.userTag)
    {
    }
  }

  lemma {:induction false} NoneGivenUpTwice(viewId: nat, id: nat, fewer: Records, records: Records, late: Query -> bool,
                                            first: seq<Query>, second: seq<Query>, third: seq<Query>)
    requires forall s :: s in fewer ==> s in records && records[s] == fewer[s]
    requires NoneGivenUp(viewId, id, fewer, late, first, second)
    requires NoneGivenUp(viewId, id, records, late, second, third)
    ensures NoneGivenUp(viewId, id, records, late, first, third)
  {
    forall q | q in first && BlocksOn(viewId, id, records, q) && !late(q)
      ensures q in third
    {
      BlocksOnFewer(viewId, id, fewer, records, q);
    }
  }

  lemma {:induction false} HandledNone(viewId: nat, id: nat, records: Records, progress: nat, blocking: seq<Query>,
                                       results: seq<QueryResult>)
    ensures Handled(viewId, id, records, progress, [], [], blocking, results, blocking, results)
  {
    assert blocking + [] == blocking;
  }

  /** One more query is handled. */
  lemma {:induction false} HandledMore(viewId: nat, id: nat, records: Records, progress: nat, qs: seq<Query>,
                                       waits: seq<bool>, blocking0: seq<Query>, results0: seq<QueryResult>,
                                       blocking: seq<Query>, results: seq<QueryResult>, q: Query, w: bool,
                                       blocking': seq<Query>, results': seq<QueryResult>)
    requires Handled(viewId, id, records, progress, qs, waits, blocking0, results0, blocking, results)
    requires HandledOne(viewId, id, records, progress, q, w, blocking, results, blocking', results')
    ensures Handled(viewId, id, records, progress, qs + [q], waits + [w], blocking0, results0, blocking', results')
  {
    KeptMore(qs, waits, q, w, true);
    KeptMore(qs, waits, q, w, false);
    var n := |results0|;
    if !w {
      assert results'[n..] == results[n..] + [results'[|results|]];
    }
  }

  /** One query was handled: it is now the last blocking read, or the last result answers it. */
  ghost predicate HandledOne(viewId: nat, id: nat, records: Records, progress: nat, q: Query, w: bool,
                             blocking: seq<Query>, results: seq<QueryResult>, blocking': seq<Query>,
                             results': seq<QueryResult>)
  {
    if w then blocking' == blocking + [q] && results' == results
    else blocking' == blocking && |results'| == |results| + 1 && results' == results + [results'[|results|]] &&
         Answers(viewId, id, records, progress, q, results'[|results|])
  }

  lemma {:induction false} HandledSingle(viewId: nat, id: nat, records: Records, progress: nat, q: Query, w: bool,
                                         blocking0: seq<Query>, results0: seq<QueryResult>, blocking: seq<Query>,
                                         results: seq<QueryResult>)
    requires HandledOne(viewId, id, records, progress, q, w, blocking0, results0, blocking, results)
    ensures Handled(viewId, id, records, progress, [q], [w], blocking0, results0, blocking, results)
  {
    HandledNone(viewId, id, records, progress, blocking0, results0);
    HandledMore(viewId, id, records, progress, [], [], blocking0, results0, blocking0, results0, q, w,
                blocking, results);
    assert [] + [q] == [q] && [] + [w] == [w];
  }

  /** Handling queries that were due gives justified results, and loses no query. */
  lemma {:induction false} HandledJustified(viewId: nat, id: nat, records: Records, progress: nat, qs: seq<Query>,
                                            waits: seq<bool>, blocking0: seq<Query>, results0: seq<QueryResult>,
                                            blocking: seq<Query>, results: seq<QueryResult>, position: nat,
                                            finalized: bool, k: nat)
    requires Handled(viewId, id, records, progress, qs, waits, blocking0, results0, blocking, results)
    requires AllDue(viewId, position, finalized, qs)
    requires |results0| <= k < |results|
    ensures Justified(viewId, id, position, finalized, records, progress, results[k])
  {
    var answered := Kept(qs, waits, false);
    var q := answered[k - |results0|];
    assert q in answered;
    assert results[|results0|..][k - |results0|] == results[k];
    assert Answers(viewId, id, records, progress, q, results[k]);
  }

  lemma {:induction false} HandledTimes(viewId: nat, id: nat, records: Records, progress: nat, qs: seq<Query>,
                                        waits: seq<bool>, blocking0: seq<Query>, results0: seq<QueryResult>,
                                        blocking: seq<Query>, results: seq<QueryResult>, x: Query)
    requires Handled(viewId, id, records, progress, qs, waits, blocking0, results0, blocking, results)
    ensures Times(blocking, x) + Times(Asked(results), x) ==
              Times(blocking0, x) + Times(Asked(results0), x) + Times(qs, x)
  {
    KeptTimes(qs, waits, x);
    TimesConcat(blocking0, Kept(qs, waits, true), x);
    AnswersAllTimes(viewId, id, records, progress, Kept(qs, waits, false), results[|results0|..], x);
    assert Asked(results) == Asked(results0) + Asked(results[|results0|..]);
    TimesConcat(Asked(results0), Asked(results[|results0|..]), x);
  }

  lemma {:induction false} SplitTimes(ps: seq<Pending>, k: nat, x: Query)
    requires k <= |ps|
    ensures Times(QueriesOf(ps), x) == Times(QueriesOf(ps[..k]), x) + Times(QueriesOf(ps[k..]), x)
  {
    assert QueriesOf(ps) == QueriesOf(ps[..k]) + QueriesOf(ps[k..]);
    TimesConcat(QueriesOf(ps[..k]), QueriesOf(ps[k..]), x);
  }

  lemma {:induction false} InsertedTimes(ps: seq<Pending>, p: Pending, ps': seq<Pending>, x: Query)
    requires Inserted(ps, p, ps')
    ensures Times(QueriesOf(ps'), x) == Times(QueriesOf(ps), x) + if Plain(p.query) == x then 1 else 0
  {
    var k :| 0 <= k <= |ps| && ps' == ps[..k] + [p] + ps[k..];
    SplitTimes(ps, k, x);
    assert QueriesOf(ps') == QueriesOf(ps[..k]) + [p.query] + QueriesOf(ps[k..]);
    TimesConcat(QueriesOf(ps[..k]) + [p.query], QueriesOf(ps[k..]), x);
    TimesConcat(QueriesOf(ps[..k]), [p.query], x);
    TimesOne(p.query, x);
  }
}
