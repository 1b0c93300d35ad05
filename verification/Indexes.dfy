/**
 What the sharded and the complete index have in common: the queue of queries that wait for progress,
 the reads that block, and the results.
 */
module Indexes {
  import opened Logs
  import opened SpaceIndexes
  import opened IndexContents
  import opened IndexAnswers

  class Index {
    const viewId: nat
    const logspaceId: nat
    var spaces: Spaces
    var indexedMetalogPosition: nat
    var finalized: bool
    var pendingQueries: seq<Pending>
    var blockingReads: seq<Query>
    var results: seq<QueryResult>
    ghost var records: Records

    constructor (viewId: nat, logspaceId: nat, position: nat)
      requires GetViewId(JoinTwo32(logspaceId, 0)) == viewId && JoinTwo32(logspaceId + 1, 0) <= MAX_SEQNUM
      ensures Valid() && this.viewId == viewId && this.logspaceId == logspaceId && indexedMetalogPosition == position
      ensures records == map[] && !finalized && pendingQueries == [] && blockingReads == [] && results == []
    {
      this.viewId, this.logspaceId, indexedMetalogPosition := viewId, logspaceId, position;
      spaces, finalized, pendingQueries, blockingReads, results, records := map[], false, [], [], [], map[];
      HoldsNothing();
    }

    /** The index holds its records; waiting queries are in order, and only fresh blocking reads block. */
    ghost predicate Valid()
      reads this
    {
      Holds(spaces, records) && JoinTwo32(logspaceId + 1, 0) <= MAX_SEQNUM && AllBelow(records, LOW_HALF) &&
      InOrder(viewId, pendingQueries) && AllBlocking(blockingReads)
    }

    /**
     No query is left waiting for progress that has been made. No read blocks before its progress, and none blocks on
     a record that the index holds.
     */
    ghost predicate Settled()
      reads this
    {
      (forall i :: 0 <= i < |pendingQueries| && pendingQueries[i].query.initial ==>
         pendingQueries[i].position > indexedMetalogPosition) &&
      AllDue(viewId, indexedMetalogPosition, finalized, blockingReads) &&
      AllBlocked(viewId, logspaceId, records, blockingReads)
    }

    /** How often the index has a query: waiting, blocking or answered. */
    ghost function Has(x: Query): nat
      reads this
    {
      Times(QueriesOf(pendingQueries), x) + Times(blockingReads, x) + Times(Asked(results), x)
    }

    /** The nearest record of the query's user log space and tag. */
    method Search(q: Query) returns (found: Option<Indexed>)
      requires Valid()
      ensures Nearest(logspaceId, records, q, found)
    {
      var space := SpaceOf(spaces, q.userLogspace);
      ghost var mine := OfSpace(records, q.userLogspace);
      if q.direction.ReadPrev? {
        found := FindPrev(space, logspaceId, q.seqNum, q.userTag, mine);
      } else {
        found := FindNext(space, logspaceId, q.seqNum, q.userTag, mine);
      }
    }

    /** A blocking read finds nothing in its own view. */
    ghost predicate Blocks(q: Query)
      reads this
    {
      BlocksOn(viewId, logspaceId, records, q)
    }

    /** Answers a query, unless it is a blocking read that finds nothing in its own view: that one has to wait. */
    method ProcessQuery(q: Query, progress: nat) returns (ghost w: bool)
      requires Valid() && Sane(q)
      modifies this`results, this`blockingReads
      ensures Valid() && (w <==> Blocks(q))
      ensures HandledOne(viewId, logspaceId, records, progress, q, w, old(blockingReads), old(results), blockingReads,
                         results)
    {
      var found := Search(q);
      w := false;
      if q.direction.ReadNextB? && found.None? && GetViewId(q.seqNum) == viewId {
        blockingReads := blockingReads + [q];
        w := true;
      } else {
        results := results + [Answer(viewId, logspaceId, progress, q, found)];
      }
    }

    /** All results since an earlier moment answer queries that were due, from what the index holds now. */
    ghost predicate Grown(progress: nat, results0: seq<QueryResult>)
      reads this
    {
      results0 <= results &&
      forall k :: |results0| <= k < |results| ==>
        Justified(viewId, logspaceId, indexedMetalogPosition, finalized, records, progress, results[k])
    }

    lemma {:induction false} GrownTwice(progress: nat, results0: seq<QueryResult>, results1: seq<QueryResult>)
      requires results0 <= results1 && Grown(progress, results1)
      requires forall k :: |results0| <= k < |results1| ==>
                 Justified(viewId, logspaceId, indexedMetalogPosition, finalized, records, progress, results1[k])
      ensures Grown(progress, results0)
    {
      assert forall k :: |results0| <= k < |results1| ==> results[k] == results1[k];
    }

    /** A query may be processed at once. */
    predicate Now(q: Query)
      reads this
    {
      if q.initial then PositionOf(viewId, q) <= indexedMetalogPosition else finalized
    }

    /** Takes a query: handles it if it is due, otherwise lets it wait behind those that need no more than it does. */
    method MakeQuery(q: Query, progress: nat)
      requires Valid() && Sane(q) && (q.initial ==> GetViewId(q.metalogProgress) <= viewId)
      modifies this`results, this`blockingReads, this`pendingQueries
      ensures Valid() && (old(Settled()) ==> Settled())
      ensures if Now(q)
              then pendingQueries == old(pendingQueries) &&
                   HandledOne(viewId, logspaceId, records, progress, q, Blocks(q), old(blockingReads), old(results),
                              blockingReads, results)
              else results == old(results) && blockingReads == old(blockingReads) &&
                   Inserted(old(pendingQueries), Pending(PositionOf(viewId, q), q), pendingQueries)
    {
      if Now(q) {
        ghost var w := ProcessQuery(q, progress);
      } else {
        pendingQueries := InsertPending(viewId, pendingQueries, Pending(PositionOf(viewId, q), q));
      }
    }

    /** Takes a query; it is answered from what the index holds, or kept, and so is every other query. */
    method TakeQuery(q: Query, progress: nat)
      requires Valid() && Settled() && Sane(q) && (q.initial ==> GetViewId(q.metalogProgress) <= viewId)
      modifies this`results, this`blockingReads, this`pendingQueries
      ensures Valid() && Settled() && Grown(progress, old(results))
      ensures forall x :: Has(x) == old(Has(x)) + if x == Plain(q) then 1 else 0
    {
      ghost var pending0, blocking0, results0 := pendingQueries, blockingReads, results;
      MakeQuery(q, progress);
      if Now(q) {
        TakenNow(q, progress, blocking0, results0);
      } else {
        TakenLater(q, pending0);
      }
      forall x
        ensures Has(x) == old(Has(x)) + if x == Plain(q) then 1 else 0
      {
        TimesOne(q, x);
        assert HasOneMore(pending0, blocking0, results0, q, x);
      }
    }

    /** The queries of an index at some moment, and one more. */
    ghost predicate HasOneMore(pending0: seq<Pending>, blocking0: seq<Query>, results0: seq<QueryResult>, q: Query,
                               x: Query)
      reads this
    {
      Has(x) == Times(QueriesOf(pending0), x) + Times(blocking0, x) + Times(Asked(results0), x) + Times([q], x)
    }

    lemma {:induction false} TakenNow(q: Query, progress: nat, blocking0: seq<Query>, results0: seq<QueryResult>)
      requires Now(q) && HandledOne(viewId, logspaceId, records, progress, q, Blocks(q), blocking0, results0,
                                    blockingReads, results)
      ensures Grown(progress, results0)
      ensures forall x :: HasOneMore(pendingQueries, blocking0, results0, q, x)
    {
      HandledSingle(viewId, logspaceId, records, progress, q, Blocks(q), blocking0, results0, blockingReads, results);
      NowIsDue(q);
      HandledGrows(progress, [q], [Blocks(q)], blocking0, results0);
    }

    lemma {:induction false} NowIsDue(q: Query)
      requires Now(q)
      ensures AllDue(viewId, indexedMetalogPosition, finalized, [q])
    {
    }

    lemma {:induction false} TakenLater(q: Query, pending0: seq<Pending>)
      requires Inserted(pending0, Pending(PositionOf(viewId, q), q), pendingQueries)
      ensures forall x :: HasOneMore(pending0, blockingReads, results, q, x)
    {
      forall x
        ensures HasOneMore(pending0, blockingReads, results, q, x)
      {
        TimesOne(q, x);
        InsertedTimes(pending0, Pending(PositionOf(viewId, q), q), pendingQueries, x);
      }
    }

    /** What was handled when due gives justified results, and loses no query. */
    lemma {:induction false} HandledGrows(progress: nat, qs: seq<Query>, waits: seq<bool>, blocking0: seq<Query>,
                                          results0: seq<QueryResult>)
      requires Handled(viewId, logspaceId, records, progress, qs, waits, blocking0, results0, blockingReads, results)
      requires AllDue(viewId, indexedMetalogPosition, finalized, qs)
      ensures Grown(progress, results0)
      ensures forall x ::
        Times(blockingReads, x) + Times(Asked(results), x) ==
          Times(blocking0, x) + Times(Asked(results0), x) + Times(qs, x)
    {
      forall x
        ensures Times(blockingReads, x) + Times(Asked(results), x) ==
                  Times(blocking0, x) + Times(Asked(results0), x) + Times(qs, x)
      {
        HandledTimes(viewId, logspaceId, records, progress, qs, waits, blocking0, results0, blockingReads, results, x);
      }
      forall k | |results0| <= k < |results|
        ensures Justified(viewId, logspaceId, indexedMetalogPosition, finalized, records, progress, results[k])
      {
        HandledJustified(viewId, logspaceId, records, progress, qs, waits, blocking0, results0, blockingReads, results,
                         indexedMetalogPosition, finalized, k);
      }
    }

    method AdvanceTo(position: nat)
      requires Valid() && position >= indexedMetalogPosition
      modifies this`indexedMetalogPosition
      ensures Valid() && indexedMetalogPosition == position
      ensures old(Settled()) ==> AllDue(viewId, position, finalized, blockingReads)
    {
      indexedMetalogPosition := position;
    }

    /** Moves the received records below a sequence number into the index. */
    method Absorb(received: Records, end: nat) returns (received': Records)
      requires Valid() && Tagged(received) && Precede(records, received, end) && AllBelow(received, LOW_HALF)
      modifies this`spaces, this`records
      ensures Valid() && records == old(records) + Under(received, end) && received' == From(received, end)
    {
      spaces, received' := ApplyReceived(spaces, received, end, records);
      records := records + Under(received, end);
    }

    /** Handles, in order, exactly the waiting queries that progress has made due; the others go on waiting. */
    method DrainPending(progress: nat) returns (ghost k: nat, ghost waits: seq<bool>)
      requires Valid()
      modifies this`results, this`blockingReads, this`pendingQueries
      ensures Valid() && k <= |old(pendingQueries)| && pendingQueries == old(pendingQueries)[k..]
      ensures forall i :: 0 <= i < |old(pendingQueries)| ==>
                (i < k <==> old(pendingQueries)[i].position <= indexedMetalogPosition)
      ensures Handled(viewId, logspaceId, records, progress, QueriesOf(old(pendingQueries)[..k]), waits,
                      old(blockingReads), old(results), blockingReads, results)
      ensures KeepsBlocked(viewId, logspaceId, records, Never, QueriesOf(old(pendingQueries)[..k]), waits)
    {
      k, waits := 0, [];
      HandledNone(viewId, logspaceId, records, progress, blockingReads, results);
      while pendingQueries != [] && pendingQueries[0].position <= indexedMetalogPosition
        invariant Valid() && k <= |old(pendingQueries)| && pendingQueries == old(pendingQueries)[k..]
        invariant forall i :: 0 <= i < k ==> old(pendingQueries)[i].position <= indexedMetalogPosition
        invariant Handled(viewId, logspaceId, records, progress, QueriesOf(old(pendingQueries)[..k]), waits,
                          old(blockingReads), old(results), blockingReads, results)
        invariant KeepsBlocked(viewId, logspaceId, records, Never, QueriesOf(old(pendingQueries)[..k]), waits)
        decreases |pendingQueries|
      {
        ghost var w := HandleFirst(progress, QueriesOf(old(pendingQueries)[..k]), waits, old(blockingReads),
                                   old(results));
        assert QueriesOf(old(pendingQueries)[..k + 1]) ==
               QueriesOf(old(pendingQueries)[..k]) + [old(pendingQueries)[k].query];
        k, waits := k + 1, waits + [w];
      }
    }

    method HandleFirst(progress: nat, ghost qs: seq<Query>, ghost waits: seq<bool>, ghost blocking0: seq<Query>,
                       ghost results0: seq<QueryResult>)
        returns (ghost w: bool)
      requires Valid() && pendingQueries != []
      requires Handled(viewId, logspaceId, records, progress, qs, waits, blocking0, results0, blockingReads, results)
      requires KeepsBlocked(viewId, logspaceId, records, Never, qs, waits)
      modifies this`results, this`blockingReads, this`pendingQueries
      ensures Valid() && pendingQueries == old(pendingQueries)[1..]
      ensures KeepsBlocked(viewId, logspaceId, records, Never, qs + [old(pendingQueries)[0].query], waits + [w])
      ensures Handled(viewId, logspaceId, records, progress, qs + [old(pendingQueries)[0].query], waits + [w],
                      blocking0, results0, blockingReads, results)
    {
      var q := pendingQueries[0].query;
      ghost var blocking1, results1 := blockingReads, results;
      pendingQueries := pendingQueries[1..];
      w := ProcessQuery(q, progress);
      KeepsOneMore(viewId, logspaceId, records, Never, qs, waits, q, w);
      HandledMore(viewId, logspaceId, records, progress, qs, waits, blocking0, results0, blocking1, results1, q, w,
                  blockingReads, results);
    }

    /** Looks again for what blocking reads wait for; a read that has waited too long learns that there is nothing. */
    method RetryBlocking(progress: nat, late: Query -> bool) returns (ghost waits: seq<bool>)
      requires Valid()
      modifies this`results, this`blockingReads
      ensures Valid()
      ensures Handled(viewId, logspaceId, records, progress, old(blockingReads), waits, [], old(results), blockingReads,
                      results)
      ensures KeepsBlocked(viewId, logspaceId, records, late, old(blockingReads), waits)
    {
      var retried := blockingReads;
      blockingReads, waits := [], [];
      HandledNone(viewId, logspaceId, records, progress, [], results);
      for i := 0 to |retried|
        invariant Valid() && AllBlocking(retried)
        invariant KeepsBlocked(viewId, logspaceId, records, late, retried[..i], waits)
        invariant Handled(viewId, logspaceId, records, progress, retried[..i], waits, [], old(results), blockingReads,
                          results)
      {
        ghost var w := RetryOne(retried[i], progress, late, retried[..i], waits, old(results));
        assert retried[..i + 1] == retried[..i] + [retried[i]];
        waits := waits + [w];
      }
      assert retried[..|retried|] == retried;
    }

    method RetryOne(q: Query, progress: nat, late: Query -> bool, ghost qs: seq<Query>, ghost waits: seq<bool>,
                    ghost results0: seq<QueryResult>)
        returns (ghost w: bool)
      requires Valid() && q.direction.ReadNextB? && q.initial && Sane(q)
      requires Handled(viewId, logspaceId, records, progress, qs, waits, [], results0, blockingReads, results)
      requires KeepsBlocked(viewId, logspaceId, records, late, qs, waits)
      modifies this`results, this`blockingReads
      ensures Valid() && KeepsBlocked(viewId, logspaceId, records, late, qs + [q], waits + [w])
      ensures Handled(viewId, logspaceId, records, progress, qs + [q], waits + [w], [], results0,
                      blockingReads, results)
    {
      ghost var blocking1, results1 := blockingReads, results;
      var found := Search(q);
      w := false;
      if found.None? && GetViewId(q.seqNum) == viewId && !late(q) {
        blockingReads := blockingReads + [q];
        w := true;
      } else {
        results := results + [Answer(viewId, logspaceId, progress, q, found)];
      }
      KeepsOneMore(viewId, logspaceId, records, late, qs, waits, q, w);
      HandledMore(viewId, logspaceId, records, progress, qs, waits, [], results0, blocking1, results1, q, w,
                  blockingReads, results);
    }

    /**
     Progress has been made: retries the blocking reads, then handles the waiting queries that are due; no
     query is lost.
     */
    method AnswerDue(progress: nat, late: Query -> bool)
      requires Valid() && AllDue(viewId, indexedMetalogPosition, finalized, blockingReads)
      modifies this`results, this`blockingReads, this`pendingQueries
      ensures Valid() && Settled() && Grown(progress, old(results)) && forall x :: Has(x) == old(Has(x))
      ensures NoneGivenUp(viewId, logspaceId, records, late, old(blockingReads), blockingReads)
    {
      ghost var pending0, blocking0, results0 := pendingQueries, blockingReads, results;
      ghost var waits := RetryBlocking(progress, late);
      KeptAreBlocked(viewId, logspaceId, records, late, blocking0, waits);
      HandledGrows(progress, blocking0, waits, [], results0);
      ghost var blocking1, results1 := blockingReads, results;
      ghost var k, waits' := DrainPending(progress);
      KeptAreBlocked(viewId, logspaceId, records, Never, QueriesOf(pending0[..k]), waits');
      HandledGrows(progress, QueriesOf(pending0[..k]), waits', blocking1, results1);
      GrownTwice(progress, results0, results1);
      forall x
        ensures Has(x) == old(Has(x))
      {
        SplitTimes(pending0, k, x);
      }
    }

    /** The view has ended: handles everything that was waiting, in order. */
    method OnFinalized(progress: nat) returns (ghost waits: seq<bool>)
      requires Valid()
      modifies this`results, this`blockingReads, this`pendingQueries
      ensures Valid() && pendingQueries == []
      ensures Handled(viewId, logspaceId, records, progress, QueriesOf(old(pendingQueries)), waits,
                      old(blockingReads), old(results), blockingReads, results)
      ensures KeepsBlocked(viewId, logspaceId, records, Never, QueriesOf(old(pendingQueries)), waits)
    {
      ghost var k := 0;
      waits := [];
      HandledNone(viewId, logspaceId, records, progress, blockingReads, results);
      while pendingQueries != []
        invariant Valid() && k <= |old(pendingQueries)| && pendingQueries == old(pendingQueries)[k..]
        invariant Handled(viewId, logspaceId, records, progress, QueriesOf(old(pendingQueries)[..k]), waits,
                          old(blockingReads), old(results), blockingReads, results)
        invariant KeepsBlocked(viewId, logspaceId, records, Never, QueriesOf(old(pendingQueries)[..k]), waits)
        decreases |pendingQueries|
      {
        ghost var w := HandleFirst(progress, QueriesOf(old(pendingQueries)[..k]), waits, old(blockingReads),
                                   old(results));
        assert QueriesOf(old(pendingQueries)[..k + 1]) ==
               QueriesOf(old(pendingQueries)[..k]) + [old(pendingQueries)[k].query];
        k, waits := k + 1, waits + [w];
      }
      assert old(pendingQueries)[..k] == old(pendingQueries);
    }

    /** Hands out the results produced so far. */
    method PollQueryResults() returns (polled: seq<QueryResult>)
      modifies this`results
      ensures polled == old(results) && results == []
    {
      polled := results;
      results := [];
    }
  }
}
