/** One of the index shards that share the metalog cuts of a log space in turn. */
module IndexShards {
  import opened Logs
  import opened SpaceIndexes
  import opened IndexContents
  import opened IndexAnswers
  import opened Indexes
  import opened IndexPackages
  import opened ShardCuts
  import opened Sets

  /** Which blocking reads have waited too long when the shard is about to leave a position. */
  type Clock = (nat, Query) -> bool

  function LateAt(clock: Clock, position: nat): Query -> bool { q => clock(position, q) }

  /** The reads that become late while something is done are among the late ones. */
  ghost predicate Within(clock: Clock, late: Query -> bool)
  {
    forall position, q :: clock(position, q) ==> late(q)
  }

  class IndexShard {
    const core: Index
    const shardId: nat
    const numShards: nat
    var updates: map<nat, Update>
    var endSeqnumPositions: map<nat, nat>
    var received: Records
    ghost const history: History
    ghost var delivered: set<Package>

    constructor (viewId: nat, logspaceId: nat, shardId: nat, numShards: nat, ghost history: History)
      requires GetViewId(JoinTwo32(logspaceId, 0)) == viewId && JoinTwo32(logspaceId + 1, 0) <= MAX_SEQNUM
      requires shardId < numShards && ValidHistory(history)
      ensures Valid() && fresh(core) && core.viewId == viewId && core.logspaceId == logspaceId
      ensures this.shardId == shardId && this.numShards == numShards && this.history == history && delivered == {}
    {
      core := new Index(viewId, logspaceId, shardId);
      this.shardId, this.numShards, this.history := shardId, numShards, history;
      updates, endSeqnumPositions, received, delivered := map[], map[], map[], {};
      new;
      Nothing(history, shardId, numShards);
      NeverEmpty(history, {}, shardId + 1);
    }

    function Position(): nat
      reads core
    {
      core.indexedMetalogPosition
    }

    /** The shard has applied every cut that what arrived allows. */
    ghost predicate Valid()
      reads this, core
    {
      Consistent() && !Complete(history, delivered, Position() + 1)
    }

    /**
     The index holds exactly the shard's cuts up to its position; everything else depends only on what has
     arrived.
     */
    ghost predicate Consistent()
      reads this, core
    {
      core.Valid() && core.Settled() && InOrder() &&
      core.records == Held(history, shardId, numShards, Position()) && Stored(history, Position(), delivered, received)
    }

    ghost predicate InOrder()
      reads this, core
    {
      Books(history, shardId, numShards, Position(), delivered, updates, endSeqnumPositions)
    }

    /** Reported progress: the last cut applied, or 0. */
    function IndexMetalogProgress(): (r: nat)
      requires numShards > 0
      reads core
      ensures r == JoinTwo32(core.logspaceId, LastApplied(numShards, Position()))
    {
      var others := numShards - 1;
      JoinTwo32(core.logspaceId, if Position() <= others then 0 else Position() - others)
    }

    /** Notes who has reported on the cut of a package; tells whether the package brings something new. */
    method CheckIfNewIndexData(p: Package) returns (isNew: bool)
      requires InOrder() && CoversCut(history, p) && Own(shardId, numShards, p.metalogPosition)
      modifies this`updates, this`endSeqnumPositions, this`delivered
      ensures InOrder() && delivered == old(delivered) + {p}
      ensures isNew <==> p.metalogPosition > Position() && !(Mentioned(old(delivered), p.metalogPosition) &&
                           MyShards(p) <= Reported(old(delivered), p.metalogPosition))
    {
      var c := p.metalogPosition;
      BooksNote(history, shardId, numShards, Position(), delivered, updates, endSeqnumPositions, p);
      ghost var updates', ends' := Noted(p, Position(), updates), NotedEnds(p, Position(), endSeqnumPositions);
      delivered := delivered + {p};
      if c <= Position() {
        isNew := false;
      } else if c in updates {
        var shards := updates[c].shards + MyShards(p);
        isNew := |shards| > |updates[c].shards|;
        Enlarged(updates[c].shards, MyShards(p));
        updates := updates[c := updates[c].(shards := shards)];
      } else {
        updates := updates[c := Update(p.numShards, MyShards(p))];
        endSeqnumPositions := endSeqnumPositions[c := p.endSeqnumPosition];
        isNew := true;
      }
      assert updates == updates' && endSeqnumPositions == ends';
    }

    /** Keeps the records of a package. */
    method ProvideIndexData(p: Package, ghost before: set<Package>)
      requires ValidHistory(history) && Stored(history, Position(), before, received)
      requires CoversCut(history, p) && p.metalogPosition > Position()
      modifies this`received
      ensures Stored(history, Position(), before + {p}, received)
    {
      ghost var received0 := received;
      received := Receive(received, 0, p, history);
      StoredMore(history, Position(), before, p, received0, received);
    }

    /** Moves past the next cut of this shard if all productive storage shards have reported on it. */
    method TryCompleteIndexUpdates() returns (end: Option<nat>)
      requires core.Valid() && InOrder() && Stored(history, Position(), delivered, received)
      modifies this`updates, this`endSeqnumPositions, core`indexedMetalogPosition
      ensures core.Valid() && InOrder()
      ensures end.Some? <==> Complete(history, delivered, old(Position()) + 1)
      ensures end.None? ==>
                Position() == old(Position()) && updates == old(updates) &&
                endSeqnumPositions == old(endSeqnumPositions)
      ensures end.Some? ==>
                end.value == history.ends[old(Position()) + 1] && Position() == old(Position()) + numShards &&
                |updates| < |old(updates)|
      ensures end.Some? ==> Splits(history, shardId, numShards, old(Position()), received, end.value)
      ensures end.Some? && old(core.Settled()) ==> AllDue(core.viewId, Position(), core.finalized, core.blockingReads)
    {
      var next := Position() + 1;
      WhenComplete(history, shardId, numShards, Position(), delivered, updates, endSeqnumPositions);
      if next !in updates || updates[next].num == 0 || updates[next].num != |updates[next].shards| {
        return None;
      }
      end := Some(endSeqnumPositions[next]);
      CutSplits(history, shardId, numShards, Position(), delivered, received);
      PassNext();
    }

    method PassNext()
      requires core.Valid() && InOrder() && Complete(history, delivered, Position() + 1) && Position() + 1 in updates
      modifies this`updates, this`endSeqnumPositions, core`indexedMetalogPosition
      ensures core.Valid() && InOrder() && Position() == old(Position()) + numShards && |updates| < |old(updates)|
      ensures old(core.Settled()) ==> AllDue(core.viewId, Position(), core.finalized, core.blockingReads)
    {
      var next := Position() + 1;
      BooksPass(history, shardId, numShards, Position(), delivered, updates, endSeqnumPositions);
      core.AdvanceTo(Position() + numShards);
      updates := updates - {next};
      endSeqnumPositions := endSeqnumPositions - {next};
    }

    /** A result answers a query from what the shard holds at a position that the query allows. */
    ghost predicate JustifiedAt(position: nat, finalized: bool, r: QueryResult)
      requires ValidHistory(history) && shardId < numShards
    {
      Own(shardId, numShards, position + 1) &&
      Justified(core.viewId, core.logspaceId, position, finalized, Held(history, shardId, numShards, position),
                JoinTwo32(core.logspaceId, LastApplied(numShards, position)), r)
    }

    ghost predicate JustifiedIn(low: nat, high: nat, finalized: bool, r: QueryResult)
      requires ValidHistory(history) && shardId < numShards
    {
      exists position :: low <= position <= high && JustifiedAt(position, finalized, r)
    }

    /** Every result since an earlier moment was justified at a position between two bounds. */
    ghost predicate AnsweredBetween(low: nat, high: nat, results0: seq<QueryResult>)
      requires ValidHistory(history) && shardId < numShards
      reads core
    {
      results0 <= core.results &&
      forall k :: |results0| <= k < |core.results| ==> JustifiedIn(low, high, core.finalized, core.results[k])
    }

    /** What the index answers from its records is what the shard answers at its position. */
    lemma {:induction false} AnsweredNow(results0: seq<QueryResult>)
      requires ValidHistory(history) && shardId < numShards && Own(shardId, numShards, Position() + 1)
      requires core.records == Held(history, shardId, numShards, Position()) &&
               core.Grown(IndexMetalogProgress(), results0)
      ensures AnsweredBetween(Position(), Position(), results0)
    {
      forall k | |results0| <= k < |core.results|
        ensures JustifiedIn(Position(), Position(), core.finalized, core.results[k])
      {
        Widen(Position(), Position(), Position(), core.finalized, core.results[k]);
      }
    }

    lemma {:induction false} Widen(low: nat, position: nat, high: nat, finalized: bool, r: QueryResult)
      requires ValidHistory(history) && shardId < numShards && low <= position <= high
      requires JustifiedAt(position, finalized, r) || JustifiedIn(low, position, finalized, r) ||
               JustifiedIn(position, high, finalized, r)
      ensures JustifiedIn(low, high, finalized, r)
    {
      if JustifiedIn(low, position, finalized, r) {
        var p :| low <= p <= position && JustifiedAt(p, finalized, r);
      } else if JustifiedIn(position, high, finalized, r) {
        var p :| position <= p <= high && JustifiedAt(p, finalized, r);
      }
    }

    /** Applies the next cut if it is complete, and answers the queries that were waiting for it. */
    method ApplyNext(late: Query -> bool) returns (advanced: bool)
      requires Consistent()
      modifies this`updates, this`endSeqnumPositions, this`received, core
      ensures Consistent() && (forall x :: core.Has(x) == old(core.Has(x)))
      ensures advanced <==> Complete(history, delivered, old(Position()) + 1)
      ensures !advanced ==>
                Position() == old(Position()) && updates == old(updates) && core.results == old(core.results)
      ensures advanced ==> Position() == old(Position()) + numShards && |updates| < |old(updates)|
      ensures AnsweredBetween(Position(), Position(), old(core.results)) && core.finalized == old(core.finalized)
      ensures NoneGivenUp(core.viewId, core.logspaceId, core.records, late, old(core.blockingReads), core.blockingReads)
    {
      ghost var position := Position();
      var end := TryCompleteIndexUpdates();
      if end.None? {
        return false;
      }
      TakeCut(position, end.value, late);
      return true;
    }

    method TakeCut(ghost position: nat, end: nat, late: Query -> bool)
      requires core.Valid() && InOrder() && Position() == position + numShards
      requires position + 1 < |history.ends| && end == history.ends[position + 1]
      requires Splits(history, shardId, numShards, position, received, end)
      requires core.records == Held(history, shardId, numShards, position) &&
               Stored(history, position, delivered, received)
      requires AllDue(core.viewId, Position(), core.finalized, core.blockingReads)
      modifies this`received, core`spaces, core`records, core`results, core`blockingReads, core`pendingQueries
      ensures Consistent() && forall x :: core.Has(x) == old(core.Has(x))
      ensures AnsweredBetween(Position(), Position(), old(core.results))
      ensures NoneGivenUp(core.viewId, core.logspaceId, core.records, late, old(core.blockingReads), core.blockingReads)
    {
      AbsorbCut(position, end);
      AnswerWaiting(late);
    }

    /** Moves the records of a complete cut into the index. */
    method AbsorbCut(ghost position: nat, end: nat)
      requires core.Valid() && ValidHistory(history) && shardId < numShards && Position() == position + numShards
      requires position + 1 < |history.ends| && end == history.ends[position + 1]
      requires Splits(history, shardId, numShards, position, received, end)
      requires core.records == Held(history, shardId, numShards, position) &&
               Stored(history, position, delivered, received)
      modifies this`received, core`spaces, core`records
      ensures core.Valid() && core.records == Held(history, shardId, numShards, Position())
      ensures Stored(history, Position(), delivered, received)
    {
      ghost var records0, received0 := core.records, received;
      Absorb(position, end);
      ApplyCut(history, shardId, numShards, position, records0, received0, end, Position(), core.records);
      LeftAfterCut(history, shardId, numShards, position, delivered, received0, end, Position(), received);
    }

    method Absorb(ghost position: nat, end: nat)
      requires core.Valid() && ValidHistory(history) && shardId < numShards
      requires position + 1 < |history.ends| && end == history.ends[position + 1]
      requires core.records == Held(history, shardId, numShards, position) &&
               Stored(history, position, delivered, received)
      modifies this`received, core`spaces, core`records
      ensures core.Valid() && core.records == old(core.records) + Under(old(received), end) &&
              received == From(old(received), end)
    {
      CutFits(history, shardId, numShards, position, delivered, received);
      received := core.Absorb(received, end);
    }

    /** Retries the reads that block and answers the queries whose progress has been reached. */
    method AnswerWaiting(late: Query -> bool)
      requires core.Valid() && AllDue(core.viewId, Position(), core.finalized, core.blockingReads)
      requires ValidHistory(history) && shardId < numShards && Own(shardId, numShards, Position() + 1)
      requires core.records == Held(history, shardId, numShards, Position())
      modifies core`results, core`blockingReads, core`pendingQueries
      ensures core.Valid() && core.Settled() && (forall x :: core.Has(x) == old(core.Has(x)))
      ensures AnsweredBetween(Position(), Position(), old(core.results))
      ensures NoneGivenUp(core.viewId, core.logspaceId, core.records, late, old(core.blockingReads), core.blockingReads)
    {
      var progress := IndexMetalogProgress();
      core.AnswerDue(progress, late);
      AnsweredNow(old(core.results));
    }

    /** Takes in a package, then applies every cut that is complete. */
    method AdvanceIndexProgress(p: Package, clock: Clock, ghost late: Query -> bool) returns (advanced: bool)
      requires Valid() && CoversCut(history, p) && Own(shardId, numShards, p.metalogPosition) && Within(clock, late)
      modifies this, core
      ensures Valid() && delivered == old(delivered) + {p} && (forall x :: core.Has(x) == old(core.Has(x)))
      ensures Position() >= old(Position()) && (advanced <==> Position() > old(Position()))
      ensures AnsweredBetween(old(Position()), Position(), old(core.results)) && core.finalized == old(core.finalized)
      ensures NoneGivenUp(core.viewId, core.logspaceId, core.records, late, old(core.blockingReads), core.blockingReads)
    {
      ghost var before := delivered;
      var isNew := CheckIfNewIndexData(p);
      if isNew {
        ProvideIndexData(p, before);
      } else {
        StoredSame(history, Position(), before, p, received);
      }
      advanced := ApplyAll(clock, late);
    }

    /** Applies every cut that is complete. */
    method ApplyAll(clock: Clock, ghost late: Query -> bool) returns (advanced: bool)
      requires Consistent() && Within(clock, late)
      modifies this`updates, this`endSeqnumPositions, this`received, core
      ensures Valid() && (forall x :: core.Has(x) == old(core.Has(x)))
      ensures (advanced <==> Position() > old(Position()))
      ensures Position() >= old(Position())
      ensures AnsweredBetween(old(Position()), Position(), old(core.results)) && core.finalized == old(core.finalized)
      ensures NoneGivenUp(core.viewId, core.logspaceId, core.records, late, old(core.blockingReads), core.blockingReads)
    {
      advanced := false;
      var more := true;
      while more
        invariant Consistent() && (forall x :: core.Has(x) == old(core.Has(x))) && core.finalized == old(core.finalized)
        invariant !more ==> !Complete(history, delivered, Position() + 1)
        invariant Position() >= old(Position()) && (advanced <==> Position() > old(Position()))
        invariant AnsweredBetween(old(Position()), Position(), old(core.results))
        invariant NoneGivenUp(core.viewId, core.logspaceId, core.records, late, old(core.blockingReads),
                              core.blockingReads)
        decreases |updates|, more
      {
        ghost var position, results1, blocking1 := Position(), core.results, core.blockingReads;
        var now := LateAt(clock, Position());
        more := ApplyNext(now);
        LaterGivesUpMore(core.viewId, core.logspaceId, core.records, now, late, blocking1, core.blockingReads);
        if more {
          advanced := true;
        }
        StillPatient(late, position, old(core.blockingReads), blocking1);
        Narrow(position, Position(), results1);
        Rejoin(old(Position()), position, Position(), old(core.results), results1);
      }
    }

    lemma {:induction false} StillPatient(late: Query -> bool, position: nat, blocking0: seq<Query>,
                                          blocking1: seq<Query>)
      requires ValidHistory(history) && shardId < numShards && position <= Position()
      requires core.records == Held(history, shardId, numShards, Position())
      requires NoneGivenUp(core.viewId, core.logspaceId, Held(history, shardId, numShards, position), late, blocking0,
                           blocking1)
      requires NoneGivenUp(core.viewId, core.logspaceId, core.records, late, blocking1, core.blockingReads)
      ensures NoneGivenUp(core.viewId, core.logspaceId, core.records, late, blocking0, core.blockingReads)
    {
      NoneGivenUpTwice(core.viewId, core.logspaceId, Held(history, shardId, numShards, position), core.records, late,
                       blocking0, blocking1, core.blockingReads);
    }

    lemma {:induction false} Narrow(low: nat, high: nat, results0: seq<QueryResult>)
      requires ValidHistory(history) && shardId < numShards && low <= high && AnsweredBetween(high, high, results0)
      ensures AnsweredBetween(low, high, results0)
    {
      forall k | |results0| <= k < |core.results|
        ensures JustifiedIn(low, high, core.finalized, core.results[k])
      {
        Widen(low, high, high, core.finalized, core.results[k]);
      }
    }

    lemma {:induction false} Rejoin(low: nat, position: nat, high: nat, results0: seq<QueryResult>,
                                    results1: seq<QueryResult>)
      requires ValidHistory(history) && shardId < numShards && low <= position <= high && results0 <= results1
      requires forall k :: |results0| <= k < |results1| ==> JustifiedIn(low, position, core.finalized, results1[k])
      requires AnsweredBetween(position, high, results1)
      ensures AnsweredBetween(low, high, results0)
    {
      forall k | |results0| <= k < |core.results|
        ensures JustifiedIn(low, high, core.finalized, core.results[k])
      {
        if k < |results1| {
          assert core.results[k] == results1[k];
          Widen(low, position, high, core.finalized, core.results[k]);
        } else {
          Widen(low, position, high, core.finalized, core.results[k]);
        }
      }
    }

    /** Takes in a package if it describes a cut of this shard. */
    method TakePackage(p: Package, clock: Clock, ghost late: Query -> bool, ghost low: nat)
      requires Valid() && CoversCut(history, p) && low <= Position() && AnsweredBetween(low, Position(), []) &&
               Within(clock, late)
      modifies this, core
      ensures Valid() && Position() >= old(Position()) && core.finalized == old(core.finalized)
      ensures AnsweredBetween(low, Position(), [])
      ensures delivered == old(delivered) + if Own(shardId, numShards, p.metalogPosition) then {p} else {}
      ensures forall x :: core.Has(x) == old(core.Has(x))
      ensures NoneGivenUp(core.viewId, core.logspaceId, core.records, late, old(core.blockingReads), core.blockingReads)
    {
      RelevantIsOwn(shardId, numShards, p.metalogPosition);
      if Relevant(shardId, numShards, p.metalogPosition) {
        ghost var position, results0 := Position(), core.results;
        var advanced := AdvanceIndexProgress(p, clock, late);
        Rejoin(low, position, Position(), [], results0);
      }
    }

    /** Hands out the results produced so far. */
    method Poll() returns (results: seq<QueryResult>)
      requires Valid()
      modifies core`results
      ensures Valid() && results == old(core.results) && core.results == []
      ensures forall x :: core.Has(x) + Times(Asked(results), x) == old(core.Has(x))
    {
      results := core.PollQueryResults();
      assert Asked([]) == [];
    }

    /** Takes a query. */
    method MakeQuery(q: Query)
      requires Valid() && Sane(q) && (q.initial ==> GetViewId(q.metalogProgress) <= core.viewId)
      modifies core`results, core`blockingReads, core`pendingQueries
      ensures Valid() && (forall x :: core.Has(x) == old(core.Has(x)) + if x == Plain(q) then 1 else 0)
      ensures AnsweredBetween(Position(), Position(), old(core.results))
    {
      var progress := IndexMetalogProgress();
      core.TakeQuery(q, progress);
      assert progress == IndexMetalogProgress();
      AnsweredNow(old(core.results));
    }
  }

  /**
   A shard may answer a fresh query at once if and only if it has applied all its own cuts up to the metalog
   position that the query asks for; what a query saw of an earlier view asks for nothing.
   */
  lemma {:induction false} AnswersAtOnce(shard: IndexShard, q: Query)
    requires shard.Valid() && q.initial
    ensures shard.shardId < shard.numShards
    ensures shard.core.Now(q) <==>
              GetViewId(q.metalogProgress) < shard.core.viewId ||
              HasAppliedTo(shard.shardId, shard.numShards, shard.Position(), q.metalogProgress % LOW_HALF)
  {
    assert Own(shard.shardId, shard.numShards, shard.Position() + 1);
  }

  /** All own cuts up to a metalog position lie within what has been applied. */
  ghost predicate HasAppliedTo(i: nat, n: nat, applied: nat, position: nat)
    requires i < n
  {
    forall c: nat :: Own(i, n, c) && c <= position ==> c <= applied
  }

  /** The packages of a message that describe cuts of a shard. */
  function OwnOf(i: nat, n: nat, packages: seq<Package>): set<Package>
    requires i < n
  {
    set p | p in packages && Own(i, n, p.metalogPosition)
  }

  ghost predicate AllCover(h: History, packages: seq<Package>)
    requires ValidHistory(h)
  {
    forall k :: 0 <= k < |packages| ==> CoversCut(h, packages[k])
  }

  /** A message from a storage node: the shard takes in the packages about its own cuts and hands out the results. */
  method OnRecvNewIndexData(shard: IndexShard, packages: seq<Package>, clock: Clock, ghost late: Query -> bool)
      returns (results: seq<QueryResult>)
    requires shard.Valid() && shard.core.results == [] && AllCover(shard.history, packages) && Within(clock, late)
    modifies shard, shard.core
    ensures shard.Valid() && shard.core.results == []
    ensures shard.delivered == old(shard.delivered) + OwnOf(shard.shardId, shard.numShards, packages)
    ensures shard.Position() >= old(shard.Position())
    ensures forall k :: 0 <= k < |results| ==>
              shard.JustifiedIn(old(shard.Position()), shard.Position(), shard.core.finalized, results[k])
    ensures forall x :: shard.core.Has(x) + Times(Asked(results), x) == old(shard.core.Has(x))
    ensures NoneGivenUp(shard.core.viewId, shard.core.logspaceId, shard.core.records, late,
                        old(shard.core.blockingReads), shard.core.blockingReads)
  {
    for k := 0 to |packages|
      invariant shard.Valid() && shard.Position() >= old(shard.Position()) &&
                shard.core.finalized == old(shard.core.finalized)
      invariant shard.delivered == old(shard.delivered) + OwnOf(shard.shardId, shard.numShards, packages[..k])
      invariant shard.AnsweredBetween(old(shard.Position()), shard.Position(), [])
      invariant forall x :: shard.core.Has(x) == old(shard.core.Has(x))
      invariant NoneGivenUp(shard.core.viewId, shard.core.logspaceId, shard.core.records, late,
                            old(shard.core.blockingReads), shard.core.blockingReads)
    {
      ghost var position, blocking := shard.Position(), shard.core.blockingReads;
      OwnMore(shard.shardId, shard.numShards, packages, k);
      shard.TakePackage(packages[k], clock, late, old(shard.Position()));
      shard.StillPatient(late, position, old(shard.core.blockingReads), blocking);
    }
    assert packages[..|packages|] == packages;
    results := shard.Poll();
  }

  lemma {:induction false} OwnMore(i: nat, n: nat, packages: seq<Package>, k: nat)
    requires i < n && k < |packages|
    ensures OwnOf(i, n, packages[..k + 1]) ==
            OwnOf(i, n, packages[..k]) + if Own(i, n, packages[k].metalogPosition) then {packages[k]} else {}
  {
    assert packages[..k + 1] == packages[..k] + [packages[k]];
  }
}
