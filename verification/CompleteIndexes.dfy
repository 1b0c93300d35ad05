/** The index that follows all cuts of a log space. */
module CompleteIndexes {
  import opened Logs
  import opened SpaceIndexes
  import opened IndexContents
  import opened IndexAnswers
  import opened Indexes
  import opened IndexPackages

  /** A metalog entry that adds records: its number and the end of its cut. */
  datatype Cut = Cut(metalogSeqnum: nat, endSeqnum: nat)

  /** The metalog numbers of the cuts grow; the first cut has index 1. */
  ghost predicate ValidMetalog(h: History, metas: seq<nat>)
  {
    ValidHistory(h) && |metas| == |h.ends| && forall i, j :: 0 <= i < j < |metas| ==> metas[i] < metas[j]
  }

  /** The metalog position of an index that has applied a number of cuts. */
  function PositionAfter(metas: seq<nat>, cuts: nat): nat
    requires cuts < |metas|
  {
    if cuts == 0 then 0 else metas[cuts] + 1
  }

  lemma {:induction false} PositionOrder(h: History, metas: seq<nat>, a: nat, b: nat)
    requires ValidMetalog(h, metas) && a < |metas| && b < |metas|
    ensures PositionAfter(metas, a) <= PositionAfter(metas, b) <==> a <= b
  {
    if a < b {
      assert metas[a] < metas[b];
    } else if b < a {
      assert metas[b] < metas[a];
    }
  }

  /** The records below a sequence number. */
  function Prefix(h: History, end: nat): Records
    requires end <= |h.data|
  {
    map s | 0 <= s < end :: h.data[s]
  }

  /** The cuts known but not applied. */
  ghost predicate Queued(h: History, metas: seq<nat>, applied: nat, known: nat, cuts: seq<Cut>)
  {
    ValidMetalog(h, metas) && applied <= known < |h.ends| && |cuts| == known - applied &&
    forall k :: 0 <= k < |cuts| ==> cuts[k] == Cut(metas[applied + 1 + k], h.ends[applied + 1 + k])
  }

  /** Received records lie at or above one position, and none is missing below another. */
  ghost predicate Buffered(h: History, from: nat, upTo: nat, received: Records)
  {
    Agrees(received, h) && from <= upTo <= |h.data| && (forall s :: s in received ==> from <= s) &&
    forall s :: from <= s < upTo ==> s in received
  }

  lemma {:induction false} BufferedMore(h: History, from: nat, upTo: nat, received: Records, received': Records)
    requires Buffered(h, from, upTo, received) && Agrees(received', h) && received.Keys <= received'.Keys
    requires forall s :: s in received' && s !in received ==> from <= s
    ensures Buffered(h, from, upTo, received')
  {
  }

  /** Everything below a position that has been received completely can be moved into the index. */
  lemma {:induction false} PrefixGrows(h: History, from: nat, upTo: nat, received: Records, end: nat)
    requires ValidHistory(h) && Buffered(h, from, upTo, received) && from <= end <= upTo
    ensures Tagged(received) && AllBelow(received, LOW_HALF) && Precede(Prefix(h, from), received, end)
    ensures Prefix(h, from) + Under(received, end) == Prefix(h, end)
    ensures Buffered(h, end, upTo, From(received, end))
  {
    assert (Prefix(h, from) + Under(received, end)).Keys == Prefix(h, end).Keys;
  }

  function Sum(deltas: seq<nat>): nat
  {
    if deltas == [] then 0 else Sum(deltas[..|deltas| - 1]) + deltas[|deltas| - 1]
  }

  class IndexComplete {
    const core: Index
    var cuts: seq<Cut>
    var received: Records
    var dataReceivedSeqnumPosition: nat
    var indexedSeqnumPosition: nat
    ghost const history: History
    ghost const metas: seq<nat>
    ghost var applied: nat
    ghost var known: nat

    constructor (viewId: nat, logspaceId: nat, ghost history: History, ghost metas: seq<nat>)
      requires GetViewId(JoinTwo32(logspaceId, 0)) == viewId && JoinTwo32(logspaceId + 1, 0) <= MAX_SEQNUM
      requires ValidMetalog(history, metas)
      ensures Valid() && fresh(core) && core.viewId == viewId && core.logspaceId == logspaceId
      ensures this.history == history && this.metas == metas && applied == 0 && known == 0
    {
      core := new Index(viewId, logspaceId, 0);
      this.history, this.metas, applied, known := history, metas, 0, 0;
      cuts, received, dataReceivedSeqnumPosition, indexedSeqnumPosition := [], map[], 0, 0;
    }

    /**
     The index holds exactly the records below its position, which is the end of the last cut applied;
     nothing is missing in what was received below the other position.
     */
    ghost predicate Valid()
      reads this, core
    {
      core.Valid() && core.Settled() && Contents()
    }

    ghost predicate Contents()
      reads this, core
    {
      Queued(history, metas, applied, known, cuts) &&
      core.indexedMetalogPosition == PositionAfter(metas, applied) &&
      indexedSeqnumPosition == history.ends[applied] <= |history.data| &&
      core.records == Prefix(history, indexedSeqnumPosition) &&
      Buffered(history, indexedSeqnumPosition, dataReceivedSeqnumPosition, received)
    }

    /** No cut is left that could be applied. */
    ghost predicate UpToDate()
      reads this
    {
      cuts == [] || dataReceivedSeqnumPosition < cuts[0].endSeqnum
    }

    function IndexMetalogProgress(): nat
      reads core
    {
      JoinTwo32(core.logspaceId, core.indexedMetalogPosition)
    }

    /** The next metalog entry that adds records. */
    method OnMetaLogApplied(metalogSeqnum: nat, startSeqnum: nat, deltas: seq<nat>)
      requires Valid() && known + 1 < |history.ends| && metalogSeqnum == metas[known + 1]
      requires startSeqnum == history.ends[known] && startSeqnum + Sum(deltas) == history.ends[known + 1]
      modifies this`cuts, this`known
      ensures Valid() && known == old(known) + 1
    {
      var seqnum := startSeqnum;
      for i := 0 to |deltas|
        invariant seqnum == startSeqnum + Sum(deltas[..i])
      {
        assert deltas[..i + 1][..i] == deltas[..i];
        seqnum := seqnum + deltas[i];
      }
      assert deltas[..|deltas|] == deltas;
      cuts := cuts + [Cut(metalogSeqnum, seqnum)];
      known := known + 1;
    }

    /** Index data in any order, any number of times. */
    method ProvideIndexData(p: Package)
      requires Valid() && Truthful(history, p)
      modifies this`received, this`dataReceivedSeqnumPosition
      ensures Valid() && dataReceivedSeqnumPosition !in received
      ensures received.Keys == old(received.Keys) + AtOrAbove(p.seqnums, indexedSeqnumPosition)
    {
      ghost var received0 := received;
      received := Receive(received, indexedSeqnumPosition, p, history);
      BufferedMore(history, indexedSeqnumPosition, dataReceivedSeqnumPosition, received0, received);
      ghost var received1 := received;
      while dataReceivedSeqnumPosition in received
        invariant received == received1 &&
                  Buffered(history, indexedSeqnumPosition, dataReceivedSeqnumPosition, received)
        decreases |history.data| - dataReceivedSeqnumPosition
      {
        dataReceivedSeqnumPosition := dataReceivedSeqnumPosition + 1;
      }
    }

    /** Applies the first waiting cut. */
    method ApplyCut()
      requires core.Valid() && Contents() && !UpToDate()
      modifies this`cuts, this`received, this`indexedSeqnumPosition, this`applied,
               core`spaces, core`records, core`indexedMetalogPosition
      ensures core.Valid() && Contents() && applied == old(applied) + 1 && |cuts| == |old(cuts)| - 1
    {
      var end := cuts[0].endSeqnum;
      assert end > indexedSeqnumPosition;
      PrefixGrows(history, indexedSeqnumPosition, dataReceivedSeqnumPosition, received, end);
      PositionOrder(history, metas, applied, applied + 1);
      received := core.Absorb(received, end);
      indexedSeqnumPosition := end;
      core.AdvanceTo(cuts[0].metalogSeqnum + 1);
      cuts := cuts[1..];
      applied := applied + 1;
    }

    /** A result answers a query from the records below the index's position, which the query allows. */
    ghost predicate Justifies(r: QueryResult)
      reads core
    {
      Justified(core.viewId, core.logspaceId, core.indexedMetalogPosition, core.finalized, core.records,
                IndexMetalogProgress(), r)
    }

    ghost predicate AnsweredSince(results0: seq<QueryResult>)
      reads core
    {
      results0 <= core.results && forall k :: |results0| <= k < |core.results| ==> Justifies(core.results[k])
    }

    /** Applies every cut whose records have all been received, then looks at the queries that wait. */
    method AdvanceIndexProgress(late: Query -> bool)
      requires Valid()
      modifies this`cuts, this`received, this`indexedSeqnumPosition, this`applied, core
      ensures Valid() && UpToDate() && applied >= old(applied) && (forall x :: core.Has(x) == old(core.Has(x)))
      ensures AnsweredSince(old(core.results))
      ensures NoneGivenUp(core.viewId, core.logspaceId, core.records, late, old(core.blockingReads), core.blockingReads)
    {
      while cuts != []
        invariant core.Valid() && Contents() && applied >= old(applied)
        invariant core.results == old(core.results) && core.pendingQueries == old(core.pendingQueries)
        invariant core.blockingReads == old(core.blockingReads)
        decreases |cuts|
      {
        if dataReceivedSeqnumPosition < cuts[0].endSeqnum {
          break;
        }
        ApplyCut();
      }
      core.AnswerDue(IndexMetalogProgress(), late);
    }

    /** Takes a query. */
    method MakeQuery(q: Query)
      requires Valid() && Sane(q) && (q.initial ==> GetViewId(q.metalogProgress) <= core.viewId)
      modifies core`results, core`blockingReads, core`pendingQueries
      ensures Valid() && (forall x :: core.Has(x) == old(core.Has(x)) + if x == Plain(q) then 1 else 0) &&
              AnsweredSince(old(core.results))
    {
      core.TakeQuery(q, IndexMetalogProgress());
    }
  }
}
