/** The metalog that orders the records of a log space, and the index data packages that describe them. */
module IndexPackages {
  import opened Logs
  import opened SpaceIndexes
  import opened IndexContents
  import opened IndexAnswers
  import opened Indexes

  /**
   What the sequencers decided: `ends[c]` records lie in the first `c` metalog cuts, and `data[s]` is
   the record with sequence number `s`.
   */
  datatype History = History(ends: seq<nat>, data: seq<IndexData>)

  ghost predicate ValidHistory(h: History)
  {
    |h.ends| > 0 && h.ends[0] == 0 && h.ends[|h.ends| - 1] == |h.data| && |h.data| <= LOW_HALF &&
    (forall i, j :: 0 <= i < j < |h.ends| ==> h.ends[i] < h.ends[j]) &&
    forall s :: 0 <= s < |h.data| ==> EMPTY_TAG !in h.data[s].userTags
  }

  /** The cut a record lies in. */
  ghost function CutOf(h: History, s: nat): (c: nat)
    requires ValidHistory(h) && s < |h.data|
    ensures 0 < c < |h.ends| && h.ends[c - 1] <= s < h.ends[c]
  {
    CutExists(h, s, |h.ends| - 1);
    var c :| 0 < c < |h.ends| && h.ends[c - 1] <= s < h.ends[c];
    c
  }

  lemma {:induction false} CutExists(h: History, s: nat, c: nat)
    requires ValidHistory(h) && c < |h.ends| && s < h.ends[c]
    ensures exists d :: 0 < d < |h.ends| && h.ends[d - 1] <= s < h.ends[d]
  {
    if h.ends[c - 1] > s {
      CutExists(h, s, c - 1);
    }
  }

  lemma {:induction false} CutBound(h: History, s: nat, c: nat)
    requires ValidHistory(h) && s < |h.data| && c < |h.ends|
    ensures CutOf(h, s) <= c <==> s < h.ends[c]
  {
    var d := CutOf(h, s);
    if d <= c {
      assert d == c || h.ends[d] < h.ends[c];
    } else {
      assert d - 1 == c || h.ends[c] < h.ends[d - 1];
    }
  }

  /** The storage shards with records in a cut. */
  ghost function Productive(h: History, c: nat): set<nat>
    requires ValidHistory(h)
  {
    set s | 0 <= s < |h.data| && CutOf(h, s) == c :: h.data[s].engineId
  }

  /** A set of records agrees with the log. */
  ghost predicate Agrees(records: Records, h: History)
  {
    forall s :: s in records ==> s < |h.data| && records[s] == h.data[s]
  }

  // ---------------------------------------------------------------- packages

  /** What one storage node reports about one cut; the tags of all records are laid end to end. */
  datatype Package = Package(metalogPosition: nat, endSeqnumPosition: nat, numShards: nat, myShards: seq<nat>,
                             seqnums: seq<nat>, engineIds: seq<nat>, userLogspaces: seq<nat>, tagSizes: seq<nat>,
                             userTags: seq<nat>)

  function Offset(sizes: seq<nat>, i: nat): nat
    requires i <= |sizes|
  {
    if i == 0 then 0 else Offset(sizes, i - 1) + sizes[i - 1]
  }

  lemma {:induction false} OffsetMonotone(sizes: seq<nat>, i: nat, j: nat)
    requires i <= j <= |sizes|
    ensures Offset(sizes, i) <= Offset(sizes, j)
    decreases j
  {
    if i < j {
      OffsetMonotone(sizes, i, j - 1);
    }
  }

  predicate Shaped(p: Package)
  {
    |p.engineIds| == |p.seqnums| && |p.userLogspaces| == |p.seqnums| && |p.tagSizes| == |p.seqnums| &&
    Offset(p.tagSizes, |p.tagSizes|) == |p.userTags|
  }

  /** The record described at an index of a package. */
  function EntryAt(p: Package, i: nat): IndexData
    requires Shaped(p) && i < |p.seqnums|
  {
    OffsetMonotone(p.tagSizes, i + 1, |p.tagSizes|);
    IndexData(p.engineIds[i], p.userLogspaces[i], p.userTags[Offset(p.tagSizes, i)..Offset(p.tagSizes, i + 1)])
  }

  /** A package tells the truth about the records it lists. */
  ghost predicate Truthful(h: History, p: Package)
  {
    Shaped(p) && forall i :: 0 <= i < |p.seqnums| ==> p.seqnums[i] < |h.data| && h.data[p.seqnums[i]] == EntryAt(p, i)
  }

  function AtOrAbove(seqnums: seq<nat>, from: nat): set<nat>
  {
    set s | s in seqnums && s >= from
  }

  lemma {:induction false} OneMore(seqnums: seq<nat>, i: nat, from: nat)
    requires i < |seqnums|
    ensures AtOrAbove(seqnums[..i + 1], from) ==
              AtOrAbove(seqnums[..i], from) + if seqnums[i] >= from then {seqnums[i]} else {}
  {
    assert seqnums[..i + 1] == seqnums[..i] + [seqnums[i]];
  }

  /** Keeps the records of a package that lie at or above a position and were not known yet. */
  method Receive(received: Records, from: nat, p: Package, ghost h: History) returns (received': Records)
    requires Truthful(h, p) && Agrees(received, h)
    ensures Agrees(received', h) && received'.Keys == received.Keys + AtOrAbove(p.seqnums, from)
  {
    received' := received;
    var tagIter := 0;
    for i := 0 to |p.seqnums|
      invariant tagIter == Offset(p.tagSizes, i)
      invariant Agrees(received', h) && received'.Keys == received.Keys + AtOrAbove(p.seqnums[..i], from)
    {
      var numTags := p.tagSizes[i];
      var seqnum := p.seqnums[i];
      OneMore(p.seqnums, i, from);
      OffsetMonotone(p.tagSizes, i + 1, |p.tagSizes|);
      if seqnum >= from {
        var entry := IndexData(p.engineIds[i], p.userLogspaces[i], p.userTags[tagIter..tagIter + numTags]);
        assert entry == EntryAt(p, i);
        received' := Keep(received', seqnum, entry, h);
      }
      tagIter := tagIter + numTags;
    }
    assert p.seqnums[..|p.seqnums|] == p.seqnums;
  }

  /** Keeps one record; if it is known already, what is known is the same. */
  method Keep(received: Records, seqnum: nat, entry: IndexData, ghost h: History) returns (received': Records)
    requires Agrees(received, h) && seqnum < |h.data| && h.data[seqnum] == entry
    ensures Agrees(received', h) && received'.Keys == received.Keys + {seqnum}
  {
    if seqnum !in received {
      received' := received[seqnum := entry];
    } else {
      assert received[seqnum] == entry;
      received' := received;
    }
  }
}
