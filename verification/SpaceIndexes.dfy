/** The index of one user log space within one physical log space: sorted lists and binary searches. */
module SpaceIndexes {
  import opened Logs

  const LOW_HALF: nat := 0x1_0000_0000
  const EMPTY_TAG: nat := 0

  function JoinTwo32(high: nat, low: nat): nat { high * LOW_HALF + low }

  /** What a storage node reports about one record. */
  datatype IndexData = IndexData(engineId: nat, userLogspace: nat, userTags: seq<nat>)

  datatype Indexed = Indexed(lowHalf: nat, engineId: nat)

  datatype SpaceIndex = SpaceIndex(engineIds: map<nat, nat>, seqnums: seq<nat>, byTag: map<nat, seq<nat>>)

  const EMPTY_SPACE := SpaceIndex(map[], [], map[])

  predicate Sorted(s: seq<nat>) { forall i, j :: 0 <= i < j < |s| ==> s[i] <= s[j] }

  /** A query tag selects a record; the empty tag selects all. */
  predicate Matches(d: IndexData, tag: nat) { tag == EMPTY_TAG || tag in d.userTags }

  /** The sequence numbers of the records a tag selects. */
  function Matching(records: map<nat, IndexData>, tag: nat): set<nat>
  {
    set s | s in records && Matches(records[s], tag)
  }

  /** The list searched for a tag. */
  function ListFor(ix: SpaceIndex, tag: nat): seq<nat>
  {
    if tag == EMPTY_TAG then ix.seqnums else if tag in ix.byTag then ix.byTag[tag] else []
  }

  /** A sorted list of exactly the records a tag selects. */
  ghost predicate ListOk(list: seq<nat>, records: map<nat, IndexData>, tag: nat)
  {
    Sorted(list) && forall x :: x in list <==> x in Matching(records, tag)
  }

  /** An index holds exactly a set of records: for every tag a sorted list of what the tag selects. */
  ghost predicate Represents(ix: SpaceIndex, records: map<nat, IndexData>)
  {
    (forall tag {:trigger ListFor(ix, tag)} :: ListOk(ListFor(ix, tag), records, tag)) &&
    (forall i, j :: 0 <= i < j < |ix.seqnums| ==> ix.seqnums[i] < ix.seqnums[j]) &&
    ix.engineIds.Keys == records.Keys && forall s :: s in records ==> ix.engineIds[s] == records[s].engineId
  }

  /** Adds a record above all others; a tag listed twice puts it into the tag's list twice. */
  method Add(ix: SpaceIndex, seqnum: nat, d: IndexData, ghost records: map<nat, IndexData>) returns (ix': SpaceIndex)
    requires Represents(ix, records) && EMPTY_TAG !in d.userTags
    requires forall s :: s in records ==> s < seqnum
    ensures Represents(ix', records[seqnum := d])
  {
    var byTag := ix.byTag;
    assert forall tag :: ListOk(ListFor(ix, tag), records, tag);
    for i := 0 to |d.userTags|
      invariant forall tag {:trigger ListFor(ix, tag)} :: tag != EMPTY_TAG ==>
                  Extended(ListFor(ix, tag), ListFor(ix.(byTag := byTag), tag), seqnum, tag in d.userTags[..i])
    {
      var tag := d.userTags[i];
      assert d.userTags[..i + 1] == d.userTags[..i] + [tag];
      var list := ListFor(ix.(byTag := byTag), tag);
      ghost var before := byTag;
      byTag := byTag[tag := list + [seqnum]];
      forall t | t != EMPTY_TAG
        ensures Extended(ListFor(ix, t), ListFor(ix.(byTag := byTag), t), seqnum, t in d.userTags[..i + 1])
      {
        assert ListFor(ix.(byTag := byTag), t) ==
               if t == tag then list + [seqnum] else ListFor(ix.(byTag := before), t);
        ExtendMore(ListFor(ix, tag), list, seqnum, tag in d.userTags[..i]);
      }
    }
    assert d.userTags[..|d.userTags|] == d.userTags;
    ix' := SpaceIndex(ix.engineIds[seqnum := d.engineId], ix.seqnums + [seqnum], byTag);
    assert forall k :: 0 <= k < |ix.seqnums| ==> ix.seqnums[k] in ListFor(ix, EMPTY_TAG);
    forall tag
      ensures ListOk(ListFor(ix', tag), records[seqnum := d], tag)
    {
      if tag != EMPTY_TAG {
        assert ListFor(ix', tag) == ListFor(ix.(byTag := byTag), tag);
      } else {
        ExtendMore(ix.seqnums, ix.seqnums, seqnum, false);
      }
      ListGrows(ListFor(ix, tag), ListFor(ix', tag), records, seqnum, d, tag);
    }
  }

  lemma {:induction false} ExtendMore(before: seq<nat>, list: seq<nat>, seqnum: nat, added: bool)
    requires Extended(before, list, seqnum, added)
    ensures Extended(before, list + [seqnum], seqnum, true)
  {
    forall i, j | 0 <= i < j < |list + [seqnum]|
      ensures (list + [seqnum])[i] <= (list + [seqnum])[j]
    {
      assert list[i] in list;
    }
  }

  lemma {:induction false} ListGrows(list: seq<nat>, list': seq<nat>, records: map<nat, IndexData>, seqnum: nat,
                                     d: IndexData, tag: nat)
    requires ListOk(list, records, tag) && Extended(list, list', seqnum, Matches(d, tag)) && seqnum !in records
    ensures ListOk(list', records[seqnum := d], tag)
  {
  }

  /** A list extended by a sequence number, at least once if `added` and not otherwise. */
  ghost predicate Extended(before: seq<nat>, after: seq<nat>, seqnum: nat, added: bool)
  {
    Sorted(after) && (forall x :: x in after ==> x <= seqnum && (x in before || (added && x == seqnum))) &&
    (forall x :: x in before || (added && x == seqnum) ==> x in after)
  }

  // ---------------------------------------------------------------- searches

  /** The greatest element not above a bound, seen by looking at every element. */
  ghost predicate IsPrev(s: set<nat>, id: nat, q: nat, r: Option<nat>)
  {
    match r
    case None => forall x :: x in s ==> JoinTwo32(id, x) > q
    case Some(m) => m in s && JoinTwo32(id, m) <= q && forall x :: x in s && JoinTwo32(id, x) <= q ==> x <= m
  }

  /** The least element not below a bound, seen by looking at every element. */
  ghost predicate IsNext(s: set<nat>, id: nat, q: nat, r: Option<nat>)
  {
    match r
    case None => forall x :: x in s ==> JoinTwo32(id, x) < q
    case Some(m) => m in s && JoinTwo32(id, m) >= q && forall x :: x in s && JoinTwo32(id, x) >= q ==> m <= x
  }

  /** The first index whose element is above the bound. */
  method UpperBound(list: seq<nat>, id: nat, q: nat) returns (k: nat)
    requires Sorted(list)
    ensures k <= |list|
    ensures forall i :: 0 <= i < k ==> JoinTwo32(id, list[i]) <= q
    ensures forall i :: k <= i < |list| ==> JoinTwo32(id, list[i]) > q
  {
    var lo, hi := 0, |list|;
    while lo < hi
      invariant 0 <= lo <= hi <= |list|
      invariant forall i :: 0 <= i < lo ==> JoinTwo32(id, list[i]) <= q
      invariant forall i :: hi <= i < |list| ==> JoinTwo32(id, list[i]) > q
    {
      var mid := (lo + hi) / 2;
      if q < JoinTwo32(id, list[mid]) {
        hi := mid;
      } else {
        lo := mid + 1;
      }
    }
    k := lo;
  }

  /** The first index whose element is not below the bound. */
  method LowerBound(list: seq<nat>, id: nat, q: nat) returns (k: nat)
    requires Sorted(list)
    ensures k <= |list|
    ensures forall i :: 0 <= i < k ==> JoinTwo32(id, list[i]) < q
    ensures forall i :: k <= i < |list| ==> JoinTwo32(id, list[i]) >= q
  {
    var lo, hi := 0, |list|;
    while lo < hi
      invariant 0 <= lo <= hi <= |list|
      invariant forall i :: 0 <= i < lo ==> JoinTwo32(id, list[i]) < q
      invariant forall i :: hi <= i < |list| ==> JoinTwo32(id, list[i]) >= q
    {
      var mid := (lo + hi) / 2;
      if JoinTwo32(id, list[mid]) < q {
        lo := mid + 1;
      } else {
        hi := mid;
      }
    }
    k := lo;
  }

  method FindPrevIn(list: seq<nat>, id: nat, q: nat) returns (r: Option<nat>)
    requires Sorted(list) && forall x :: x in list ==> JoinTwo32(id, x) <= MAX_SEQNUM
    ensures IsPrev((set x | x in list), id, q, r)
  {
    if list == [] || JoinTwo32(id, list[0]) > q {
      return None;
    }
    if q == MAX_SEQNUM {
      return Some(list[|list| - 1]);
    }
    var k := UpperBound(list, id, q);
    if k == 0 {
      return None;
    }
    return Some(list[k - 1]);
  }

  method FindNextIn(list: seq<nat>, id: nat, q: nat) returns (r: Option<nat>)
    requires Sorted(list)
    ensures IsNext((set x | x in list), id, q, r)
  {
    if list == [] || JoinTwo32(id, list[|list| - 1]) < q {
      return None;
    }
    var k := LowerBound(list, id, q);
    if k == |list| {
      return None;
    }
    return Some(list[k]);
  }

  /** The nearest record at or below a bound that a tag selects, with its storage shard. */
  method FindPrev(ix: SpaceIndex, id: nat, q: nat, tag: nat, ghost records: map<nat, IndexData>)
      returns (r: Option<Indexed>)
    requires Represents(ix, records) && forall s :: s in records ==> JoinTwo32(id, s) <= MAX_SEQNUM
    ensures IsPrev(Matching(records, tag), id, q, LowHalf(r))
    ensures r.Some? ==> r.value.engineId == records[r.value.lowHalf].engineId
  {
    var list := ListFor(ix, tag);
    assert (set x | x in list) == Matching(records, tag);
    var s := FindPrevIn(list, id, q);
    r := if s.Some? then Some(Indexed(s.value, ix.engineIds[s.value])) else None;
  }

  /** The nearest record at or above a bound that a tag selects, with its storage shard. */
  method FindNext(ix: SpaceIndex, id: nat, q: nat, tag: nat, ghost records: map<nat, IndexData>)
      returns (r: Option<Indexed>)
    requires Represents(ix, records)
    ensures IsNext(Matching(records, tag), id, q, LowHalf(r))
    ensures r.Some? ==> r.value.engineId == records[r.value.lowHalf].engineId
  {
    var list := ListFor(ix, tag);
    assert (set x | x in list) == Matching(records, tag);
    var s := FindNextIn(list, id, q);
    r := if s.Some? then Some(Indexed(s.value, ix.engineIds[s.value])) else None;
  }

  function LowHalf(r: Option<Indexed>): Option<nat> { if r.Some? then Some(r.value.lowHalf) else None }
}
