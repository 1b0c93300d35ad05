/** The per-space indexes of one log space, and how received records are moved into them. */
module IndexContents {
  import opened Logs
  import opened SpaceIndexes

  type Spaces = map<nat, SpaceIndex>

  type Records = map<nat, IndexData>

  function OfSpace(records: Records, logspace: nat): Records
  {
    map s | s in records && records[s].userLogspace == logspace :: records[s]
  }

  /** The records a query can see: those of its user log space that its tag selects. */
  function Visible(records: Records, logspace: nat, tag: nat): set<nat>
  {
    Matching(OfSpace(records, logspace), tag)
  }

  function SpaceOf(spaces: Spaces, logspace: nat): SpaceIndex
  {
    if logspace in spaces then spaces[logspace] else EMPTY_SPACE
  }

  /** The per-space indexes together hold exactly a set of records. */
  ghost predicate Holds(spaces: Spaces, records: Records)
  {
    forall logspace {:trigger SpaceOf(spaces, logspace)} ::
      Represents(SpaceOf(spaces, logspace), OfSpace(records, logspace))
  }

  lemma {:induction false} HoldsNothing()
    ensures Holds(map[], map[])
  {
    forall logspace
      ensures Represents(SpaceOf(map[], logspace), OfSpace(map[], logspace))
    {
      assert OfSpace(map[], logspace) == map[];
      assert forall tag :: ListFor(EMPTY_SPACE, tag) == [];
    }
  }

  /** Adds a record above all others to the index of its user log space. */
  method AddRecord(spaces: Spaces, seqnum: nat, d: IndexData, ghost records: Records, ghost records': Records)
      returns (spaces': Spaces)
    requires Holds(spaces, records) && EMPTY_TAG !in d.userTags && AllBelow(records, seqnum)
    requires records' == records[seqnum := d]
    ensures Holds(spaces', records')
  {
    var ix := SpaceOf(spaces, d.userLogspace);
    ix := Add(ix, seqnum, d, OfSpace(records, d.userLogspace));
    spaces' := spaces[d.userLogspace := ix];
    forall logspace
      ensures Represents(SpaceOf(spaces', logspace), OfSpace(records', logspace))
    {
      OfSpaceAdd(records, seqnum, d, logspace);
      if logspace != d.userLogspace {
        assert SpaceOf(spaces', logspace) == SpaceOf(spaces, logspace);
      }
    }
  }

  lemma {:induction false} OfSpaceAdd(records: Records, seqnum: nat, d: IndexData, logspace: nat)
    requires AllBelow(records, seqnum)
    ensures OfSpace(records[seqnum := d], logspace) ==
            if logspace == d.userLogspace then OfSpace(records, logspace)[seqnum := d] else OfSpace(records, logspace)
  {
  }

  /** The part of a set of records below a sequence number, and the rest. */
  function Under(records: Records, end: nat): Records { map s | s in records && s < end :: records[s] }

  function From(records: Records, end: nat): Records { map s | s in records && s >= end :: records[s] }

  /** No record is listed under the empty tag, which stands for all records. */
  ghost predicate Tagged(records: Records)
  {
    forall s :: s in records ==> EMPTY_TAG !in records[s].userTags
  }

  /** What arrives below a sequence number comes after everything indexed. */
  ghost predicate Precede(records: Records, received: Records, end: nat)
  {
    forall s, r :: s in records && r in received && r < end ==> s < r
  }

  /** The received records below a sequence number have been moved into the index; the others are left. */
  ghost predicate Moved(spaces: Spaces, left: Records, records: Records, received: Records, t: nat)
  {
    Holds(spaces, records + Under(received, t)) && left == From(received, t)
  }

  /** Moves the received records below a sequence number into the index, in order. */
  method ApplyReceived(spaces: Spaces, received: Records, end: nat, ghost records: Records)
      returns (spaces': Spaces, received': Records)
    requires Holds(spaces, records) && Tagged(received) && Precede(records, received, end)
    ensures Holds(spaces', records + Under(received, end))
    ensures received' == From(received, end)
  {
    spaces', received' := spaces, received;
    ghost var t: nat := 0;
    MovedNothing(spaces, records, received);
    var done := false;
    while received' != map[] && !done
      invariant t <= end && Moved(spaces', received', records, received, t) && (done ==> t == end)
      decreases |received'|, !done
    {
      done, spaces', received', t := MoveLeast(spaces', received', end, records, received, t);
    }
    if t < end {
      TakeNone(received, t, end);
    }
  }

  lemma {:induction false} MovedNothing(spaces: Spaces, records: Records, received: Records)
    requires Holds(spaces, records)
    ensures Moved(spaces, received, records, received, 0)
  {
    assert records + Under(received, 0) == records && From(received, 0) == received;
  }

  /** Moves the least record that is left, if it lies below the end. */
  method MoveLeast(spaces: Spaces, left: Records, end: nat, ghost records: Records, ghost received: Records,
                   ghost t: nat)
      returns (done: bool, spaces': Spaces, left': Records, ghost t': nat)
    requires left != map[] && t <= end && Moved(spaces, left, records, received, t)
    requires Tagged(received) && Precede(records, received, end)
    ensures t' <= end && Moved(spaces', left', records, received, t')
    ensures if done then t' == end && left' == left else |left'| < |left|
  {
    var s := LeastKey(left);
    TakeLeast(records, received, t, s, end);
    if s >= end {
      return true, spaces, left, end;
    }
    FewerKeys(left, s);
    done, left', t' := false, left - {s}, s + 1;
    spaces' := AddRecord(spaces, s, left[s], records + Under(received, t), records + Under(received, s + 1));
  }

  lemma {:induction false} FewerKeys(m: Records, s: nat)
    requires s in m
    ensures |m - {s}| < |m|
  {
    assert m == (m - {s})[s := m[s]];
  }

  lemma {:induction false} TakeNone(received: Records, t: nat, end: nat)
    requires From(received, t) == map[] && t <= end
    ensures Under(received, t) == Under(received, end) && From(received, end) == map[]
  {
    assert forall s :: s in received && s >= t ==> s in From(received, t);
  }

  /** Taking out the least record that is left moves the split just past it. */
  lemma {:induction false} TakeLeast(records: Records, received: Records, t: nat, s: nat, end: nat)
    requires Tagged(received) && Precede(records, received, end)
    requires s in From(received, t) && t <= end && forall r :: r in From(received, t) ==> s <= r
    ensures if s >= end
            then Under(received, t) == Under(received, end) && From(received, t) == From(received, end)
            else records + Under(received, s + 1) == (records + Under(received, t))[s := From(received, t)[s]] &&
                 From(received, t) - {s} == From(received, s + 1) &&
                 EMPTY_TAG !in From(received, t)[s].userTags && AllBelow(records + Under(received, t), s)
  {
    assert forall r :: r in received && r >= t ==> r in From(received, t);
    assert Under(received, s + 1) == Under(received, t)[s := received[s]];
  }

  ghost predicate AllBelow(records: Records, seqnum: nat)
  {
    forall s :: s in records ==> s < seqnum
  }

  method LeastKey(m: Records) returns (s: nat)
    requires m != map[]
    ensures s in m && forall r :: r in m ==> s <= r
  {
    var keys := m.Keys;
    s :| s in keys;
    keys := keys - {s};
    while keys != {}
      invariant s in m && keys <= m.Keys && forall r :: r in m && r !in keys ==> s <= r
      decreases |keys|
    {
      var r :| r in keys;
      keys := keys - {r};
      if r < s {
        s := r;
      }
    }
  }
}
