/**
 Backward scans of the log that several client libraries share: reading a fixed part of a growing
 log from its end, and keeping the records found as a backlog to be applied later in log order.
 */
module Backlog {
  import opened Logs
  import opened LogService

  /** A log holds a record at an index, and the aux data read with it is sound. */
  ghost predicate ReadIn(apply: Applier, log: seq<Entry>, l: Fetched, at: nat)
  {
    at < |log| && log[at] == l.entry && (l.aux.Some? ==> SoundAux(apply, log[..at + 1], l.aux.value))
  }

  ghost predicate ReadAt(log: SharedLog, l: Fetched, at: nat)
    reads log
  {
    ReadIn(log.apply, log.entries, l, at)
  }

  /** None of the entries at `[lo, hi)` carries the tag. */
  ghost predicate Untagged(log: seq<Entry>, tag: nat, lo: nat, hi: nat)
  {
    hi <= |log| && forall j :: lo <= j < hi ==> !HasTag(log[j], tag)
  }

  /** The read of the backward scan: the last tagged entry below `seqNum`, where the maximum means "from the end". */
  method ReadBelow(log: SharedLog, tag: nat, seqNum: nat) returns (r: Option<Fetched>, ghost at: nat)
    requires log.Valid() && seqNum > 0
    modifies log
    ensures log.Valid() && old(log.entries) <= log.entries
    ensures log.Own() == old(log.Own())
    ensures r.None? ==> Untagged(log.entries, tag, 0, CountBelow(log.entries, seqNum))
    ensures r.Some? ==>
              at < CountBelow(log.entries, seqNum) && ReadAt(log, r.value, at) && HasTag(r.value.entry, tag) &&
              Untagged(log.entries, tag, at + 1, CountBelow(log.entries, seqNum))
  {
    var s := if seqNum != MAX_SEQNUM then seqNum - 1 else seqNum;
    r, at := log.ReadPrev(tag, s);
    if r.Some? {
      assert WellFormed(log.hash, log.entries[at]);
    }
  }

  /**
   A read of the backward scan. The first one fixes the part of the log the scan is about; the
   later ones stay within it, however the log grows.
   */
  method ReadKnown(log: SharedLog, tag: nat, seqNum: nat, ghost known: seq<Entry>, ghost first: bool, ghost c: nat)
      returns (r: Option<Fetched>, ghost i: nat, ghost known': seq<Entry>)
    requires log.Valid() && seqNum > 0 && known <= log.entries
    requires first || (c < |known| && known[c].seqNum == seqNum)
    modifies log
    ensures log.Valid() && old(log.entries) <= log.entries && known <= known' <= log.entries
    ensures log.Own() == old(log.Own())
    ensures if first then old(log.entries) <= known' else known' == known && CountBelow(known, seqNum) == c
    ensures r.None? ==> Untagged(known', tag, 0, CountBelow(known', seqNum))
    ensures r.Some? ==> i < CountBelow(known', seqNum) && ReadIn(log.apply, known', r.value, i) &&
                        Untagged(known', tag, i + 1, CountBelow(known', seqNum))
  {
    r, i := ReadBelow(log, tag, seqNum);
    if first {
      known' := log.entries;
    } else {
      known' := known;
      CountBelowIs(log.entries, seqNum, c);
      CountBelowIs(known, seqNum, c);
      assert r.Some? ==> known[..i + 1] == log.entries[..i + 1];
    }
  }

  /** The indices in `[lo, hi)` that are marked, latest first. */
  ghost function Marked(marks: seq<bool>, lo: nat, hi: nat): seq<nat>
    requires hi <= |marks|
    decreases hi - lo
  {
    if lo >= hi then []
    else Marked(marks, lo + 1, hi) + if marks[lo] then [lo] else []
  }

  lemma {:induction false} MarkedSkip(marks: seq<bool>, lo: nat, mid: nat, hi: nat)
    requires lo <= mid <= hi <= |marks|
    requires forall k :: lo <= k < mid ==> !marks[k]
    ensures Marked(marks, lo, hi) == Marked(marks, mid, hi)
    decreases mid - lo
  {
    if lo < mid { MarkedSkip(marks, lo + 1, mid, hi); }
  }

  /** The last index of the list is the first marked one; the others come after it. */
  lemma {:induction false} MarkedFirst(marks: seq<bool>, lo: nat, hi: nat)
    requires hi <= |marks| && Marked(marks, lo, hi) != []
    ensures var list := Marked(marks, lo, hi); var x := list[|list| - 1];
            lo <= x < hi && marks[x] &&
            (forall k :: lo <= k < x ==> !marks[k]) &&
            list[..|list| - 1] == Marked(marks, x + 1, hi)
    decreases hi - lo
  {
    if !marks[lo] { MarkedFirst(marks, lo + 1, hi); }
  }

  lemma {:induction false} MarkedEmpty(marks: seq<bool>, lo: nat, hi: nat)
    requires hi <= |marks| && Marked(marks, lo, hi) == []
    ensures forall k :: lo <= k < hi ==> !marks[k]
    decreases hi - lo
  {
    if lo < hi { MarkedEmpty(marks, lo + 1, hi); }
  }

  /** A list of records with their aux data is what is marked at `[lo, hi)`, latest first. */
  ghost predicate Collected(apply: Applier, log: seq<Entry>, marks: seq<bool>, ls: seq<Fetched>, lo: nat, hi: nat)
  {
    hi <= |marks| &&
    var list := Marked(marks, lo, hi);
    |ls| == |list| && forall k :: 0 <= k < |ls| ==> ReadIn(apply, log, ls[k], list[k])
  }

  lemma {:induction false} CollectSkip(apply: Applier, log: seq<Entry>, marks: seq<bool>, ls: seq<Fetched>, lo: nat,
                                       mid: nat, hi: nat)
    requires Collected(apply, log, marks, ls, mid, hi) && lo <= mid <= hi
    requires forall k :: lo <= k < mid ==> !marks[k]
    ensures Collected(apply, log, marks, ls, lo, hi)
  {
    MarkedSkip(marks, lo, mid, hi);
  }

  lemma {:induction false} CollectAdd(apply: Applier, log: seq<Entry>, marks: seq<bool>, ls: seq<Fetched>, l: Fetched,
                                      i: nat, hi: nat)
    requires Collected(apply, log, marks, ls, i + 1, hi) && i < hi && marks[i] && ReadIn(apply, log, l, i)
    ensures Collected(apply, log, marks, ls + [l], i, hi)
  {
  }

  /** The last record of the list is the first entry to apply; the others come after it. */
  lemma {:induction false} CollectedFirst(apply: Applier, log: seq<Entry>, marks: seq<bool>, ls: seq<Fetched>, lo: nat,
                                          hi: nat) returns (x: nat)
    requires Collected(apply, log, marks, ls, lo, hi) && ls != []
    ensures lo <= x < hi && marks[x] && ReadIn(apply, log, ls[|ls| - 1], x)
    ensures forall k :: lo <= k < x ==> !marks[k]
    ensures Collected(apply, log, marks, ls[..|ls| - 1], x + 1, hi)
  {
    x := Marked(marks, lo, hi)[|ls| - 1];
    MarkedFirst(marks, lo, hi);
  }
}
