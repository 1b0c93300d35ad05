/** Object references: the two ways of bringing their views up to date, reads and writes. */
module Objects {
  import opened Logs
  import opened ObjectSpec
  import opened LogService
  import opened Backlog
  import opened CommitCheck
  import opened ViewCache

  /** Entries without the tag of an object do not touch it. */
  lemma {:induction false} UntaggedUntouched(hash: string -> nat, log: seq<Entry>, name: string, lo: nat, hi: nat)
    requires ValidLog(hash, log) && Untagged(log, ObjectLogTag(hash(name)), lo, hi)
    ensures forall k :: lo <= k < hi ==> !Touches(log, k, name)
  {
    forall k | lo <= k < hi
      ensures !Touches(log, k, name)
    {
      TagsCoverWrites(hash, log[k]);
    }
  }

  /** The maximum sequence number means the end of the log. */
  lemma {:induction false} BelowMax(hash: string -> nat, log: seq<Entry>)
    requires ValidLog(hash, log)
    ensures NextSeqNum(log) <= MAX_SEQNUM && Below(log, MAX_SEQNUM) == log
  {
    if log != [] {
      assert WellFormed(hash, log[|log| - 1]);
    }
    CountBelowIs(log, MAX_SEQNUM, |log|);
    assert log[..|log|] == log;
  }

  /** What a transaction has in common with all objects opened in it. */
  class TxnContext {
    const id: nat
    const readonly: bool
    var active: bool
    var ops: seq<WriteOp>

    constructor (id: nat, readonly: bool)
      ensures this.id == id && this.readonly == readonly && active && ops == []
    {
      this.id, this.readonly, active, ops := id, readonly, true, [];
    }
  }

  /** What a write returns; a missing view is a nil dereference in the client. */
  datatype Outcome = Buffered | AppendFailed | MissingView | Done(results: seq<WriteResult>)

  /** The operations run one after the other: final contents and the result of each. */
  ghost function RunOps(apply: Applier, c: Contents, ops: seq<WriteOp>): (Contents, seq<WriteResult>)
    decreases |ops|
  {
    if ops == [] then (c, [])
    else
      var (before, results) := RunOps(apply, c, ops[..|ops| - 1]);
      var (after, result) := apply(before, ops[|ops| - 1]);
      (after, results + [result])
  }

  lemma {:induction false} RunOpsIsApplyOps(apply: Applier, c: Contents, ops: seq<WriteOp>, name: string)
    requires forall op :: op in ops ==> op.objName == name
    ensures RunOps(apply, c, ops).0 == ApplyOps(apply, c, ops, name)
    decreases |ops|
  {
    if ops != [] {
      assert ops[|ops| - 1] in ops;
      RunOpsIsApplyOps(apply, c, ops[..|ops| - 1], name);
    }
  }

  class ObjectRef {
    const log: SharedLog
    const name: string
    const txn: TxnContext?
    var view: Option<View>
    var multiCtx: Option<seq<WriteOp>>

    constructor (log: SharedLog, name: string, txn: TxnContext?)
      requires log.Valid()
      ensures this.log == log && this.name == name && this.txn == txn && view == None && multiCtx == None && Valid()
    {
      this.log, this.name, this.txn, view, multiCtx := log, name, txn, None, None;
    }

    ghost predicate Valid()
      reads this, log
    {
      log.Valid() && (view.Some? ==> ValidView(log.apply, log.entries, name, view.value))
    }

    /** Where the view ends; an object without a view starts from the beginning of the log. */
    ghost function From(): nat
      reads this
    {
      if view.Some? then view.value.nextSeqNum else 0
    }

    method SyncToForward(tailSeqNum: nat) returns (ghost n: nat)
      requires Valid() && view.Some? && From() <= tailSeqNum
      modifies this`view, log
      ensures Valid() && old(log.entries) <= log.entries
      ensures log.Own() == old(log.Own())
      ensures |old(log.entries)| <= n <= |log.entries|
      ensures view == Some(SyncedView(log.apply, log.entries[..n], name, old(From()), tailSeqNum))
    {
      ghost var from := From();
      var seqNum := view.value.nextSeqNum;
      SyncedStart(log.apply, log.entries, name, view.value);
      while seqNum < tailSeqNum
        invariant log.Valid() && old(log.entries) <= log.entries
        invariant log.Own() == old(log.Own())
        invariant from <= seqNum <= tailSeqNum && InSync(from, seqNum)
        decreases tailSeqNum - seqNum
      {
        var done: bool;
        done, seqNum := ForwardStep(seqNum, tailSeqNum, from);
        if done {
          break;
        }
      }
      FinishSync(from, tailSeqNum);
      n := |log.entries|;
    }

    /** One round of the forward scan: takes in the next tagged entry below the tail, if there is one. */
    method ForwardStep(seqNum: nat, tailSeqNum: nat, ghost from: nat) returns (done: bool, next: nat)
      requires log.Valid() && from <= seqNum < tailSeqNum && InSync(from, seqNum)
      modifies this`view, log
      ensures log.Valid() && old(log.entries) <= log.entries && view.Some? && from <= NextSeqNum(log.entries)
      ensures log.Own() == old(log.Own())
      ensures done ==> Synced(log.apply, log.entries, name, from, CountBelow(log.entries, tailSeqNum), view.value)
      ensures !done ==> seqNum < next <= tailSeqNum && InSync(from, next)
    {
      var logEntry, i := NextTagged(seqNum, tailSeqNum, from);
      if logEntry.None? {
        return true, seqNum;
      }
      ghost var before := log.entries;
      TakeIn(logEntry.value, i, from);
      StepInSync(before, i, from);
      return false, logEntry.value.entry.seqNum + 1;
    }

    /** The view has taken in everything below a sequence number that the log has passed. */
    ghost predicate InSync(from: nat, seqNum: nat)
      reads this, log
    {
      view.Some? && Increasing(log.entries) && from <= NextSeqNum(log.entries) && seqNum <= NextSeqNum(log.entries) &&
      Synced(log.apply, log.entries, name, from, CountBelow(log.entries, seqNum), view.value)
    }

    lemma {:induction false} FinishSync(from: nat, tail: nat)
      requires log.Valid() && view.Some? && from <= tail && from <= NextSeqNum(log.entries)
      requires Synced(log.apply, log.entries, name, from, CountBelow(log.entries, tail), view.value)
      ensures Valid()
      ensures view == Some(SyncedView(log.apply, log.entries[..|log.entries|], name, from, tail))
    {
      assert log.entries[..|log.entries|] == log.entries;
      CountBelowMonotone(log.entries, from, tail);
      SyncedIsValid(log.apply, log.entries, name, from, CountBelow(log.entries, tail), view.value);
    }

    /** The next tagged entry at or above `seqNum` and below the tail; the view is in sync up to it. */
    method NextTagged(seqNum: nat, tailSeqNum: nat, ghost from: nat) returns (r: Option<Fetched>, ghost i: nat)
      requires log.Valid() && seqNum <= tailSeqNum && InSync(from, seqNum)
      modifies log
      ensures log.Valid() && old(log.entries) <= log.entries && from <= NextSeqNum(log.entries)
      ensures log.Own() == old(log.Own())
      ensures r.None? ==> Synced(log.apply, log.entries, name, from, CountBelow(log.entries, tailSeqNum), view.value)
      ensures r.Some? ==> ReadAt(log, r.value, i) && seqNum <= r.value.entry.seqNum < tailSeqNum &&
                          Synced(log.apply, log.entries, name, from, i, view.value)
    {
      var tag := ObjectLogTag(log.hash(name));
      ghost var before, m := log.entries, CountBelow(log.entries, seqNum);
      r, i := log.ReadNext(tag, seqNum);
      Grow(before, seqNum, from, m);
      if r.None? || r.value.entry.seqNum >= tailSeqNum {
        SkipUntagged(tag, from, m, CountBelow(log.entries, tailSeqNum));
        r := None;
      } else {
        SkipUntagged(tag, from, m, i);
      }
    }

    /** Takes one tagged entry into the view, unless it does not write the object or did not commit. */
    method TakeIn(l: Fetched, ghost i: nat, ghost from: nat)
      requires log.Valid() && ReadAt(log, l, i) && from <= l.entry.seqNum
      requires view.Some? && Synced(log.apply, log.entries, name, from, i, view.value)
      modifies this`view, log
      ensures log.Valid() && old(log.entries) <= log.entries
      ensures log.Own() == old(log.Own())
      ensures view.Some? && Synced(log.apply, log.entries, name, from, i + 1, view.value)
    {
      ghost var before := log.entries;
      var touches, objectLog := Inspect(l, i);
      SyncedPrefix(log.apply, before, log.entries, name, from, i, view.value);
      if !touches {
        SyncedSkip(log.apply, log.entries, name, from, i, i + 1, view.value);
        return;
      }
      Absorb(objectLog.entry, i, from);
      if !HasCachedObjectView(objectLog, name) {
        Cache(objectLog, i, from);
      }
    }

    /** Applies an entry that touches the object to the view. */
    method Absorb(e: Entry, ghost i: nat, ghost from: nat)
      requires Touches(log.entries, i, name) && log.entries[i] == e && from <= e.seqNum
      requires view.Some? && Synced(log.apply, log.entries, name, from, i, view.value)
      modifies this`view
      ensures view.Some? && Synced(log.apply, log.entries, name, from, i + 1, view.value)
    {
      SyncedTouch(log.apply, log.entries, name, from, i, view.value);
      var contents := ApplyRecord(log.apply, view.value.contents, e.record.ops, name);
      view := Some(View(e.seqNum + 1, contents));
    }

    /** Caches the view with the entry it has just taken in. */
    method Cache(l: Fetched, ghost i: nat, ghost from: nat)
      requires log.Valid() && ReadAt(log, l, i) && name in WriteSet(l.entry)
      requires view.Some? && Synced(log.apply, log.entries, name, from, i + 1, view.value)
      modifies log
      ensures log.Valid() && old(log.entries) <= log.entries
      ensures log.Own() == old(log.Own())
      ensures Synced(log.apply, log.entries, name, from, i + 1, view.value)
    {
      ghost var before := log.entries;
      CacheObjectView(log, l, view.value.contents, name, i);
      SyncedPrefix(log.apply, before, log.entries, name, from, i + 1, view.value);
    }

    lemma {:induction false} StepInSync(before: seq<Entry>, i: nat, from: nat)
      requires log.Valid() && before <= log.entries && i < |before| && from <= NextSeqNum(before)
      requires view.Some? && Synced(log.apply, log.entries, name, from, i + 1, view.value)
      ensures InSync(from, before[i].seqNum + 1)
    {
      NextSeqNumGrows(before, log.entries);
      CountBelowIs(log.entries, before[i].seqNum + 1, i + 1);
    }

    /** Brings the view up to date from the end of the log, starting from the latest cached view on the way. */
    method SyncToBackward(tailSeqNum: nat) returns (ghost n: nat)
      requires Valid() && From() <= tailSeqNum
      modifies this`view, log
      ensures Valid() && old(log.entries) <= log.entries
      ensures log.Own() == old(log.Own())
      ensures |old(log.entries)| <= n <= |log.entries|
      ensures view.None? <==> old(view).None? && tailSeqNum == 0
      ensures view.Some? ==> view.value == SyncedView(log.apply, log.entries[..n], name, old(From()), tailSeqNum)
    {
      var currentSeqNum := if view.Some? then view.value.nextSeqNum else 0;
      if tailSeqNum == currentSeqNum {
        if view.Some? {
          SyncedStart(log.apply, log.entries, name, view.value);
          FinishSync(currentSeqNum, tailSeqNum);
        }
        return |log.entries|;
      }
      var base, objectLogs;
      ghost var known, d;
      base, objectLogs, known, d := Collect(tailSeqNum, currentSeqNum);
      if view.Some? {
        ValidViewGrows(log.apply, old(log.entries), known, name, view.value);
      }
      StartFrom(base, known, d, currentSeqNum);
      ApplyCollected(objectLogs, known, d, currentSeqNum, tailSeqNum);
      n := |known|;
      assert log.entries[..n] == known;
    }

    /** Takes the cached view that was met, else keeps the view there is, else starts with an empty one. */
    method StartFrom(base: Option<View>, ghost known: seq<Entry>, ghost d: nat, ghost from: nat)
      requires Increasing(known) && from == From() && (view.Some? ==> ValidView(log.apply, known, name, view.value))
      requires base.None? ==> d == CountBelow(known, from)
      requires base.Some? ==> 0 < d <= |known| && Touches(known, d - 1, name) && from <= known[d - 1].seqNum &&
                              base.value == View(known[d - 1].seqNum + 1, Replay(log.apply, known[..d], name))
      modifies this`view
      ensures view.Some? && from <= NextSeqNum(known) && CountBelow(known, from) <= d
      ensures Synced(log.apply, known, name, from, d, view.value)
    {
      if base.Some? {
        LastTouchIs(known, name, from, d - 1, d);
        CountBelowIs(known, known[d - 1].seqNum, d - 1);
        CountBelowMonotone(known, from, known[d - 1].seqNum);
        view := base;
      } else if view.Some? {
        SyncedStart(log.apply, known, name, view.value);
      } else {
        assert known[..0] == [];
        view := Some(View(0, map[]));
      }
    }

    /** The entries below the tail that the view lacks, latest first, down to a cached view if there is one. */
    method Collect(tailSeqNum: nat, currentSeqNum: nat)
        returns (base: Option<View>, objectLogs: seq<Fetched>, ghost known: seq<Entry>, ghost d: nat)
      requires log.Valid() && currentSeqNum < tailSeqNum
      modifies log
      ensures log.Valid() && old(log.entries) <= known <= log.entries
      ensures log.Own() == old(log.Own())
      ensures Increasing(known) && d <= CountBelow(known, tailSeqNum)
      ensures Collected(log.apply, known, TouchMarks(known, name), objectLogs, d, CountBelow(known, tailSeqNum))
      ensures base.None? ==> d == CountBelow(known, currentSeqNum)
      ensures base.Some? ==> d > 0 && Touches(known, d - 1, name) && currentSeqNum <= known[d - 1].seqNum &&
                             base.value == View(known[d - 1].seqNum + 1, Replay(log.apply, known[..d], name))
    {
      objectLogs, base := [], None;
      var seqNum: nat := tailSeqNum;
      ghost var first := true;
      known, d := log.entries, 0;
      while seqNum > currentSeqNum
        invariant log.Valid() && old(log.entries) <= known <= log.entries
        invariant log.Own() == old(log.Own())
        invariant base.None? && currentSeqNum <= seqNum <= tailSeqNum &&
                  Scanned(known, objectLogs, seqNum, tailSeqNum, first, d)
        invariant first ==> seqNum == tailSeqNum
        decreases seqNum
      {
        var done: bool;
        done, base, objectLogs, seqNum, known, d :=
          ScanStep(objectLogs, seqNum, currentSeqNum, tailSeqNum, known, first, d);
        first := false;
        if done {
          return;
        }
      }
      CountBelowIs(known, currentSeqNum, d);
    }

    /** The scan has started from the tail, or has collected everything down to the entry it found last. */
    ghost predicate Scanned(known: seq<Entry>, ls: seq<Fetched>, seqNum: nat, tailSeqNum: nat, first: bool, c: nat)
      reads log
    {
      Increasing(known) &&
      if first then ls == [] && seqNum == tailSeqNum
      else c < CountBelow(known, tailSeqNum) && seqNum == known[c].seqNum &&
           Collected(log.apply, known, TouchMarks(known, name), ls, c, CountBelow(known, tailSeqNum))
    }

    /** A view is the replay through an entry that touches the object. */
    ghost predicate CachedAt(known: seq<Entry>, i: nat, v: View)
    {
      Touches(known, i, name) && v == View(known[i].seqNum + 1, Replay(log.apply, known[..i + 1], name))
    }

    /** One round of the backward scan. */
    method ScanStep(ls: seq<Fetched>, seqNum: nat, currentSeqNum: nat, ghost tailSeqNum: nat, ghost known: seq<Entry>,
                    ghost first: bool, ghost c: nat)
        returns (done: bool, base: Option<View>, ls': seq<Fetched>, seqNum': nat, ghost known': seq<Entry>,
                 ghost d: nat)
      requires log.Valid() && known <= log.entries && currentSeqNum < seqNum <= tailSeqNum
      requires Scanned(known, ls, seqNum, tailSeqNum, first, c)
      modifies log
      ensures log.Valid() && old(log.entries) <= log.entries && known <= known' <= log.entries
      ensures log.Own() == old(log.Own())
      ensures if first then old(log.entries) <= known' else known' == known
      ensures !done ==>
                base.None? && currentSeqNum <= seqNum' < seqNum && Scanned(known', ls', seqNum', tailSeqNum, false, d)
      ensures done ==> Increasing(known') && d <= CountBelow(known', tailSeqNum) &&
                       Collected(log.apply, known', TouchMarks(known', name), ls', d, CountBelow(known', tailSeqNum)) &&
                       if base.None? then d == CountBelow(known', currentSeqNum)
                       else 0 < d <= |known'| && currentSeqNum <= known'[d - 1].seqNum &&
                            CachedAt(known', d - 1, base.value)
    {
      var logEntry;
      ghost var i;
      logEntry, i, known' := ScanRead(ls, seqNum, currentSeqNum, tailSeqNum, known, first, c);
      done, base, ls', seqNum', d := true, None, ls, seqNum, i;
      if logEntry.Some? {
        seqNum' := logEntry.value.entry.seqNum;
        ls', base := CollectOne(ls, logEntry.value, known', i, CountBelow(known', tailSeqNum));
        done, d := base.Some?, if base.Some? then i + 1 else i;
      }
    }

    /** The read of one round: the next entry with the object's tag, or nothing if the rest has no such entry. */
    method ScanRead(ls: seq<Fetched>, seqNum: nat, currentSeqNum: nat, ghost tailSeqNum: nat, ghost known: seq<Entry>,
                    ghost first: bool, ghost c: nat)
        returns (r: Option<Fetched>, ghost i: nat, ghost known': seq<Entry>)
      requires log.Valid() && known <= log.entries && currentSeqNum < seqNum <= tailSeqNum
      requires Scanned(known, ls, seqNum, tailSeqNum, first, c)
      modifies log
      ensures log.Valid() && old(log.entries) <= log.entries && known <= known' <= log.entries && Increasing(known')
      ensures log.Own() == old(log.Own())
      ensures if first then old(log.entries) <= known' else known' == known
      ensures r.None? ==> i == CountBelow(known', currentSeqNum) <= CountBelow(known', tailSeqNum) &&
                          Collected(log.apply, known', TouchMarks(known', name), ls, i, CountBelow(known', tailSeqNum))
      ensures r.Some? ==> i < CountBelow(known', tailSeqNum) && ReadIn(log.apply, known', r.value, i) &&
                          currentSeqNum <= r.value.entry.seqNum < seqNum &&
                          Collected(log.apply, known', TouchMarks(known', name), ls, i + 1,
                                    CountBelow(known', tailSeqNum))
    {
      var tag := ObjectLogTag(log.hash(name));
      r, i, known' := ReadKnown(log, tag, seqNum, known, first, c);
      ghost var lo, hi := CountBelow(known', seqNum), CountBelow(known', tailSeqNum);
      if r.None? || r.value.entry.seqNum < currentSeqNum {
        r, i := None, CountBelow(known', currentSeqNum);
        CountBelowMonotone(known', currentSeqNum, seqNum);
        CollectDown(tag, known', ls, i, lo, hi);
      } else {
        CollectDown(tag, known', ls, i + 1, lo, hi);
      }
    }

    /** Adds an entry to the list if it touches the object, or starts from the view cached with it. */
    method CollectOne(objectLogs: seq<Fetched>, l: Fetched, ghost known: seq<Entry>, ghost i: nat, ghost hi: nat)
        returns (objectLogs': seq<Fetched>, base: Option<View>)
      requires log.Valid() && known <= log.entries && i < hi && ReadIn(log.apply, known, l, i)
      requires Collected(log.apply, known, TouchMarks(known, name), objectLogs, i + 1, hi)
      modifies log
      ensures log.Valid() && old(log.entries) <= log.entries
      ensures log.Own() == old(log.Own())
      ensures base.None? ==> Collected(log.apply, known, TouchMarks(known, name), objectLogs', i, hi)
      ensures base.Some? ==> objectLogs' == objectLogs && CachedAt(known, i, base.value)
    {
      assert known[..i + 1] == log.entries[..i + 1];
      var touches, objectLog := Inspect(l, i);
      assert known[..i + 1] == log.entries[..i + 1];
      objectLogs', base := objectLogs, None;
      if !touches {
        CollectSkip(log.apply, known, TouchMarks(known, name), objectLogs, i, i + 1, hi);
        return;
      }
      LoadedViewIsReplay(log.apply, known, objectLog, i, name);
      base := LoadCachedObjectView(objectLog, name);
      if base.None? {
        CollectAdd(log.apply, known, TouchMarks(known, name), objectLogs, objectLog, i, hi);
        objectLogs' := objectLogs + [objectLog];
      }
    }

    /** Untagged entries between two positions add nothing to the list. */
    lemma {:induction false} CollectDown(tag: nat, known: seq<Entry>, ls: seq<Fetched>, lo: nat, c: nat, hi: nat)
      requires ValidLog(log.hash, known) && lo <= c <= hi <= |known|
      requires tag == ObjectLogTag(log.hash(name)) && Untagged(known, tag, lo, c)
      requires Collected(log.apply, known, TouchMarks(known, name), ls, c, hi)
      ensures Collected(log.apply, known, TouchMarks(known, name), ls, lo, hi)
    {
      UntaggedUntouched(log.hash, known, name, lo, c);
      CollectSkip(log.apply, known, TouchMarks(known, name), ls, lo, c, hi);
    }

    /** Whether a tagged entry touches the object. */
    method Inspect(l: Fetched, ghost i: nat) returns (touches: bool, objectLog: Fetched)
      requires log.Valid() && ReadAt(log, l, i)
      modifies log
      ensures log.Valid() && old(log.entries) <= log.entries
      ensures log.Own() == old(log.Own())
      ensures touches <==> Touches(log.entries, i, name)
      ensures ReadAt(log, objectLog, i) && objectLog.entry == l.entry
    {
      if name !in WriteSet(l.entry) {
        return false, l;
      }
      touches, objectLog := TakesEffect(log, l, i);
    }

    /** Applies the collected entries in log order and caches the view with each of them. */
    method ApplyCollected(objectLogs: seq<Fetched>, ghost known: seq<Entry>, ghost lo: nat, ghost from: nat,
                          ghost tail: nat)
      requires log.Valid() && known <= log.entries && Increasing(known) && from <= tail && from <= NextSeqNum(known)
      requires CountBelow(known, from) <= lo <= CountBelow(known, tail)
      requires Collected(log.apply, known, TouchMarks(known, name), objectLogs, lo, CountBelow(known, tail))
      requires view.Some? && Synced(log.apply, known, name, from, lo, view.value)
      modifies this`view, log
      ensures Valid() && old(log.entries) <= log.entries
      ensures log.Own() == old(log.Own())
      ensures view == Some(SyncedView(log.apply, known, name, from, tail))
    {
      ghost var c, hi := lo, CountBelow(known, tail);
      var i := |objectLogs|;
      while i > 0
        invariant 0 <= i <= |objectLogs| && lo <= c <= hi
        invariant log.Valid() && old(log.entries) <= log.entries
        invariant log.Own() == old(log.Own())
        invariant Collected(log.apply, known, TouchMarks(known, name), objectLogs[..i], c, hi)
        invariant view.Some? && Synced(log.apply, known, name, from, c, view.value)
      {
        c := NextCollected(objectLogs[..i], known, c, hi, from);
        assert objectLogs[..i][..i - 1] == objectLogs[..i - 1];
        i := i - 1;
      }
      FinishCollected(known, c, from, tail);
    }

    lemma {:induction false} FinishCollected(known: seq<Entry>, c: nat, from: nat, tail: nat)
      requires log.Valid() && known <= log.entries && from <= NextSeqNum(known)
      requires CountBelow(known, from) <= c <= CountBelow(known, tail) &&
               Marked(TouchMarks(known, name), c, CountBelow(known, tail)) == []
      requires view.Some? && Synced(log.apply, known, name, from, c, view.value)
      ensures Valid() && view == Some(SyncedView(log.apply, known, name, from, tail))
    {
      var hi := CountBelow(known, tail);
      MarkedEmpty(TouchMarks(known, name), c, hi);
      SyncedSkip(log.apply, known, name, from, c, hi, view.value);
      SyncedIsValid(log.apply, known, name, from, hi, view.value);
      ValidViewGrows(log.apply, known, log.entries, name, view.value);
    }

    /** Applies the earliest collected entry. */
    method NextCollected(ls: seq<Fetched>, ghost known: seq<Entry>, ghost c: nat, ghost hi: nat, ghost from: nat)
        returns (ghost c': nat)
      requires log.Valid() && known <= log.entries && Increasing(known) && CountBelow(known, from) <= c
      requires ls != [] && Collected(log.apply, known, TouchMarks(known, name), ls, c, hi)
      requires view.Some? && Synced(log.apply, known, name, from, c, view.value)
      modifies this`view, log
      ensures log.Valid() && old(log.entries) <= log.entries
      ensures log.Own() == old(log.Own())
      ensures c <= c' <= hi && Collected(log.apply, known, TouchMarks(known, name), ls[..|ls| - 1], c', hi)
      ensures view.Some? && Synced(log.apply, known, name, from, c', view.value)
    {
      ghost var x := CollectedFirst(log.apply, known, TouchMarks(known, name), ls, c, hi);
      ApplyAt(ls[|ls| - 1], known, c, x, from);
      c' := x + 1;
    }

    /** Applies one collected entry; its sequence number is never below that of the view. */
    method ApplyAt(l: Fetched, ghost known: seq<Entry>, ghost c: nat, ghost x: nat, ghost from: nat)
      requires log.Valid() && known <= log.entries && Increasing(known) && CountBelow(known, from) <= c <= x
      requires ReadIn(log.apply, known, l, x) && Touches(known, x, name)
      requires forall k :: c <= k < x ==> !Touches(known, k, name)
      requires view.Some? && Synced(log.apply, known, name, from, c, view.value)
      modifies this`view, log
      ensures log.Valid() && old(log.entries) <= log.entries
      ensures log.Own() == old(log.Own())
      ensures view.Some? && Synced(log.apply, known, name, from, x + 1, view.value)
    {
      SyncedSkip(log.apply, known, name, from, c, x, view.value);
      LastTouchBound(known, name, from, x, x);
      assert view.value.nextSeqNum <= l.entry.seqNum;
      SyncedPrefix(log.apply, known, log.entries, name, from, x, view.value);
      assert known[..x + 1] == log.entries[..x + 1];
      Absorb(l.entry, x, from);
      Cache(l, x, from);
      SyncedPrefix(log.apply, known, log.entries, name, from, x + 1, view.value);
    }

    /** What the view has taken in stays taken in when other clients append. */
    lemma {:induction false} Grow(before: seq<Entry>, seqNum: nat, from: nat, m: nat)
      requires log.Valid() && before <= log.entries && seqNum <= NextSeqNum(before) && view.Some?
      requires m == CountBelow(before, seqNum) && Synced(log.apply, before, name, from, m, view.value)
      ensures NextSeqNum(before) <= NextSeqNum(log.entries)
      ensures m == CountBelow(log.entries, seqNum) && Synced(log.apply, log.entries, name, from, m, view.value)
    {
      BelowStable(before, log.entries, seqNum);
      SyncedPrefix(log.apply, before, log.entries, name, from, m, view.value);
    }

    lemma {:induction false} SkipUntagged(tag: nat, from: nat, lo: nat, hi: nat)
      requires log.Valid() && tag == ObjectLogTag(log.hash(name)) && Untagged(log.entries, tag, lo, hi) && lo <= hi
      requires view.Some? && Synced(log.apply, log.entries, name, from, lo, view.value)
      ensures Synced(log.apply, log.entries, name, from, hi, view.value)
    {
      UntaggedUntouched(log.hash, log.entries, name, lo, hi);
      SyncedSkip(log.apply, log.entries, name, from, lo, hi, view.value);
    }

    // -------------------------------------------------------------- reads

    /** In a transaction a view is the state of the object when the transaction began. */
    ghost predicate AtTxnBegin()
      reads this, log
    {
      txn != null ==>
        Increasing(log.entries) && txn.id <= NextSeqNum(log.entries) &&
        (view.Some? ==> view.value.contents == Replay(log.apply, Below(log.entries, txn.id), name))
    }

    /**
     Makes sure there is a view. A first view is the object when the transaction began or, outside of one, at
     the end of the log; only a transaction that began at sequence number 0 stays without one.
     */
    method EnsureView() returns (ghost n: nat)
      requires Valid() && AtTxnBegin()
      modifies this`view, log
      ensures Valid() && AtTxnBegin() && old(log.entries) <= log.entries
      ensures log.Own() == old(log.Own())
      ensures view.None? <==> old(view).None? && txn != null && txn.id == 0
      ensures old(view).Some? ==> view == old(view)
      ensures old(view).None? && txn == null ==>
                |old(log.entries)| <= n <= |log.entries| &&
                view.value.contents == Replay(log.apply, log.entries[..n], name)
    {
      n := 0;
      if view.None? {
        BelowMax(log.hash, log.entries);
        var tailSeqNum := if txn != null then txn.id else MAX_SEQNUM;
        n := SyncToBackward(tailSeqNum);
        FirstView(old(log.entries), n);
      }
    }

    /** What a first view up to the beginning of the transaction, or the end of the log, shows. */
    lemma {:induction false} FirstView(before: seq<Entry>, n: nat)
      requires log.Valid() && before <= log.entries && |before| <= n <= |log.entries|
      requires txn != null ==> txn.id <= NextSeqNum(before)
      requires view.Some? ==>
                 var tail := if txn != null then txn.id else MAX_SEQNUM;
                 view.value == SyncedView(log.apply, log.entries[..n], name, 0, tail)
      ensures AtTxnBegin()
      ensures view.Some? && txn == null ==> view.value.contents == Replay(log.apply, log.entries[..n], name)
    {
      if txn != null {
        NextSeqNumGrows(before, log.entries);
        BelowStable(before, log.entries, txn.id);
        BelowStable(before, log.entries[..n], txn.id);
      } else {
        BelowMax(log.hash, log.entries[..n]);
      }
    }

    /** Brings the view up to the end of the log. */
    method Sync() returns (ghost n: nat)
      requires Valid() && txn == null
      modifies this`view, log
      ensures Valid() && old(log.entries) <= log.entries && |old(log.entries)| <= n <= |log.entries|
      ensures log.Own() == old(log.Own())
      ensures view.Some? && view.value.contents == Replay(log.apply, log.entries[..n], name)
    {
      BelowMax(log.hash, log.entries);
      n := SyncToBackward(MAX_SEQNUM);
      BelowMax(log.hash, log.entries[..n]);
    }

    /**
     Reads the contents. Inside a transaction every read of every object sees the log below the transaction
     id. Outside of one a first read sees the whole log as it stands at some moment of the call, and a later
     read the view there is.
     */
    method Get() returns (contents: Option<Contents>, ghost n: nat)
      requires Valid() && AtTxnBegin() && multiCtx.None? && (txn != null ==> txn.active)
      modifies this`view, log
      ensures Valid() && AtTxnBegin() && old(log.entries) <= log.entries
      ensures log.Own() == old(log.Own())
      ensures contents.None? <==> old(view).None? && txn != null && txn.id == 0
      ensures contents == if view.Some? then Some(view.value.contents) else None
      ensures contents.Some? && txn != null ==> contents.value == Replay(log.apply, Below(log.entries, txn.id), name)
      ensures txn == null && old(view).Some? ==> contents == Some(old(view).value.contents) && view == old(view)
      ensures txn == null && old(view).None? ==>
                |old(log.entries)| <= n <= |log.entries| && contents == Some(Replay(log.apply, log.entries[..n], name))
    {
      n := EnsureView();
      contents := if view.Some? then Some(view.value.contents) else None;
    }

    // -------------------------------------------------------------- writes

    /** Operations were run at the place of their record in the log, and the view left is the replay through it. */
    ghost predicate RunAt(ops: seq<WriteOp>, at: nat, results: seq<WriteResult>)
      reads this, log
    {
      at < |log.entries| && results == RunOps(log.apply, Replay(log.apply, log.entries[..at], name), ops).1 &&
      view == Some(View(log.entries[at].seqNum + 1, Replay(log.apply, log.entries[..at + 1], name)))
    }

    /**
     Appends operations as one record and runs them on the view of everything before that record.
     The results are those of running them at their own place in the log.
     */
    method AppendAndApply(ops: seq<WriteOp>) returns (r: Outcome, ghost at: nat)
      requires Valid() && txn == null && ops != [] && forall op :: op in ops ==> op.objName == name
      modifies this`view, log
      ensures Valid() && old(log.entries) <= log.entries && !r.Buffered?
      ensures r.AppendFailed? ==> view == old(view) && log.Own() == old(log.Own()).Failed()
      ensures !r.AppendFailed? ==>
                MadeBy(log.entries, Call(log.me, |old(log.entries)|, |log.entries|, at)) &&
                log.entries[at].record == ObjectRecord(NormalOp, ops, 0) && log.Own() == old(log.Own()).Added(at)
      ensures r.MissingView? <==> !r.AppendFailed? && old(view).None? && log.entries[at].seqNum == 0
      ensures r.Done? ==> RunAt(ops, at, r.results)
    {
      var seqNum := AppendNormalOpLog(ops);
      if seqNum.None? {
        return AppendFailed, 0;
      }
      at := |log.entries| - 1;
      var results := ApplyOwn(ops, seqNum.value, at);
      r := if results.Some? then Done(results.value) else MissingView;
      assert at in log.Own().records;
    }

    /** Syncs up to an own record and runs its operations; fails if there is no view then. */
    method ApplyOwn(ops: seq<WriteOp>, seqNum: nat, ghost at: nat) returns (results: Option<seq<WriteResult>>)
      requires Valid() && at < |log.entries| && log.entries[at].record == ObjectRecord(NormalOp, ops, 0) &&
               From() <= seqNum
      requires ops != [] && (forall op :: op in ops ==> op.objName == name) && seqNum == log.entries[at].seqNum
      modifies this`view, log
      ensures Valid() && old(log.entries) <= log.entries
      ensures log.Own() == old(log.Own())
      ensures results.None? <==> old(view).None? && seqNum == 0
      ensures results.Some? ==> RunAt(ops, at, results.value)
    {
      SyncToOwn(seqNum, at);
      if view.None? {
        return None;
      }
      var rs := RunOnView(ops, seqNum, at);
      results := Some(rs);
    }

    /** Appends operations of this object as one plain write record. */
    method AppendNormalOpLog(ops: seq<WriteOp>) returns (seqNum: Option<nat>)
      requires Valid() && ops != [] && forall op :: op in ops ==> op.objName == name
      modifies log
      ensures Valid() && old(log.entries) <= log.entries
      ensures seqNum.None? ==> log.Own() == old(log.Own()).Failed()
      ensures seqNum.Some? ==> |old(log.entries)| < |log.entries| && From() <= seqNum.value &&
                               log.Own() == old(log.Own()).Added(|log.entries| - 1) &&
                               log.entries[|log.entries| - 1].seqNum == seqNum.value &&
                               log.entries[|log.entries| - 1].record == ObjectRecord(NormalOp, ops, 0)
    {
      seqNum := log.Append({ObjectLogTag(log.hash(name))}, ObjectRecord(NormalOp, ops, 0));
      NextSeqNumGrows(old(log.entries), log.entries);
      if view.Some? {
        ValidViewGrows(log.apply, old(log.entries), log.entries, name, view.value);
      }
    }

    /** Syncs up to a record of this object that is already in the log: everything before it is known then. */
    method SyncToOwn(seqNum: nat, ghost at: nat)
      requires Valid() && at < |log.entries| && log.entries[at].seqNum == seqNum && From() <= seqNum
      modifies this`view, log
      ensures Valid() && old(log.entries) <= log.entries
      ensures log.Own() == old(log.Own())
      ensures view.None? <==> old(view).None? && seqNum == 0
      ensures view.Some? ==> view.value.contents == Replay(log.apply, log.entries[..at], name)
    {
      ghost var n := SyncToBackward(seqNum);
      if view.Some? {
        CountBelowIs(log.entries[..n], seqNum, at);
        assert log.entries[..n][..at] == log.entries[..at];
      }
    }

    /** Runs the operations of an own record on the view of everything before it. */
    method RunOnView(ops: seq<WriteOp>, seqNum: nat, ghost at: nat) returns (results: seq<WriteResult>)
      requires log.Valid() && at < |log.entries| && log.entries[at].record == ObjectRecord(NormalOp, ops, 0)
      requires ops != [] && (forall op :: op in ops ==> op.objName == name) && seqNum == log.entries[at].seqNum
      requires view.Some? && view.value.contents == Replay(log.apply, log.entries[..at], name)
      modifies this`view
      ensures Valid() && results == RunOps(log.apply, Replay(log.apply, log.entries[..at], name), ops).1
      ensures view == Some(View(seqNum + 1, Replay(log.apply, log.entries[..at + 1], name)))
    {
      ghost var c := view.value.contents;
      results := [];
      view := Some(view.value.(nextSeqNum := seqNum + 1));
      for i := 0 to |ops|
        invariant view.Some? && view.value.nextSeqNum == seqNum + 1
        invariant (view.value.contents, results) == RunOps(log.apply, c, ops[..i])
      {
        assert ops[..i + 1][..i] == ops[..i];
        var (contents, result) := log.apply(view.value.contents, ops[i]);
        view := Some(view.value.(contents := contents));
        results := results + [result];
      }
      assert ops[..|ops|] == ops;
      OwnRecord(ops, at, c);
    }

    lemma {:induction false} OwnRecord(ops: seq<WriteOp>, at: nat, c: Contents)
      requires log.Valid() && at < |log.entries| && log.entries[at].record == ObjectRecord(NormalOp, ops, 0)
      requires ops != [] && (forall op :: op in ops ==> op.objName == name) &&
               c == Replay(log.apply, log.entries[..at], name)
      requires view == Some(View(log.entries[at].seqNum + 1, RunOps(log.apply, c, ops).0))
      ensures Valid() && view.value.contents == Replay(log.apply, log.entries[..at + 1], name)
    {
      RunOpsIsApplyOps(log.apply, c, ops, name);
      assert ops[0] in ops && ops[0].objName in WriteSet(log.entries[at]);
      ReplayStep(log.apply, log.entries, name, at);
      CountBelowIs(log.entries, log.entries[at].seqNum + 1, at + 1);
      NextSeqNumGrows(log.entries[..at + 1], log.entries);
    }

    method MultiBegin()
      requires multiCtx.None? && txn == null
      modifies this`multiCtx
      ensures multiCtx == Some([])
    {
      multiCtx := Some([]);
    }

    method MultiAbort()
      requires multiCtx.Some?
      modifies this`multiCtx
      ensures multiCtx.None?
    {
      multiCtx := None;
    }

    /** Commits the buffered operations as one record; an empty buffer leaves the log alone. */
    method MultiCommit() returns (r: Outcome, ghost at: nat)
      requires Valid() && txn == null && multiCtx.Some? && forall op :: op in multiCtx.value ==> op.objName == name
      modifies this, log
      ensures Valid() && old(log.entries) <= log.entries && multiCtx.None?
      ensures old(multiCtx) == Some([]) ==> r == Done([]) && view == old(view) && log.entries == old(log.entries)
      ensures r.AppendFailed? ==> old(multiCtx) != Some([]) && log.Own() == old(log.Own()).Failed()
      ensures old(multiCtx) != Some([]) && !r.AppendFailed? ==>
                MadeBy(log.entries, Call(log.me, |old(log.entries)|, |log.entries|, at)) &&
                log.entries[at].record == ObjectRecord(NormalOp, old(multiCtx).value, 0) &&
                log.Own() == old(log.Own()).Added(at)
      ensures r.MissingView? <==>
                old(multiCtx) != Some([]) && !r.AppendFailed? && old(view).None? && log.entries[at].seqNum == 0
      ensures old(multiCtx) != Some([]) && r.Done? ==> RunAt(old(multiCtx).value, at, r.results)
    {
      var ops := multiCtx.value;
      multiCtx := None;
      if ops == [] {
        return Done([]), 0;
      }
      r, at := AppendAndApply(ops);
    }

    /** One write: buffered in a multi context or a transaction, otherwise appended and run at once. */
    method DoWriteOp(op: WriteOp) returns (r: Outcome, ghost at: nat)
      requires Valid() && op.objName == name && (txn != null ==> txn.active && !txn.readonly)
      modifies this, log, txn
      ensures Valid() && old(log.entries) <= log.entries
      ensures multiCtx == if old(multiCtx).Some? then Some(old(multiCtx).value + [op]) else None
      ensures txn != null ==> txn.active && txn.ops == old(txn.ops) + if old(multiCtx).Some? then [] else [op]
      ensures old(multiCtx).Some? || txn != null ==>
                (r == if old(multiCtx).Some? then Buffered else Done([Ok(Null)])) && view == old(view) &&
                log.entries == old(log.entries)
      ensures old(multiCtx).None? && txn == null ==>
                !r.Buffered? && (r.AppendFailed? ==> view == old(view) && log.Own() == old(log.Own()).Failed())
      ensures old(multiCtx).None? && txn == null && !r.AppendFailed? ==>
                MadeBy(log.entries, Call(log.me, |old(log.entries)|, |log.entries|, at)) &&
                log.entries[at].record == ObjectRecord(NormalOp, [op], 0) && log.Own() == old(log.Own()).Added(at) &&
                (r.MissingView? <==> old(view).None? && log.entries[at].seqNum == 0)
      ensures old(multiCtx).None? && txn == null && r.Done? ==>
                r.results == [log.apply(Replay(log.apply, log.entries[..at], name), op).1] &&
                view == Some(View(log.entries[at].seqNum + 1, Replay(log.apply, log.entries[..at + 1], name)))
    {
      if multiCtx.Some? {
        multiCtx := Some(multiCtx.value + [op]);
        return Buffered, 0;
      }
      if txn != null {
        txn.ops := txn.ops + [op];
        return Done([Ok(Null)]), 0;
      }
      r, at := AppendAndApply([op]);
      if r.Done? {
        OneOp(log.apply, Replay(log.apply, log.entries[..at], name), op);
      }
    }
  }

  lemma {:induction false} OneOp(apply: Applier, c: Contents, op: WriteOp)
    ensures RunOps(apply, c, [op]).1 == [apply(c, op).1]
  {
    assert [op][..0] == [];
    assert RunOps(apply, c, [op][..0]) == (c, []);
  }
}
