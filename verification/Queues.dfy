/** Queue handles: any number of clients that share nothing but the log. */
module Queues {
  import opened Logs
  import opened Sets
  import opened QueueSpec
  import opened LogService
  import opened Backlog

  class Queue {
    const log: SharedLog
    const name: string
    var consumed: nat
    var tail: nat
    var nextSeqNum: nat

    /** The counters are those of everything below the sequence number the handle has reached. */
    ghost predicate Valid()
      reads this, log
    {
      log.Valid() && nextSeqNum <= NextSeqNum(log.entries) &&
      Counters(consumed, tail) == CountersOf(Below(log.entries, nextSeqNum), name)
    }

    /** The handle has taken in the first `m` entries of a log, the last of its own just below `nextSeqNum`. */
    ghost predicate Reached(entries: seq<Entry>, m: nat)
      reads this
    {
      Increasing(entries) && nextSeqNum <= NextSeqNum(entries) && CountBelow(entries, nextSeqNum) <= m <= |entries| &&
      Counters(consumed, tail) == CountersOf(entries[..m], name) &&
      forall k :: CountBelow(entries, nextSeqNum) <= k < m ==> !IsOf(entries[k], name)
    }

    lemma {:induction false} ReachedSkip(entries: seq<Entry>, m: nat, m': nat)
      requires Reached(entries, m) && m <= m' <= |entries| && forall k :: m <= k < m' ==> !IsOf(entries[k], name)
      ensures Reached(entries, m')
    {
      CountersSkip(entries, name, m, m');
    }

    lemma {:induction false} ReachedPrefix(entries: seq<Entry>, longer: seq<Entry>, m: nat)
      requires entries <= longer && Increasing(longer) && Reached(entries, m)
      ensures Reached(longer, m)
    {
      NextSeqNumGrows(entries, longer);
      BelowStable(entries, longer, nextSeqNum);
      assert entries[..m] == longer[..m];
    }

    lemma {:induction false} ReachedIsValid(entries: seq<Entry>, m: nat)
      requires log.Valid() && entries <= log.entries && Reached(entries, m)
      ensures Valid()
    {
      CountersSkip(entries, name, CountBelow(entries, nextSeqNum), m);
      NextSeqNumGrows(entries, log.entries);
      BelowStable(entries, log.entries, nextSeqNum);
    }

    constructor (log: SharedLog, name: string)
      requires log.Valid()
      ensures this.log == log && this.name == name && nextSeqNum == 0 && Valid()
    {
      this.log, this.name, consumed, tail, nextSeqNum := log, name, 0, 0, 0;
      new;
      CountBelowIs(log.entries, 0, 0);
    }

    /** The first push of this queue in a window that the log has passed. */
    method FindNext(minSeqNum: nat, maxSeqNum: nat, ghost m: nat) returns (r: Option<Entry>)
      requires log.Valid() && m <= |log.entries| && maxSeqNum <= NextSeqNum(log.entries[..m])
      modifies log
      ensures log.Valid() && old(log.entries) <= log.entries
      ensures log.Own() == old(log.Own())
      ensures var window := PushesIn(log.entries[..m], name, minSeqNum, maxSeqNum);
              r == if window != [] then Some(window[0]) else None
    {
      ghost var p := log.entries[..m];
      var seqNum := minSeqNum;
      while seqNum < maxSeqNum
        invariant log.Valid() && old(log.entries) <= log.entries && log.entries[..m] == p
        invariant log.Own() == old(log.Own())
        invariant minSeqNum <= seqNum && NoPushes(p, minSeqNum, seqNum)
        decreases maxSeqNum - seqNum
      {
        var e, i := ReadNextPush(seqNum, maxSeqNum, m);
        assert log.entries[..m] == p;
        if e.None? {
          PushesInNone(p, name, minSeqNum, maxSeqNum);
          return None;
        }
        if IsPush(e.value, name) {
          PushesInFirst(p, name, minSeqNum, maxSeqNum, i);
          return Some(e.value);
        }
        seqNum := e.value.seqNum + 1;
      }
      PushesInNone(p, name, minSeqNum, maxSeqNum);
      r := None;
    }

    /** The next entry with the push tag of this queue, which may belong to another queue of the same hash. */
    method ReadNextPush(seqNum: nat, maxSeqNum: nat, ghost m: nat) returns (r: Option<Entry>, ghost i: nat)
      requires log.Valid() && m <= |log.entries| && seqNum < maxSeqNum <= NextSeqNum(log.entries[..m])
      modifies log
      ensures log.Valid() && old(log.entries) <= log.entries
      ensures log.Own() == old(log.Own())
      ensures r.None? ==> NoPushes(log.entries[..m], seqNum, maxSeqNum)
      ensures r.Some? ==> i < m && log.entries[i] == r.value && seqNum <= r.value.seqNum < maxSeqNum &&
                          NoPushes(log.entries[..m], seqNum, r.value.seqNum)
    {
      var tag := QueuePushLogTag(log.hash(name));
      var logEntry;
      logEntry, i := log.ReadNext(tag, seqNum);
      ghost var p := log.entries[..m];
      forall j | 0 <= j < |p| && IsPush(p[j], name)
        ensures HasTag(p[j], tag)
      {
        assert p[j] == log.entries[j];
        TagsCoverWrites(log.hash, log.entries[j]);
      }
      NextSeqNumGrows(p, log.entries);
      r := if logEntry.None? || logEntry.value.entry.seqNum >= maxSeqNum then None else Some(logEntry.value.entry);
    }

    ghost predicate NoPushes(p: seq<Entry>, lo: nat, hi: nat)
    {
      forall j :: 0 <= j < |p| && IsPush(p[j], name) ==> !(lo <= p[j].seqNum < hi)
    }

    // -------------------------------------------------------------- taking in records

    /** Applies one record of this queue, the next after those already taken in. */
    method ApplyLog(l: Fetched, ghost i: nat)
      requires log.Valid() && ReadAt(log, l, i) && IsOf(l.entry, name) && Reached(log.entries, i)
      modifies this, log
      ensures log.Valid() && old(log.entries) <= log.entries
      ensures log.Own() == old(log.Own())
      ensures Reached(log.entries, i + 1) && nextSeqNum == l.entry.seqNum + 1
    {
      CountersStep(log.entries, name, i);
      assert nextSeqNum <= l.entry.seqNum;
      if l.entry.record.isPush {
        tail := l.entry.seqNum + 1;
      } else {
        ghost var before := log.entries;
        var next := FirstQueued(i);
        assert log.entries[..i] == before[..i] && log.entries[..i + 1] == before[..i + 1];
        consumed := if next.Some? then next.value.seqNum + 1 else l.entry.seqNum;
      }
      nextSeqNum := l.entry.seqNum + 1;
      ReachedNext(log.entries, i);
    }

    lemma {:induction false} ReachedNext(entries: seq<Entry>, i: nat)
      requires Increasing(entries) && i < |entries| && nextSeqNum == entries[i].seqNum + 1
      requires Counters(consumed, tail) == CountersOf(entries[..i + 1], name)
      ensures Reached(entries, i + 1)
    {
      CountBelowIs(entries, nextSeqNum, i + 1);
      NextSeqNumGrows(entries[..i + 1], entries);
    }

    /** The first push between the counters of a history. */
    method FirstQueued(ghost m: nat) returns (r: Option<Entry>)
      requires log.Valid() && m <= |log.entries| && Counters(consumed, tail) == CountersOf(log.entries[..m], name)
      modifies log
      ensures log.Valid() && old(log.entries) <= log.entries
      ensures log.Own() == old(log.Own())
      ensures var window := PushesIn(old(log.entries)[..m], name, consumed, tail);
              r == if window != [] then Some(window[0]) else None
    {
      CountersBounds(log.entries[..m], name);
      ghost var p := log.entries[..m];
      r := FindNext(consumed, tail, m);
      assert log.entries[..m] == p;
    }

    /** Stores the counters with the record just applied. */
    method SetAux(seqNum: nat, ghost i: nat)
      requires log.Valid() && i < |log.entries| && IsOf(log.entries[i], name) && log.entries[i].seqNum == seqNum
      requires Reached(log.entries, i + 1)
      modifies log
      ensures log.Valid() && old(log.entries) <= log.entries && Reached(log.entries, i + 1)
      ensures log.Own() == old(log.Own())
    {
      log.SetAuxData(seqNum, QueueAux(consumed, tail), i);
      ReachedPrefix(old(log.entries), log.entries, i + 1);
    }

    // -------------------------------------------------------------- forward

    method SyncToForward(tailSeqNum: nat) returns (ghost n: nat)
      requires Valid() && nextSeqNum <= tailSeqNum
      modifies this, log
      ensures Valid() && old(log.entries) <= log.entries && |old(log.entries)| <= n <= |log.entries|
      ensures log.Own() == old(log.Own())
      ensures Reached(log.entries[..n], CountBelow(log.entries[..n], tailSeqNum))
    {
      var seqNum := nextSeqNum;
      while seqNum < tailSeqNum
        invariant log.Valid() && old(log.entries) <= log.entries
        invariant log.Own() == old(log.Own())
        invariant seqNum <= tailSeqNum && seqNum <= NextSeqNum(log.entries) &&
                  Reached(log.entries, CountBelow(log.entries, seqNum))
        decreases tailSeqNum - seqNum
      {
        var done: bool;
        done, seqNum := ForwardStep(seqNum, tailSeqNum);
        if done {
          break;
        }
      }
      n := |log.entries|;
      assert log.entries[..n] == log.entries;
      ReachedIsValid(log.entries, CountBelow(log.entries, tailSeqNum));
    }

    /** One round of the forward scan: takes in the next tagged record below the tail, if there is one. */
    method ForwardStep(seqNum: nat, tailSeqNum: nat) returns (done: bool, next: nat)
      requires log.Valid() && seqNum < tailSeqNum && seqNum <= NextSeqNum(log.entries)
      requires Reached(log.entries, CountBelow(log.entries, seqNum))
      modifies this, log
      ensures log.Valid() && old(log.entries) <= log.entries
      ensures log.Own() == old(log.Own())
      ensures done ==> Reached(log.entries, CountBelow(log.entries, tailSeqNum))
      ensures !done ==> seqNum < next <= tailSeqNum && next <= NextSeqNum(log.entries) &&
                        Reached(log.entries, CountBelow(log.entries, next))
    {
      var logEntry, i := NextTagged(seqNum, tailSeqNum);
      if logEntry.None? {
        return true, seqNum;
      }
      var l := logEntry.value;
      TakeIn(l, i);
      CountBelowIs(log.entries, l.entry.seqNum + 1, i + 1);
      NextSeqNumGrows(log.entries[..i + 1], log.entries);
      return false, l.entry.seqNum + 1;
    }

    /** The next tagged record at or above `seqNum` and below the tail; everything before it is taken in. */
    method NextTagged(seqNum: nat, tailSeqNum: nat) returns (r: Option<Fetched>, ghost i: nat)
      requires log.Valid() && seqNum < tailSeqNum && seqNum <= NextSeqNum(log.entries)
      requires Reached(log.entries, CountBelow(log.entries, seqNum))
      modifies log
      ensures log.Valid() && old(log.entries) <= log.entries
      ensures log.Own() == old(log.Own())
      ensures r.None? ==> Reached(log.entries, CountBelow(log.entries, tailSeqNum))
      ensures r.Some? ==>
                ReadAt(log, r.value, i) && seqNum <= r.value.entry.seqNum < tailSeqNum && Reached(log.entries, i)
    {
      var tag := QueueLogTag(log.hash(name));
      ghost var m := CountBelow(log.entries, seqNum);
      r, i := log.ReadNext(tag, seqNum);
      BelowStable(old(log.entries), log.entries, seqNum);
      ReachedPrefix(old(log.entries), log.entries, m);
      if r.None? || r.value.entry.seqNum >= tailSeqNum {
        SkipUntagged(tag, log.entries, m, CountBelow(log.entries, tailSeqNum));
        r := None;
      } else {
        SkipUntagged(tag, log.entries, m, i);
      }
    }

    method TakeIn(l: Fetched, ghost i: nat)
      requires log.Valid() && ReadAt(log, l, i) && Reached(log.entries, i)
      modifies this, log
      ensures log.Valid() && old(log.entries) <= log.entries && Reached(log.entries, i + 1)
      ensures log.Own() == old(log.Own())
    {
      if !IsOf(l.entry, name) {
        ReachedSkip(log.entries, i, i + 1);
        return;
      }
      ApplyLog(l, i);
      if l.aux.None? {
        SetAux(l.entry.seqNum, i);
      }
    }

    lemma {:induction false} ReachedAlready()
      requires Valid()
      ensures log.entries[..|log.entries|] == log.entries && Reached(log.entries, CountBelow(log.entries, nextSeqNum))
    {
    }

    // -------------------------------------------------------------- backward

    method SyncToBackward(tailSeqNum: nat) returns (ghost n: nat)
      requires Valid() && nextSeqNum <= tailSeqNum
      modifies this, log
      ensures Valid() && old(log.entries) <= log.entries && |old(log.entries)| <= n <= |log.entries|
      ensures log.Own() == old(log.Own())
      ensures Reached(log.entries[..n], CountBelow(log.entries[..n], tailSeqNum))
    {
      if tailSeqNum == nextSeqNum {
        n := |log.entries|;
        ReachedAlready();
        return;
      }
      var base, queueLogs;
      ghost var known, d;
      base, queueLogs, known, d := Collect(tailSeqNum);
      StartFrom(base, old(log.entries), known, d);
      ApplyCollected(queueLogs, known, d, tailSeqNum);
      n := |known|;
      assert log.entries[..n] == known;
    }

    /** Takes over the counters stored with a record, if the scan found one; otherwise keeps its own. */
    method StartFrom(base: Option<Fetched>, ghost before: seq<Entry>, ghost known: seq<Entry>, ghost d: nat)
      requires Increasing(known) && before <= known && nextSeqNum <= NextSeqNum(before)
      requires Counters(consumed, tail) == CountersOf(Below(before, nextSeqNum), name)
      requires if base.None? then d == CountBelow(known, nextSeqNum) else d > 0 && HasCounters(known, d - 1, base.value)
      modifies this
      ensures Reached(known, d)
    {
      if base.Some? {
        nextSeqNum := base.value.entry.seqNum + 1;
        consumed, tail := base.value.aux.value.consumed, base.value.aux.value.tail;
        ReachedNext(known, d - 1);
      } else {
        NextSeqNumGrows(before, known);
        BelowStable(before, known, nextSeqNum);
      }
    }

    /**
     The records below the tail that the handle lacks, latest first, down to one with stored counters if there
     is one.
     */
    method Collect(tailSeqNum: nat)
        returns (base: Option<Fetched>, queueLogs: seq<Fetched>, ghost known: seq<Entry>, ghost d: nat)
      requires log.Valid() && nextSeqNum < tailSeqNum
      modifies log
      ensures log.Valid() && old(log.entries) <= known <= log.entries
      ensures log.Own() == old(log.Own())
      ensures Increasing(known) && d <= CountBelow(known, tailSeqNum)
      ensures Collected(log.apply, known, QueueMarks(known, name), queueLogs, d, CountBelow(known, tailSeqNum))
      ensures base.None? ==> d == CountBelow(known, nextSeqNum)
      ensures base.Some? ==> d > 0 && HasCounters(known, d - 1, base.value)
    {
      queueLogs, base := [], None;
      var seqNum: nat := tailSeqNum;
      ghost var first := true;
      known, d := log.entries, 0;
      while seqNum > nextSeqNum
        invariant log.Valid() && old(log.entries) <= known <= log.entries
        invariant log.Own() == old(log.Own())
        invariant base.None? && nextSeqNum <= seqNum <= tailSeqNum &&
                  Scanned(known, queueLogs, seqNum, tailSeqNum, first, d)
        invariant first ==> seqNum == tailSeqNum
        decreases seqNum
      {
        var done: bool;
        done, base, queueLogs, seqNum, known, d := ScanStep(queueLogs, seqNum, tailSeqNum, known, first, d);
        first := false;
        if done {
          return;
        }
      }
      CountBelowIs(known, nextSeqNum, d);
    }

    /** The scan has started from the tail, or has collected everything down to the entry it found last. */
    ghost predicate Scanned(known: seq<Entry>, ls: seq<Fetched>, seqNum: nat, tailSeqNum: nat, first: bool, c: nat)
      reads log
    {
      Increasing(known) &&
      if first then ls == [] && seqNum == tailSeqNum
      else c < CountBelow(known, tailSeqNum) && seqNum == known[c].seqNum &&
           Collected(log.apply, known, QueueMarks(known, name), ls, c, CountBelow(known, tailSeqNum))
    }

    /** One round of the backward scan. */
    method ScanStep(ls: seq<Fetched>, seqNum: nat, ghost tailSeqNum: nat, ghost known: seq<Entry>, ghost first: bool,
                    ghost c: nat)
        returns (done: bool, base: Option<Fetched>, ls': seq<Fetched>, seqNum': nat, ghost known': seq<Entry>,
                 ghost d: nat)
      requires log.Valid() && known <= log.entries && nextSeqNum < seqNum <= tailSeqNum
      requires Scanned(known, ls, seqNum, tailSeqNum, first, c)
      modifies log
      ensures log.Valid() && old(log.entries) <= log.entries && known <= known' <= log.entries
      ensures log.Own() == old(log.Own())
      ensures if first then old(log.entries) <= known' else known' == known
      ensures !done ==>
                base.None? && nextSeqNum <= seqNum' < seqNum && Scanned(known', ls', seqNum', tailSeqNum, false, d)
      ensures done ==> Increasing(known') && d <= CountBelow(known', tailSeqNum) &&
                       Collected(log.apply, known', QueueMarks(known', name), ls', d, CountBelow(known', tailSeqNum)) &&
                       if base.None?
                       then d == CountBelow(known', nextSeqNum)
                       else d > 0 && HasCounters(known', d - 1, base.value)
    {
      var logEntry;
      ghost var i;
      logEntry, i, known' := ScanRead(ls, seqNum, tailSeqNum, known, first, c);
      done, base, ls', seqNum', d := true, None, ls, seqNum, i;
      if logEntry.Some? {
        ls', base := CollectOne(ls, logEntry.value, known', i, CountBelow(known', tailSeqNum));
        done, seqNum' := base.Some?, logEntry.value.entry.seqNum;
        d := if done then i + 1 else i;
      }
    }

    /** The read of one round: the next entry with the queue's tag, or nothing if the rest has no such entry. */
    method ScanRead(ls: seq<Fetched>, seqNum: nat, ghost tailSeqNum: nat, ghost known: seq<Entry>, ghost first: bool,
                    ghost c: nat)
        returns (r: Option<Fetched>, ghost i: nat, ghost known': seq<Entry>)
      requires log.Valid() && known <= log.entries && nextSeqNum < seqNum <= tailSeqNum
      requires Scanned(known, ls, seqNum, tailSeqNum, first, c)
      modifies log
      ensures log.Valid() && old(log.entries) <= log.entries && known <= known' <= log.entries && Increasing(known')
      ensures log.Own() == old(log.Own())
      ensures if first then old(log.entries) <= known' else known' == known
      ensures r.None? ==> i == CountBelow(known', nextSeqNum) <= CountBelow(known', tailSeqNum) &&
                          Collected(log.apply, known', QueueMarks(known', name), ls, i, CountBelow(known', tailSeqNum))
      ensures r.Some? ==> i < CountBelow(known', tailSeqNum) && ReadIn(log.apply, known', r.value, i) &&
                          nextSeqNum <= r.value.entry.seqNum < seqNum &&
                          Collected(log.apply, known', QueueMarks(known', name), ls, i + 1,
                                    CountBelow(known', tailSeqNum))
    {
      var tag := QueueLogTag(log.hash(name));
      r, i, known' := ReadKnown(log, tag, seqNum, known, first, c);
      ghost var lo, hi := CountBelow(known', seqNum), CountBelow(known', tailSeqNum);
      if r.None? || r.value.entry.seqNum < nextSeqNum {
        r, i := None, CountBelow(known', nextSeqNum);
        CountBelowMonotone(known', nextSeqNum, seqNum);
        CollectDown(tag, known', ls, i, lo, hi);
      } else {
        CollectDown(tag, known', ls, i + 1, lo, hi);
      }
    }

    /** A record of this queue that carries the counters after itself. */
    ghost predicate HasCounters(entries: seq<Entry>, i: nat, l: Fetched)
    {
      i < |entries| && entries[i] == l.entry && l.aux.Some? && l.aux.value.QueueAux? &&
      Counters(l.aux.value.consumed, l.aux.value.tail) == CountersOf(entries[..i + 1], name)
    }

    /** Adds a record of this queue to the list, unless counters are stored with it. */
    method CollectOne(queueLogs: seq<Fetched>, l: Fetched, ghost known: seq<Entry>, ghost i: nat, ghost hi: nat)
        returns (queueLogs': seq<Fetched>, base: Option<Fetched>)
      requires i < hi <= |known| && ReadIn(log.apply, known, l, i)
      requires Collected(log.apply, known, QueueMarks(known, name), queueLogs, i + 1, hi)
      ensures base.Some? ==> queueLogs' == queueLogs && HasCounters(known, i, base.value)
      ensures base.None? ==> Collected(log.apply, known, QueueMarks(known, name), queueLogs', i, hi)
    {
      queueLogs', base := queueLogs, None;
      if !IsOf(l.entry, name) {
        CollectSkip(log.apply, known, QueueMarks(known, name), queueLogs, i, i + 1, hi);
      } else if l.aux.Some? {
        base := Some(l);
      } else {
        CollectAdd(log.apply, known, QueueMarks(known, name), queueLogs, l, i, hi);
        queueLogs' := queueLogs + [l];
      }
    }

    lemma {:induction false} StaysValid(before: seq<Entry>, entries: seq<Entry>)
      requires before <= entries <= log.entries && log.Valid() && nextSeqNum <= NextSeqNum(before)
      requires Counters(consumed, tail) == CountersOf(Below(before, nextSeqNum), name)
      ensures Valid() && Reached(entries, CountBelow(entries, nextSeqNum))
    {
      NextSeqNumGrows(before, entries);
      NextSeqNumGrows(before, log.entries);
      BelowStable(before, entries, nextSeqNum);
      BelowStable(before, log.entries, nextSeqNum);
    }

    /** Untagged entries between two positions add nothing to the list. */
    lemma {:induction false} CollectDown(tag: nat, known: seq<Entry>, ls: seq<Fetched>, lo: nat, c: nat, hi: nat)
      requires ValidLog(log.hash, known) && lo <= c <= hi <= |known|
      requires tag == QueueLogTag(log.hash(name)) && Untagged(known, tag, lo, c)
      requires Collected(log.apply, known, QueueMarks(known, name), ls, c, hi)
      ensures Collected(log.apply, known, QueueMarks(known, name), ls, lo, hi)
    {
      UntaggedNotOf(log.hash, known, name, lo, c);
      CollectSkip(log.apply, known, QueueMarks(known, name), ls, lo, c, hi);
    }

    /** Applies the collected records in log order and stores the counters with each of them. */
    method ApplyCollected(queueLogs: seq<Fetched>, ghost known: seq<Entry>, ghost lo: nat, ghost tailSeqNum: nat)
      requires log.Valid() && known <= log.entries && Reached(known, lo) && lo <= CountBelow(known, tailSeqNum)
      requires Collected(log.apply, known, QueueMarks(known, name), queueLogs, lo, CountBelow(known, tailSeqNum))
      modifies this, log
      ensures Valid() && old(log.entries) <= log.entries && Reached(known, CountBelow(known, tailSeqNum))
      ensures log.Own() == old(log.Own())
    {
      ghost var c, hi := lo, CountBelow(known, tailSeqNum);
      var i := |queueLogs|;
      while i > 0
        invariant 0 <= i <= |queueLogs| && c <= hi
        invariant log.Valid() && old(log.entries) <= log.entries
        invariant log.Own() == old(log.Own())
        invariant Collected(log.apply, known, QueueMarks(known, name), queueLogs[..i], c, hi) && Reached(known, c)
      {
        c := NextCollected(queueLogs[..i], known, c, hi);
        assert queueLogs[..i][..i - 1] == queueLogs[..i - 1];
        i := i - 1;
      }
      MarkedEmpty(QueueMarks(known, name), c, hi);
      ReachedSkip(known, c, hi);
      ReachedIsValid(known, hi);
    }

    method NextCollected(ls: seq<Fetched>, ghost known: seq<Entry>, ghost c: nat, ghost hi: nat) returns (ghost c': nat)
      requires log.Valid() && known <= log.entries && Reached(known, c) && hi <= |known|
      requires ls != [] && Collected(log.apply, known, QueueMarks(known, name), ls, c, hi)
      modifies this, log
      ensures log.Valid() && old(log.entries) <= log.entries
      ensures log.Own() == old(log.Own())
      ensures c <= c' <= hi && Collected(log.apply, known, QueueMarks(known, name), ls[..|ls| - 1], c', hi)
      ensures Reached(known, c')
    {
      var l := ls[|ls| - 1];
      ghost var x := CollectedFirst(log.apply, known, QueueMarks(known, name), ls, c, hi);
      c' := x + 1;
      ReachedSkip(known, c, x);
      ApplyAt(l, known, x);
    }

    method ApplyAt(l: Fetched, ghost known: seq<Entry>, ghost x: nat)
      requires log.Valid() && known <= log.entries && ReadIn(log.apply, known, l, x) && IsOf(l.entry, name) &&
               Reached(known, x)
      modifies this, log
      ensures log.Valid() && old(log.entries) <= log.entries && Reached(known, x + 1)
      ensures log.Own() == old(log.Own())
    {
      assert known[..x + 1] == log.entries[..x + 1];
      ReachedPrefix(known, log.entries, x);
      ApplyLog(l, x);
      SetAux(l.entry.seqNum, x);
      CountBelowIs(known, nextSeqNum, x + 1);
      assert known[..x + 1] == log.entries[..x + 1];
      NextSeqNumGrows(known[..x + 1], known);
    }

    lemma {:induction false} SkipUntagged(tag: nat, entries: seq<Entry>, m: nat, m': nat)
      requires ValidLog(log.hash, entries) && tag == QueueLogTag(log.hash(name)) && m <= m' &&
               Untagged(entries, tag, m, m')
      requires Reached(entries, m)
      ensures Reached(entries, m')
    {
      UntaggedNotOf(log.hash, entries, name, m, m');
      ReachedSkip(entries, m, m');
    }

    // -------------------------------------------------------------- operations

    /** Whether the queue is empty, as far as the handle has looked. */
    method IsEmpty() returns (empty: bool)
      requires Valid()
      ensures (empty <==> Fifo(Below(log.entries, nextSeqNum), name) == []) && (empty <==> consumed >= tail)
    {
      EmptinessTest(Below(log.entries, nextSeqNum), name);
      empty := consumed >= tail;
    }

    method Push(payload: string) returns (ok: bool)
      requires Valid()
      modifies log
      ensures Valid() && old(log.entries) <= log.entries
      ensures payload == "" ==> !ok && log.entries == old(log.entries) && log.Own() == old(log.Own())
      ensures payload != "" && !ok ==> log.Own() == old(log.Own()).Failed()
      ensures ok ==> |old(log.entries)| < |log.entries| && log.Own() == old(log.Own()).Added(|log.entries| - 1) &&
                     log.entries[|log.entries| - 1].record == QueueRecord(name, true, payload)
    {
      if payload == "" {
        return false;
      }
      var seqNum := log.Append({QueueLogTag(log.hash(name)), QueuePushLogTag(log.hash(name))},
                               QueueRecord(name, true, payload));
      StaysValid(old(log.entries), log.entries);
      ok := seqNum.Some?;
    }

    /** Appends a pop record and takes in everything before it. */
    method AppendPopLogAndSync() returns (ok: bool, ghost at: nat)
      requires Valid()
      modifies this, log
      ensures Valid() && old(log.entries) <= log.entries
      ensures ok ==>
                |old(log.entries)| <= at < |log.entries| && log.entries[at].record == QueueRecord(name, false, "") &&
                Counters(consumed, tail) == CountersOf(log.entries[..at], name)
      ensures ok ==> log.Own() == old(log.Own()).Added(at)
      ensures !ok ==>
                consumed == old(consumed) && tail == old(tail) && nextSeqNum == old(nextSeqNum) &&
                log.Own() == old(log.Own()).Failed()
    {
      var seqNum := log.Append({QueueLogTag(log.hash(name))}, QueueRecord(name, false, ""));
      StaysValid(old(log.entries), log.entries);
      if seqNum.None? {
        return false, 0;
      }
      ok, at := true, |log.entries| - 1;
      NextSeqNumGrows(old(log.entries), log.entries);
      ghost var n := SyncToBackward(seqNum.value);
      CountBelowIs(log.entries[..n], seqNum.value, at);
      assert log.entries[..n][..at] == log.entries[..at];
    }

    /** Appends a pop record and finds what an abstract queue dequeues at that very record. */
    method PopOnce() returns (r: PopResult, ghost at: nat)
      requires Valid()
      modifies this, log
      ensures Valid() && old(log.entries) <= log.entries
      ensures r.AppendFailed? ==> log.Own() == old(log.Own()).Failed()
      ensures !r.AppendFailed? ==> log.Own() == old(log.Own()).Added(at) &&
                                   Served(log.entries, name, Call(log.me, |old(log.entries)|, |log.entries|, at), r)
    {
      var ok;
      ok, at := AppendPopLogAndSync();
      if !ok {
        return AppendFailed, 0;
      }
      r := FindFront(at);
      assert at in log.Own().records;
    }

    /** What the counters of a history say is at the front of its queue. */
    method FindFront(ghost at: nat) returns (r: PopResult)
      requires Valid() && at <= |log.entries| && Counters(consumed, tail) == CountersOf(log.entries[..at], name)
      modifies log
      ensures Valid() && old(log.entries) <= log.entries && r == Front(log.entries[..at], name)
      ensures log.Own() == old(log.Own())
    {
      ghost var p, before := log.entries[..at], log.entries;
      Representation(p, name);
      var next := FirstQueued(at);
      StaysValid(before, log.entries);
      assert log.entries[..at] == p;
      r := if next.Some? then Popped(next.value.record.payload) else Empty;
    }

    /**
     Pops. If the handle knows of no element even after looking at the whole log, the queue was
     empty at that moment and nothing is appended; otherwise the queue has held something, and the pop
     record decides.
     */
    method Pop() returns (r: PopResult, ghost appended: bool, ghost at: nat)
      requires Valid()
      modifies this, log
      ensures Valid() && old(log.entries) <= log.entries
      ensures r.AppendFailed? ==> !appended && log.Own() == old(log.Own()).Failed()
      ensures !appended && !r.AppendFailed? ==>
                log.Own() == old(log.Own()) && |old(log.entries)| <= at <= |log.entries| &&
                r == Empty == Front(log.entries[..at], name)
      ensures appended ==> !r.AppendFailed? && log.Own() == old(log.Own()).Added(at) &&
                           Served(log.entries, name, Call(log.me, |old(log.entries)|, |log.entries|, at), r) &&
                           SeenFull(log.entries, name, at)
    {
      var empty := IsEmpty();
      if empty {
        at := SyncToEnd();
        empty := IsEmpty();
        if empty {
          EmptinessTest(log.entries[..at], name);
          return Empty, false, at;
        }
      }
      ghost var before := log.entries;
      HandleSeesFull();
      r, at := PopOnce();
      if !r.AppendFailed? {
        SeenFullStays(before, log.entries, name, |before|, at);
      }
      appended := !r.AppendFailed?;
    }

    lemma {:induction false} HandleSeesFull()
      requires Valid() && consumed < tail
      ensures SeenFull(log.entries, name, |log.entries|)
    {
      EmptinessTest(Below(log.entries, nextSeqNum), name);
      assert Below(log.entries, nextSeqNum) == log.entries[..CountBelow(log.entries, nextSeqNum)];
    }

    /** Takes in the whole log as it stands at some moment of the call. */
    method SyncToEnd() returns (ghost n: nat)
      requires Valid()
      modifies this, log
      ensures Valid() && old(log.entries) <= log.entries && |old(log.entries)| <= n <= |log.entries|
      ensures log.Own() == old(log.Own())
      ensures Counters(consumed, tail) == CountersOf(log.entries[..n], name)
    {
      AllBelowMax();
      n := SyncToBackward(MAX_SEQNUM);
      ghost var p := log.entries[..n];
      assert n > 0 ==> WellFormed(log.hash, log.entries[n - 1]);
      CountBelowIs(p, MAX_SEQNUM, n);
      assert p[..n] == p;
    }

    lemma {:induction false} AllBelowMax()
      requires log.Valid()
      ensures NextSeqNum(log.entries) <= MAX_SEQNUM
    {
      if log.entries != [] { assert WellFormed(log.hash, log.entries[|log.entries| - 1]); }
    }

    /**
     All these pop records were appended after `from`, when the queue had held something, and found it empty at
     their own place.
     */
    ghost predicate EmptyPops(entries: seq<Entry>, from: nat, pops: set<nat>)
    {
      forall i :: i in pops ==> EmptyPop(entries, from, i)
    }

    ghost predicate EmptyPop(entries: seq<Entry>, from: nat, i: nat)
    {
      from <= i < |entries| && IsPop(entries[i], name) && Front(entries[..i], name) == Empty &&
      SeenFull(entries, name, i)
    }

    lemma {:induction false} EmptyPopsGrow(before: seq<Entry>, entries: seq<Entry>, from: nat, pops: set<nat>)
      requires before <= entries && EmptyPops(before, from, pops)
      ensures EmptyPops(entries, from, pops)
    {
      forall i | i in pops
        ensures EmptyPop(entries, from, i)
      {
        assert EmptyPop(before, from, i);
        assert entries[..i] == before[..i];
        SeenFullStays(before, entries, name, i, i);
      }
    }

    // -------------------------------------------------------------- waiting for a push

    /** The next entry with the push tag of this queue in the whole log; pushes of this queue are among them. */
    method ReadPush(seqNum: nat) returns (r: Option<Entry>, ghost i: nat)
      requires log.Valid()
      modifies log
      ensures log.Valid() && old(log.entries) <= log.entries && log.Own() == old(log.Own())
      ensures r.None? ==> NoPushes(log.entries, seqNum, MAX_SEQNUM)
      ensures r.Some? ==> i < |log.entries| && log.entries[i] == r.value && seqNum <= r.value.seqNum < MAX_SEQNUM &&
                          NoPushes(log.entries, seqNum, r.value.seqNum)
    {
      var tag := QueuePushLogTag(log.hash(name));
      var logEntry;
      logEntry, i := log.ReadNext(tag, seqNum);
      forall j | 0 <= j < |log.entries| && IsPush(log.entries[j], name)
        ensures HasTag(log.entries[j], tag)
      {
        TagsCoverWrites(log.hash, log.entries[j]);
      }
      r := if logEntry.None? then None else Some(logEntry.value.entry);
      assert r.Some? ==> WellFormed(log.hash, log.entries[i]);
    }

    lemma {:induction false} NoPushesGrow(before: seq<Entry>, entries: seq<Entry>, lo: nat, hi: nat)
      requires before <= entries && Increasing(entries) && hi <= NextSeqNum(before) && NoPushes(before, lo, hi)
      ensures NoPushes(entries, lo, hi)
    {
      NextSeqNumGrows(before, entries);
      forall j | 0 <= j < |entries| && IsPush(entries[j], name)
        ensures !(lo <= entries[j].seqNum < hi)
      {
        assert j < |before| ==> entries[j] == before[j];
      }
    }

    /**
     Blocks until there is a push after what the handle has taken in, which is an empty queue. It gives up only
     after a read that finds no such push: the queue is still empty then.
     */
    method AwaitPush(patience: nat) returns (arrived: bool, ghost n: nat)
      requires Valid() && consumed >= tail
      modifies log
      ensures Valid() && old(log.entries) <= log.entries && log.Own() == old(log.Own())
      ensures arrived ==> SeenFull(log.entries, name, |log.entries|)
      ensures !arrived ==> |old(log.entries)| <= n <= |log.entries| && Front(log.entries[..n], name) == Empty
    {
      var seqNum, left := nextSeqNum, patience;
      AllBelowMax();
      while true
        invariant Valid() && consumed >= tail && old(log.entries) <= log.entries && log.Own() == old(log.Own())
        invariant nextSeqNum <= seqNum <= NextSeqNum(log.entries) <= MAX_SEQNUM
        invariant NoPushes(log.entries, nextSeqNum, seqNum)
        decreases left, MAX_SEQNUM - seqNum
      {
        var e, i := WaitStep(seqNum);
        if e.None? {
          if left == 0 {
            NothingArrived();
            return false, |log.entries|;
          }
          left := left - 1;
        } else if IsPush(e.value, name) {
          PushFills(log.entries, name, i);
          return true, 0;
        } else {
          seqNum := e.value.seqNum + 1;
        }
      }
    }

    /** One blocking read: it ends with an entry or with nothing after a while. */
    method WaitStep(seqNum: nat) returns (e: Option<Entry>, ghost i: nat)
      requires Valid() && nextSeqNum <= seqNum <= NextSeqNum(log.entries) && NoPushes(log.entries, nextSeqNum, seqNum)
      modifies log
      ensures Valid() && old(log.entries) <= log.entries && log.Own() == old(log.Own())
      ensures NextSeqNum(old(log.entries)) <= NextSeqNum(log.entries) <= MAX_SEQNUM
      ensures NoPushes(log.entries, nextSeqNum, seqNum)
      ensures e.None? ==> NoPushes(log.entries, nextSeqNum, MAX_SEQNUM)
      ensures e.Some? ==> i < |log.entries| && log.entries[i] == e.value && seqNum <= e.value.seqNum &&
                          e.value.seqNum < NextSeqNum(log.entries) && NoPushes(log.entries, nextSeqNum, e.value.seqNum)
    {
      ghost var before := log.entries;
      e, i := ReadPush(seqNum);
      StaysValid(before, log.entries);
      NoPushesGrow(before, log.entries, nextSeqNum, seqNum);
      NextSeqNumGrows(before, log.entries);
      AllBelowMax();
      if e.Some? {
        NextSeqNumGrows(log.entries[..i + 1], log.entries);
      }
    }

    lemma {:induction false} NothingArrived()
      requires Valid() && consumed >= tail && NoPushes(log.entries, nextSeqNum, MAX_SEQNUM)
      ensures Front(log.entries[..|log.entries|], name) == Empty
    {
      var c := CountBelow(log.entries, nextSeqNum);
      EmptinessTest(log.entries[..c], name);
      forall k | c <= k < |log.entries|
        ensures !IsPush(log.entries[k], name)
      {
        assert WellFormed(log.hash, log.entries[k]);
        CountBelowMonotone(log.entries, nextSeqNum, log.entries[k].seqNum);
      }
      StaysEmpty(log.entries, name, c, |log.entries|);
    }

    /** The queue was empty at `n`: at the last of one pop record for each round, or later than all there are. */
    ghost predicate GaveUpAt(entries: seq<Entry>, from: nat, rounds: nat, pops: set<nat>, n: nat)
    {
      from <= n <= |entries| && Front(entries[..n], name) == Empty && (forall k :: k in pops ==> k <= n) &&
      if n in pops then |pops| == rounds else |pops| < rounds
    }

    /** One pop record for each round so far found the queue empty; the last is at `n`. */
    ghost predicate Tried(entries: seq<Entry>, from: nat, rounds: nat, pops: set<nat>, n: nat)
    {
      EmptyPops(entries, from, pops) && |pops| == rounds &&
      (rounds > 0 ==> n in pops && forall k :: k in pops ==> k <= n)
    }

    /** After another round: one more pop record that found nothing, one that did, or a wait in vain. */
    lemma {:induction false} TriedMore(before: seq<Entry>, entries: seq<Entry>, from: nat, rounds: nat, pops: set<nat>,
                                       n: nat, at: nat)
      requires before <= entries && Tried(before, from, rounds, pops, n) && |before| <= at
      ensures EmptyPops(entries, from, pops) && at !in pops && forall k :: k in pops ==> k < at
      ensures EmptyPop(entries, from, at) ==> Tried(entries, from, rounds + 1, pops + {at}, at)
    {
      EmptyPopsGrow(before, entries, from, pops);
      assert forall k :: k in pops ==> EmptyPop(before, from, k);
    }

    /**
     What a blocking pop leaves: its pop records are exactly `pops`, which found the queue empty at their own
     place, and the successful one, which got what the queue dequeues there. It gives up only if the queue was
     empty at `n`, during the call.
     */
    ghost predicate Leaves(entries: seq<Entry>, c: Call, rounds: nat, own: Footprint, own': Footprint, r: PopResult,
                           pops: set<nat>, n: nat)
    {
      EmptyPops(entries, c.start, pops) && own' == Ended(own, pops, r, c.at) &&
      (r.Popped? ==> c.at !in pops && SeenFull(entries, name, c.at) && Served(entries, name, c, r)) &&
      (r == Empty && rounds > 0 ==> GaveUpAt(entries, c.start, rounds, pops, n))
    }

    /** The pop records of a call and how it ended. */
    function Ended(own: Footprint, pops: set<nat>, r: PopResult, at: nat): Footprint
    {
      Footprint(own.records + pops + if r.Popped? then {at} else {}, own.failures + if r.AppendFailed? then 1 else 0)
    }

    /** Pops, retrying while other clients are faster; rounds and patience stand for the clock. */
    method PopBlocking(rounds: nat, patience: nat)
        returns (r: PopResult, ghost pops: set<nat>, ghost at: nat, ghost n: nat)
      requires Valid()
      modifies this, log
      ensures Valid() && old(log.entries) <= log.entries
      ensures Leaves(log.entries, Call(log.me, |old(log.entries)|, |log.entries|, at), rounds,
                     old(log.Own()), log.Own(), r, pops, n)
    {
      ghost var from, own := |log.entries|, log.Own();
      pops, at, n := {}, 0, 0;
      for i := 0 to rounds
        invariant Valid() && old(log.entries) <= log.entries && log.Own() == Ended(own, pops, Empty, 0)
        invariant Tried(log.entries, from, i, pops, n)
      {
        var again;
        r, again, at, pops, n := TryRound(patience, from, own, i, rounds, pops, n);
        if !again {
          return;
        }
      }
      r := Empty;
      AllTried(log.entries, Call(log.me, from, |log.entries|, at), rounds, own, pops, n);
    }

    lemma {:induction false} AllTried(entries: seq<Entry>, c: Call, rounds: nat, own: Footprint, pops: set<nat>, n: nat)
      requires Tried(entries, c.start, rounds, pops, n)
      ensures Leaves(entries, c, rounds, own, Ended(own, pops, Empty, 0), Empty, pops, n)
    {
      assert rounds > 0 ==> EmptyPop(entries, c.start, n);
    }

    /** One more round of a call: how it ends the call, or what the call has done so far. */
    method TryRound(patience: nat, ghost from: nat, ghost own: Footprint, ghost i: nat, ghost rounds: nat,
                    ghost pops: set<nat>, ghost n: nat)
        returns (r: PopResult, again: bool, ghost at: nat, ghost pops': set<nat>, ghost n': nat)
      requires Valid() && from <= |log.entries| && Tried(log.entries, from, i, pops, n) && i < rounds
      requires log.Own() == Ended(own, pops, Empty, 0)
      modifies this, log
      ensures Valid() && old(log.entries) <= log.entries
      ensures again ==> log.Own() == Ended(own, pops', Empty, 0) && Tried(log.entries, from, i + 1, pops', n')
      ensures !again ==>
                Leaves(log.entries, Call(log.me, from, |log.entries|, at), rounds, own, log.Own(), r, pops', n')
    {
      var vain;
      r, vain, at := PopRound(patience);
      again := r.Empty? && !vain;
      pops', n' := if again then pops + {at} else pops, at;
      ghost var c := Call(log.me, from, |log.entries|, at);
      RoundEnds(old(log.entries), log.entries, c, own, log.Own(), i, rounds, pops, n, r, vain);
    }

    /** A round ended in one of the ways it can end. */
    lemma {:induction false} RoundEnds(before: seq<Entry>, entries: seq<Entry>, c: Call, own: Footprint,
                                       own': Footprint, i: nat, rounds: nat, pops: set<nat>, n: nat, r: PopResult,
                                       vain: bool)
      requires before <= entries && c.start <= |before| && Tried(before, c.start, i, pops, n) && i < rounds
      requires vain ==> own' == Ended(own, pops, Empty, 0)
      requires r.AppendFailed? ==> own' == Ended(own, pops, Empty, 0).Failed()
      requires vain ==> r == Empty && |before| <= c.at <= |entries| && Front(entries[..c.at], name) == Empty
      requires !vain && !r.AppendFailed? ==>
                 own' == Ended(own, pops, Empty, 0).Added(c.at) && |before| <= c.at && SeenFull(entries, name, c.at) &&
                 Served(entries, name, c, r)
      ensures if r.Empty? && !vain
              then own' == Ended(own, pops + {c.at}, Empty, 0) && Tried(entries, c.start, i + 1, pops + {c.at}, c.at)
              else Leaves(entries, c, rounds, own, own', r, pops, c.at)
    {
      TriedMore(before, entries, c.start, i, pops, n, if r.AppendFailed? then |before| else c.at);
      AddOne(own.records, pops, c.at);
    }

    /**
     One round: looks at the whole log if the handle knows of no element, waits for a push if there is none, and
     then appends a pop record, unless the wait was in vain.
     */
    method PopRound(patience: nat) returns (r: PopResult, vain: bool, ghost at: nat)
      requires Valid()
      modifies this, log
      ensures Valid() && old(log.entries) <= log.entries
      ensures vain ==> log.Own() == old(log.Own())
      ensures r.AppendFailed? ==> !vain && log.Own() == old(log.Own()).Failed()
      ensures vain ==>
                r == Empty && |old(log.entries)| <= at <= |log.entries| && Front(log.entries[..at], name) == Empty
      ensures !vain && !r.AppendFailed? ==>
                log.Own() == old(log.Own()).Added(at) && SeenFull(log.entries, name, at) &&
                Served(log.entries, name, Call(log.me, |old(log.entries)|, |log.entries|, at), r)
    {
      vain := false;
      var empty := IsEmpty();
      if empty {
        ghost var n := SyncToEnd();
        empty := IsEmpty();
      }
      if empty {
        var arrived;
        arrived, at := AwaitPush(patience);
        if !arrived {
          return Empty, true, at;
        }
      } else {
        HandleSeesFull();
      }
      ghost var before := log.entries;
      r, at := PopOnce();
      if !r.AppendFailed? {
        SeenFullStays(before, log.entries, name, |before|, at);
      }
    }
  }

  /** Opens a queue: the counters are those of the log as it stands at some moment of the call. */
  method NewQueue(log: SharedLog, name: string) returns (q: Queue, ghost n: nat)
    requires log.Valid()
    modifies log
    ensures fresh(q) && q.log == log && q.name == name && q.Valid()
    ensures old(log.entries) <= log.entries && log.Own() == old(log.Own()) && |old(log.entries)| <= n <= |log.entries|
    ensures Counters(q.consumed, q.tail) == CountersOf(log.entries[..n], name)
  {
    q := new Queue(log, name);
    n := q.SyncToEnd();
  }

  /** Entries without the tag of a queue do not belong to it. */
  lemma {:induction false} UntaggedNotOf(hash: string -> nat, log: seq<Entry>, name: string, lo: nat, hi: nat)
    requires ValidLog(hash, log) && Untagged(log, QueueLogTag(hash(name)), lo, hi)
    ensures forall k :: lo <= k < hi ==> !IsOf(log[k], name)
  {
    forall k | lo <= k < hi
      ensures !IsOf(log[k], name)
    {
      TagsCoverWrites(hash, log[k]);
    }
  }
}
