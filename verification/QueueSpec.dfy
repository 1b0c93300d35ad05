/**
 What the log means for a queue: an abstract FIFO fed by push and pop records, the two counters
 the client keeps instead of it, and the law that ties them together.
 */
module QueueSpec {
  import opened Logs

  predicate IsPush(e: Entry, name: string)
  {
    e.record.QueueRecord? && e.record.queueName == name && e.record.isPush
  }

  predicate IsPop(e: Entry, name: string)
  {
    e.record.QueueRecord? && e.record.queueName == name && !e.record.isPush
  }

  /** The abstract queue after a history, as the push entries it still holds. */
  ghost function Fifo(p: seq<Entry>, name: string): (q: seq<Entry>)
    ensures forall k :: 0 <= k < |q| ==> IsPush(q[k], name)
    decreases |p|
  {
    if p == [] then []
    else
      var before, e := Fifo(p[..|p| - 1], name), p[|p| - 1];
      if IsPush(e, name) then before + [e]
      else if IsPop(e, name) && before != [] then before[1..]
      else before
  }

  datatype PopResult = Popped(payload: string) | Empty | AppendFailed

  /** What a pop that comes right after a history gets. */
  ghost function Front(p: seq<Entry>, name: string): PopResult
  {
    var q := Fifo(p, name);
    if q != [] then Popped(q[0].record.payload) else Empty
  }

  /** The entries the pop records of a history took out, in the order of the pops. */
  ghost function Dequeued(p: seq<Entry>, name: string): seq<Entry>
    decreases |p|
  {
    if p == [] then []
    else
      var out, q, e := Dequeued(p[..|p| - 1], name), Fifo(p[..|p| - 1], name), p[|p| - 1];
      if IsPop(e, name) && q != [] then out + [q[0]] else out
  }

  /** The push entries of a history whose sequence numbers lie in `[lo, hi)`. */
  ghost function PushesIn(p: seq<Entry>, name: string, lo: nat, hi: nat): seq<Entry>
    decreases |p|
  {
    if p == [] then []
    else
      var ws, e := PushesIn(p[..|p| - 1], name, lo, hi), p[|p| - 1];
      if IsPush(e, name) && lo <= e.seqNum < hi then ws + [e] else ws
  }

  /** The counters of the client library after a history. */
  datatype Counters = Counters(consumed: nat, tail: nat)

  /** What one record of the queue does to the counters. */
  ghost function Advance(p: seq<Entry>, name: string, c: Counters, e: Entry): Counters
  {
    if IsPush(e, name) then c.(tail := e.seqNum + 1)
    else if IsPop(e, name) then
      var window := PushesIn(p, name, c.consumed, c.tail);
      c.(consumed := if window != [] then window[0].seqNum + 1 else e.seqNum)
    else c
  }

  ghost function CountersOf(p: seq<Entry>, name: string): Counters
    decreases |p|
  {
    if p == [] then Counters(0, 0)
    else
      var before := p[..|p| - 1];
      Advance(before, name, CountersOf(before, name), p[|p| - 1])
  }

  predicate IsOf(e: Entry, name: string) { e.record.QueueRecord? && e.record.queueName == name }

  /** Which entries of a log belong to a queue. */
  ghost function QueueMarks(log: seq<Entry>, name: string): (marks: seq<bool>)
    ensures |marks| == |log| && forall i :: 0 <= i < |log| ==> marks[i] == IsOf(log[i], name)
  {
    seq(|log|, i requires 0 <= i < |log| => IsOf(log[i], name))
  }

  /** Records of other queues leave the counters alone. */
  lemma {:induction false} CountersSkip(log: seq<Entry>, name: string, i: nat, j: nat)
    requires i <= j <= |log|
    requires forall k :: i <= k < j ==> !IsOf(log[k], name)
    ensures CountersOf(log[..i], name) == CountersOf(log[..j], name)
    decreases j
  {
    if i < j {
      CountersSkip(log, name, i, j - 1);
      assert log[..j][..j - 1] == log[..j - 1];
    }
  }

  lemma {:induction false} CountersStep(log: seq<Entry>, name: string, i: nat)
    requires i < |log|
    ensures CountersOf(log[..i + 1], name) == Advance(log[..i], name, CountersOf(log[..i], name), log[i])
  {
    assert log[..i + 1][..i] == log[..i];
  }

  // ---------------------------------------------------------------- windows of pushes

  lemma {:induction false} PushesInIs(p: seq<Entry>, name: string, lo: nat, hi: nat)
    ensures forall k :: 0 <= k < |PushesIn(p, name, lo, hi)| ==>
              var e := PushesIn(p, name, lo, hi)[k]; e in p && IsPush(e, name) && lo <= e.seqNum < hi
    ensures forall e :: e in p && IsPush(e, name) && lo <= e.seqNum < hi ==> e in PushesIn(p, name, lo, hi)
    decreases |p|
  {
    if p != [] {
      PushesInIs(p[..|p| - 1], name, lo, hi);
      assert p == p[..|p| - 1] + [p[|p| - 1]];
    }
  }

  lemma {:induction false} PushesInSorted(p: seq<Entry>, name: string, lo: nat, hi: nat)
    requires Increasing(p)
    ensures Increasing(PushesIn(p, name, lo, hi))
    decreases |p|
  {
    if p != [] {
      PushesInSorted(p[..|p| - 1], name, lo, hi);
      PushesInIs(p[..|p| - 1], name, lo, hi);
    }
  }

  lemma {:induction false} PushesInNone(p: seq<Entry>, name: string, lo: nat, hi: nat)
    requires forall e :: e in p && IsPush(e, name) ==> !(lo <= e.seqNum < hi)
    ensures PushesIn(p, name, lo, hi) == []
    decreases |p|
  {
    if p != [] { PushesInNone(p[..|p| - 1], name, lo, hi); }
  }

  lemma {:induction false} PushesInFirst(p: seq<Entry>, name: string, lo: nat, hi: nat, i: nat)
    requires i < |p| && IsPush(p[i], name) && lo <= p[i].seqNum < hi
    requires forall j :: 0 <= j < i && IsPush(p[j], name) ==> p[j].seqNum < lo
    ensures PushesIn(p, name, lo, hi) != [] && PushesIn(p, name, lo, hi)[0] == p[i]
    decreases |p|
  {
    if i < |p| - 1 {
      PushesInFirst(p[..|p| - 1], name, lo, hi, i);
    } else {
      PushesInNone(p[..i], name, lo, hi);
    }
  }

  /** Two windows that admit the same entries hold the same pushes. */
  lemma {:induction false} PushesInSame(p: seq<Entry>, name: string, lo: nat, hi: nat, lo': nat, hi': nat)
    requires forall e :: e in p && IsPush(e, name) ==> (lo <= e.seqNum < hi <==> lo' <= e.seqNum < hi')
    ensures PushesIn(p, name, lo, hi) == PushesIn(p, name, lo', hi')
    decreases |p|
  {
    if p != [] { PushesInSame(p[..|p| - 1], name, lo, hi, lo', hi'); }
  }

  /** Moving the lower bound past the first push of a window removes exactly that push. */
  lemma {:induction false} PushesInDropFirst(p: seq<Entry>, name: string, lo: nat, hi: nat)
    requires Increasing(p) && PushesIn(p, name, lo, hi) != []
    ensures PushesIn(p, name, PushesIn(p, name, lo, hi)[0].seqNum + 1, hi) == PushesIn(p, name, lo, hi)[1..]
    decreases |p|
  {
    var before, e := p[..|p| - 1], p[|p| - 1];
    var ws := PushesIn(before, name, lo, hi);
    if ws != [] {
      PushesInDropFirst(before, name, lo, hi);
      PushesInIs(before, name, lo, hi);
      assert ws[0] in before;
    } else {
      PushesInNone(before, name, e.seqNum + 1, hi);
    }
  }

  // ---------------------------------------------------------------- the two counters represent the queue

  lemma {:induction false} CountersBounds(p: seq<Entry>, name: string)
    requires Increasing(p)
    ensures var c := CountersOf(p, name);
            c.consumed <= NextSeqNum(p) && c.tail <= NextSeqNum(p) &&
            (forall e :: e in p && IsPush(e, name) ==> e.seqNum < c.tail) &&
            (c.tail == 0 || exists e :: e in p && IsPush(e, name) && e.seqNum + 1 == c.tail)
    decreases |p|
  {
    if p != [] {
      var before, e := p[..|p| - 1], p[|p| - 1];
      CountersBounds(before, name);
      var c := CountersOf(before, name);
      PushesInIs(before, name, c.consumed, c.tail);
      assert p == before + [e];
      assert NextSeqNum(before) <= e.seqNum;
    }
  }

  /** The pushes between the two counters are exactly the abstract queue. */
  lemma {:induction false} Representation(p: seq<Entry>, name: string)
    requires Increasing(p)
    ensures var c := CountersOf(p, name); PushesIn(p, name, c.consumed, c.tail) == Fifo(p, name)
    decreases |p|
  {
    if p != [] {
      var before, e := p[..|p| - 1], p[|p| - 1];
      var c, c' := CountersOf(before, name), CountersOf(p, name);
      Representation(before, name);
      CountersBounds(before, name);
      if IsPush(e, name) {
        PushesInSame(before, name, c.consumed, c.tail, c.consumed, c'.tail);
      } else if IsPop(e, name) {
        if Fifo(before, name) != [] {
          PushesInDropFirst(before, name, c.consumed, c.tail);
        } else {
          PushesInIs(before, name, c.consumed, c.tail);
          PushesInSame(before, name, c.consumed, c.tail, c'.consumed, c'.tail);
        }
      }
    }
  }

  /** The client's emptiness test, which compares the counters only, is exact. */
  lemma {:induction false} EmptinessTest(p: seq<Entry>, name: string)
    requires Increasing(p)
    ensures CountersOf(p, name).consumed >= CountersOf(p, name).tail <==> Fifo(p, name) == []
  {
    var c := CountersOf(p, name);
    Representation(p, name);
    CountersBounds(p, name);
    PushesInIs(p, name, c.consumed, c.tail);
    if c.consumed < c.tail {
      var e :| e in p && IsPush(e, name) && e.seqNum + 1 == c.tail;
      assert e in PushesIn(p, name, c.consumed, c.tail);
    }
  }

  // ---------------------------------------------------------------- first in, first out

  /** Conservation: what was pushed is what was dequeued followed by what is still queued. */
  lemma {:induction false} FirstInFirstOut(p: seq<Entry>, name: string)
    requires Increasing(p)
    ensures PushesIn(p, name, 0, NextSeqNum(p)) == Dequeued(p, name) + Fifo(p, name)
    decreases |p|
  {
    if p != [] {
      var before, e := p[..|p| - 1], p[|p| - 1];
      FirstInFirstOut(before, name);
      PushesInSame(before, name, 0, NextSeqNum(before), 0, NextSeqNum(p));
      if IsPop(e, name) && Fifo(before, name) != [] {
        var q := Fifo(before, name);
        assert q == [q[0]] + q[1..];
      }
    }
  }

  lemma {:induction false} DequeuedGrows(log: seq<Entry>, name: string, i: nat, j: nat)
    requires i <= j <= |log|
    ensures Dequeued(log[..i], name) <= Dequeued(log[..j], name)
    decreases j
  {
    if i < j {
      DequeuedGrows(log, name, i, j - 1);
      assert log[..j][..j - 1] == log[..j - 1];
    }
  }

  /** Two pop records that both find something take different pushes, the earlier pop the earlier push. */
  lemma {:induction false} PopsTakePushesInOrder(log: seq<Entry>, name: string, i: nat, j: nat)
    requires Increasing(log) && i < j < |log| && IsPop(log[i], name) && IsPop(log[j], name)
    requires Fifo(log[..i], name) != [] && Fifo(log[..j], name) != []
    ensures Fifo(log[..i], name)[0].seqNum < Fifo(log[..j], name)[0].seqNum
  {
    var p, q := log[..i + 1], log[..j + 1];
    assert p[..i] == log[..i] && q[..j] == log[..j];
    var early, late := Dequeued(p, name), Dequeued(q, name);
    DequeuedGrows(log, name, i + 1, j);
    FirstInFirstOut(q, name);
    PushesInSorted(q, name, 0, NextSeqNum(q));
    var pushes := PushesIn(q, name, 0, NextSeqNum(q));
    assert early[|early| - 1] == late[|early| - 1] == pushes[|early| - 1];
    assert late[|late| - 1] == pushes[|late| - 1];
  }

  // ---------------------------------------------------------------- when the queue is empty

  lemma {:induction false} PushFills(log: seq<Entry>, name: string, i: nat)
    requires i < |log| && IsPush(log[i], name)
    ensures Fifo(log[..i + 1], name) != []
  {
    assert log[..i + 1][..i] == log[..i];
  }

  /** An empty queue stays empty until the next push. */
  lemma {:induction false} StaysEmpty(log: seq<Entry>, name: string, i: nat, j: nat)
    requires i <= j <= |log| && Fifo(log[..i], name) == [] && forall k :: i <= k < j ==> !IsPush(log[k], name)
    ensures Fifo(log[..j], name) == []
    decreases j
  {
    if i < j {
      StaysEmpty(log, name, i, j - 1);
      assert log[..j][..j - 1] == log[..j - 1];
    }
  }

  /** At some moment up to a place in the log the queue held something. */
  ghost predicate SeenFull(log: seq<Entry>, name: string, at: nat)
  {
    exists k :: 0 <= k <= at <= |log| && Fifo(log[..k], name) != []
  }

  lemma {:induction false} SeenFullStays(log: seq<Entry>, longer: seq<Entry>, name: string, at: nat, later: nat)
    requires log <= longer && SeenFull(log, name, at) && at <= later <= |longer|
    ensures SeenFull(longer, name, later)
  {
    var k :| 0 <= k <= at <= |log| && Fifo(log[..k], name) != [];
    assert longer[..k] == log[..k];
  }

  // ---------------------------------------------------------------- calls of many clients

  /** The call appended a pop record and got what the abstract queue dequeues at that very record. */
  ghost predicate Served(log: seq<Entry>, name: string, c: Call, r: PopResult)
  {
    MadeBy(log, c) && IsPop(log[c.at], name) && r == Front(log[..c.at], name)
  }

  /** Calls stay served however the log grows. */
  lemma {:induction false} ServedStays(log: seq<Entry>, longer: seq<Entry>, name: string, c: Call, r: PopResult)
    requires log <= longer && Served(log, name, c, r)
    ensures Served(longer, name, c, r)
  {
    assert longer[..c.at] == log[..c.at];
  }

  /**
   Two successful calls of any clients, not the same call, return different pushes; whoever's record is
   first in the log gets the earlier push. A client makes one call after the other.
   */
  lemma {:induction false} CallsTakeDifferentPushes(log: seq<Entry>, name: string, a: Call, r: PopResult, b: Call,
                                                    s: PopResult)
    requires Increasing(log) && Served(log, name, a, r) && Served(log, name, b, s) && r.Popped? && s.Popped?
    requires Apart(a, b)
    ensures Fifo(log[..a.at], name) != [] && r.payload == Fifo(log[..a.at], name)[0].record.payload
    ensures Fifo(log[..b.at], name) != [] && s.payload == Fifo(log[..b.at], name)[0].record.payload
    ensures a.at != b.at
    ensures a.at < b.at <==> Fifo(log[..a.at], name)[0].seqNum < Fifo(log[..b.at], name)[0].seqNum
    ensures Fifo(log[..a.at], name)[0].seqNum != Fifo(log[..b.at], name)[0].seqNum
  {
    if a.at < b.at {
      PopsTakePushesInOrder(log, name, a.at, b.at);
    } else {
      PopsTakePushesInOrder(log, name, b.at, a.at);
    }
  }
}
