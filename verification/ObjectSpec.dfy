/**
 What the log means for the object store, said without caches, scans or tags. Every notion is
 a function of a history: the part of the log up to and including the entry in question, so
 that later appends cannot change it.
 */
module ObjectSpec {
  import opened Logs

  /** `f` would invalidate the transaction that `e` commits, if `f` takes effect. */
  predicate Conflicts(e: Entry, f: Entry)
    requires IsTxnCommit(e)
  {
    f.seqNum > e.record.txnId && WriteSet(e) * WriteSet(f) != {}
  }

  /**
   The last entry of a history takes effect: plain writes always do, and a commit record does
   exactly when no effective entry with an overlapping write set lies between the beginning of
   its transaction and itself.
   */
  ghost predicate Effective(p: seq<Entry>)
    requires p != []
    decreases |p|
  {
    var e := p[|p| - 1];
    IsNormalOp(e) ||
    (IsTxnCommit(e) && forall j :: 0 <= j < |p| - 1 && Conflicts(e, p[j]) ==> !Effective(p[..j + 1]))
  }

  /** The entry at an index of the log takes effect and writes an object. */
  ghost predicate Touches(log: seq<Entry>, i: int, name: string)
  {
    0 <= i < |log| && name in WriteSet(log[i]) && Effective(log[..i + 1])
  }

  /** The operations of a record that concern one object, applied in order. */
  ghost function ApplyOps(apply: Applier, c: Contents, ops: seq<WriteOp>, name: string): Contents
    decreases |ops|
  {
    if ops == [] then c
    else
      var rest := ApplyOps(apply, c, ops[..|ops| - 1], name);
      var op := ops[|ops| - 1];
      if op.objName == name then apply(rest, op).0 else rest
  }

  /** The contents of one object after a history: the fold of its effective entries. */
  ghost function Replay(apply: Applier, p: seq<Entry>, name: string): Contents
    decreases |p|
  {
    if p == [] then map[]
    else
      var before := Replay(apply, p[..|p| - 1], name);
      if Touches(p, |p| - 1, name) then ApplyOps(apply, before, p[|p| - 1].record.ops, name)
      else before
  }

  /** Extending a history past entries that do not touch an object leaves its contents alone. */
  lemma {:induction false} ReplaySkip(apply: Applier, log: seq<Entry>, name: string, i: nat, j: nat)
    requires i <= j <= |log|
    requires forall k :: i <= k < j ==> !Touches(log, k, name)
    ensures Replay(apply, log[..i], name) == Replay(apply, log[..j], name)
    decreases j - i
  {
    if i < j {
      ReplaySkip(apply, log, name, i, j - 1);
      assert log[..j][..j - 1] == log[..j - 1];
      assert log[..j][..|log[..j]|] == log[..j];
      assert !Touches(log, j - 1, name);
    }
  }

  /** One step of the fold, stated on a log instead of a history. */
  lemma {:induction false} ReplayStep(apply: Applier, log: seq<Entry>, name: string, i: nat)
    requires i < |log|
    ensures Replay(apply, log[..i + 1], name) ==
            if Touches(log, i, name)
            then ApplyOps(apply, Replay(apply, log[..i], name), log[i].record.ops, name)
            else Replay(apply, log[..i], name)
  {
    var p := log[..i + 1];
    assert p[..i] == log[..i];
    assert p[..|p|] == p;
    assert Touches(p, i, name) == Touches(log, i, name);
  }

  datatype View = View(nextSeqNum: nat, contents: Contents)

  /** The sequence number after the last of the first `n` entries that touches an object, and at least `from`. */
  ghost function LastTouch(log: seq<Entry>, name: string, from: nat, n: nat): nat
    requires n <= |log|
  {
    if n == 0 then from
    else if Touches(log, n - 1, name) && from <= log[n - 1].seqNum then log[n - 1].seqNum + 1
    else LastTouch(log, name, from, n - 1)
  }

  /** The view of an object that knows all of the log below `tail`, seen from a view that ended at `from`. */
  ghost function SyncedView(apply: Applier, log: seq<Entry>, name: string, from: nat, tail: nat): View
    requires Increasing(log)
  {
    View(LastTouch(log, name, from, CountBelow(log, tail)), Replay(apply, Below(log, tail), name))
  }

  /** A view is the replay of everything below its own sequence number, all of it already written. */
  ghost predicate ValidView(apply: Applier, log: seq<Entry>, name: string, v: View)
  {
    Increasing(log) && v.nextSeqNum <= NextSeqNum(log) && v.contents == Replay(apply, Below(log, v.nextSeqNum), name)
  }

  lemma {:induction false} LastTouchIs(log: seq<Entry>, name: string, from: nat, i: nat, n: nat)
    requires Touches(log, i, name) && from <= log[i].seqNum && i < n <= |log|
    requires forall k :: i < k < n ==> !Touches(log, k, name)
    ensures LastTouch(log, name, from, n) == log[i].seqNum + 1
    decreases n
  {
    if i < n - 1 { LastTouchIs(log, name, from, i, n - 1); }
  }

  lemma {:induction false} LastTouchNone(log: seq<Entry>, name: string, from: nat, n: nat)
    requires n <= |log|
    requires forall k :: 0 <= k < n && Touches(log, k, name) ==> log[k].seqNum < from
    ensures LastTouch(log, name, from, n) == from
    decreases n
  {
    if n > 0 { LastTouchNone(log, name, from, n - 1); }
  }

  // ---------------------------------------------------------------- bringing a view up to date

  /** A view that started at `from` and has taken in the first `n` entries of the log. */
  ghost predicate Synced(apply: Applier, log: seq<Entry>, name: string, from: nat, n: nat, v: View)
  {
    n <= |log| && v == View(LastTouch(log, name, from, n), Replay(apply, log[..n], name))
  }

  /** A valid view has taken in what lies below it. */
  lemma {:induction false} SyncedStart(apply: Applier, log: seq<Entry>, name: string, v: View)
    requires ValidView(apply, log, name, v)
    ensures Synced(apply, log, name, v.nextSeqNum, CountBelow(log, v.nextSeqNum), v)
  {
    LastTouchNone(log, name, v.nextSeqNum, CountBelow(log, v.nextSeqNum));
  }

  lemma {:induction false} SyncedSkip(apply: Applier, log: seq<Entry>, name: string, from: nat, n: nat, m: nat, v: View)
    requires Synced(apply, log, name, from, n, v) && n <= m <= |log|
    requires forall k :: n <= k < m ==> !Touches(log, k, name)
    ensures Synced(apply, log, name, from, m, v)
    decreases m
  {
    ReplaySkip(apply, log, name, n, m);
    if n < m { SyncedSkip(apply, log, name, from, n, m - 1, v); }
  }

  lemma {:induction false} SyncedTouch(apply: Applier, log: seq<Entry>, name: string, from: nat, n: nat, v: View)
    requires Synced(apply, log, name, from, n, v) && Touches(log, n, name) && from <= log[n].seqNum
    ensures Synced(apply, log, name, from, n + 1,
                   View(log[n].seqNum + 1, ApplyOps(apply, v.contents, log[n].record.ops, name)))
  {
    ReplayStep(apply, log, name, n);
  }

  lemma {:induction false} SyncedPrefix(apply: Applier, log: seq<Entry>, longer: seq<Entry>, name: string, from: nat,
                                        n: nat, v: View)
    requires log <= longer && n <= |log|
    ensures Synced(apply, log, name, from, n, v) <==> Synced(apply, longer, name, from, n, v)
  {
    assert log[..n] == longer[..n];
    LastTouchPrefix(log, longer, name, from, n);
  }

  lemma {:induction false} ValidViewGrows(apply: Applier, log: seq<Entry>, longer: seq<Entry>, name: string, v: View)
    requires log <= longer && Increasing(longer) && ValidView(apply, log, name, v)
    ensures ValidView(apply, longer, name, v)
  {
    NextSeqNumGrows(log, longer);
    BelowStable(log, longer, v.nextSeqNum);
  }

  lemma {:induction false} LastTouchPrefix(log: seq<Entry>, longer: seq<Entry>, name: string, from: nat, n: nat)
    requires log <= longer && n <= |log|
    ensures LastTouch(log, name, from, n) == LastTouch(longer, name, from, n)
    decreases n
  {
    if n > 0 {
      LastTouchPrefix(log, longer, name, from, n - 1);
      assert log[..n] == longer[..n];
    }
  }

  /** No entry a view has not taken in yet is below the view's sequence number. */
  lemma {:induction false} LastTouchBound(log: seq<Entry>, name: string, from: nat, n: nat, i: nat)
    requires Increasing(log) && n <= i < |log| && from <= log[i].seqNum
    ensures LastTouch(log, name, from, n) <= log[i].seqNum
    decreases n
  {
    if n > 0 { LastTouchBound(log, name, from, n - 1, i); }
  }

  lemma {:induction false} LastTouchCovers(log: seq<Entry>, name: string, from: nat, n: nat, k: nat)
    requires Increasing(log) && k < n <= |log| && Touches(log, k, name) && from <= log[k].seqNum
    ensures log[k].seqNum < LastTouch(log, name, from, n)
    decreases n
  {
    if k < n - 1 { LastTouchCovers(log, name, from, n - 1, k); }
  }

  lemma {:induction false} LastTouchWitness(log: seq<Entry>, name: string, from: nat, n: nat) returns (k: nat)
    requires n <= |log| && LastTouch(log, name, from, n) != from
    ensures k < n && Touches(log, k, name) && log[k].seqNum + 1 == LastTouch(log, name, from, n)
    decreases n
  {
    k := n - 1;
    if !(Touches(log, k, name) && from <= log[k].seqNum) { k := LastTouchWitness(log, name, from, n - 1); }
  }

  /** Between its first and its last entry a view is at every time a valid view. */
  lemma {:induction false} SyncedIsValid(apply: Applier, log: seq<Entry>, name: string, from: nat, n: nat, v: View)
    requires Increasing(log) && Synced(apply, log, name, from, n, v)
    requires from <= NextSeqNum(log) && CountBelow(log, from) <= n
    ensures from <= v.nextSeqNum && ValidView(apply, log, name, v)
  {
    LastTouchRange(log, name, from, n);
    var b := CountBelow(log, v.nextSeqNum);
    forall k | b <= k < n
      ensures !Touches(log, k, name)
    {
      if Touches(log, k, name) { LastTouchCovers(log, name, from, n, k); }
    }
    if b <= n {
      ReplaySkip(apply, log, name, b, n);
    } else {
      assert n < |log| && from <= log[n].seqNum;
      LastTouchBound(log, name, from, n, n);
    }
  }

  lemma {:induction false} LastTouchRange(log: seq<Entry>, name: string, from: nat, n: nat)
    requires Increasing(log) && n <= |log| && from <= NextSeqNum(log)
    ensures from <= LastTouch(log, name, from, n) <= NextSeqNum(log)
    decreases n
  {
    if n > 0 { LastTouchRange(log, name, from, n - 1); }
  }

  /** Which entries of a log touch an object. */
  ghost function TouchMarks(log: seq<Entry>, name: string): (marks: seq<bool>)
    ensures |marks| == |log| && forall i :: 0 <= i < |log| ==> marks[i] == Touches(log, i, name)
  {
    seq(|log|, i requires 0 <= i < |log| => Touches(log, i, name))
  }
}
