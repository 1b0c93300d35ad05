/**
 What the outcome rule for transactions buys: snapshots that are still current at commit, first
 committer wins, one atomic order of all effects, and an equivalent single forward pass.
 */
module Transactions {
  import opened Logs
  import opened ObjectSpec

  /** The contents of several objects after one history. */
  ghost function Snapshot(apply: Applier, p: seq<Entry>, names: set<string>): map<string, Contents>
  {
    map name | name in names :: Replay(apply, p, name)
  }

  /** The entry at a sequence number, if any, begins a transaction and writes nothing. */
  ghost predicate BeginsAt(log: seq<Entry>, txnId: nat)
  {
    forall i :: 0 <= i < |log| && log[i].seqNum == txnId ==> WriteSet(log[i]) == {}
  }

  /**
   If a transaction commits, all it saw of the objects it writes when it began is still their
   state just before its commit record: it may be taken to run at its commit point.
   */
  lemma {:induction false} SnapshotStillCurrent(apply: Applier, p: seq<Entry>)
    requires p != [] && Increasing(p) && IsTxnCommit(p[|p| - 1]) && Effective(p)
    requires BeginsAt(p, p[|p| - 1].record.txnId) && p[|p| - 1].record.txnId < p[|p| - 1].seqNum
    ensures var e := p[|p| - 1];
            Snapshot(apply, Below(p, e.record.txnId), WriteSet(e)) == Snapshot(apply, p[..|p| - 1], WriteSet(e))
  {
    var e, b := p[|p| - 1], CountBelow(p, p[|p| - 1].record.txnId);
    forall name | name in WriteSet(e)
      ensures Replay(apply, p[..b], name) == Replay(apply, p[..|p| - 1], name)
    {
      forall k | b <= k < |p| - 1
        ensures !Touches(p, k, name)
      {
        if Touches(p, k, name) {
          assert name in WriteSet(e) * WriteSet(p[k]);
          assert Conflicts(e, p[k]);
        }
      }
      ReplaySkip(apply, p, name, b, |p| - 1);
    }
  }

  /** Of two committed transactions with overlapping write sets the later began after the earlier committed. */
  lemma {:induction false} FirstCommitterWins(log: seq<Entry>, i: nat, j: nat)
    requires Increasing(log) && i < j < |log| && IsTxnCommit(log[i]) && IsTxnCommit(log[j])
    requires Effective(log[..i + 1]) && Effective(log[..j + 1]) && WriteSet(log[i]) * WriteSet(log[j]) != {}
    ensures log[i].seqNum <= log[j].record.txnId
  {
    var p := log[..j + 1];
    assert p[..i + 1] == log[..i + 1];
    assert WriteSet(log[i]) * WriteSet(log[j]) == WriteSet(log[j]) * WriteSet(log[i]);
    assert !Conflicts(p[j], p[i]);
  }

  // ---------------------------------------------------------------- one atomic order

  type Store = map<string, Contents>

  function Lookup(s: Store, name: string): Contents { if name in s then s[name] else map[] }

  /** Applies a whole record to the store at once, each operation to its own object. */
  ghost function ApplyAll(apply: Applier, s: Store, ops: seq<WriteOp>): Store
    decreases |ops|
  {
    if ops == [] then s
    else
      var t, op := ApplyAll(apply, s, ops[..|ops| - 1]), ops[|ops| - 1];
      t[op.objName := apply(Lookup(t, op.objName), op).0]
  }

  /** The whole store after a history, each effective record applied atomically. */
  ghost function GlobalReplay(apply: Applier, p: seq<Entry>): Store
    decreases |p|
  {
    if p == [] then map[]
    else
      var s := GlobalReplay(apply, p[..|p| - 1]);
      if Effective(p) then ApplyAll(apply, s, p[|p| - 1].record.ops) else s
  }

  lemma {:induction false} ApplyAllProjects(apply: Applier, s: Store, ops: seq<WriteOp>, name: string)
    ensures Lookup(ApplyAll(apply, s, ops), name) == ApplyOps(apply, Lookup(s, name), ops, name)
    decreases |ops|
  {
    if ops != [] { ApplyAllProjects(apply, s, ops[..|ops| - 1], name); }
  }

  lemma {:induction false} ApplyOpsElsewhere(apply: Applier, c: Contents, ops: seq<WriteOp>, name: string)
    requires name !in OpNames(ops)
    ensures ApplyOps(apply, c, ops, name) == c
    decreases |ops|
  {
    if ops != [] {
      assert ops[|ops| - 1] in ops;
      assert name !in OpNames(ops[..|ops| - 1]);
      ApplyOpsElsewhere(apply, c, ops[..|ops| - 1], name);
    }
  }

  /** Replaying one object from its own records gives its part of the atomic whole-log replay. */
  lemma {:induction false} ReplayProjects(apply: Applier, p: seq<Entry>, name: string)
    ensures Lookup(GlobalReplay(apply, p), name) == Replay(apply, p, name)
    decreases |p|
  {
    if p != [] {
      var before, e := p[..|p| - 1], p[|p| - 1];
      ReplayProjects(apply, before, name);
      assert p[..|p|] == p;
      if Effective(p) {
        ApplyAllProjects(apply, GlobalReplay(apply, before), e.record.ops, name);
        if name !in WriteSet(e) {
          ApplyOpsElsewhere(apply, Lookup(GlobalReplay(apply, before), name), e.record.ops, name);
        }
      }
    }
  }

  // ---------------------------------------------------------------- forward validation

  /** For each object the sequence number of the last record that wrote it, found in one forward pass. */
  ghost function Versions(p: seq<Entry>): map<string, nat>
    decreases |p|
  {
    if p == [] then map[]
    else
      var vs, e := Versions(p[..|p| - 1]), p[|p| - 1];
      if Validates(vs, e) then vs + (map name | name in WriteSet(e) :: e.seqNum) else vs
  }

  /** The optimistic check at commit: nothing written has changed since the transaction began. */
  ghost predicate Validates(vs: map<string, nat>, e: Entry)
  {
    IsNormalOp(e) ||
    (IsTxnCommit(e) && forall name :: name in WriteSet(e) && name in vs ==> vs[name] <= e.record.txnId)
  }

  /** The recorded version of an object is that of the last entry touching it; unrecorded objects are untouched. */
  ghost predicate VersionIs(p: seq<Entry>, vs: map<string, nat>, name: string)
  {
    LastTouch(p, name, 0, |p|) == if name in vs then vs[name] + 1 else 0
  }

  /** The recursive outcome rule, with its nested backward scans, is exactly one forward validation pass. */
  lemma {:induction false} ForwardValidation(p: seq<Entry>)
    requires Increasing(p)
    ensures p != [] ==> (Effective(p) <==> Validates(Versions(p[..|p| - 1]), p[|p| - 1]))
    ensures forall name :: VersionIs(p, Versions(p), name)
    decreases |p|
  {
    if p != [] {
      var before := p[..|p| - 1];
      ForwardValidation(before);
      ValidationStep(before, p, Versions(before));
      forall name
        ensures VersionIs(p, Versions(p), name)
      {
        assert p[..|p|] == p;
        assert VersionIs(before, Versions(before), name);
        LastTouchPrefix(before, p, name, 0, |before|);
      }
    }
  }

  lemma {:induction false} ValidationStep(before: seq<Entry>, p: seq<Entry>, vs: map<string, nat>)
    requires p != [] && Increasing(p) && before == p[..|p| - 1]
    requires forall name :: VersionIs(before, vs, name)
    ensures Effective(p) <==> Validates(vs, p[|p| - 1])
  {
    var e := p[|p| - 1];
    if IsTxnCommit(e) {
      if Effective(p) {
        forall name | name in WriteSet(e) && name in vs
          ensures vs[name] <= e.record.txnId
        {
          EffectiveThenCurrent(before, p, vs, name);
        }
      } else {
        var j :| 0 <= j < |p| - 1 && Conflicts(e, p[j]) && Effective(p[..j + 1]);
        var name :| name in WriteSet(e) * WriteSet(p[j]);
        assert p[..j + 1] == before[..j + 1] && VersionIs(before, vs, name);
        LastTouchCovers(before, name, 0, |before|, j);
      }
    }
  }

  lemma {:induction false} EffectiveThenCurrent(before: seq<Entry>, p: seq<Entry>, vs: map<string, nat>, name: string)
    requires p != [] && before == p[..|p| - 1] && IsTxnCommit(p[|p| - 1]) && Effective(p)
    requires name in WriteSet(p[|p| - 1]) && name in vs && VersionIs(before, vs, name)
    ensures vs[name] <= p[|p| - 1].record.txnId
  {
    var k := LastTouchWitness(before, name, 0, |before|);
    assert before[..k + 1] == p[..k + 1];
    assert name in WriteSet(p[|p| - 1]) * WriteSet(p[k]);
    assert !Conflicts(p[|p| - 1], p[k]);
  }
}
