/** Environments: the objects a function has opened and the transaction it may run in. */
module Environments {
  import opened Logs
  import opened ObjectSpec
  import opened LogService
  import opened CommitCheck
  import opened Transactions
  import opened Objects

  class Env {
    const log: SharedLog
    var objs: map<string, ObjectRef>
    var txnCtx: TxnContext?

    /** Every object is in order, and in a transaction belongs to it. */
    ghost predicate Valid()
      reads this, log, objs.Values, txnCtx
    {
      log.Valid() && (forall n {:trigger ObjectOk(n)} :: n in objs ==> ObjectOk(n)) &&
      (txnCtx != null ==>
        txnCtx.active && txnCtx.id <= NextSeqNum(log.entries) && (!txnCtx.readonly ==> Began(log.entries, txnCtx.id)))
    }

    ghost predicate ObjectOk(n: string)
      requires n in objs
      reads this, log, objs.Values
    {
      var obj := objs[n];
      obj.log == log && obj.name == n && obj.Valid() && obj.AtTxnBegin() && (txnCtx != null ==> obj.txn == txnCtx)
    }

    /** The objects that have a view. */
    ghost function Shown(): set<string>
      reads this, objs.Values
    {
      set n | n in objs && objs[n].view.Some?
    }

    constructor (log: SharedLog)
      requires log.Valid()
      ensures Valid() && this.log == log && objs == map[] && txnCtx == null
    {
      this.log, objs, txnCtx := log, map[], null;
    }

    /** The handle of an object, opened in the current transaction if it is new. */
    method Object(name: string) returns (obj: ObjectRef)
      requires Valid()
      modifies this`objs
      ensures Valid() && name in objs && objs[name] == obj && obj.name == name && obj.log == log
      ensures if name in old(objs) then objs == old(objs)
              else fresh(obj) && objs == old(objs)[name := obj] && obj.txn == txnCtx && obj.view.None? &&
                   obj.multiCtx.None?
    {
      if name in objs {
        assert ObjectOk(name);
        return objs[name];
      }
      obj := new ObjectRef(log, name, txnCtx);
      objs := objs[name := obj];
      forall n | n in objs
        ensures ObjectOk(n)
      {
        assert n != name ==> old(ObjectOk(n));
      }
    }

    /**
     Reads an object of this environment. Within a transaction, all reads of all objects see the log below
     the transaction's id; a read fails if and only if that id is 0 and the object had no view. Outside of a
     transaction a first read sees the whole log, and a later read what the handle saw last.
     */
    method Get(name: string) returns (contents: Option<Contents>, ghost n: nat)
      requires Valid() && Usable()
      modifies this`objs, log, objs.Values
      ensures Valid() && Usable() && old(log.entries) <= log.entries && txnCtx == old(txnCtx)
      ensures log.Own() == old(log.Own())
      ensures name in objs && objs == old(objs)[name := objs[name]]
      ensures if name in old(objs) then objs == old(objs) else fresh(objs[name])
      ensures txnCtx != null ==>
                (contents.None? <==> txnCtx.id == 0 && name !in old(Shown()))
      ensures txnCtx != null && contents.Some? ==>
                contents.value == Replay(log.apply, Below(log.entries, txnCtx.id), name)
      ensures Shown() == old(Shown()) + if contents.Some? then {name} else {}
      ensures txnCtx == null && name in old(objs) && old(objs[name].txn) == null && old(objs[name].view).Some? ==>
                contents == Some(old(objs[name].view).value.contents)
      ensures txnCtx == null && (name in old(objs) ==> old(objs[name].txn) == null && old(objs[name].view).None?) ==>
                |old(log.entries)| <= n <= |log.entries| && contents == Some(Replay(log.apply, log.entries[..n], name))
    {
      var obj := Object(name);
      assert ObjectOk(name);
      assert Shown() == old(Shown());
      contents, n := ShowFrom(obj);
    }

    /** Reads through a handle, which alone gets a view by it. */
    method ShowFrom(obj: ObjectRef) returns (contents: Option<Contents>, ghost n: nat)
      requires Valid() && Usable() && obj.name in objs && objs[obj.name] == obj
      modifies obj, log
      ensures Valid() && Usable() && old(log.entries) <= log.entries && log.Own() == old(log.Own())
      ensures Shown() == old(Shown()) + if contents.Some? then {obj.name} else {}
      ensures contents.None? <==> old(obj.view).None? && obj.txn != null && obj.txn.id == 0
      ensures contents.Some? && obj.txn != null ==>
                contents.value == Replay(log.apply, Below(log.entries, obj.txn.id), obj.name)
      ensures obj.txn == null && old(obj.view).Some? ==> contents == Some(old(obj.view).value.contents)
      ensures obj.txn == null && old(obj.view).None? ==>
                |old(log.entries)| <= n <= |log.entries| &&
                contents == Some(Replay(log.apply, log.entries[..n], obj.name))
    {
      assert forall n :: n in objs && n != obj.name ==> ObjectOk(n);
      contents, n := GetFrom(obj);
    }

    method GetFrom(obj: ObjectRef) returns (contents: Option<Contents>, ghost n: nat)
      requires Valid() && Usable() && obj.name in objs && objs[obj.name] == obj
      modifies obj, log
      ensures Valid() && Usable() && old(log.entries) <= log.entries
      ensures log.Own() == old(log.Own())
      ensures contents.None? <==> old(obj.view).None? && obj.txn != null && obj.txn.id == 0
      ensures obj.view.Some? <==> contents.Some?
      ensures contents.Some? && obj.txn != null ==>
                contents.value == Replay(log.apply, Below(log.entries, obj.txn.id), obj.name)
      ensures obj.txn == null && old(obj.view).Some? ==> contents == Some(old(obj.view).value.contents)
      ensures obj.txn == null && old(obj.view).None? ==>
                |old(log.entries)| <= n <= |log.entries| &&
                contents == Some(Replay(log.apply, log.entries[..n], obj.name))
    {
      ghost var before := log.entries;
      assert ObjectOk(obj.name);
      contents, n := obj.Get();
      forall n | n in objs
        ensures ObjectOk(n)
      {
        var o := objs[n];
        assert old(ObjectOk(n)) && (o == obj <==> n == obj.name);
        if o != obj {
          ObjectStaysValid(log.apply, before, log.entries, n, o.view, if o.txn != null then Some(o.txn.id) else None);
        }
      }
      NextSeqNumGrows(before, log.entries);
    }

    /**
     Ends the transaction with a commit record and reports its fate. If it committed, everything
     it could have read of the objects it wrote was still current just before the record.
     */
    method TxnCommit() returns (committed: Option<bool>, ghost at: nat)
      requires Valid() && txnCtx != null && !txnCtx.readonly
      modifies this`txnCtx, txnCtx, log
      ensures Valid() && old(log.entries) <= log.entries && txnCtx == null && !old(txnCtx).active && objs == old(objs)
      ensures committed.None? ==> log.Own() == old(log.Own()).Failed()
      ensures committed.Some? ==>
                |old(log.entries)| <= at < |log.entries| && log.Own() == old(log.Own()).Added(at) &&
                log.entries[at].record == ObjectRecord(LogType.TxnCommit, old(txnCtx.ops), old(txnCtx.id)) &&
                (committed.value <==> Effective(log.entries[..at + 1]))
      ensures committed == Some(true) ==>
                var names := OpNames(old(txnCtx.ops));
                Snapshot(log.apply, Below(log.entries, old(txnCtx.id)), names) ==
                  Snapshot(log.apply, log.entries[..at], names)
    {
      var ctx := txnCtx;
      ghost var before := log.entries;
      txnCtx, ctx.active := null, false;
      var record := ObjectRecord(LogType.TxnCommit, ctx.ops, ctx.id);
      NextSeqNumAbove(before, ctx.id);
      var seqNum := log.Append({TXN_META_TAG, TxnHistoryLogTag(ctx.id)} + CommitTags(log.hash, ctx.ops), record);
      at := if seqNum.Some? then |log.entries| - 1 else 0;
      committed := None;
      if seqNum.Some? {
        var tags := {TXN_META_TAG, TxnHistoryLogTag(ctx.id)} + CommitTags(log.hash, ctx.ops);
        var l := Fetched(Entry(seqNum.value, tags, record, log.me), None);
        var result;
        result, l := CheckTxnCommitResult(log, l, at);
        committed := Some(result);
        if result {
          CommittedReads(log.apply, before, log.entries, at);
        }
      }
      forall n | n in objs
        ensures ObjectOk(n)
      {
        var o := objs[n];
        assert old(ObjectOk(n));
        ObjectStaysValid(log.apply, before, log.entries, n, o.view, if o.txn != null then Some(o.txn.id) else None);
      }
    }

    /** None of the objects is in a multi context or belongs to a finished transaction. */
    ghost predicate Usable()
      reads this, objs.Values, set n | n in objs :: objs[n].txn
    {
      forall n :: n in objs ==> objs[n].multiCtx.None? && (objs[n].txn != null ==> objs[n].txn.active)
    }
  }

  /** An object that was in order stays in order when the log grows. */
  lemma {:induction false} ObjectStaysValid(apply: Applier, before: seq<Entry>, log: seq<Entry>, name: string,
                                            view: Option<View>, txnId: Option<nat>)
    requires before <= log && Increasing(log)
    requires view.Some? ==> ValidView(apply, before, name, view.value)
    requires txnId.Some? ==> txnId.value <= NextSeqNum(before) &&
                             (view.Some? ==> view.value.contents == Replay(apply, Below(before, txnId.value), name))
    ensures view.Some? ==> ValidView(apply, log, name, view.value)
    ensures txnId.Some? ==> txnId.value <= NextSeqNum(log) &&
                            (view.Some? ==> view.value.contents == Replay(apply, Below(log, txnId.value), name))
  {
    NextSeqNumGrows(before, log);
    if view.Some? { ValidViewGrows(apply, before, log, name, view.value); }
    if txnId.Some? { BelowStable(before, log, txnId.value); }
  }

  lemma {:induction false} NextSeqNumAbove(log: seq<Entry>, txnId: nat)
    requires Increasing(log) && Began(log, txnId)
    ensures txnId < NextSeqNum(log)
  {
    var i :| 0 <= i < |log| && log[i].seqNum == txnId;
    if i < |log| - 1 { assert log[i].seqNum < log[|log| - 1].seqNum; }
  }

  lemma {:induction false} CommittedReads(apply: Applier, before: seq<Entry>, log: seq<Entry>, at: nat)
    requires Increasing(log) && before <= log && |before| <= at < |log| && IsTxnCommit(log[at])
    requires Began(before, log[at].record.txnId) && Effective(log[..at + 1])
    ensures var names := OpNames(log[at].record.ops);
            Snapshot(apply, Below(log, log[at].record.txnId), names) == Snapshot(apply, log[..at], names)
  {
    var p, txnId := log[..at + 1], log[at].record.txnId;
    var b :| 0 <= b < |before| && before[b].seqNum == txnId && before[b].record == ObjectRecord(TxnBegin, [], 0);
    assert p[b] == before[b] && p[..at] == log[..at];
    assert p[b].seqNum < p[at].seqNum;
    assert BeginsAt(p, txnId);
    NextSeqNumAbove(before, txnId);
    NextSeqNumGrows(before, p);
    BelowStable(p, log, txnId);
    SnapshotStillCurrent(apply, p);
  }

  /** Begins a transaction: its id is the sequence number of the record that begins it. */
  method CreateTxnEnv(log: SharedLog) returns (env: Env?)
    requires log.Valid()
    modifies log
    ensures log.Valid() && old(log.entries) <= log.entries
    ensures env != null ==> fresh(env) && env.Valid() && env.log == log && env.objs == map[] &&
                            env.txnCtx != null && fresh(env.txnCtx) && !env.txnCtx.readonly && env.txnCtx.ops == [] &&
                            |old(log.entries)| < |log.entries| &&
                            env.txnCtx.id == log.entries[|log.entries| - 1].seqNum &&
                            log.entries[|log.entries| - 1].record == ObjectRecord(TxnBegin, [], 0) &&
                            log.Own() == old(log.Own()).Added(|log.entries| - 1)
    ensures env == null ==> log.Own() == old(log.Own()).Failed()
  {
    var seqNum := log.Append({TXN_META_TAG}, ObjectRecord(TxnBegin, [], 0));
    if seqNum.None? {
      return null;
    }
    env := new Env(log);
    env.txnCtx := new TxnContext(seqNum.value, false);
  }

  /** Begins a read-only transaction just after the last record; on an empty log that is sequence number 0. */
  method CreateReadOnlyTxnEnv(log: SharedLog) returns (env: Env)
    requires log.Valid()
    modifies log
    ensures log.Valid() && old(log.entries) <= log.entries
    ensures log.Own() == old(log.Own())
    ensures fresh(env) && env.Valid() && env.log == log && env.objs == map[]
    ensures env.txnCtx != null && fresh(env.txnCtx) && env.txnCtx.readonly && env.txnCtx.id == NextSeqNum(log.entries)
  {
    var tail, i := log.ReadPrev(0, MAX_SEQNUM);
    var seqNum := 0;
    if tail.Some? {
      seqNum := tail.value.entry.seqNum + 1;
    }
    assert forall j :: 0 <= j < |log.entries| ==> WellFormed(log.hash, log.entries[j]);
    env := new Env(log);
    env.txnCtx := new TxnContext(seqNum, true);
  }

  /** The record that begins a transaction is in the log. */
  ghost predicate Began(log: seq<Entry>, txnId: nat)
  {
    exists i :: 0 <= i < |log| && log[i].seqNum == txnId && log[i].record == ObjectRecord(TxnBegin, [], 0)
  }

  /**
   Any number of reads in one transaction agree with one snapshot: the log below the transaction's id,
   whatever is appended between the reads.
   */
  method ReadAll(env: Env, names: seq<string>) returns (values: Option<map<string, Contents>>)
    requires env.Valid() && env.Usable() && env.txnCtx != null
    modifies env`objs, env.log, env.objs.Values
    ensures env.Valid() && env.Usable() && env.txnCtx == old(env.txnCtx) && old(env.log.entries) <= env.log.entries
    ensures values.None? <==> env.txnCtx.id == 0 && exists n :: n in names && n !in old(env.Shown())
    ensures values.Some? ==>
              values.value == Snapshot(env.log.apply, Below(env.log.entries, env.txnCtx.id), Names(names))
    ensures old(env.log.entries) <= env.log.entries &&
            Below(env.log.entries, env.txnCtx.id) == Below(old(env.log.entries), env.txnCtx.id)
  {
    ghost var p := Below(env.log.entries, env.txnCtx.id);
    var read: map<string, Contents> := map[];
    for i := 0 to |names|
      invariant env.Valid() && env.Usable() && env.txnCtx == old(env.txnCtx) && old(env.log.entries) <= env.log.entries
      invariant fresh(env.objs.Values - old(env.objs.Values)) && Below(env.log.entries, env.txnCtx.id) == p
      invariant read == Snapshot(env.log.apply, p, Names(names[..i]))
      invariant env.txnCtx.id == 0 ==>
                  env.Shown() == old(env.Shown()) && forall j :: 0 <= j < i ==> names[j] in env.Shown()
    {
      ghost var before := env.log.entries;
      var contents, _ := env.Get(names[i]);
      BelowStable(before, env.log.entries, env.txnCtx.id);
      if contents.None? {
        return None;
      }
      SnapshotMore(env.log.apply, p, names, i);
      read := read[names[i] := contents.value];
    }
    assert names[..|names|] == names;
    values := Some(read);
  }

  function Names(names: seq<string>): set<string> { set n | n in names }

  lemma {:induction false} SnapshotMore(apply: Applier, p: seq<Entry>, names: seq<string>, i: nat)
    requires i < |names|
    ensures Snapshot(apply, p, Names(names[..i + 1])) ==
            Snapshot(apply, p, Names(names[..i]))[names[i] := Replay(apply, p, names[i])]
  {
    assert names[..i + 1] == names[..i] + [names[i]];
  }

  /** A read in a read-only transaction fails if and only if the log was empty when the transaction began. */
  method ReadOnEmptyLog(log: SharedLog, name: string) returns (contents: Option<Contents>, ghost begun: seq<Entry>)
    requires log.Valid()
    modifies log
    ensures old(log.entries) <= begun <= log.entries && (contents.None? <==> begun == [])
  {
    var env := CreateReadOnlyTxnEnv(log);
    begun := log.entries;
    ghost var n;
    contents, n := env.Get(name);
  }
}
