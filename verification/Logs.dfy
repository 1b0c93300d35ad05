/**
 The shared log as its clients see it: a growing sequence of records with strictly
 increasing sequence numbers, each carrying a set of tags. Object records, queue records
 and records of other applications live in the same log and are told apart by the low
 three bits of their tags.
 */
module Logs {

  datatype Option<+T> = None | Some(value: T)

  /** Every sequence number handed out by the log is below this bound. */
  const MAX_SEQNUM: nat := 0xffff_0000_0000_0000

  /** `h << 3` on 64-bit words drops the top three bits of `h`. */
  const HASH_MODULUS: nat := 0x2000_0000_0000_0000

  const TXN_META_TAG: nat := 1

  function ObjectLogTag(h: nat): nat { h % HASH_MODULUS * 8 + 2 }
  function TxnHistoryLogTag(txnId: nat): nat { txnId % HASH_MODULUS * 8 + 3 }
  function QueueLogTag(h: nat): nat { h % HASH_MODULUS * 8 + 4 }
  function QueuePushLogTag(h: nat): nat { h % HASH_MODULUS * 8 + 5 }

  datatype Json =
    | Null
    | Bool(b: bool)
    | Num(n: real)
    | Str(s: string)
    | Arr(elems: seq<Json>)
    | Obj(fields: map<string, Json>)

  /** The contents of an object: the fields of its root JSON object. */
  type Contents = map<string, Json>

  datatype WriteOp = WriteOp(opType: nat, objName: string, path: string, value: Json, intParam: int)

  datatype WriteResult = Ok(value: Json) | Err(reason: string)

  /** What one write operation does to the contents of its object. */
  type Applier = (Contents, WriteOp) -> (Contents, WriteResult)

  datatype LogType = NormalOp | TxnBegin | TxnAbort | TxnCommit | TxnHistory

  datatype Record =
    | ObjectRecord(logType: LogType, ops: seq<WriteOp>, txnId: nat)
    | QueueRecord(queueName: string, isPush: bool, payload: string)
    | OtherRecord

  /** A record in the log. No client code looks at `author`, the client that appended it. */
  datatype Entry = Entry(seqNum: nat, tags: set<nat>, record: Record, author: nat)

  /** Advisory data attached to a log position; it may vanish at any time. */
  datatype AuxData =
    | ObjectAux(fields: map<string, Json>)
    | QueueAux(consumed: nat, tail: nat)

  /** What a read of the log returns: the entry and the aux data that came with it. */
  datatype Fetched = Fetched(entry: Entry, aux: Option<AuxData>)

  predicate IsNormalOp(e: Entry) { e.record.ObjectRecord? && e.record.logType == NormalOp }

  predicate IsTxnCommit(e: Entry) { e.record.ObjectRecord? && e.record.logType == TxnCommit }

  function OpNames(ops: seq<WriteOp>): set<string> { set op | op in ops :: op.objName }

  /** The names an entry writes; records without a write set write nothing. */
  function WriteSet(e: Entry): set<string>
  {
    if IsNormalOp(e) || IsTxnCommit(e) then OpNames(e.record.ops) else {}
  }

  /** Tag 0 matches every entry of the log. */
  predicate HasTag(e: Entry, tag: nat) { tag == 0 || tag in e.tags }

  /** The tags and shape with which the client libraries append each kind of record. */
  ghost predicate WellFormed(hash: string -> nat, e: Entry)
  {
    e.seqNum < MAX_SEQNUM &&
    match e.record
    case ObjectRecord(NormalOp, ops, _) =>
      ops != [] &&
      (forall op :: op in ops ==> op.objName == ops[0].objName) &&
      e.tags == {ObjectLogTag(hash(ops[0].objName))}
    case ObjectRecord(TxnCommit, ops, txnId) =>
      txnId < e.seqNum &&
      e.tags == {TXN_META_TAG, TxnHistoryLogTag(txnId)} + CommitTags(hash, ops)
    case ObjectRecord(_, _, txnId) =>
      e.tags <= {TXN_META_TAG, TxnHistoryLogTag(txnId)}
    case QueueRecord(name, true, payload) =>
      payload != "" &&
      e.tags == {QueueLogTag(hash(name)), QueuePushLogTag(hash(name))}
    case QueueRecord(name, false, payload) =>
      payload == "" && e.tags == {QueueLogTag(hash(name))}
    case OtherRecord =>
      forall t :: t in e.tags ==> t % 8 < 2 || 5 < t % 8
  }

  function CommitTags(hash: string -> nat, ops: seq<WriteOp>): set<nat>
  {
    set op | op in ops :: ObjectLogTag(hash(op.objName))
  }

  /** The positions of the records that one client appended. */
  function OwnIn(log: seq<Entry>, client: nat): set<nat>
  {
    set i | 0 <= i < |log| && log[i].author == client
  }

  /**
   A call that appended a record: its client, the length of the log before and after it, and the place of the
   record.
   */
  datatype Call = Call(client: nat, start: nat, end: nat, at: nat)

  /** The record of the call is the client's own and was appended during the call. */
  predicate MadeBy(log: seq<Entry>, c: Call)
  {
    c.start <= c.at < c.end <= |log| && log[c.at].author == c.client
  }

  /** Two calls of different clients, or one after the other. */
  predicate Apart(a: Call, b: Call)
  {
    a.client != b.client || a.end <= b.start || b.end <= a.start
  }

  ghost predicate Increasing(log: seq<Entry>)
  {
    forall i, j :: 0 <= i < j < |log| ==> log[i].seqNum < log[j].seqNum
  }

  ghost predicate ValidLog(hash: string -> nat, log: seq<Entry>)
  {
    Increasing(log) && forall i {:trigger WellFormed(hash, log[i])} :: 0 <= i < |log| ==> WellFormed(hash, log[i])
  }

  /** The least sequence number the next append may get. */
  function NextSeqNum(log: seq<Entry>): nat
  {
    if log == [] then 0 else log[|log| - 1].seqNum + 1
  }

  lemma {:induction false} NextSeqNumGrows(log: seq<Entry>, longer: seq<Entry>)
    requires log <= longer && Increasing(longer)
    ensures NextSeqNum(log) <= NextSeqNum(longer)
    ensures forall i :: |log| <= i < |longer| ==> NextSeqNum(log) <= longer[i].seqNum
  {
    if log != [] { assert log[|log| - 1] == longer[|log| - 1]; }
  }

  /** Exactly the first `n` entries lie below a sequence number. */
  ghost predicate SplitsAt(log: seq<Entry>, s: nat, n: nat)
  {
    n <= |log| && forall i :: 0 <= i < |log| ==> (log[i].seqNum < s <==> i < n)
  }

  lemma {:induction false} SplitExists(log: seq<Entry>, s: nat)
    requires Increasing(log)
    ensures exists n :: SplitsAt(log, s, n)
    decreases |log|
  {
    if log == [] || log[|log| - 1].seqNum < s {
      assert SplitsAt(log, s, |log|);
    } else {
      SplitExists(log[..|log| - 1], s);
      var n :| SplitsAt(log[..|log| - 1], s, n);
      assert SplitsAt(log, s, n);
    }
  }

  /** How many entries lie below a sequence number. */
  ghost function CountBelow(log: seq<Entry>, s: nat): (n: nat)
    requires Increasing(log)
    ensures SplitsAt(log, s, n)
  {
    SplitExists(log, s);
    var n: nat :| SplitsAt(log, s, n);
    n
  }

  lemma {:induction false} CountBelowIs(log: seq<Entry>, s: nat, n: nat)
    requires Increasing(log) && n <= |log|
    requires n > 0 ==> log[n - 1].seqNum < s
    requires n < |log| ==> s <= log[n].seqNum
    ensures CountBelow(log, s) == n
  {
    assert SplitsAt(log, s, CountBelow(log, s));
  }

  lemma {:induction false} CountBelowMonotone(log: seq<Entry>, s: nat, t: nat)
    requires Increasing(log) && s <= t
    ensures CountBelow(log, s) <= CountBelow(log, t)
  {
    var n, m := CountBelow(log, s), CountBelow(log, t);
    assert m < |log| ==> log[m].seqNum >= t;
  }

  /** The part of the log below a sequence number. */
  ghost function Below(log: seq<Entry>, s: nat): seq<Entry>
    requires Increasing(log)
  {
    log[..CountBelow(log, s)]
  }

  /** Entries below a sequence number that the log has passed never change. */
  lemma {:induction false} BelowStable(log: seq<Entry>, longer: seq<Entry>, s: nat)
    requires log <= longer && Increasing(longer) && s <= NextSeqNum(log)
    ensures Increasing(log) && CountBelow(longer, s) == CountBelow(log, s) && Below(longer, s) == Below(log, s)
  {
    assert forall i :: 0 <= i < |log| ==> log[i] == longer[i];
    CountBelowIs(longer, s, CountBelow(log, s));
  }

  /** Whatever writes an object carries that object's tag, and a queue record its queue's tags. */
  lemma {:induction false} TagsCoverWrites(hash: string -> nat, e: Entry)
    requires WellFormed(hash, e)
    ensures forall name :: name in WriteSet(e) ==> HasTag(e, ObjectLogTag(hash(name)))
    ensures e.record.QueueRecord? ==>
              HasTag(e, QueueLogTag(hash(e.record.queueName))) &&
              (e.record.isPush ==> HasTag(e, QueuePushLogTag(hash(e.record.queueName))))
  {
    forall name | name in WriteSet(e)
      ensures HasTag(e, ObjectLogTag(hash(name)))
    {
      var op :| op in e.record.ops && op.objName == name;
      if IsTxnCommit(e) {
        assert ObjectLogTag(hash(op.objName)) in CommitTags(hash, e.record.ops);
      }
    }
  }
}
