/** Deciding the fate of a transaction from the log, with memoised outcomes. */
module CommitCheck {
  import opened Logs
  import opened ObjectSpec
  import opened LogService
  import opened Backlog

  /** The tags under which a commit record looks for conflicts have been searched down to `s`. */
  ghost predicate Cleared(p: seq<Entry>, tag: nat, s: nat)
    requires p != [] && IsTxnCommit(p[|p| - 1])
  {
    forall j :: 0 <= j < |p| - 1 && HasTag(p[j], tag) && s <= p[j].seqNum && Conflicts(p[|p| - 1], p[j]) ==>
      !Effective(p[..j + 1])
  }

  /** Searching the tags of its own operations finds every conflict of a commit record. */
  lemma {:induction false} ClearedTagsDecide(hash: string -> nat, p: seq<Entry>)
    requires ValidLog(hash, p) && p != [] && IsTxnCommit(p[|p| - 1])
    requires forall op :: op in p[|p| - 1].record.ops ==>
               Cleared(p, ObjectLogTag(hash(op.objName)), p[|p| - 1].record.txnId + 1)
    ensures Effective(p)
  {
    var e := p[|p| - 1];
    forall j | 0 <= j < |p| - 1 && Conflicts(e, p[j])
      ensures !Effective(p[..j + 1])
    {
      var name :| name in WriteSet(e) * WriteSet(p[j]);
      var op :| op in e.record.ops && op.objName == name;
      TagsCoverWrites(hash, p[j]);
      assert Cleared(p, ObjectLogTag(hash(op.objName)), e.record.txnId + 1);
    }
  }

  /** The aux fields of a decoded object record; absent aux data counts as no fields. */
  function Fields(l: Fetched): map<string, Json>
  {
    if l.aux.Some? && l.aux.value.ObjectAux? then l.aux.value.fields else map[]
  }

  /**
   The outcome of a transaction. It is exactly the declarative one, whatever memoised outcomes
   are present or missing, and whatever the other clients do while it is computed.
   */
  method CheckTxnCommitResult(log: SharedLog, l: Fetched, ghost at: nat) returns (committed: bool, l': Fetched)
    requires log.Valid() && ReadAt(log, l, at) && IsTxnCommit(l.entry)
    modifies log
    ensures log.Valid() && old(log.entries) <= log.entries
    ensures log.Own() == old(log.Own())
    ensures committed <==> Effective(log.entries[..at + 1])
    ensures l' == Fetched(l.entry, Some(ObjectAux(Fields(l)[RESULT_KEY := Bool(committed)])))
    ensures ReadAt(log, l', at)
    ensures !log.disableAuxData && RESULT_KEY !in Fields(l) ==>
              l.entry.seqNum in log.aux && l'.aux == Some(log.aux[l.entry.seqNum])
    decreases l.entry.seqNum, 2
  {
    ghost var p := log.entries[..at + 1];
    var e := l.entry;
    var fields := Fields(l);
    if RESULT_KEY in fields {
      assert fields == fields[RESULT_KEY := fields[RESULT_KEY]];
      return fields[RESULT_KEY].b, l;
    }
    committed := CheckConflicts(log, e, at);
    assert log.entries[..at + 1] == p;
    ResultAuxSound(log.apply, p, fields, committed);
    fields := fields[RESULT_KEY := Bool(committed)];
    if !log.disableAuxData {
      log.SetAuxData(e.seqNum, ObjectAux(fields), at);
      assert log.entries[..at + 1] == p;
    }
    l' := Fetched(e, Some(ObjectAux(fields)));
  }

  lemma {:induction false} ResultAuxSound(apply: Applier, p: seq<Entry>, fields: map<string, Json>, committed: bool)
    requires p != [] && IsTxnCommit(p[|p| - 1]) && SoundCommitAux(apply, p, fields)
    requires committed <==> Effective(p)
    ensures SoundAux(apply, p, ObjectAux(fields[RESULT_KEY := Bool(committed)]))
  {
  }

  /** Recomputes the outcome of a transaction, one tag of its operations after the other. */
  method CheckConflicts(log: SharedLog, e: Entry, ghost at: nat) returns (commitResult: bool)
    requires log.Valid() && at < |log.entries| && log.entries[at] == e && IsTxnCommit(e)
    modifies log
    ensures log.Valid() && old(log.entries) <= log.entries
    ensures log.Own() == old(log.Own())
    ensures commitResult <==> Effective(log.entries[..at + 1])
    decreases e.seqNum, 1
  {
    ghost var p := log.entries[..at + 1];
    commitResult := true;
    var checkedTag: set<nat> := {};
    var k := 0;
    while k < |e.record.ops|
      invariant 0 <= k <= |e.record.ops| && commitResult
      invariant log.Valid() && old(log.entries) <= log.entries
      invariant log.Own() == old(log.Own())
      invariant forall tag :: tag in checkedTag ==> Cleared(p, tag, e.record.txnId + 1)
      invariant forall i :: 0 <= i < k ==> ObjectLogTag(log.hash(e.record.ops[i].objName)) in checkedTag
    {
      var tag := ObjectLogTag(log.hash(e.record.ops[k].objName));
      if tag !in checkedTag {
        commitResult := SearchConflict(log, e, tag, at);
        assert log.entries[..at + 1] == p;
        if !commitResult {
          return;
        }
        checkedTag := checkedTag + {tag};
      }
      k := k + 1;
    }
    assert log.entries[..at + 1] == p;
    ClearedTagsDecide(log.hash, p);
  }

  /** One step of the backward scan: nothing with the tag lies between the entry found and the cursor. */
  lemma {:induction false} ClearedDown(p: seq<Entry>, tag: nat, s: nat, lower: nat)
    requires Increasing(p) && p != [] && IsTxnCommit(p[|p| - 1])
    requires s == p[|p| - 1].seqNum || Cleared(p, tag, s)
    requires forall j :: 0 <= j < |p| - 1 && lower <= p[j].seqNum < s && HasTag(p[j], tag) ==>
               Conflicts(p[|p| - 1], p[j]) ==> !Effective(p[..j + 1])
    ensures Cleared(p, tag, lower)
  {
  }

  /** A backward read that cannot see past the first `n` entries answers from them alone, however the log grows. */
  method ReadPrevIn(log: SharedLog, tag: nat, seqNum: nat, ghost n: nat) returns (r: Option<Fetched>, ghost at: nat)
    requires log.Valid() && n < |log.entries| && seqNum < log.entries[n].seqNum
    modifies log
    ensures log.Valid() && old(log.entries) <= log.entries
    ensures log.Own() == old(log.Own())
    ensures r.None? ==> NoneTagged(old(log.entries), tag, 0, n, seqNum)
    ensures r.Some? ==> at < n && ReadAt(log, r.value, at) && old(log.entries)[at] == r.value.entry &&
                        r.value.entry.seqNum <= seqNum && HasTag(r.value.entry, tag) &&
                        NoneTagged(old(log.entries), tag, at + 1, n, seqNum)
  {
    r, at := log.ReadPrev(tag, seqNum);
    assert log.entries[n] == old(log.entries)[n];
  }

  /** None of the entries at `[lo, hi)` with a sequence number at most `s` carries the tag. */
  ghost predicate NoneTagged(log: seq<Entry>, tag: nat, lo: nat, hi: nat, s: nat)
    requires hi <= |log|
  {
    forall j :: lo <= j < hi && log[j].seqNum <= s ==> !HasTag(log[j], tag)
  }

  lemma {:induction false} NoneTaggedIn(log: seq<Entry>, p: seq<Entry>, tag: nat, lo: nat, at: nat, s: nat)
    requires at < |log| && p == log[..at + 1] && NoneTagged(log, tag, lo, at, s)
    ensures NoneTagged(p, tag, lo, at, s)
  {
  }

  /**
   A backward read clears the tag down to the entry it finds, if that entry is no conflict, or lies below the
   range.
   */
  lemma {:induction false} ClearedByRead(p: seq<Entry>, tag: nat, s: nat, lower: nat, lo: nat)
    requires Increasing(p) && p != [] && IsTxnCommit(p[|p| - 1]) && s > 0 && Cleared(p, tag, s)
    requires lo <= |p| - 1 && NoneTagged(p, tag, lo, |p| - 1, s - 1)
    requires lo > 0 ==> p[lo - 1].seqNum < lower ||
                        (p[lo - 1].seqNum == lower && !(Conflicts(p[|p| - 1], p[lo - 1]) && Effective(p[..lo])))
    ensures Cleared(p, tag, lower)
  {
    ClearedDown(p, tag, s, lower);
  }

  /** Scans one tag backwards from a commit record to the beginning of its transaction. */
  method SearchConflict(log: SharedLog, e: Entry, tag: nat, ghost at: nat) returns (clear: bool)
    requires log.Valid() && at < |log.entries| && log.entries[at] == e && IsTxnCommit(e)
    modifies log
    ensures log.Valid() && old(log.entries) <= log.entries
    ensures log.Own() == old(log.Own())
    ensures clear ==> Cleared(log.entries[..at + 1], tag, e.record.txnId + 1)
    ensures !clear ==> !Effective(log.entries[..at + 1])
    decreases e.seqNum, 0
  {
    ghost var p := log.entries[..at + 1];
    var seqNum: nat := e.seqNum;
    clear := true;
    ClearedDown(p, tag, seqNum, seqNum);
    while seqNum > e.record.txnId
      invariant log.Valid() && old(log.entries) <= log.entries && log.entries[..at + 1] == p
      invariant log.Own() == old(log.Own())
      invariant seqNum <= e.seqNum && clear && Cleared(p, tag, seqNum)
      decreases seqNum
    {
      clear, seqNum := SearchStep(log, e, tag, seqNum, at);
      assert log.entries[..at + 1] == p;
      if !clear {
        return;
      }
    }
  }

  /**
   One read of the scan: moves down to the entry found if it is no conflict, or to the beginning of the
   transaction.
   */
  method SearchStep(log: SharedLog, e: Entry, tag: nat, seqNum: nat, ghost at: nat) returns (clear: bool, seqNum': nat)
    requires log.Valid() && at < |log.entries| && log.entries[at] == e && IsTxnCommit(e)
    requires e.record.txnId < seqNum <= e.seqNum && Cleared(log.entries[..at + 1], tag, seqNum)
    modifies log
    ensures log.Valid() && old(log.entries) <= log.entries
    ensures log.Own() == old(log.Own())
    ensures clear ==> seqNum' < seqNum && Cleared(log.entries[..at + 1], tag, seqNum')
    ensures !clear ==> !Effective(log.entries[..at + 1])
    decreases e.seqNum, 0, 0
  {
    ghost var p, before := log.entries[..at + 1], log.entries;
    var logEntry, i := ReadPrevIn(log, tag, seqNum - 1, at);
    ghost var lo := if logEntry.None? then 0 else i + 1;
    NoneTaggedIn(before, p, tag, lo, at, seqNum - 1);
    assert log.entries[..at + 1] == p;
    if logEntry.None? || logEntry.value.entry.seqNum <= e.record.txnId {
      ClearedByRead(p, tag, seqNum, e.record.txnId, lo);
      return true, e.record.txnId;
    }
    var conflict := Invalidates(log, e, at, logEntry.value, i);
    assert log.entries[..at + 1] == p;
    if conflict {
      return false, seqNum;
    }
    ClearedByRead(p, tag, seqNum, logEntry.value.entry.seqNum, i + 1);
    return true, logEntry.value.entry.seqNum;
  }

  /** Whether an entry of the scanned range overlaps with a commit record and takes effect. */
  method Invalidates(log: SharedLog, e: Entry, ghost at: nat, l: Fetched, ghost i: nat) returns (conflict: bool)
    requires log.Valid() && at < |log.entries| && log.entries[at] == e && IsTxnCommit(e)
    requires i < at && ReadAt(log, l, i) && l.entry.seqNum > e.record.txnId
    modifies log
    ensures log.Valid() && old(log.entries) <= log.entries
    ensures log.Own() == old(log.Own())
    ensures conflict <==> Conflicts(e, l.entry) && Effective(old(log.entries)[..at + 1][..i + 1])
    ensures conflict ==> !Effective(log.entries[..at + 1])
    decreases l.entry.seqNum, 4
  {
    ghost var p := log.entries[..at + 1];
    if WriteSet(e) * WriteSet(l.entry) == {} {
      return false;
    }
    var l';
    conflict, l' := TakesEffect(log, l, i);
    assert log.entries[..at + 1] == p && log.entries[..i + 1] == p[..i + 1];
    assert p[i] == l.entry;
  }

  /** Whether a record that writes objects counts: plain writes do, commit records are checked. */
  method TakesEffect(log: SharedLog, l: Fetched, ghost at: nat) returns (effective: bool, l': Fetched)
    requires log.Valid() && ReadAt(log, l, at) && WriteSet(l.entry) != {}
    modifies log
    ensures log.Valid() && old(log.entries) <= log.entries
    ensures log.Own() == old(log.Own())
    ensures effective <==> Effective(log.entries[..at + 1])
    ensures l'.entry == l.entry && ReadAt(log, l', at)
    ensures IsNormalOp(l.entry) ==> l' == l
    decreases l.entry.seqNum, 3
  {
    if IsTxnCommit(l.entry) {
      effective, l' := CheckTxnCommitResult(log, l, at);
    } else {
      effective, l' := true, l;
    }
  }
}
