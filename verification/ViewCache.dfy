/** Object views cached in the aux data of the records that produced them. */
module ViewCache {
  import opened Logs
  import opened ObjectSpec
  import opened LogService
  import opened Backlog
  import opened CommitCheck

  /** Applies the operations of a record that concern one object. */
  method ApplyRecord(apply: Applier, contents: Contents, ops: seq<WriteOp>, name: string) returns (c: Contents)
    ensures c == ApplyOps(apply, contents, ops, name)
  {
    c := contents;
    for i := 0 to |ops|
      invariant c == ApplyOps(apply, contents, ops[..i], name)
    {
      assert ops[..i + 1][..i] == ops[..i];
      if ops[i].objName == name {
        c := apply(c, ops[i]).0;
      }
    }
    assert ops[..|ops|] == ops;
  }

  predicate HasCachedObjectView(l: Fetched, name: string)
  {
    l.aux.Some? && (IsNormalOp(l.entry) || (IsTxnCommit(l.entry) && ViewKey(name) in Fields(l)))
  }

  function LoadCachedObjectView(l: Fetched, name: string): (v: Option<View>)
    ensures v.Some? <==> HasCachedObjectView(l, name) && (IsTxnCommit(l.entry) ==> Fields(l)[ViewKey(name)].Obj?)
    ensures v.Some? ==> v.value.nextSeqNum == l.entry.seqNum + 1
  {
    if l.aux.None? then None
    else if IsNormalOp(l.entry) then Some(View(l.entry.seqNum + 1, Fields(l)))
    else if IsTxnCommit(l.entry) && ViewKey(name) in Fields(l) && Fields(l)[ViewKey(name)].Obj? then
      Some(View(l.entry.seqNum + 1, Fields(l)[ViewKey(name)].fields))
    else None
  }

  /** Whatever is loaded is the replay of the object through the record, and nothing cached is ignored. */
  lemma {:induction false} LoadedViewIsReplay(apply: Applier, log: seq<Entry>, l: Fetched, at: nat, name: string)
    requires ReadIn(apply, log, l, at) && name in WriteSet(l.entry)
    ensures LoadCachedObjectView(l, name) ==
            if HasCachedObjectView(l, name)
            then Some(View(l.entry.seqNum + 1, Replay(apply, log[..at + 1], name)))
            else None
  {
    var p := log[..at + 1];
    if l.aux.Some? && IsTxnCommit(l.entry) && ViewKey(name) in Fields(l) {
      assert ViewKey(name)[1..] == name;
    }
  }

  lemma {:induction false} ViewAuxSound(hash: string -> nat, apply: Applier, log: seq<Entry>, l: Fetched, at: nat,
                                        name: string)
    requires ValidLog(hash, log) && ReadIn(apply, log, l, at) && name in WriteSet(l.entry)
    ensures var c := Replay(apply, log[..at + 1], name);
            (IsNormalOp(l.entry) ==> SoundAux(apply, log[..at + 1], ObjectAux(c))) &&
            (IsTxnCommit(l.entry) ==> SoundAux(apply, log[..at + 1], ObjectAux(Fields(l)[ViewKey(name) := Obj(c)])))
  {
    var p := log[..at + 1];
    assert WellFormed(hash, log[at]);
    assert ViewKey(name)[1..] == name;
    assert ViewKey(name)[0] == 'v' && RESULT_KEY[0] == 'r';
    if IsNormalOp(l.entry) {
      assert forall n :: n in WriteSet(l.entry) ==> n == l.entry.record.ops[0].objName;
    }
  }

  /** Stores a view with its record, next to what was already known there. */
  method CacheObjectView(log: SharedLog, l: Fetched, contents: Contents, name: string, ghost at: nat)
    requires log.Valid() && ReadAt(log, l, at) && name in WriteSet(l.entry)
    requires contents == Replay(log.apply, log.entries[..at + 1], name)
    modifies log
    ensures log.Valid() && old(log.entries) <= log.entries
    ensures log.Own() == old(log.Own())
    ensures !log.disableAuxData && !HasCachedObjectView(l, name) ==>
              l.entry.seqNum in log.aux &&
              LoadCachedObjectView(Fetched(l.entry, Some(log.aux[l.entry.seqNum])), name) ==
              Some(View(l.entry.seqNum + 1, contents))
  {
    if log.disableAuxData {
      return;
    }
    ViewAuxSound(log.hash, log.apply, log.entries, l, at, name);
    if IsNormalOp(l.entry) {
      if l.aux.None? {
        log.SetAuxData(l.entry.seqNum, ObjectAux(contents), at);
      }
    } else if ViewKey(name) !in Fields(l) {
      log.SetAuxData(l.entry.seqNum, ObjectAux(Fields(l)[ViewKey(name) := Obj(contents)]), at);
    }
  }
}
