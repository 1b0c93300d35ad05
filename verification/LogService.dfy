/**
 The shared log as a service used by any number of clients at once. Every operation a client
 performs may be preceded by steps of the other clients; all of them keep the log growing and
 all attached aux data sound, and that is all a client may rely on.
 */
module LogService {
  import opened Logs
  import opened ObjectSpec
  import opened QueueSpec

  /** The key under which a commit record caches its own outcome. */
  const RESULT_KEY: string := "r"

  /** The key under which a commit record caches the view of one object. */
  function ViewKey(name: string): string { "v" + name }

  /**
   Aux data attached to the last entry of a history says only what the history implies: a plain
   write caches the contents of its object, a commit record its outcome and any number of object
   views, a queue record the two counters.
   */
  ghost predicate SoundAux(apply: Applier, p: seq<Entry>, a: AuxData)
    requires p != []
  {
    var e := p[|p| - 1];
    match e.record
    case ObjectRecord(NormalOp, _, _) =>
      a.ObjectAux? && forall name :: name in WriteSet(e) ==> a.fields == Replay(apply, p, name)
    case ObjectRecord(TxnCommit, _, _) =>
      a.ObjectAux? && SoundCommitAux(apply, p, a.fields)
    case QueueRecord(name, _, _) =>
      a == QueueAux(CountersOf(p, name).consumed, CountersOf(p, name).tail)
    case _ => false
  }

  ghost predicate SoundCommitAux(apply: Applier, p: seq<Entry>, fields: map<string, Json>)
    requires p != []
  {
    (RESULT_KEY in fields ==> fields[RESULT_KEY] == Bool(Effective(p))) &&
    forall key :: key in fields && key != "" && key[0] == 'v' ==>
      fields[key] == Obj(Replay(apply, p, key[1..]))
  }

  // ---------------------------------------------------------------- runs of the log

  datatype LogState = LogState(entries: seq<Entry>, aux: map<nat, AuxData>)

  ghost predicate ValidState(hash: string -> nat, apply: Applier, s: LogState)
  {
    ValidLog(hash, s.entries) &&
    forall i {:trigger SoundAt(apply, s, i)} :: 0 <= i < |s.entries| ==> SoundAt(apply, s, i)
  }

  ghost predicate SoundAt(apply: Applier, s: LogState, i: int)
    requires 0 <= i < |s.entries|
  {
    s.entries[i].seqNum in s.aux ==> SoundAux(apply, s.entries[..i + 1], s.aux[s.entries[i].seqNum])
  }

  /** What any client may rely on: the log only grows and stays valid. */
  ghost predicate Rely(hash: string -> nat, apply: Applier, s: LogState, t: LogState)
  {
    s.entries <= t.entries && ValidState(hash, apply, t)
  }

  datatype Step = AppendStep(e: Entry) | SetAuxStep(at: nat, a: AuxData) | DropAuxStep(seqNum: nat)

  ghost predicate Enabled(hash: string -> nat, apply: Applier, s: LogState, step: Step)
  {
    match step
    case AppendStep(e) => WellFormed(hash, e) && NextSeqNum(s.entries) <= e.seqNum
    case SetAuxStep(at, a) => at < |s.entries| && SoundAux(apply, s.entries[..at + 1], a)
    case DropAuxStep(_) => true
  }

  function After(s: LogState, step: Step): LogState
  {
    match step
    // Aux data can only be stored for a record that exists.
    case AppendStep(e) => LogState(s.entries + [e], s.aux - {e.seqNum})
    case SetAuxStep(at, a) => if at < |s.entries| then s.(aux := s.aux[s.entries[at].seqNum := a]) else s
    case DropAuxStep(n) => s.(aux := s.aux - {n})
  }

  predicate AppendsAs(step: Step, client: nat) { step.AppendStep? && step.e.author == client }

  /** Every step of every client stays within what the others rely on. */
  lemma {:induction false} StepWithinRely(hash: string -> nat, apply: Applier, s: LogState, step: Step)
    requires ValidState(hash, apply, s) && Enabled(hash, apply, s, step)
    ensures Rely(hash, apply, s, After(s, step))
    ensures forall c :: !AppendsAs(step, c) ==> OwnIn(After(s, step).entries, c) == OwnIn(s.entries, c)
  {
    var t := After(s, step);
    forall i | 0 <= i < |t.entries|
      ensures SoundAt(apply, t, i)
    {
      if i < |s.entries| {
        assert SoundAt(apply, s, i) && t.entries[..i + 1] == s.entries[..i + 1];
      }
    }
  }

  ghost predicate IsRun(hash: string -> nat, apply: Applier, run: seq<LogState>, steps: seq<Step>)
  {
    |run| == |steps| + 1 &&
    run[0] == LogState([], map[]) &&
    forall k :: 0 <= k < |steps| ==> Enabled(hash, apply, run[k], steps[k]) && run[k + 1] == After(run[k], steps[k])
  }

  /** In every run, from any state to any later one, the log only grows and all aux data is sound. */
  lemma {:induction false} RunWithinRely(hash: string -> nat, apply: Applier, run: seq<LogState>, steps: seq<Step>,
                                         i: nat, j: nat)
    requires IsRun(hash, apply, run, steps) && i <= j < |run|
    ensures ValidState(hash, apply, run[i]) && Rely(hash, apply, run[i], run[j])
    decreases j
  {
    if i < j {
      RunWithinRely(hash, apply, run, steps, i, j - 1);
      StepWithinRely(hash, apply, run[j - 1], steps[j - 1]);
    } else if j > 0 {
      RunWithinRely(hash, apply, run, steps, j - 1, j - 1);
      StepWithinRely(hash, apply, run[j - 1], steps[j - 1]);
    }
  }

  /** Steps in which a client appends nothing leave it with the records it had. */
  lemma {:induction false} OthersAppendNothingOfMine(hash: string -> nat, apply: Applier, run: seq<LogState>,
                                                     steps: seq<Step>, i: nat, j: nat, client: nat)
    requires IsRun(hash, apply, run, steps) && i <= j < |run|
    requires forall k :: i <= k < j ==> !AppendsAs(steps[k], client)
    ensures OwnIn(run[j].entries, client) == OwnIn(run[i].entries, client)
    decreases j
  {
    if i < j {
      OthersAppendNothingOfMine(hash, apply, run, steps, i, j - 1, client);
      RunWithinRely(hash, apply, run, steps, j - 1, j - 1);
      StepWithinRely(hash, apply, run[j - 1], steps[j - 1]);
    }
  }

  /** Aux data stored at any time of a run is still right at every later time. */
  lemma {:induction false} StoredAuxStaysSound(hash: string -> nat, apply: Applier, run: seq<LogState>,
                                               steps: seq<Step>, i: nat, j: nat, at: nat)
    requires IsRun(hash, apply, run, steps) && i <= j < |run|
    requires at < |run[i].entries| && run[i].entries[at].seqNum in run[i].aux
    ensures at < |run[j].entries|
    ensures SoundAux(apply, run[j].entries[..at + 1], run[i].aux[run[i].entries[at].seqNum])
  {
    RunWithinRely(hash, apply, run, steps, i, j);
    assert SoundAt(apply, run[i], at);
    assert run[j].entries[..at + 1] == run[i].entries[..at + 1];
  }

  // ---------------------------------------------------------------- the service object

  /** What one client has done to the log. */
  datatype Footprint = Footprint(records: set<nat>, failures: nat) {
    function Added(at: nat): Footprint { this.(records := records + {at}) }

    function Failed(): Footprint { this.(failures := failures + 1) }
  }

  /** The log as one client sees it. */
  class SharedLog {
    const me: nat
    const hash: string -> nat
    const apply: Applier
    const disableAuxData: bool
    var entries: seq<Entry>
    var aux: map<nat, AuxData>
    ghost var failures: nat              // appends of this client that failed

    constructor (me: nat, hash: string -> nat, apply: Applier, disableAuxData: bool)
      ensures Valid() && entries == []
      ensures this.me == me && this.hash == hash && this.apply == apply && this.disableAuxData == disableAuxData
    {
      this.me, this.hash, this.apply, this.disableAuxData := me, hash, apply, disableAuxData;
      entries, aux, failures := [], map[], 0;
    }

    ghost predicate Valid()
      reads this
    {
      ValidState(hash, apply, LogState(entries, aux))
    }

    /** Where this client's own records are, and how often it failed to append one. */
    ghost function Own(): Footprint
      reads this
    {
      Footprint(OwnIn(entries, me), failures)
    }

    /**
     What the other clients do meanwhile. Callers learn from it only that the log grew, by no record of
     this client, and stayed valid, so they are verified against every sequence of steps of the others.
     */
    method Interfere()
      requires Valid()
      modifies this
      ensures Valid() && old(entries) <= entries && Own() == old(Own())
    {
    }

    method AuxOf(seqNum: nat) returns (a: Option<AuxData>)
      ensures a.Some? ==> seqNum in aux && aux[seqNum] == a.value
    {
      var available: bool := *;
      a := if available && seqNum in aux then Some(aux[seqNum]) else None;
    }

    /** The entry with the greatest sequence number at most `seqNum` that carries the tag. */
    method ReadPrev(tag: nat, seqNum: nat) returns (r: Option<Fetched>, ghost at: nat)
      requires Valid()
      modifies this
      ensures Valid() && old(entries) <= entries && Own() == old(Own())
      ensures r.None? ==> forall j :: 0 <= j < |entries| && entries[j].seqNum <= seqNum ==> !HasTag(entries[j], tag)
      ensures r.Some? ==>
                at < |entries| && r.value.entry == entries[at] && entries[at].seqNum <= seqNum &&
                HasTag(entries[at], tag) &&
                (forall j :: at < j < |entries| && entries[j].seqNum <= seqNum ==> !HasTag(entries[j], tag)) &&
                (r.value.aux.Some? ==> SoundAux(apply, entries[..at + 1], r.value.aux.value))
    {
      Interfere();
      r, at := None, 0;
      var i := |entries|;
      while i > 0
        invariant 0 <= i <= |entries|
        invariant forall j :: i <= j < |entries| && entries[j].seqNum <= seqNum ==> !HasTag(entries[j], tag)
      {
        i := i - 1;
        if entries[i].seqNum <= seqNum && HasTag(entries[i], tag) {
          var a := AuxOf(entries[i].seqNum);
          assert SoundAt(apply, LogState(entries, aux), i);
          return Some(Fetched(entries[i], a)), i;
        }
      }
    }

    /** The entry with the least sequence number at least `seqNum` that carries the tag. */
    method ReadNext(tag: nat, seqNum: nat) returns (r: Option<Fetched>, ghost at: nat)
      requires Valid()
      modifies this
      ensures Valid() && old(entries) <= entries && Own() == old(Own())
      ensures r.None? ==> forall j :: 0 <= j < |entries| && entries[j].seqNum >= seqNum ==> !HasTag(entries[j], tag)
      ensures r.Some? ==>
                at < |entries| && r.value.entry == entries[at] && entries[at].seqNum >= seqNum &&
                HasTag(entries[at], tag) &&
                (forall j :: 0 <= j < at && entries[j].seqNum >= seqNum ==> !HasTag(entries[j], tag)) &&
                (r.value.aux.Some? ==> SoundAux(apply, entries[..at + 1], r.value.aux.value))
    {
      Interfere();
      r, at := None, 0;
      var i := 0;
      while i < |entries|
        invariant 0 <= i <= |entries|
        invariant forall j :: 0 <= j < i && entries[j].seqNum >= seqNum ==> !HasTag(entries[j], tag)
      {
        if entries[i].seqNum >= seqNum && HasTag(entries[i], tag) {
          var a := AuxOf(entries[i].seqNum);
          assert SoundAt(apply, LogState(entries, aux), i);
          return Some(Fetched(entries[i], a)), i;
        }
        i := i + 1;
      }
    }

    /** Appends one record of this client at the end of the log; fails once sequence numbers run out. */
    method Append(tags: set<nat>, record: Record) returns (r: Option<nat>)
      requires Valid()
      requires forall s :: NextSeqNum(entries) <= s < MAX_SEQNUM ==> WellFormed(hash, Entry(s, tags, record, me))
      modifies this
      ensures Valid() && old(entries) <= entries
      ensures r.None? ==> Own() == old(Own()).Failed()
      ensures r.Some? ==> |entries| > |old(entries)| && entries[|entries| - 1] == Entry(r.value, tags, record, me) &&
                          Own() == old(Own()).Added(|entries| - 1)
    {
      Interfere();
      NextSeqNumGrows(old(entries), entries);
      var skipTo: int := *;
      var seqNum := if NextSeqNum(entries) < skipTo then skipTo else NextSeqNum(entries);
      if seqNum >= MAX_SEQNUM {
        failures := failures + 1;
        return None;
      }
      ghost var s := LogState(entries, aux);
      StepWithinRely(hash, apply, s, AppendStep(Entry(seqNum, tags, record, me)));
      entries, aux := entries + [Entry(seqNum, tags, record, me)], aux - {seqNum};
      r := Some(seqNum);
    }

    /** Attaches aux data to a position; every caller must show that the data is sound there. */
    method SetAuxData(seqNum: nat, a: AuxData, ghost at: nat)
      requires Valid()
      requires at < |entries| && entries[at].seqNum == seqNum && SoundAux(apply, entries[..at + 1], a)
      modifies this
      ensures Valid() && old(entries) <= entries && Own() == old(Own())
      ensures seqNum in aux && aux[seqNum] == a
    {
      Interfere();
      assert entries[..at + 1] == old(entries)[..at + 1];
      ghost var s := LogState(entries, aux);
      StepWithinRely(hash, apply, s, SetAuxStep(at, a));
      aux := aux[seqNum := a];
    }
  }
}
