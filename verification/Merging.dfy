/** Putting together the answers of all index shards to one query. */
module Merging {
  import opened Logs
  import opened Sets
  import opened IndexContents
  import opened IndexAnswers
  import opened Indexes

  predicate IsPointHit(r: QueryResult)
  {
    r.state.Found? && r.query.seqNum == r.found.seqNum
  }

  /** The step that takes one more shard's answer into account. */
  function Closer(best: QueryResult, other: QueryResult): QueryResult
  {
    if best.state.Found? && other.state.Empty? then best
    else if best.state.Empty? && other.state.Found? then other
    else if best.query.direction.ReadPrev? then (if best.found.seqNum < other.found.seqNum then other else best)
    else (if other.found.seqNum < best.found.seqNum then other else best)
  }

  /** The answers merged in the order they arrived. */
  function Merge(rs: seq<QueryResult>): QueryResult
    requires rs != []
  {
    if |rs| == 1 then rs[0] else Closer(Merge(rs[..|rs| - 1]), rs[|rs| - 1])
  }

  lemma {:induction false} MergeIsOne(rs: seq<QueryResult>)
    requires rs != []
    ensures Merge(rs) in rs
  {
    if |rs| > 1 {
      MergeIsOne(rs[..|rs| - 1]);
    }
  }

  /** An answer of a shard to one read: nothing, or a record on the right side of the bound. */
  predicate AnswersRead(r: QueryResult, prev: bool, bound: nat)
  {
    r.query.seqNum == bound && (r.query.direction.ReadPrev? <==> prev) &&
    match r.state
    case Continue => false
    case Empty => r.found.seqNum == INVALID_SEQNUM
    case Found => if prev then r.found.seqNum <= bound else bound <= r.found.seqNum
  }

  predicate SameRead(rs: seq<QueryResult>, prev: bool, bound: nat)
  {
    forall i :: 0 <= i < |rs| ==> AnswersRead(rs[i], prev, bound)
  }

  /** No other shard found a record nearer to the bound. */
  predicate NoFarther(r: QueryResult, other: QueryResult, prev: bool)
  {
    other.state.Found? ==>
      r.state.Found? && if prev then other.found.seqNum <= r.found.seqNum else r.found.seqNum <= other.found.seqNum
  }

  ghost predicate Best(rs: seq<QueryResult>, r: QueryResult, prev: bool)
  {
    r in rs && forall i :: 0 <= i < |rs| ==> NoFarther(r, rs[i], prev)
  }

  lemma {:induction false} MergeIsBest(rs: seq<QueryResult>, prev: bool, bound: nat)
    requires rs != [] && SameRead(rs, prev, bound)
    ensures Best(rs, Merge(rs), prev)
  {
    if |rs| > 1 {
      var shorter, last := rs[..|rs| - 1], rs[|rs| - 1];
      MergeIsBest(shorter, prev, bound);
      var best := Merge(shorter);
      var k :| 0 <= k < |shorter| && shorter[k] == best;
      assert AnswersRead(rs[k], prev, bound) && AnswersRead(last, prev, bound);
      forall i | 0 <= i < |rs|
        ensures NoFarther(Merge(rs), rs[i], prev)
      {
        assert i < |shorter| ==> NoFarther(best, shorter[i], prev);
      }
    }
  }

  /** The order in which answers arrive, and how often, does not change what is found. */
  lemma {:induction false} ArrivalOrderDoesNotMatter(rs: seq<QueryResult>, rs': seq<QueryResult>, prev: bool,
                                                     bound: nat)
    requires rs != [] && SameRead(rs, prev, bound) && forall r :: r in rs <==> r in rs'
    ensures rs' != [] && Merge(rs).state == Merge(rs').state && Merge(rs).found.seqNum == Merge(rs').found.seqNum
  {
    assert rs[0] in rs';
    forall i | 0 <= i < |rs'|
      ensures AnswersRead(rs'[i], prev, bound)
    {
      assert rs'[i] in rs;
    }
    MergeIsBest(rs, prev, bound);
    MergeIsBest(rs', prev, bound);
    var a, b := Merge(rs), Merge(rs');
    assert a in rs' && b in rs;
    assert AnswersRead(a, prev, bound) && AnswersRead(b, prev, bound);
    assert NoFarther(a, b, prev) && NoFarther(b, a, prev);
  }

  // ---------------------------------------------------------------- what is sent

  datatype Action = ForwardRead(result: QueryResult) | SendFailure(query: Query)

  /** A shard that finds exactly the record asked for forwards the read at once. */
  function PointForwards(rs: seq<QueryResult>): seq<Action>
  {
    if rs == [] then []
    else PointForwards(rs[..|rs| - 1]) + if IsPointHit(rs[|rs| - 1]) then [ForwardRead(rs[|rs| - 1])] else []
  }

  /** What the merger sends once all answers are there. */
  function MergerSends(best: QueryResult): seq<Action>
  {
    if best.state.Found? then (if IsPointHit(best) then [] else [ForwardRead(best)]) else [SendFailure(best.query)]
  }

  predicate AtMostOnePointHit(rs: seq<QueryResult>)
  {
    forall i, j :: 0 <= i < j < |rs| ==> !(IsPointHit(rs[i]) && IsPointHit(rs[j]))
  }

  lemma {:induction false} NoPointForwards(rs: seq<QueryResult>)
    requires forall i :: 0 <= i < |rs| ==> !IsPointHit(rs[i])
    ensures PointForwards(rs) == []
  {
    if rs != [] {
      NoPointForwards(rs[..|rs| - 1]);
    }
  }

  lemma {:induction false} OnePointForward(rs: seq<QueryResult>, k: nat)
    requires k < |rs| && IsPointHit(rs[k]) && AtMostOnePointHit(rs)
    ensures PointForwards(rs) == [ForwardRead(rs[k])]
  {
    if k == |rs| - 1 {
      NoPointForwards(rs[..|rs| - 1]);
    } else {
      OnePointForward(rs[..|rs| - 1], k);
    }
  }

  /** What one read must lead to, whichever shards answered first. */
  ghost predicate Outcome(rs: seq<QueryResult>, prev: bool, a: Action)
  {
    match a
    case ForwardRead(r) => r.state.Found? && Best(rs, r, prev) &&
                           ((exists i :: 0 <= i < |rs| && IsPointHit(rs[i])) ==> IsPointHit(r))
    case SendFailure(q) => (exists r :: r in rs && r.query == q) && forall i :: 0 <= i < |rs| ==> rs[i].state.Empty?
  }

  /**
   Exactly one message answers a read: the shard that has the very record sends it if there is one,
   otherwise the merger forwards the nearest record, or reports that all shards found nothing.
   */
  lemma {:induction false} ExactlyOneAnswer(rs: seq<QueryResult>, prev: bool, bound: nat)
    requires rs != [] && SameRead(rs, prev, bound) && AtMostOnePointHit(rs)
    ensures var sent := PointForwards(rs) + MergerSends(Merge(rs)); |sent| == 1 && Outcome(rs, prev, sent[0])
    ensures (exists i :: 0 <= i < |rs| && IsPointHit(rs[i])) <==> MergerSends(Merge(rs)) == []
  {
    MergeIsBest(rs, prev, bound);
    var best := Merge(rs);
    assert AnswersRead(best, prev, bound);
    if k :| 0 <= k < |rs| && IsPointHit(rs[k]) {
      OnePointForward(rs, k);
      assert NoFarther(best, rs[k], prev) && AnswersRead(rs[k], prev, bound);
      assert best.found.seqNum == bound;
      var j :| 0 <= j < |rs| && rs[j] == best;
      assert j == k;
    } else {
      NoPointForwards(rs);
      forall i | 0 <= i < |rs| && best.state.Empty?
        ensures rs[i].state.Empty?
      {
        assert NoFarther(best, rs[i], prev) && AnswersRead(rs[i], prev, bound);
      }
    }
  }

  // ---------------------------------------------------------------- the table of ongoing reads

  datatype Arrival = Arrival(node: nat, result: QueryResult)

  datatype IndexReadOp = IndexReadOp(nodes: set<nat>, result: QueryResult)

  function Results(arrivals: seq<Arrival>): (rs: seq<QueryResult>)
    ensures |rs| == |arrivals| && forall i :: 0 <= i < |rs| ==> rs[i] == arrivals[i].result
  {
    seq(|arrivals|, i requires 0 <= i < |arrivals| => arrivals[i].result)
  }

  function Nodes(arrivals: seq<Arrival>): set<nat>
  {
    set a | a in arrivals :: a.node
  }

  predicate AllOf(arrivals: seq<Arrival>, key: nat)
  {
    forall i :: 0 <= i < |arrivals| ==> arrivals[i].result.query.clientData == key
  }

  /** An entry of the table sums up the answers that have arrived for its key. */
  ghost predicate SumsUp(op: IndexReadOp, arrivals: seq<Arrival>, key: nat)
  {
    arrivals != [] && AllOf(arrivals, key) && op.nodes == Nodes(arrivals) && op.result == Merge(Results(arrivals))
  }

  lemma {:induction false} SumUpOne(a: Arrival)
    ensures SumsUp(IndexReadOp({a.node}, a.result), [a], a.result.query.clientData)
  {
    assert a in [a];
  }

  lemma {:induction false} SumUpMore(op: IndexReadOp, arrivals: seq<Arrival>, a: Arrival)
    requires SumsUp(op, arrivals, a.result.query.clientData)
    ensures SumsUp(IndexReadOp(op.nodes + {a.node}, Closer(op.result, a.result)), arrivals + [a],
                   a.result.query.clientData)
    ensures |op.nodes + {a.node}| <= |op.nodes| + 1
  {
    var rs := Results(arrivals + [a]);
    assert rs[..|rs| - 1] == Results(arrivals);
    assert a in arrivals + [a] && forall x :: x in arrivals ==> x in arrivals + [a];
  }

  lemma {:induction false} SummedKey(op: IndexReadOp, arrivals: seq<Arrival>, key: nat)
    requires SumsUp(op, arrivals, key)
    ensures op.result.query.clientData == key
  {
    MergeIsOne(Results(arrivals));
  }

  /** The answers kept for a key. */
  function ArrivedFor(arrived: map<nat, seq<Arrival>>, key: nat): seq<Arrival>
  {
    if key in arrived then arrived[key] else []
  }

  /** What `Aggregate` does to the answers that are kept. */
  ghost predicate Aggregated(numShards: nat, arrived: map<nat, seq<Arrival>>, a: Arrival, done: Option<QueryResult>,
                             arrived': map<nat, seq<Arrival>>)
  {
    var key := a.result.query.clientData;
    var all := ArrivedFor(arrived, key) + [a];
    (done.Some? ==> done.value.query.clientData == key) &&
    if |Nodes(all)| == numShards
    then done == Some(Merge(Results(all))) && arrived' == arrived - {key}
    else done == None && arrived' == arrived[key := all]
  }

  ghost predicate TableOk(ongoing: map<nat, IndexReadOp>, arrived: map<nat, seq<Arrival>>, numShards: nat)
  {
    ongoing.Keys == arrived.Keys &&
    forall key {:trigger ongoing[key]} :: key in ongoing ==>
      SumsUp(ongoing[key], arrived[key], key) && |ongoing[key].nodes| < numShards
  }

  lemma {:induction false} TableChange(ongoing: map<nat, IndexReadOp>, arrived: map<nat, seq<Arrival>>, numShards: nat,
                                       key: nat, op: IndexReadOp, all: seq<Arrival>)
    requires TableOk(ongoing, arrived, numShards)
    ensures TableOk(ongoing - {key}, arrived - {key}, numShards)
    ensures SumsUp(op, all, key) && |op.nodes| < numShards ==>
              TableOk(ongoing[key := op], arrived[key := all], numShards)
  {
  }

  class EngineIndexReadOp {
    var ongoing: map<nat, IndexReadOp>
    ghost var arrived: map<nat, seq<Arrival>>

    constructor ()
      ensures ongoing == map[] && arrived == map[]
    {
      ongoing, arrived := map[], map[];
    }

    ghost predicate Valid(numShards: nat)
      reads this
    {
      TableOk(ongoing, arrived, numShards)
    }

    /** Takes in an answer; when all shards have answered, the read leaves the table with the merged answer. */
    method Aggregate(numShards: nat, node: nat, r: QueryResult) returns (done: Option<QueryResult>)
      requires Valid(numShards) && numShards > 0
      modifies this
      ensures Valid(numShards) && Aggregated(numShards, old(arrived), Arrival(node, r), done, arrived)
    {
      var key := r.query.clientData;
      ghost var before := ArrivedFor(arrived, key);
      ghost var all := before + [Arrival(node, r)];
      var op: IndexReadOp;
      if key !in ongoing {
        op := IndexReadOp({node}, r);
        assert all == [Arrival(node, r)];
        SumUpOne(Arrival(node, r));
      } else {
        op := IndexReadOp(ongoing[key].nodes + {node}, Closer(ongoing[key].result, r));
        SumUpMore(ongoing[key], before, Arrival(node, r));
      }
      TableChange(ongoing, arrived, numShards, key, op, all);
      if |op.nodes| == numShards {
        done := Some(op.result);
        SummedKey(op, all, key);
        ongoing := ongoing - {key};
        arrived := arrived - {key};
      } else {
        done := None;
        ongoing := ongoing[key := op];
        arrived := arrived[key := all];
      }
    }
  }

  // ---------------------------------------------------------------- an index node that merges

  function KeyOf(a: Action): nat
  {
    match a case ForwardRead(r) => r.query.clientData case SendFailure(q) => q.clientData
  }

  /** The messages sent for one read. */
  function SentFor(sent: seq<Action>, key: nat): seq<Action>
  {
    if sent == [] then []
    else SentFor(sent[..|sent| - 1], key) + if KeyOf(sent[|sent| - 1]) == key then [sent[|sent| - 1]] else []
  }

  lemma {:induction false} SentForMore(sent: seq<Action>, more: seq<Action>, key: nat)
    ensures SentFor(sent + more, key) == SentFor(sent, key) + SentFor(more, key)
  {
    if more == [] {
      assert sent + more == sent;
    } else {
      SentForMore(sent, more[..|more| - 1], key);
      assert (sent + more)[..|sent + more| - 1] == sent + more[..|more| - 1];
    }
  }

  lemma {:induction false} SentForOne(sent: seq<Action>, key: nat)
    requires |sent| <= 1
    ensures SentFor(sent, key) == if |sent| == 1 && KeyOf(sent[0]) == key then sent else []
  {
    if |sent| == 1 {
      assert sent[..0] == [];
    }
  }

  /** The answers that belong to one read, in the order they arrived. */
  function ArrivalsFor(arrivals: seq<Arrival>, key: nat): seq<Arrival>
  {
    if arrivals == [] then []
    else ArrivalsFor(arrivals[..|arrivals| - 1], key) +
         if arrivals[|arrivals| - 1].result.query.clientData == key then [arrivals[|arrivals| - 1]] else []
  }

  /** No shard has answered twice. */
  predicate Distinct(arrivals: seq<Arrival>)
  {
    forall i, j :: 0 <= i < j < |arrivals| ==> arrivals[i].node != arrivals[j].node
  }

  lemma {:induction false} DistinctNodes(arrivals: seq<Arrival>)
    requires Distinct(arrivals)
    ensures |Nodes(arrivals)| == |arrivals|
  {
    if arrivals != [] {
      var shorter, last := arrivals[..|arrivals| - 1], arrivals[|arrivals| - 1];
      DistinctNodes(shorter);
      assert arrivals == shorter + [last];
      assert last.node !in Nodes(shorter);
      assert Nodes(arrivals) == Nodes(shorter) + {last.node} by {
        assert last in arrivals && forall x :: x in shorter ==> x in arrivals;
      }
    }
  }

  /** One read at the merger: its answers are kept until the last one, and then exactly the merged answer is sent. */
  ghost predicate ReadOk(numShards: nat, arrivals: seq<Arrival>, kept: seq<Arrival>, sent: seq<Action>)
  {
    Distinct(arrivals) && |arrivals| <= numShards ==>
      if |arrivals| < numShards then kept == arrivals && sent == []
      else kept == [] && arrivals != [] && sent == MergerSends(Merge(Results(arrivals)))
  }

  /** The next answer to a read keeps it in order. */
  lemma {:induction false} ReadStep(numShards: nat, arrivals: seq<Arrival>, kept: seq<Arrival>, sent: seq<Action>,
                                    a: Arrival)
    requires numShards > 0 && ReadOk(numShards, arrivals, kept, sent)
    ensures if |Nodes(kept + [a])| == numShards
            then ReadOk(numShards, arrivals + [a], [], sent + MergerSends(Merge(Results(kept + [a]))))
            else ReadOk(numShards, arrivals + [a], kept + [a], sent)
  {
    var all := arrivals + [a];
    if Distinct(all) && |all| <= numShards {
      assert forall i :: 0 <= i < |arrivals| ==> all[i] == arrivals[i];
      assert Distinct(arrivals);
      DistinctNodes(all);
    }
  }

  /** An answer to one read keeps all reads in order. */
  lemma {:induction false} KeepsReads(numShards: nat, arrived: map<nat, seq<Arrival>>,
                                      arrived': map<nat, seq<Arrival>>, served: seq<Arrival>, sent: seq<Action>,
                                      a: Arrival, done: Option<QueryResult>, key: nat)
    requires numShards > 0 && ReadOk(numShards, ArrivalsFor(served, key), ArrivedFor(arrived, key), SentFor(sent, key))
    requires Aggregated(numShards, arrived, a, done, arrived')
    ensures var sent' := sent + if done.Some? then MergerSends(done.value) else [];
      ReadOk(numShards, ArrivalsFor(served + [a], key), ArrivedFor(arrived', key), SentFor(sent', key))
  {
    var added := if done.Some? then MergerSends(done.value) else [];
    SentForAdded(sent, added, key, a.result.query.clientData);
    ArrivalsForMore(served, a, key);
    if key == a.result.query.clientData {
      ReadStep(numShards, ArrivalsFor(served, key), ArrivedFor(arrived, key), SentFor(sent, key), a);
    }
  }

  lemma {:induction false} SentForAdded(sent: seq<Action>, added: seq<Action>, key: nat, key': nat)
    requires |added| <= 1 && forall i :: 0 <= i < |added| ==> KeyOf(added[i]) == key'
    ensures SentFor(sent + added, key) ==
            if key == key' && added != [] then SentFor(sent, key) + added else SentFor(sent, key)
  {
    SentForMore(sent, added, key);
    SentForOne(added, key);
    assert SentFor(sent, key) + [] == SentFor(sent, key);
  }

  lemma {:induction false} ArrivalsForMore(served: seq<Arrival>, a: Arrival, key: nat)
    ensures ArrivalsFor(served + [a], key) ==
            if key == a.result.query.clientData then ArrivalsFor(served, key) + [a] else ArrivalsFor(served, key)
  {
    assert (served + [a])[..|served + [a]| - 1] == served;
  }

  class Indexer {
    const nodeId: nat
    const numShards: nat
    const op: EngineIndexReadOp
    var forwarded: seq<Action>          // reads forwarded because this shard has the very record
    var toMaster: seq<QueryResult>      // answers passed to the node that merges
    var sent: seq<Action>               // messages sent as the merger
    ghost var processed: seq<QueryResult>  // own answers so far
    ghost var served: seq<Arrival>         // answers merged here so far

    constructor (nodeId: nat, numShards: nat)
      requires numShards > 0
      ensures Valid() && fresh(op) && this.nodeId == nodeId && this.numShards == numShards
      ensures forwarded == [] && toMaster == [] && sent == [] && processed == [] && served == []
    {
      this.nodeId, this.numShards := nodeId, numShards;
      op := new EngineIndexReadOp();
      forwarded, toMaster, sent, processed, served := [], [], [], [], [];
    }

    ghost predicate Valid()
      reads this, op
    {
      numShards > 0 && op.Valid(numShards) && forwarded == PointForwards(processed) &&
      forall key {:trigger ArrivalsFor(served, key)} ::
        ReadOk(numShards, ArrivalsFor(served, key), ArrivedFor(op.arrived, key), SentFor(sent, key))
    }

    /** Merges an answer and sends what follows from it when it is the last one. */
    method AggregateIndexResult(node: nat, r: QueryResult)
      requires Valid()
      modifies this`sent, this`served, op
      ensures Valid() && served == old(served) + [Arrival(node, r)]
    {
      ghost var a := Arrival(node, r);
      ghost var sent0, served0, arrived0 := sent, served, op.arrived;
      var done := op.Aggregate(numShards, node, r);
      if done.Some? {
        sent := sent + MergerSends(done.value);
      }
      served := served + [a];
      ghost var added := if done.Some? then MergerSends(done.value) else [];
      assert sent == sent0 + added;
      forall key {:trigger ArrivalsFor(served, key)}
        ensures ReadOk(numShards, ArrivalsFor(served, key), ArrivedFor(op.arrived, key), SentFor(sent, key))
      {
        assert ReadOk(numShards, ArrivalsFor(served0, key), ArrivedFor(arrived0, key), SentFor(sent0, key));
        KeepsReads(numShards, arrived0, op.arrived, served0, sent0, a, done, key);
      }
    }

    /** The node's own answer to a read. */
    method ProcessIndexResult(r: QueryResult)
      requires Valid()
      modifies this`forwarded, this`toMaster, this`sent, this`processed, this`served, op
      ensures Valid() && processed == old(processed) + [r] && forwarded == old(forwarded) + PointForwards([r])
      ensures if r.query.useAggregator || r.query.masterNodeId != nodeId
              then toMaster == old(toMaster) + [r] && served == old(served) && sent == old(sent)
              else toMaster == old(toMaster) && served == old(served) + [Arrival(nodeId, r)]
    {
      PointForwardsMore(processed, r);
      processed := processed + [r];
      if IsPointHit(r) {
        forwarded := forwarded + [ForwardRead(r)];
      }
      if r.query.useAggregator || r.query.masterNodeId != nodeId {
        toMaster := toMaster + [r];
        return;
      }
      AggregateIndexResult(nodeId, r);
    }

    /** An answer passed on by another node. */
    method HandleSlaveResult(node: nat, r: QueryResult)
      requires Valid()
      modifies this`sent, this`served, op
      ensures Valid() && served == old(served) + [Arrival(node, r)]
    {
      AggregateIndexResult(node, r);
    }

    /** Before the last shard has answered, the merger sends nothing. */
    lemma {:induction false} NothingSentBefore(key: nat)
      requires Valid() && var arrivals := ArrivalsFor(served, key); Distinct(arrivals) && |arrivals| < numShards
      ensures SentFor(sent, key) == []
    {
      assert ReadOk(numShards, ArrivalsFor(served, key), ArrivedFor(op.arrived, key), SentFor(sent, key));
    }
  }

  lemma {:induction false} PointForwardsMore(rs: seq<QueryResult>, r: QueryResult)
    ensures PointForwards(rs + [r]) == PointForwards(rs) + PointForwards([r])
    ensures PointForwards([r]) == if IsPointHit(r) then [ForwardRead(r)] else []
  {
    assert (rs + [r])[..|rs|] == rs && [r][..0] == [];
    assert PointForwards([]) == [];
  }

  // ---------------------------------------------------------------- all nodes together

  /** A node's own answers to one read. */
  function AnswersFor(rs: seq<QueryResult>, key: nat): seq<QueryResult>
  {
    if rs == [] then []
    else AnswersFor(rs[..|rs| - 1], key) + if rs[|rs| - 1].query.clientData == key then [rs[|rs| - 1]] else []
  }

  lemma {:induction false} ForwardedFor(rs: seq<QueryResult>, key: nat)
    ensures SentFor(PointForwards(rs), key) == PointForwards(AnswersFor(rs, key))
  {
    if rs != [] {
      var n := |rs| - 1;
      var hit := if IsPointHit(rs[n]) then [ForwardRead(rs[n])] else [];
      ForwardedFor(rs[..n], key);
      SentForMore(PointForwards(rs[..n]), hit, key);
      SentForOne(hit, key);
      PointForwardsMore(AnswersFor(rs[..n], key), rs[n]);
      if rs[n].query.clientData == key {
        assert AnswersFor(rs, key) == AnswersFor(rs[..n], key) + [rs[n]];
        assert SentFor(hit, key) == hit;
      } else {
        assert AnswersFor(rs, key) == AnswersFor(rs[..n], key);
        assert SentFor(hit, key) == [];
      }
    }
  }

  /** The reads forwarded for one query by the shards that have the very record. */
  ghost function Forwards(nodes: seq<Indexer>, key: nat): seq<Action>
    reads nodes
  {
    if nodes == [] then [] else Forwards(nodes[..|nodes| - 1], key) + SentFor(nodes[|nodes| - 1].forwarded, key)
  }

  /** Each node has answered the read once. */
  ghost predicate EachAnswered(nodes: seq<Indexer>, key: nat, rs: seq<QueryResult>)
    reads nodes, set i | 0 <= i < |nodes| :: nodes[i].op
  {
    |rs| == |nodes| &&
    forall i :: 0 <= i < |nodes| ==> nodes[i].Valid() && AnswersFor(nodes[i].processed, key) == [rs[i]]
  }

  lemma {:induction false} ForwardsArePointHits(nodes: seq<Indexer>, key: nat, rs: seq<QueryResult>)
    requires EachAnswered(nodes, key, rs)
    ensures Forwards(nodes, key) == PointForwards(rs)
  {
    if nodes != [] {
      var n := |nodes| - 1;
      ForwardsArePointHits(nodes[..n], key, rs[..n]);
      ForwardedFor(nodes[n].processed, key);
      PointForwardsMore(rs[..n], rs[n]);
      assert rs == rs[..n] + [rs[n]];
    }
  }

  /** The answers at the merger are those of the shards, one each, in the order they happened to arrive. */
  ghost predicate OneFromEach(arrivals: seq<Arrival>, rs: seq<QueryResult>)
  {
    Distinct(arrivals) && |arrivals| == |rs| &&
    forall k :: 0 <= k < |arrivals| ==> arrivals[k].node < |rs| && arrivals[k].result == rs[arrivals[k].node]
  }

  /** No shard is missing. */
  lemma {:induction false} AllShardsArrive(arrivals: seq<Arrival>, rs: seq<QueryResult>, i: nat)
    requires OneFromEach(arrivals, rs) && i < |rs|
    ensures rs[i] in Results(arrivals)
  {
    DistinctNodes(arrivals);
    var all := FirstNumbers(|rs|);
    assert Nodes(arrivals) <= all;
    SubsetSize(Nodes(arrivals), all);
    assert i in Nodes(arrivals);
    var a :| a in arrivals && a.node == i;
    var k :| 0 <= k < |arrivals| && arrivals[k] == a;
    assert Results(arrivals)[k] == rs[i];
  }

  /** Answers that arrive in any order are still answers to one read with at most one point hit. */
  lemma {:induction false} ArrivalsMergeable(arrivals: seq<Arrival>, rs: seq<QueryResult>, prev: bool, bound: nat)
    requires OneFromEach(arrivals, rs) && SameRead(rs, prev, bound) && AtMostOnePointHit(rs)
    ensures SameRead(Results(arrivals), prev, bound) && AtMostOnePointHit(Results(arrivals))
    ensures forall r :: r in Results(arrivals) <==> r in rs
  {
    forall j, k | 0 <= j < k < |arrivals|
      ensures !(IsPointHit(Results(arrivals)[j]) && IsPointHit(Results(arrivals)[k]))
    {
      assert arrivals[j].node != arrivals[k].node;
    }
    forall r
      ensures r in Results(arrivals) <==> r in rs
    {
      if r in rs {
        var i :| 0 <= i < |rs| && rs[i] == r;
        AllShardsArrive(arrivals, rs, i);
      }
    }
  }

  /** An outcome depends on which answers there are, not on their order. */
  lemma {:induction false} OutcomeAnyOrder(rs: seq<QueryResult>, rs': seq<QueryResult>, prev: bool, a: Action)
    requires Outcome(rs, prev, a) && forall r :: r in rs <==> r in rs'
    ensures Outcome(rs', prev, a)
  {
    forall i | 0 <= i < |rs'|
      ensures rs'[i] in rs
    {
      assert rs'[i] in rs';
    }
  }

  /**
   Over any run of n index nodes and a merger, in which the answers to many reads may arrive in any order:
   once all shards have answered a read, exactly one message was sent for it by all nodes together.
   */
  lemma {:induction false} ReadAnsweredOnce(nodes: seq<Indexer>, merger: Indexer, key: nat, rs: seq<QueryResult>,
                                            prev: bool, bound: nat)
      returns (a: Action)
    requires EachAnswered(nodes, key, rs) && SameRead(rs, prev, bound) && AtMostOnePointHit(rs)
    requires merger.Valid() && merger.numShards == |nodes| && OneFromEach(ArrivalsFor(merger.served, key), rs)
    ensures Forwards(nodes, key) + SentFor(merger.sent, key) == [a] && Outcome(rs, prev, a)
  {
    var arrivals := ArrivalsFor(merger.served, key);
    ForwardsArePointHits(nodes, key, rs);
    assert ReadOk(merger.numShards, arrivals, ArrivedFor(merger.op.arrived, key), SentFor(merger.sent, key));
    a := OneMessage(arrivals, rs, prev, bound);
  }

  /** What the nodes and the merger send for a read is one message, in whatever order the answers arrive. */
  lemma {:induction false} OneMessage(arrivals: seq<Arrival>, rs: seq<QueryResult>, prev: bool, bound: nat)
      returns (a: Action)
    requires arrivals != [] && OneFromEach(arrivals, rs) && SameRead(rs, prev, bound) && AtMostOnePointHit(rs)
    ensures PointForwards(rs) + MergerSends(Merge(Results(arrivals))) == [a] && Outcome(rs, prev, a)
  {
    var arrived := Results(arrivals);
    ArrivalsMergeable(arrivals, rs, prev, bound);
    ExactlyOneAnswer(arrived, prev, bound);
    SameForwards(rs, arrived);
    a := (PointForwards(arrived) + MergerSends(Merge(arrived)))[0];
    OutcomeAnyOrder(arrived, rs, prev, a);
  }

  /** The point hit is the same in any order. */
  lemma {:induction false} SameForwards(rs: seq<QueryResult>, rs': seq<QueryResult>)
    requires AtMostOnePointHit(rs) && AtMostOnePointHit(rs') && forall r :: r in rs <==> r in rs'
    ensures PointForwards(rs) == PointForwards(rs')
  {
    if k :| 0 <= k < |rs| && IsPointHit(rs[k]) {
      assert rs[k] in rs';
      var j :| 0 <= j < |rs'| && rs'[j] == rs[k];
      OnePointForward(rs, k);
      OnePointForward(rs', j);
    } else {
      forall j | 0 <= j < |rs'|
        ensures !IsPointHit(rs'[j])
      {
        assert rs'[j] in rs;
      }
      NoPointForwards(rs);
      NoPointForwards(rs');
    }
  }
}
