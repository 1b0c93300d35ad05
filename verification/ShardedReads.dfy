/** A read answered by all index shards, each in all its views, finds what a search of the whole log would find. */
module ShardedReads {
  import opened Logs
  import opened SpaceIndexes
  import opened IndexContents
  import opened IndexAnswers
  import opened Indexes
  import opened IndexPackages
  import opened ShardCuts
  import opened Merging
  import opened IndexShards
  import opened ViewWalks

  // ---------------------------------------------------------------- who owns a cut

  function OwnerOf(n: nat, c: nat): (i: nat)
    requires 0 < n && 0 < c
    ensures i < n && Own(i, n, c)
  {
    if c <= n then c - 1 else OwnerOf(n, c - n)
  }

  lemma {:induction false} OwnAlone(i: nat, j: nat, n: nat, c: nat)
    requires i < n && j < n && Own(i, n, c) && Own(j, n, c)
    ensures i == j
  {
    if c > n {
      OwnAlone(i, j, n, c - n);
    } else {
      OwnPositive(i, n, c);
    }
  }

  // ---------------------------------------------------------------- the log over all views

  /** The log spaces of all views, each with its cuts, and the index shards that share the cuts of each of them. */
  datatype Cluster = Cluster(numShards: nat, spaces: seq<Space>)

  datatype Space = Space(id: nat, history: History)

  ghost predicate ValidCluster(c: Cluster)
  {
    0 < c.numShards && c.spaces != [] &&
    forall v :: 0 <= v < |c.spaces| ==> ValidSpace(c.spaces[v], v)
  }

  /** The log space of a view lies in the range of that view. */
  ghost predicate ValidSpace(space: Space, v: nat)
  {
    ValidHistory(space.history) && InRange(View(space.id, map[], true), v)
  }

  function Current(c: Cluster): nat
    requires c.spaces != []
  {
    |c.spaces| - 1
  }

  /** What one shard holds of each view when it has got to a position in each. */
  ghost function ViewsOf(c: Cluster, i: nat, positions: seq<nat>): seq<View>
    requires ValidCluster(c) && i < c.numShards && |positions| == |c.spaces|
  {
    seq(|positions|, v requires 0 <= v < |positions| =>
      assert ValidSpace(c.spaces[v], v);
      View(c.spaces[v].id, Held(c.spaces[v].history, i, c.numShards, positions[v]), true))
  }

  /** A position of each shard in each view. */
  ghost predicate Placed(c: Cluster, positions: seq<seq<nat>>)
  {
    ValidCluster(c) && |positions| == c.numShards && forall i :: 0 <= i < |positions| ==> |positions[i]| == |c.spaces|
  }

  function SeqNum(c: Cluster, v: nat, s: nat): nat
  {
    if v < |c.spaces| then JoinTwo32(c.spaces[v].id, s) else INVALID_SEQNUM
  }

  /** A record of a view that a read could return. */
  ghost predicate Fits(c: Cluster, q: Query, v: nat, s: nat)
  {
    v < |c.spaces| && s < |c.spaces[v].history.data| &&
    c.spaces[v].history.data[s].userLogspace == q.userLogspace && Matches(c.spaces[v].history.data[s], q.userTag) &&
    Beyond(q, JoinTwo32(c.spaces[v].id, s))
  }

  /** A find names a record of the log, with the shard that stores it. */
  ghost predicate NamesRecord(c: Cluster, f: FoundResult, v: nat, s: nat)
  {
    v < |c.spaces| && s < |c.spaces[v].history.data| &&
    f == FoundResult(v, c.spaces[v].history.data[s].engineId, JoinTwo32(c.spaces[v].id, s))
  }

  /** A shard that has got to a position holds a record. */
  ghost predicate Holds(c: Cluster, i: nat, positions: seq<nat>, v: nat, s: nat)
    requires ValidCluster(c) && i < c.numShards && |positions| == |c.spaces|
  {
    v < |c.spaces| && ValidSpace(c.spaces[v], v) && s < |c.spaces[v].history.data| &&
    Own(i, c.numShards, CutOf(c.spaces[v].history, s)) && CutOf(c.spaces[v].history, s) <= positions[v]
  }

  /** What a shard can answer with are the records it holds that fit the read. */
  lemma {:induction false} ShardCandidate(c: Cluster, i: nat, positions: seq<nat>, q: Query, v: nat, s: nat)
    requires ValidCluster(c) && i < c.numShards && |positions| == |c.spaces| && v < |c.spaces|
    ensures Candidate(ViewsOf(c, i, positions)[v], q, s) <==> Holds(c, i, positions, v, s) && Fits(c, q, v, s)
  {
    assert ValidSpace(c.spaces[v], v);
  }

  lemma {:induction false} ViewsOfValid(c: Cluster, i: nat, positions: seq<nat>)
    requires ValidCluster(c) && i < c.numShards && |positions| == |c.spaces|
    ensures ValidViews(ViewsOf(c, i, positions))
  {
    var views := ViewsOf(c, i, positions);
    forall v | 0 <= v < |views|
      ensures InRange(views[v], v)
    {
      assert ValidSpace(c.spaces[v], v);
    }
  }

  /** Sequence numbers tell records of different views, and records of one view, apart. */
  lemma {:induction false} SameRecord(c: Cluster, u: nat, s: nat, v: nat, t: nat)
    requires ValidCluster(c) && u < |c.spaces| && v < |c.spaces|
    requires s < |c.spaces[u].history.data| && t < |c.spaces[v].history.data|
    ensures u < v ==> JoinTwo32(c.spaces[u].id, s) < JoinTwo32(c.spaces[v].id, t)
    ensures JoinTwo32(c.spaces[u].id, s) == JoinTwo32(c.spaces[v].id, t) ==> u == v && s == t
  {
    assert ValidSpace(c.spaces[u], u) && ValidSpace(c.spaces[v], v);
  }

  // ---------------------------------------------------------------- the read

  /**
   All shards have answered a fresh read, each after walking down as many views as it had to, and from
   at least the first `p` cuts of the current view.
   */
  ghost predicate AllAnswer(c: Cluster, positions: seq<seq<nat>>, p: nat, q: Query, rs: seq<QueryResult>)
  {
    Placed(c, positions) && |rs| == c.numShards && q.initial && Sane(q) &&
    forall i :: 0 <= i < c.numShards ==> ShardAnswers(c, i, positions[i], p, q, rs[i])
  }

  ghost predicate ShardAnswers(c: Cluster, i: nat, positions: seq<nat>, p: nat, q: Query, r: QueryResult)
    requires ValidCluster(c) && i < c.numShards
  {
    |positions| == |c.spaces| && p <= positions[Current(c)] &&
    exists results :: WalkedDown(ViewsOf(c, i, positions), Current(c), q, results) && r == results[|results| - 1]
  }

  /** The index of one shard in one view. */
  ghost predicate ShardOf(c: Cluster, i: nat, v: nat, shard: IndexShard)
  {
    v < |c.spaces| && shard.history == c.spaces[v].history && shard.shardId == i && shard.numShards == c.numShards &&
    shard.core.viewId == v && shard.core.logspaceId == c.spaces[v].id
  }

  /** What an index shard hands out is an answer from what it held, to a query that it was allowed to answer there. */
  lemma {:induction false} ShardResults(c: Cluster, i: nat, v: nat, shard: IndexShard, position: nat, finalized: bool,
                                        q: Query, r: QueryResult)
      returns (progress: nat)
    requires ValidCluster(c) && i < c.numShards && ShardOf(c, i, v, shard)
    requires ValidHistory(shard.history) && shard.JustifiedAt(position, finalized, r) && IsAbout(q, r)
    ensures ValidSpace(c.spaces[v], v) && Due(v, position, finalized, q)
    ensures Answers(v, c.spaces[v].id, Held(c.spaces[v].history, i, c.numShards, position), progress, q, r)
  {
    var records := Held(shard.history, shard.shardId, shard.numShards, position);
    progress := JoinTwo32(shard.core.logspaceId, LastApplied(shard.numShards, position));
    assert ValidSpace(c.spaces[v], v);
    var q' :| Due(v, position, finalized, q') && Answers(v, c.spaces[v].id, records, progress, q', r);
    AnswersWhatItIsAbout(v, c.spaces[v].id, records, progress, q', q, r);
  }

  /** The shard of a view hands out a result for a query when it has got to a position. */
  ghost predicate HandsOut(c: Cluster, i: nat, v: nat, shard: IndexShard, position: nat, q: Query, r: QueryResult)
    requires ValidCluster(c) && i < c.numShards
  {
    ShardOf(c, i, v, shard) && IsAbout(q, r) && ValidHistory(shard.history) &&
    exists finalized :: shard.JustifiedAt(position, finalized, r)
  }

  /**
   The results of a read in the shards of one view after another, each passed on to the view below except the
   last.
   */
  ghost predicate PassedOn(c: Cluster, i: nat, positions: seq<nat>, shards: seq<IndexShard>, v: nat, q: Query,
                           results: seq<QueryResult>)
    requires ValidCluster(c) && i < c.numShards && |positions| == |shards| == |c.spaces|
    decreases |results|
  {
    results != [] && v < |shards| && HandsOut(c, i, v, shards[v], positions[v], q, results[0]) &&
    if results[0].state.Continue?
    then v > 0 && results[0].nextViewId == v - 1 &&
         PassedOn(c, i, positions, shards, v - 1, BuildIndexQuery(results[0]), results[1..])
    else |results| == 1
  }

  /** What the shards of all views hand out for a read is a walk down the views, from where the read may be answered. */
  lemma {:induction false} ShardWalk(c: Cluster, i: nat, positions: seq<nat>, shards: seq<IndexShard>, v: nat, q: Query,
                                     results: seq<QueryResult>)
    requires ValidCluster(c) && i < c.numShards && |positions| == |shards| == |c.spaces|
    requires PassedOn(c, i, positions, shards, v, q, results)
    ensures WalkedDown(ViewsOf(c, i, positions), v, q, results)
    ensures q.initial ==> PositionOf(v, q) <= positions[v]
    decreases |results|
  {
    FirstAnswer(c, i, positions, v, shards[v], q, results[0]);
    if results[0].state.Continue? {
      ShardWalk(c, i, positions, shards, v - 1, BuildIndexQuery(results[0]), results[1..]);
    }
  }

  lemma {:induction false} FirstAnswer(c: Cluster, i: nat, positions: seq<nat>, v: nat, shard: IndexShard, q: Query,
                                       r: QueryResult)
    requires ValidCluster(c) && i < c.numShards && |positions| == |c.spaces| && v < |positions|
    requires HandsOut(c, i, v, shard, positions[v], q, r)
    ensures AnswersIn(ViewsOf(c, i, positions)[v], v, q, r)
    ensures q.initial ==> PositionOf(v, q) <= positions[v]
  {
    var finalized :| shard.JustifiedAt(positions[v], finalized, r);
    var progress := ShardResults(c, i, v, shard, positions[v], finalized, q, r);
    var view := ViewsOf(c, i, positions)[v];
    assert Answers(v, view.id, view.records, progress, q, r);
  }

  lemma {:induction false} ShardConcludes(c: Cluster, positions: seq<seq<nat>>, p: nat, q: Query, rs: seq<QueryResult>,
                                          i: nat)
    requires AllAnswer(c, positions, p, q, rs) && i < c.numShards
    ensures ShardAnswers(c, i, positions[i], p, q, rs[i]) && Concludes(ViewsOf(c, i, positions[i]), q, rs[i])
  {
    assert ShardAnswers(c, i, positions[i], p, q, rs[i]);
    ViewsOfValid(c, i, positions[i]);
    var views := ViewsOf(c, i, positions[i]);
    var results :| WalkedDown(views, Current(c), q, results) && rs[i] == results[|results| - 1];
    WalkConcludes(views, q, Current(c), q, results);
  }

  /** A find of a shard. */
  ghost predicate Finds(c: Cluster, i: nat, positions: seq<nat>, q: Query, f: FoundResult, v: nat, s: nat)
    requires ValidCluster(c) && i < c.numShards && |positions| == |c.spaces|
  {
    Holds(c, i, positions, v, s) && Fits(c, q, v, s) && NamesRecord(c, f, v, s)
  }

  /** What a shard found is a record it holds. */
  lemma {:induction false} ShardFinds(c: Cluster, positions: seq<seq<nat>>, p: nat, q: Query, rs: seq<QueryResult>,
                                      i: nat)
      returns (v: nat, s: nat)
    requires AllAnswer(c, positions, p, q, rs) && i < c.numShards && rs[i].state.Found?
    ensures ShardAnswers(c, i, positions[i], p, q, rs[i]) && Finds(c, i, positions[i], q, rs[i].found, v, s)
  {
    ShardConcludes(c, positions, p, q, rs, i);
    var views := ViewsOf(c, i, positions[i]);
    v, s :| 0 <= v && Names(views, q, rs[i].found, v, s);
    ShardCandidate(c, i, positions[i], q, v, s);
  }

  /** A shard misses nothing nearer that it holds. */
  lemma {:induction false} ShardMisses(c: Cluster, positions: seq<seq<nat>>, p: nat, q: Query, rs: seq<QueryResult>,
                                       i: nat, v: nat, s: nat)
    requires AllAnswer(c, positions, p, q, rs) && i < c.numShards && |positions[i]| == |c.spaces|
    requires Holds(c, i, positions[i], v, s) && Fits(c, q, v, s)
    ensures rs[i].state.Found? && Nearer(q, rs[i].found.seqNum, JoinTwo32(c.spaces[v].id, s))
  {
    ShardConcludes(c, positions, p, q, rs, i);
    ShardCandidate(c, i, positions[i], q, v, s);
  }

  /** The answers of the shards are answers to one read, so they can be merged, at one node and under one key. */
  lemma {:induction false} Mergeable(c: Cluster, positions: seq<seq<nat>>, p: nat, q: Query, rs: seq<QueryResult>)
    requires AllAnswer(c, positions, p, q, rs)
    ensures SameRead(rs, q.direction.ReadPrev?, q.seqNum)
    ensures forall i :: 0 <= i < |rs| ==> SameQuestion(q, rs[i].query)
  {
    forall i | 0 <= i < |rs|
      ensures AnswersRead(rs[i], q.direction.ReadPrev?, q.seqNum) && SameQuestion(q, rs[i].query)
    {
      ShardConcludes(c, positions, p, q, rs, i);
      if rs[i].state.Found? {
        var v, s := ShardFinds(c, positions, p, q, rs, i);
      }
    }
  }

  /** The record asked for lies in the cuts of one shard only. */
  lemma {:induction false} OnePointHit(c: Cluster, positions: seq<seq<nat>>, p: nat, q: Query, rs: seq<QueryResult>)
    requires AllAnswer(c, positions, p, q, rs)
    ensures AtMostOnePointHit(rs)
  {
    Mergeable(c, positions, p, q, rs);
    forall i, j | 0 <= i < j < |rs|
      ensures !(IsPointHit(rs[i]) && IsPointHit(rs[j]))
    {
      if IsPointHit(rs[i]) && IsPointHit(rs[j]) {
        assert AnswersRead(rs[i], q.direction.ReadPrev?, q.seqNum) &&
               AnswersRead(rs[j], q.direction.ReadPrev?, q.seqNum);
        var u, s := ShardFinds(c, positions, p, q, rs, i);
        var v, t := ShardFinds(c, positions, p, q, rs, j);
        SameRecord(c, u, s, v, t);
        OwnAlone(i, j, c.numShards, CutOf(c.spaces[u].history, s));
      }
    }
  }

  // ---------------------------------------------------------------- what the merged answer is

  /** A record that fits the read and that some shard held when it answered. */
  ghost predicate Candidates(c: Cluster, positions: seq<seq<nat>>, q: Query, v: nat, s: nat)
    requires Placed(c, positions)
  {
    Fits(c, q, v, s) && exists i :: 0 <= i < c.numShards && Holds(c, i, positions[i], v, s)
  }

  lemma {:induction false} Lengths(c: Cluster, positions: seq<seq<nat>>, p: nat, q: Query, rs: seq<QueryResult>)
    requires AllAnswer(c, positions, p, q, rs)
    ensures Placed(c, positions) && forall i :: 0 <= i < |positions| ==> p <= positions[i][Current(c)]
  {
    forall i | 0 <= i < |positions|
      ensures |positions[i]| == |c.spaces| && p <= positions[i][Current(c)]
    {
      assert ShardAnswers(c, i, positions[i], p, q, rs[i]);
    }
  }

  /** Every record of the first `p` cuts of the current view is held by the shard that owns its cut. */
  lemma {:induction false} FirstCutsHeld(c: Cluster, positions: seq<seq<nat>>, p: nat, q: Query, rs: seq<QueryResult>,
                                         s: nat)
    requires AllAnswer(c, positions, p, q, rs) && Fits(c, q, Current(c), s)
    requires ValidHistory(c.spaces[Current(c)].history) && CutOf(c.spaces[Current(c)].history, s) <= p
    ensures Candidates(c, positions, q, Current(c), s)
  {
    Lengths(c, positions, p, q, rs);
    assert ValidSpace(c.spaces[Current(c)], Current(c));
    var i := OwnerOf(c.numShards, CutOf(c.spaces[Current(c)].history, s));
    assert Holds(c, i, positions[i], Current(c), s);
  }

  /**
   A result is about a record that some shard held, and none of them held a nearer one that fits, or any if it
   is empty.
   */
  ghost predicate NearestOfAll(c: Cluster, positions: seq<seq<nat>>, q: Query, r: QueryResult)
    requires Placed(c, positions)
  {
    (r.state.Found? ==> exists v: nat, s: nat :: Candidates(c, positions, q, v, s) && NamesRecord(c, r.found, v, s)) &&
    forall v: nat, s: nat :: Candidates(c, positions, q, v, s) ==>
      r.state.Found? && Nearer(q, r.found.seqNum, SeqNum(c, v, s))
  }

  /** The merged answer is the nearest over all shards and all their views. */
  lemma {:induction false} MergedIsNearest(c: Cluster, positions: seq<seq<nat>>, p: nat, q: Query, rs: seq<QueryResult>)
    requires AllAnswer(c, positions, p, q, rs)
    ensures NearestOfAll(c, positions, q, Merge(rs))
  {
    Mergeable(c, positions, p, q, rs);
    MergeIsBest(rs, q.direction.ReadPrev?, q.seqNum);
    var r := Merge(rs);
    if r.state.Found? {
      var k :| 0 <= k < |rs| && rs[k] == r;
      var v, s := ShardFinds(c, positions, p, q, rs, k);
      assert Candidates(c, positions, q, v, s) && NamesRecord(c, r.found, v, s);
    }
    forall v: nat, s: nat | Candidates(c, positions, q, v, s)
      ensures r.state.Found? && Nearer(q, r.found.seqNum, SeqNum(c, v, s))
    {
      NoneNearer(c, positions, p, q, rs, r, v, s);
    }
  }

  lemma {:induction false} NoneNearer(c: Cluster, positions: seq<seq<nat>>, p: nat, q: Query, rs: seq<QueryResult>,
                                      r: QueryResult, v: nat, s: nat)
    requires AllAnswer(c, positions, p, q, rs) && Best(rs, r, q.direction.ReadPrev?) &&
             Candidates(c, positions, q, v, s)
    ensures r.state.Found? && Nearer(q, r.found.seqNum, SeqNum(c, v, s))
  {
    var i :| 0 <= i < c.numShards && Holds(c, i, positions[i], v, s);
    ShardMisses(c, positions, p, q, rs, i, v, s);
    assert NoFarther(r, rs[i], q.direction.ReadPrev?);
  }

  /**
   What a read with progress `p` is about: the first `p` cuts of the current view, and of the older views
   what the shards hold, which is all of it once they have every cut.
   */
  ghost predicate Within(c: Cluster, positions: seq<seq<nat>>, p: nat, q: Query, v: nat, s: nat)
    requires Placed(c, positions)
  {
    Fits(c, q, v, s) && ValidSpace(c.spaces[v], v) &&
    if v == Current(c) then CutOf(c.spaces[v].history, s) <= p else Candidates(c, positions, q, v, s)
  }

  lemma {:induction false} WithinHeld(c: Cluster, positions: seq<seq<nat>>, p: nat, q: Query, rs: seq<QueryResult>,
                                      v: nat, s: nat)
    requires AllAnswer(c, positions, p, q, rs)
    requires Within(c, positions, p, q, v, s)
    ensures Candidates(c, positions, q, v, s)
  {
    if v == Current(c) {
      FirstCutsHeld(c, positions, p, q, rs, s);
    }
  }

  /** Once all shards have every cut of an older view, all its records that fit are candidates. */
  lemma {:induction false} OlderViewsInFull(c: Cluster, positions: seq<seq<nat>>, q: Query, v: nat, s: nat)
    requires Placed(c, positions)
    requires Fits(c, q, v, s) && forall i :: 0 <= i < |positions| ==> |c.spaces[v].history.ends| <= positions[i][v] + 1
    ensures Candidates(c, positions, q, v, s)
  {
    assert ValidSpace(c.spaces[v], v);
    var i := OwnerOf(c.numShards, CutOf(c.spaces[v].history, s));
    assert Holds(c, i, positions[i], v, s);
  }

  lemma {:induction false} CutsInOrder(h: History, s: nat, r: nat)
    requires ValidHistory(h) && s <= r < |h.data|
    ensures CutOf(h, s) <= CutOf(h, r)
  {
    CutBound(h, s, CutOf(h, r));
  }

  /** The nearest record a read with progress `p` is about. */
  ghost predicate NearestWithin(c: Cluster, positions: seq<seq<nat>>, p: nat, q: Query, v: nat, s: nat)
    requires Placed(c, positions)
  {
    Within(c, positions, p, q, v, s) &&
    forall u: nat, t: nat :: Within(c, positions, p, q, u, t) ==> Nearer(q, SeqNum(c, v, s), SeqNum(c, u, t))
  }

  /** What lies before a record within the bounds is within the bounds, if any shard holds it. */
  lemma {:induction false} WithinBelow(c: Cluster, positions: seq<seq<nat>>, p: nat, q: Query, u: nat, t: nat, v: nat,
                                       s: nat)
    requires Placed(c, positions)
    requires Candidates(c, positions, q, u, t) && Within(c, positions, p, q, v, s)
    requires SeqNum(c, u, t) <= SeqNum(c, v, s)
    ensures Within(c, positions, p, q, u, t)
  {
    assert ValidSpace(c.spaces[u], u);
    SameRecord(c, v, s, u, t);
    if u == Current(c) {
      CutsInOrder(c.spaces[u].history, t, s);
    }
  }

  /**
   A forward read with progress `p` finds exactly the nearest record it is about, however far ahead of
   `p` the shards are, and however many views each of them walked through.
   */
  lemma {:induction false} ReadNextIsExact(c: Cluster, positions: seq<seq<nat>>, p: nat, q: Query,
                                           rs: seq<QueryResult>, v: nat, s: nat)
    requires AllAnswer(c, positions, p, q, rs) && !q.direction.ReadPrev?
    requires NearestWithin(c, positions, p, q, v, s)
    ensures Merge(rs).state.Found? && NamesRecord(c, Merge(rs).found, v, s)
  {
    WithinHeld(c, positions, p, q, rs, v, s);
    MergedIsNearest(c, positions, p, q, rs);
    var u, t :| Candidates(c, positions, q, u, t) && NamesRecord(c, Merge(rs).found, u, t);
    WithinBelow(c, positions, p, q, u, t, v, s);
    SameRecord(c, u, t, v, s);
  }

  /** A backward read with progress `p` never finds anything older than a record it is about. */
  lemma {:induction false} ReadPrevIsRecent(c: Cluster, positions: seq<seq<nat>>, p: nat, q: Query,
                                            rs: seq<QueryResult>, v: nat, s: nat)
    requires AllAnswer(c, positions, p, q, rs) && q.direction.ReadPrev?
    requires Within(c, positions, p, q, v, s)
    ensures Merge(rs).state.Found? && SeqNum(c, v, s) <= Merge(rs).found.seqNum <= q.seqNum
    ensures exists u: nat, t: nat :: Fits(c, q, u, t) && NamesRecord(c, Merge(rs).found, u, t)
  {
    WithinHeld(c, positions, p, q, rs, v, s);
    MergedIsNearest(c, positions, p, q, rs);
    var u, t :| Candidates(c, positions, q, u, t) && NamesRecord(c, Merge(rs).found, u, t);
  }

  /** If nothing is found, there is nothing the read is about. */
  lemma {:induction false} EmptyIsEmpty(c: Cluster, positions: seq<seq<nat>>, p: nat, q: Query, rs: seq<QueryResult>)
    requires AllAnswer(c, positions, p, q, rs) && Merge(rs).state.Empty?
    ensures forall v: nat, s: nat :: !Within(c, positions, p, q, v, s)
  {
    MergedIsNearest(c, positions, p, q, rs);
    forall v: nat, s: nat
      ensures !Within(c, positions, p, q, v, s)
    {
      if Within(c, positions, p, q, v, s) {
        WithinHeld(c, positions, p, q, rs, v, s);
      }
    }
  }

  // ---------------------------------------------------------------- from the shards to the message

  /** If the merge of all answers is a record, the message that answers the read forwards it to that record. */
  lemma {:induction false} OutcomeIsMerge(c: Cluster, positions: seq<seq<nat>>, p: nat, q: Query, rs: seq<QueryResult>,
                                          a: Action)
    requires AllAnswer(c, positions, p, q, rs) && Outcome(rs, q.direction.ReadPrev?, a)
    ensures if Merge(rs).state.Found? then a.ForwardRead? && a.result.found == Merge(rs).found else a.SendFailure?
  {
    Mergeable(c, positions, p, q, rs);
    MergeIsBest(rs, q.direction.ReadPrev?, q.seqNum);
    var j :| 0 <= j < |rs| && rs[j] == Merge(rs);
    assert AnswersRead(rs[j], q.direction.ReadPrev?, q.seqNum);
    if a.ForwardRead? {
      var k :| 0 <= k < |rs| && rs[k] == a.result;
      assert NoFarther(rs[j], rs[k], q.direction.ReadPrev?) && NoFarther(rs[k], rs[j], q.direction.ReadPrev?);
      var u, s := ShardFinds(c, positions, p, q, rs, j);
      var v, t := ShardFinds(c, positions, p, q, rs, k);
      SameRecord(c, u, s, v, t);
    }
  }

  /**
   From shards to message: over any run of the index nodes and the merger, once all shards have answered a
   read, exactly one message was sent for it, and it is about this read. If there is a record the read is
   about, a forward read goes to exactly the nearest such record and a backward read to one at least as
   recent; a failure is sent only when no shard held anything that fits.
   */
  lemma {:induction false} ReadEndToEnd(nodes: seq<Indexer>, merger: Indexer, c: Cluster,
                                        positions: seq<seq<nat>>, p: nat, q: Query, rs: seq<QueryResult>)
      returns (a: Action)
    requires AllAnswer(c, positions, p, q, rs) && EachAnswered(nodes, q.clientData, rs)
    requires merger.Valid() && merger.numShards == |nodes| && OneFromEach(ArrivalsFor(merger.served, q.clientData), rs)
    ensures Forwards(nodes, q.clientData) + SentFor(merger.sent, q.clientData) == [a]
    ensures SameQuestion(q, if a.ForwardRead? then a.result.query else a.query)
    ensures !q.direction.ReadPrev? ==> forall v: nat, s: nat :: NearestWithin(c, positions, p, q, v, s) ==>
              a.ForwardRead? && NamesRecord(c, a.result.found, v, s)
    ensures q.direction.ReadPrev? ==> forall v: nat, s: nat :: Within(c, positions, p, q, v, s) ==>
              a.ForwardRead? && SeqNum(c, v, s) <= a.result.found.seqNum <= q.seqNum
    ensures a.ForwardRead? ==>
              exists v: nat, s: nat :: Candidates(c, positions, q, v, s) && NamesRecord(c, a.result.found, v, s)
    ensures a.SendFailure? ==> forall v: nat, s: nat :: !Candidates(c, positions, q, v, s)
  {
    Mergeable(c, positions, p, q, rs);
    OnePointHit(c, positions, p, q, rs);
    a := ReadAnsweredOnce(nodes, merger, q.clientData, rs, q.direction.ReadPrev?, q.seqNum);
    OutcomeIsMerge(c, positions, p, q, rs, a);
    MergedIsNearest(c, positions, p, q, rs);
    if q.direction.ReadPrev? {
      forall v: nat, s: nat | Within(c, positions, p, q, v, s)
        ensures a.ForwardRead? && SeqNum(c, v, s) <= a.result.found.seqNum <= q.seqNum
      {
        ReadPrevIsRecent(c, positions, p, q, rs, v, s);
      }
    } else {
      forall v: nat, s: nat | NearestWithin(c, positions, p, q, v, s)
        ensures a.ForwardRead? && NamesRecord(c, a.result.found, v, s)
      {
        ReadNextIsExact(c, positions, p, q, rs, v, s);
      }
    }
  }
}
