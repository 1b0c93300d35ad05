/** How index shards share the metalog cuts of a log space in turn, and what a shard knows from the packages it got. */
module ShardCuts {
  import opened Logs
  import opened Sets
  import opened SpaceIndexes
  import opened IndexContents
  import opened IndexAnswers
  import opened Indexes
  import opened IndexPackages

  /** The cuts of shard `i` of `n`: `i + 1`, `i + 1 + n`, and so on. */
  predicate Own(i: nat, n: nat, c: nat)
    requires i < n
  {
    c == i + 1 || (c > n && Own(i, n, c - n))
  }

  /** Packages are sent to the shard whose cut they describe. */
  predicate Relevant(i: nat, n: nat, c: nat)
    requires n > 0
  {
    c > 0 && (c - 1) % n == i
  }

  /** The filter on arriving packages lets through exactly the cuts of the shard. */
  lemma {:induction false} RelevantIsOwn(i: nat, n: nat, c: nat)
    requires i < n
    ensures Relevant(i, n, c) <==> Own(i, n, c)
  {
    if c > n {
      RelevantIsOwn(i, n, c - n);
      NextResidue(c - n - 1, n);
    } else if c > 0 {
      SmallResidue(c - 1, n);
    }
  }

  lemma {:induction false} Multiple(x: int, n: nat)
    ensures x >= 1 ==> x * n >= n
    ensures x <= -1 ==> x * n <= 0 - n
  {
  }

  lemma {:induction false} SmallResidue(a: nat, n: nat)
    requires a < n
    ensures a % n == a
  {
    Multiple(a / n, n);
  }

  lemma {:induction false} NextResidue(b: nat, n: nat)
    requires n > 0
    ensures (b + n) % n == b % n
  {
    var x := (b + n) / n - b / n - 1;
    assert x * n == b % n - (b + n) % n;
    Multiple(x, n);
  }

  /** A shard owns one of any `n` cuts in a row. */
  lemma {:induction false} OwnOnce(i: nat, n: nat, c: nat, d: nat)
    requires i < n && Own(i, n, c) && Own(i, n, d) && c <= d < c + n
    ensures c == d
    decreases c
  {
    if c > n {
      OwnOnce(i, n, c - n, d - n);
    }
  }

  lemma {:induction false} OwnPositive(i: nat, n: nat, c: nat)
    requires i < n && Own(i, n, c)
    ensures c > i
  {
    if c > n {
      OwnPositive(i, n, c - n);
    }
  }

  /** The records of a shard's cuts up to a metalog position. */
  ghost function Held(h: History, i: nat, n: nat, position: nat): Records
    requires ValidHistory(h) && i < n
  {
    map s | 0 <= s < |h.data| && Own(i, n, CutOf(h, s)) && CutOf(h, s) <= position :: h.data[s]
  }

  /** After its next cut a shard has none for `n` positions. */
  lemma {:induction false} OwnNext(i: nat, n: nat, position: nat, c: nat)
    requires i < n && Own(i, n, position + 1)
    ensures Own(i, n, position + n + 1)
    ensures Own(i, n, c) && position < c <= position + n ==> c == position + 1
  {
    if Own(i, n, c) && position < c <= position + n {
      OwnOnce(i, n, position + 1, c);
    }
  }

  // ---------------------------------------------------------------- packages of a shard

  function MyShards(p: Package): set<nat> { set x | x in p.myShards }

  /** A package describes all records of its storage shards in its cut, and nothing else. */
  ghost predicate CoversCut(h: History, p: Package)
    requires ValidHistory(h)
  {
    Truthful(h, p) && 0 < p.metalogPosition < |h.ends| && p.endSeqnumPosition == h.ends[p.metalogPosition] &&
    p.numShards == |Productive(h, p.metalogPosition)| && MyShards(p) <= Productive(h, p.metalogPosition) &&
    forall s :: s in p.seqnums <==>
      0 <= s < |h.data| && CutOf(h, s) == p.metalogPosition && h.data[s].engineId in MyShards(p)
  }

  /** All packages of a shard that have arrived. */
  ghost predicate AllWellFormed(h: History, i: nat, n: nat, delivered: set<Package>)
    requires ValidHistory(h) && i < n
  {
    forall p {:trigger CoversCut(h, p)} :: p in delivered ==> CoversCut(h, p) && Own(i, n, p.metalogPosition)
  }

  /** The storage shards that have reported on a cut. */
  function Reported(delivered: set<Package>, c: nat): set<nat>
  {
    set p, x | p in delivered && p.metalogPosition == c && x in p.myShards :: x
  }

  predicate Mentioned(delivered: set<Package>, c: nat)
  {
    exists p :: p in delivered && p.metalogPosition == c
  }

  lemma {:induction false} ReportedAdd(delivered: set<Package>, p: Package, c: nat)
    ensures Reported(delivered + {p}, c) == Reported(delivered, c) + if p.metalogPosition == c then MyShards(p) else {}
    ensures Mentioned(delivered + {p}, c) <==> Mentioned(delivered, c) || p.metalogPosition == c
  {
    assert forall x :: x in p.myShards ==> x in MyShards(p);
    assert p in delivered + {p};
  }

  lemma {:induction false} ReportedWithin(h: History, i: nat, n: nat, delivered: set<Package>, c: nat)
    requires ValidHistory(h) && i < n && AllWellFormed(h, i, n, delivered)
    ensures Reported(delivered, c) <= Productive(h, c)
  {
    forall x | x in Reported(delivered, c)
      ensures x in Productive(h, c)
    {
      var p :| p in delivered && p.metalogPosition == c && x in p.myShards;
      assert CoversCut(h, p) && x in MyShards(p);
    }
  }

  /** Every productive storage shard has reported on a cut. */
  ghost predicate Complete(h: History, delivered: set<Package>, c: nat)
    requires ValidHistory(h)
  {
    c < |h.ends| && Reported(delivered, c) == Productive(h, c)
  }

  // ---------------------------------------------------------------- what a shard remembers

  datatype Update = Update(num: nat, shards: set<nat>)

  /** A cut ahead that packages mentioned is remembered, with who has reported on it. */
  ghost predicate TracksCut(h: History, position: nat, delivered: set<Package>, updates: map<nat, Update>,
                            ends: map<nat, nat>, c: nat)
    requires ValidHistory(h)
  {
    (c in updates <==> c > position && Mentioned(delivered, c)) && (c in ends <==> c in updates) &&
    (c in updates ==>
       updates[c] == Update(|Productive(h, c)|, Reported(delivered, c)) && c < |h.ends| && ends[c] == h.ends[c])
  }

  ghost predicate Tracks(h: History, position: nat, delivered: set<Package>, updates: map<nat, Update>,
                         ends: map<nat, nat>)
    requires ValidHistory(h)
  {
    forall c {:trigger TracksCut(h, position, delivered, updates, ends, c)} ::
      TracksCut(h, position, delivered, updates, ends, c)
  }

  /** The shard has passed only cuts on which every productive storage shard has reported. */
  ghost predicate Passed(h: History, i: nat, n: nat, position: nat, delivered: set<Package>)
    requires ValidHistory(h) && i < n
  {
    forall c {:trigger Complete(h, delivered, c)} :: 0 < c <= position && Own(i, n, c) ==> Complete(h, delivered, c)
  }

  /** A shard's books are in order: they say what the packages that arrived say. */
  ghost predicate Books(h: History, i: nat, n: nat, position: nat, delivered: set<Package>, updates: map<nat, Update>,
                        ends: map<nat, nat>)
  {
    ValidHistory(h) && i < n && Own(i, n, position + 1) && AllWellFormed(h, i, n, delivered) &&
    Passed(h, i, n, position, delivered) && Tracks(h, position, delivered, updates, ends)
  }

  /** The records of the cuts ahead, as far as their storage shards have reported. */
  ghost predicate Stored(h: History, position: nat, delivered: set<Package>, received: Records)
    requires ValidHistory(h)
  {
    Agrees(received, h) &&
    forall s {:trigger CutOf(h, s)} :: 0 <= s < |h.data| ==>
      (s in received <==> CutOf(h, s) > position && h.data[s].engineId in Reported(delivered, CutOf(h, s)))
  }

  lemma {:induction false} Nothing(h: History, i: nat, n: nat)
    requires ValidHistory(h) && i < n
    ensures Held(h, i, n, i) == map[] && Stored(h, i, {}, map[]) && Books(h, i, n, i, {}, map[], map[])
  {
    forall c: nat | Own(i, n, c)
      ensures c > i
    {
      OwnPositive(i, n, c);
    }
    forall c
      ensures TracksCut(h, i, {}, map[], map[], c)
    {
    }
  }

  lemma {:induction false} PassedMore(h: History, i: nat, n: nat, position: nat, delivered: set<Package>, p: Package)
    requires ValidHistory(h) && i < n && Passed(h, i, n, position, delivered) && CoversCut(h, p)
    ensures Passed(h, i, n, position, delivered + {p})
  {
    forall c | 0 < c <= position && Own(i, n, c)
      ensures Complete(h, delivered + {p}, c)
    {
      ReportedAdd(delivered, p, c);
      assert Complete(h, delivered, c);
    }
  }

  /** The books after a package has been noted. */
  function Noted(p: Package, position: nat, updates: map<nat, Update>): map<nat, Update>
  {
    var c := p.metalogPosition;
    if c <= position then updates
    else if c in updates then updates[c := updates[c].(shards := updates[c].shards + MyShards(p))]
    else updates[c := Update(p.numShards, MyShards(p))]
  }

  function NotedEnds(p: Package, position: nat, ends: map<nat, nat>): map<nat, nat>
  {
    if p.metalogPosition <= position || p.metalogPosition in ends
    then ends else ends[p.metalogPosition := p.endSeqnumPosition]
  }

  lemma {:induction false} BooksNote(h: History, i: nat, n: nat, position: nat, delivered: set<Package>,
                                     updates: map<nat, Update>, ends: map<nat, nat>, p: Package)
    requires Books(h, i, n, position, delivered, updates, ends) && CoversCut(h, p) && Own(i, n, p.metalogPosition)
    ensures Books(h, i, n, position, delivered + {p}, Noted(p, position, updates), NotedEnds(p, position, ends))
    ensures var c := p.metalogPosition;
            (c in updates <==> c > position && Mentioned(delivered, c)) && (c in ends <==> c in updates)
    ensures var c := p.metalogPosition; c in updates ==> updates[c].shards == Reported(delivered, c)
  {
    PassedMore(h, i, n, position, delivered, p);
    var delivered', updates', ends' := delivered + {p}, Noted(p, position, updates), NotedEnds(p, position, ends);
    assert TracksCut(h, position, delivered, updates, ends, p.metalogPosition);
    forall c: nat
      ensures TracksCut(h, position, delivered', updates', ends', c)
    {
      ReportedAdd(delivered, p, c);
      assert TracksCut(h, position, delivered, updates, ends, c);
    }
  }

  /** The books after the next cut has been passed. */
  lemma {:induction false} BooksPass(h: History, i: nat, n: nat, position: nat, delivered: set<Package>,
                                     updates: map<nat, Update>, ends: map<nat, nat>)
    requires Books(h, i, n, position, delivered, updates, ends) && Complete(h, delivered, position + 1) &&
             position + 1 in updates
    ensures Books(h, i, n, position + n, delivered, updates - {position + 1}, ends - {position + 1})
    ensures |updates - {position + 1}| < |updates|
  {
    var position', updates', ends' := position + n, updates - {position + 1}, ends - {position + 1};
    OwnNext(i, n, position, 0);
    forall c | 0 < c <= position + n && Own(i, n, c)
      ensures Complete(h, delivered, c)
    {
      OwnNext(i, n, position, c);
    }
    forall c: nat
      ensures TracksCut(h, position', delivered, updates', ends', c)
    {
      assert TracksCut(h, position, delivered, updates, ends, c);
      MentionedNext(h, i, n, position, delivered, c);
    }
    assert updates == updates'[position + 1 := updates[position + 1]];
  }

  lemma {:induction false} MentionedNext(h: History, i: nat, n: nat, position: nat, delivered: set<Package>, c: nat)
    requires ValidHistory(h) && i < n && AllWellFormed(h, i, n, delivered) && Own(i, n, position + 1)
    ensures Mentioned(delivered, c) && position < c <= position + n ==> c == position + 1
  {
    if Mentioned(delivered, c) {
      var p :| p in delivered && p.metalogPosition == c;
      assert CoversCut(h, p);
      OwnNext(i, n, position, c);
    }
  }

  /** The test for the next cut of a shard finds out whether every productive storage shard has reported on it. */
  lemma {:induction false} WhenComplete(h: History, i: nat, n: nat, position: nat, delivered: set<Package>,
                                        updates: map<nat, Update>, ends: map<nat, nat>)
    requires Books(h, i, n, position, delivered, updates, ends)
    ensures Complete(h, delivered, position + 1) <==>
            position + 1 in updates && updates[position + 1].num != 0 &&
            updates[position + 1].num == |updates[position + 1].shards|
    ensures Complete(h, delivered, position + 1) ==> position + 1 in ends && ends[position + 1] == h.ends[position + 1]
  {
    var next := position + 1;
    assert TracksCut(h, position, delivered, updates, ends, next);
    NeverEmpty(h, delivered, next);
    if next in updates && updates[next].num == |updates[next].shards| {
      ReportedWithin(h, i, n, delivered, next);
      SubsetSize(Reported(delivered, next), Productive(h, next));
    }
  }

  /** A complete cut has been mentioned, because every cut has records. */
  lemma {:induction false} NeverEmpty(h: History, delivered: set<Package>, c: nat)
    requires ValidHistory(h)
    ensures 0 < c < |h.ends| ==> Productive(h, c) != {}
    ensures 0 < c && Complete(h, delivered, c) ==> Mentioned(delivered, c)
  {
    if 0 < c < |h.ends| {
      var s := h.ends[c - 1];
      CutBound(h, s, c);
      CutBound(h, s, c - 1);
      assert h.data[s].engineId in Productive(h, c);
      if Complete(h, delivered, c) {
        var x :| x in Productive(h, c);
        var p :| p in delivered && p.metalogPosition == c && x in p.myShards;
      }
    }
  }

  /** A package that brings nothing new leaves the stored records right. */
  lemma {:induction false} StoredSame(h: History, position: nat, delivered: set<Package>, p: Package, received: Records)
    requires ValidHistory(h) && Stored(h, position, delivered, received)
    requires p.metalogPosition <= position || MyShards(p) <= Reported(delivered, p.metalogPosition)
    ensures Stored(h, position, delivered + {p}, received)
  {
    forall s | 0 <= s < |h.data|
      ensures s in received <==> CutOf(h, s) > position && h.data[s].engineId in Reported(delivered + {p}, CutOf(h, s))
    {
      ReportedAdd(delivered, p, CutOf(h, s));
    }
  }

  /** Keeping the records of a package of a cut ahead makes the stored records right. */
  lemma {:induction false} StoredMore(h: History, position: nat, delivered: set<Package>, p: Package,
                                      received: Records, received': Records)
    requires ValidHistory(h) && Stored(h, position, delivered, received) && CoversCut(h, p) &&
             p.metalogPosition > position
    requires Agrees(received', h) && received'.Keys == received.Keys + AtOrAbove(p.seqnums, 0)
    ensures Stored(h, position, delivered + {p}, received')
  {
    forall s | 0 <= s < |h.data|
      ensures s in received' <==> CutOf(h, s) > position && h.data[s].engineId in Reported(delivered + {p}, CutOf(h, s))
    {
      ReportedAdd(delivered, p, CutOf(h, s));
      assert s in received' <==> s in received || s in p.seqnums;
    }
  }

  /** A stored record lies in a cut of the shard. */
  lemma {:induction false} ReportedOwn(h: History, i: nat, n: nat, delivered: set<Package>, c: nat, x: nat)
    requires ValidHistory(h) && i < n && AllWellFormed(h, i, n, delivered) && x in Reported(delivered, c)
    ensures Own(i, n, c)
  {
    var p :| p in delivered && p.metalogPosition == c && x in p.myShards;
    assert CoversCut(h, p);
  }

  /** Where a record is before and after its shard applies a complete cut. */
  lemma {:induction false} ApplyCutAt(h: History, i: nat, n: nat, position: nat, delivered: set<Package>,
                                      received: Records, s: nat)
    requires ValidHistory(h) && i < n && Own(i, n, position + 1) && AllWellFormed(h, i, n, delivered)
    requires Stored(h, position, delivered, received) && Complete(h, delivered, position + 1) && s < |h.data|
    ensures s in received ==> Own(i, n, CutOf(h, s)) && CutOf(h, s) > position
    ensures s in received && s < h.ends[position + 1] <==> CutOf(h, s) == position + 1
    ensures s in received && s >= h.ends[position + 1] <==> s in received && CutOf(h, s) > position + n
    ensures Own(i, n, CutOf(h, s)) && CutOf(h, s) <= position + n <==>
            (Own(i, n, CutOf(h, s)) && CutOf(h, s) <= position) || CutOf(h, s) == position + 1
  {
    var c := CutOf(h, s);
    CutBound(h, s, position + 1);
    OwnNext(i, n, position, c);
    if s in received {
      ReportedOwn(h, i, n, delivered, c, h.data[s].engineId);
    }
    if c == position + 1 {
      assert h.data[s].engineId in Productive(h, c);
    }
  }

  /** The stored records below the end of a complete cut come after everything the shard holds. */
  lemma {:induction false} CutPrecedes(h: History, i: nat, n: nat, position: nat, delivered: set<Package>,
                                       received: Records)
    requires ValidHistory(h) && i < n && Stored(h, position, delivered, received) && position + 1 < |h.ends|
    ensures Precede(Held(h, i, n, position), received, h.ends[position + 1])
  {
    forall s, r | s in Held(h, i, n, position) && r in received && r < h.ends[position + 1]
      ensures s < r
    {
      CutBound(h, s, CutOf(h, r) - 1);
    }
  }

  /**
   The stored records below a sequence number are those of the next cut, and the others lie beyond the next
   position.
   */
  ghost predicate Splits(h: History, i: nat, n: nat, position: nat, received: Records, end: nat)
    requires ValidHistory(h) && i < n
  {
    forall s {:trigger CutOf(h, s)} :: 0 <= s < |h.data| ==>
      var c := CutOf(h, s);
      (s in received && s < end <==> c == position + 1) &&
      (s in received && s >= end <==> s in received && c > position + n) &&
      (Own(i, n, c) && c <= position + n <==> (Own(i, n, c) && c <= position) || c == position + 1)
  }

  lemma {:induction false} CutSplits(h: History, i: nat, n: nat, position: nat, delivered: set<Package>,
                                     received: Records)
    requires ValidHistory(h) && i < n && Own(i, n, position + 1) && AllWellFormed(h, i, n, delivered)
    requires Stored(h, position, delivered, received) && Complete(h, delivered, position + 1)
    ensures Splits(h, i, n, position, received, h.ends[position + 1])
  {
    forall s {:trigger CutOf(h, s)} | 0 <= s < |h.data|
      ensures var c, end := CutOf(h, s), h.ends[position + 1];
        (s in received && s < end <==> c == position + 1) &&
        (s in received && s >= end <==> s in received && c > position + n) &&
        (Own(i, n, c) && c <= position + n <==> (Own(i, n, c) && c <= position) || c == position + 1)
    {
      ApplyCutAt(h, i, n, position, delivered, received, s);
    }
  }

  lemma {:induction false} UnionAgrees(h: History, before: Records, taken: Records, after: Records)
    requires Agrees(before, h) && Agrees(taken, h) && Agrees(after, h)
    requires forall s :: s in after <==> s in before || s in taken
    ensures before + taken == after
  {
  }

  lemma {:induction false} HeldAfterCut(h: History, i: nat, n: nat, position: nat, received: Records, end: nat, s: nat)
    requires ValidHistory(h) && i < n && Agrees(received, h) && Splits(h, i, n, position, received, end)
    ensures s in Held(h, i, n, position + n) <==> s in Held(h, i, n, position) || s in Under(received, end)
  {
    if s < |h.data| {
      var c := CutOf(h, s);
    }
  }

  /**
   Applying a complete cut: the stored records below its end are exactly what the shard lacks up to its next
   position.
   */
  lemma {:induction false} ApplyCut(h: History, i: nat, n: nat, position: nat, records: Records, received: Records,
                                    end: nat, position': nat, records': Records)
    requires ValidHistory(h) && i < n && Agrees(received, h) && Splits(h, i, n, position, received, end)
    requires records == Held(h, i, n, position) && records' == records + Under(received, end) &&
             position' == position + n
    ensures records' == Held(h, i, n, position')
  {
    var taken, after := Under(received, end), Held(h, i, n, position');
    forall s: nat
      ensures s in after <==> s in records || s in taken
    {
      HeldAfterCut(h, i, n, position, received, end, s);
    }
    UnionAgrees(h, records, taken, after);
  }

  /** What is left after applying a complete cut is what the shard needs at its next position. */
  lemma {:induction false} LeftAfterCut(h: History, i: nat, n: nat, position: nat, delivered: set<Package>,
                                        received: Records, end: nat, position': nat, received': Records)
    requires ValidHistory(h) && i < n && Stored(h, position, delivered, received) &&
             Splits(h, i, n, position, received, end)
    requires position' == position + n && received' == From(received, end)
    ensures Stored(h, position', delivered, received')
  {
    forall s | 0 <= s < |h.data|
      ensures s in received' <==> CutOf(h, s) > position' && h.data[s].engineId in Reported(delivered, CutOf(h, s))
    {
      assert s in received <==> CutOf(h, s) > position && h.data[s].engineId in Reported(delivered, CutOf(h, s));
    }
  }

  /** Stored records may be moved into the index. */
  lemma {:induction false} CutFits(h: History, i: nat, n: nat, position: nat, delivered: set<Package>,
                                   received: Records)
    requires ValidHistory(h) && i < n && Stored(h, position, delivered, received) && position + 1 < |h.ends|
    ensures Tagged(received) && AllBelow(received, LOW_HALF) &&
            Precede(Held(h, i, n, position), received, h.ends[position + 1])
  {
    CutPrecedes(h, i, n, position, delivered, received);
  }

  // ---------------------------------------------------------------- progress

  /**
   How far a shard gets depends only on which packages have arrived, not on their order: it stops
   before the first of its cuts on which some productive storage shard has not reported.
   */
  lemma {:induction false} OrderDoesNotMatter(h: History, i: nat, n: nat, delivered: set<Package>,
                                              pos: nat, updates: map<nat, Update>, ends: map<nat, nat>,
                                              pos': nat, updates': map<nat, Update>, ends': map<nat, nat>)
    requires Books(h, i, n, pos, delivered, updates, ends) && !Complete(h, delivered, pos + 1)
    requires Books(h, i, n, pos', delivered, updates', ends') && !Complete(h, delivered, pos' + 1)
    ensures pos == pos' && updates == updates' && ends == ends'
  {
    forall c
      ensures (c in updates <==> c in updates') && (c in ends <==> c in ends') && (c in ends <==> c in updates)
      ensures c in updates ==> updates[c] == updates'[c] && ends[c] == ends'[c]
    {
      assert c >= 0 ==> TracksCut(h, pos, delivered, updates, ends, c);
      assert c >= 0 ==> TracksCut(h, pos', delivered, updates', ends', c);
    }
  }

  /** The last cut a shard at a position has applied, or 0. */
  function LastApplied(n: nat, position: nat): nat
  {
    if position < n then 0 else position + 1 - n
  }

  lemma {:induction false} LastAppliedIs(i: nat, n: nat, position: nat, c: nat)
    requires i < n && Own(i, n, position + 1) && Own(i, n, c)
    ensures c <= position <==> c <= LastApplied(n, position)
    ensures LastApplied(n, position) == 0 || Own(i, n, LastApplied(n, position))
  {
    OwnPositive(i, n, c);
    if position >= n {
      OwnNext(i, n, position - n, c);
    }
  }
}
