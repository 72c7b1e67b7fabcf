/** Answers are matched to inputs by ID, whatever their order. */
module Matching {
  import opened Basics
  import opened Batching
  import opened Embedding

  // ----- request IDs are injective -----

  /** Different positions have different request IDs. */
  lemma RequestIDInjective(a: nat, b: nat)
    requires RequestID(a) == RequestID(b)
    ensures a == b
  {
    ItoaRoundTrip(a);
    ItoaRoundTrip(b);
    assert RequestID(a)[3..] == Itoa(a);
    assert RequestID(b)[3..] == Itoa(b);
  }

  // ----- items -----

  /** Of items `a` and `b`, the earlier one has the smaller position. */
  ghost predicate Before(items: seq<Item>, a: int, b: int) {
    0 <= a < b < |items| ==> items[a].pos < items[b].pos
  }

  /** Items in strictly increasing input position, as the run builds them. */
  ghost predicate Increasing(items: seq<Item>) {
    forall a, b {:trigger Before(items, a, b)} :: Before(items, a, b)
  }

  lemma IncreasingSlice(items: seq<Item>, lo: nat, hi: nat)
    requires Increasing(items) && lo <= hi <= |items|
    ensures Increasing(items[lo..hi])
  {
    forall a, b
      ensures Before(items[lo..hi], a, b)
    {
      assert Before(items, lo + a, lo + b);
    }
  }

  /** A stretch of the items does not hold the position of an item outside it. */
  lemma PositionApart(items: seq<Item>, k: nat, lo: nat, hi: nat)
    requires Increasing(items) && k < |items| && lo <= hi <= |items| && (k < lo || hi <= k)
    ensures items[k].pos !in PosSet(items[lo..hi])
  {
    var part := items[lo..hi];
    forall i | 0 <= i < |part|
      ensures part[i].pos != items[k].pos
    {
      assert part[i] == items[lo + i];
      assert Before(items, lo + i, k) && Before(items, k, lo + i);
    }
  }

  function PosSet(items: seq<Item>): set<nat> {
    set k | 0 <= k < |items| :: items[k].pos
  }

  lemma PosSetSplit(items: seq<Item>, k: nat)
    requires k <= |items|
    ensures PosSet(items) == PosSet(items[..k]) + PosSet(items[k..])
  {
    forall p | p in PosSet(items)
      ensures p in PosSet(items[..k]) + PosSet(items[k..])
    {
      var j :| 0 <= j < |items| && items[j].pos == p;
      if j < k {
        assert items[..k][j] == items[j];
      } else {
        assert items[k..][j - k] == items[j];
      }
    }
  }

  // ----- the answer table -----

  lemma {:induction false} ByIDValue(vectors: seq<Vector>, k: nat)
    requires DistinctIDs(vectors) && k < |vectors|
    ensures vectors[k].ID in ByID(vectors) && ByID(vectors)[vectors[k].ID] == vectors[k].Values
  {
    if k < |vectors| - 1 {
      ByIDValue(vectors[..|vectors| - 1], k);
    }
  }

  lemma {:induction false} ByIDCount(vectors: seq<Vector>)
    requires DistinctIDs(vectors)
    ensures |ByID(vectors)| == |vectors|
  {
    if vectors != [] {
      var init := vectors[..|vectors| - 1];
      ByIDCount(init);
      ByIDKeys(init);
    }
  }

  /** A reordering of the vectors gives the same table. */
  lemma ByIDOrderFree(u: seq<Vector>, v: seq<Vector>)
    requires DistinctIDs(u) && DistinctIDs(v) && multiset(u) == multiset(v)
    ensures ByID(u) == ByID(v)
  {
    forall id | id in ByID(u)
      ensures id in ByID(v) && ByID(v)[id] == ByID(u)[id]
    {
      ByIDSame(u, v, id);
    }
    forall id | id in ByID(v)
      ensures id in ByID(u)
    {
      ByIDSame(v, u, id);
    }
  }

  lemma ByIDSame(u: seq<Vector>, v: seq<Vector>, id: string)
    requires DistinctIDs(u) && DistinctIDs(v) && multiset(u) == multiset(v) && id in ByID(u)
    ensures id in ByID(v) && ByID(v)[id] == ByID(u)[id]
  {
    ByIDKeys(u);
    var k :| 0 <= k < |u| && u[k].ID == id;
    ByIDValue(u, k);
    assert u[k] in multiset(u);
    assert u[k] in v;
    var j :| 0 <= j < |v| && v[j] == u[k];
    ByIDValue(v, j);
  }

  // ----- storing records -----

  /** What the matching loop leaves behind. */
  lemma {:induction false} MatchedKeys(records: map<nat, Record>, batch: seq<Item>, byID: map<string, seq<real>>)
    ensures var (r, ok) := Matched(records, batch, byID);
            && records.Keys <= r.Keys <= records.Keys + PosSet(batch)
            && (ok <==> forall k :: 0 <= k < |batch| ==> RequestID(batch[k].pos) in byID)
            && (ok ==> r.Keys == records.Keys + PosSet(batch))
    decreases |batch|
  {
    if batch != [] && RequestID(batch[0].pos) in byID {
      var it := batch[0];
      var next := records[it.pos := RecordOf(it, byID[RequestID(it.pos)])];
      MatchedKeys(next, batch[1..], byID);
      PosSetSplit(batch, 1);
      assert PosSet(batch[..1]) == {it.pos} by {
        assert batch[..1][0] == it;
      }
      assert forall k :: 1 <= k < |batch| ==> batch[1..][k - 1] == batch[k];
    }
  }

  /** Positions outside the batch keep their records. */
  lemma {:induction false} MatchedElsewhere(records: map<nat, Record>, batch: seq<Item>, byID: map<string, seq<real>>,
                                            p: nat)
    requires p !in PosSet(batch)
    ensures var r := Matched(records, batch, byID).0;
            (p in r <==> p in records) && (p in records ==> r[p] == records[p])
    decreases |batch|
  {
    if batch != [] && RequestID(batch[0].pos) in byID {
      var it := batch[0];
      PosSetSplit(batch, 1);
      assert batch[0].pos in PosSet(batch);
      MatchedElsewhere(records[it.pos := RecordOf(it, byID[RequestID(it.pos)])], batch[1..], byID, p);
    }
  }

  /** When every item has a vector, each one's record carries the vector answered for its own position. */
  lemma {:induction false} MatchedValue(records: map<nat, Record>, batch: seq<Item>, byID: map<string, seq<real>>,
                                        k: nat)
    requires Increasing(batch) && k < |batch|
    requires forall j :: 0 <= j < |batch| ==> RequestID(batch[j].pos) in byID
    ensures var r := Matched(records, batch, byID).0;
            batch[k].pos in r && r[batch[k].pos] == RecordOf(batch[k], byID[RequestID(batch[k].pos)])
    decreases |batch|
  {
    var it := batch[0];
    var next := records[it.pos := RecordOf(it, byID[RequestID(it.pos)])];
    if k == 0 {
      PositionApart(batch, 0, 1, |batch|);
      assert batch[1..|batch|] == batch[1..];
      MatchedElsewhere(next, batch[1..], byID, it.pos);
    } else {
      IncreasingSlice(batch, 1, |batch|);
      assert batch[1..|batch|] == batch[1..];
      MatchedValue(next, batch[1..], byID, k - 1);
    }
  }

  // ----- one-to-one answers -----

  /** Every vector answers some input of the request. */
  ghost predicate OnlyRequested(request: seq<EmbeddingInput>, vectors: seq<Vector>) {
    forall k :: 0 <= k < |vectors| ==> exists j :: 0 <= j < |request| && request[j].ID == vectors[k].ID
  }

  lemma SubsetOfSameSize<T>(a: set<T>, b: set<T>)
    requires a <= b && |b| <= |a|
    ensures a == b
  {
    if x :| x in b && x !in a {
      CardMonotone(a, b - {x});
    }
  }

  lemma {:induction false} CardMonotone<T>(a: set<T>, b: set<T>)
    requires a <= b
    ensures |a| <= |b|
    decreases a
  {
    if x :| x in a {
      CardMonotone(a - {x}, b - {x});
    }
  }

  function RequestedIDs(batch: seq<Item>): set<string> {
    set k | 0 <= k < |batch| :: RequestID(batch[k].pos)
  }

  lemma {:induction false} RequestedIDsCount(batch: seq<Item>)
    ensures |RequestedIDs(batch)| <= |batch|
  {
    if batch != [] {
      var init := batch[..|batch| - 1];
      RequestedIDsCount(init);
      var last := RequestID(batch[|batch| - 1].pos);
      RequestedIDsSnoc(batch);
      CardMonotone(RequestedIDs(batch), RequestedIDs(init) + {last});
    }
  }

  lemma RequestedIDsSnoc(batch: seq<Item>)
    requires batch != []
    ensures RequestedIDs(batch) <= RequestedIDs(batch[..|batch| - 1]) + {RequestID(batch[|batch| - 1].pos)}
  {
    var init := batch[..|batch| - 1];
    forall k | 0 <= k < |init|
      ensures RequestID(batch[k].pos) in RequestedIDs(init)
    {
      assert init[k] == batch[k];
    }
  }

  lemma AnswersRequested(batch: seq<Item>, vectors: seq<Vector>)
    requires OnlyRequested(Request(batch), vectors)
    ensures ByID(vectors).Keys <= RequestedIDs(batch)
  {
    ByIDKeys(vectors);
    forall id | id in ByID(vectors)
      ensures id in RequestedIDs(batch)
    {
      var k :| 0 <= k < |vectors| && vectors[k].ID == id;
      var j :| 0 <= j < |Request(batch)| && Request(batch)[j].ID == vectors[k].ID;
      assert RequestID(batch[j].pos) == id;
    }
  }

  /** Pigeonhole: as many distinct answers as inputs, all of them requested, leave no input unanswered. */
  lemma AllAnswered(batch: seq<Item>, vectors: seq<Vector>)
    requires DistinctIDs(vectors) && |vectors| == |batch| && OnlyRequested(Request(batch), vectors)
    ensures forall k :: 0 <= k < |batch| ==> RequestID(batch[k].pos) in ByID(vectors)
  {
    ByIDCount(vectors);
    AnswersRequested(batch, vectors);
    RequestedIDsCount(batch);
    SubsetOfSameSize(ByID(vectors).Keys, RequestedIDs(batch));
    assert forall k :: 0 <= k < |batch| ==> RequestID(batch[k].pos) in RequestedIDs(batch);
  }

  /** A one-to-one response: distinct IDs, one for each input of the batch and no other. */
  ghost predicate OneToOne(batch: seq<Item>, vectors: seq<Vector>) {
    DistinctIDs(vectors) && |vectors| == |batch| && OnlyRequested(Request(batch), vectors)
  }

  /** The record holds the item's provenance, text and token count, and the vector. */
  predicate Stores(r: Record, it: Item, values: seq<real>) {
    && r.SourceID == it.input.SourceID && r.ArtifactID == it.input.ArtifactID
    && r.ChunkIndex == it.input.Chunk.Index && r.Text == it.input.Chunk.Text
    && r.TokenCount == it.tokens && r.Values == values
  }

  /** A one-to-one response is accepted whole, and every position's record carries its own vector. */
  lemma OneToOneAccepted(st: State, batch: seq<Item>, vectors: seq<Vector>, k: nat, j: nat)
    requires batch != [] && Increasing(batch) && OneToOne(batch, vectors)
    requires k < |batch| && j < |vectors| && vectors[j].ID == RequestID(batch[k].pos)
    ensures var st' := Accepted(st, batch, vectors);
            && st'.failures == st.failures
            && st'.records.Keys == st.records.Keys + PosSet(batch)
            && batch[k].pos in st'.records
            && Stores(st'.records[batch[k].pos], batch[k], vectors[j].Values)
  {
    AllAnswered(batch, vectors);
    MatchedKeys(st.records, batch, ByID(vectors));
    MatchedValue(st.records, batch, ByID(vectors), k);
    ByIDValue(vectors, j);
  }

  /** The order of the vectors in a response makes no difference. */
  lemma AnswerOrderFree(st: State, batch: seq<Item>, u: seq<Vector>, v: seq<Vector>)
    requires batch != [] && multiset(u) == multiset(v)
    ensures Accepted(st, batch, u) == Accepted(st, batch, v)
  {
    assert |u| == |multiset(u)| == |multiset(v)| == |v|;
    if DistinctIDs(u) {
      DistinctOrderFree(u, v);
      ByIDOrderFree(u, v);
    } else if DistinctIDs(v) {
      DistinctOrderFree(v, u);
    }
  }

  lemma DistinctOrderFree(u: seq<Vector>, v: seq<Vector>)
    requires DistinctIDs(u) && multiset(u) == multiset(v)
    ensures DistinctIDs(v)
  {
    forall i, j | 0 <= i < j < |v|
      ensures v[i].ID != v[j].ID
    {
      if v[i].ID == v[j].ID {
        assert v[i] in u && v[j] in u by {
          assert v[i] in multiset(v) && v[j] in multiset(v);
        }
        var a :| 0 <= a < |u| && u[a] == v[i];
        var b :| 0 <= b < |u| && u[b] == v[j];
        assert a == b;
        TwoOccurrences(v, i, j);
        OneOccurrence(u, a);
      }
    }
  }

  lemma TwoOccurrences(v: seq<Vector>, i: nat, j: nat)
    requires i < j < |v| && v[i] == v[j]
    ensures multiset(v)[v[i]] >= 2
  {
    assert v == v[..j] + [v[j]] + v[j + 1..];
    assert v[..j][i] == v[i];
    assert v[i] in v[..j];
  }

  lemma OneOccurrence(u: seq<Vector>, a: nat)
    requires DistinctIDs(u) && a < |u|
    ensures multiset(u)[u[a]] <= 1
  {
    assert u == u[..a] + [u[a]] + u[a + 1..];
    assert u[a] !in u[..a] && u[a] !in u[a + 1..];
  }
}
