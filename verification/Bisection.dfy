/** Bisection isolates bad inputs, stores everything else, and needs few calls. */
module Bisection {
  import opened Batching
  import opened Embedding
  import opened Matching

  // ----- any client: fewer than twice as many calls as inputs -----

  lemma {:induction false} EmbedCalls(w: World, bisect: bool, st: State, batch: seq<Item>)
    requires batch != []
    ensures st.sent <= Embed(w, bisect, st, batch).0.sent
    ensures |st.sent| < |Embed(w, bisect, st, batch).0.sent| <= |st.sent| + 2 * |batch| - 1
    decreases |batch|, 1
  {
    if Attempt(w, bisect, st, batch).Retry? {
      HalvesCalls(w, bisect, Attempt(w, bisect, st, batch).st, batch);
    }
  }

  lemma {:induction false} HalvesCalls(w: World, bisect: bool, st: State, batch: seq<Item>)
    requires |batch| > 1
    ensures st.sent <= EmbedHalves(w, bisect, st, batch).0.sent
    ensures |st.sent| < |EmbedHalves(w, bisect, st, batch).0.sent| <= |st.sent| + 2 * |batch| - 2
    decreases |batch|, 0
  {
    var mid := |batch| / 2;
    var left := Embed(w, bisect, st, batch[..mid]);
    EmbedCalls(w, bisect, st, batch[..mid]);
    if !left.1 {
      EmbedCalls(w, bisect, left.0, batch[mid..]);
    }
  }

  // ----- any client: a record carries what was answered for its own position -----

  /** Call `n` sent the item's own text under its own ID, and the reply gave that ID the vector of its record `r`. */
  ghost predicate AnsweredAt(w: World, sent: seq<seq<EmbeddingInput>>, n: nat, it: Item, r: Record)
    requires n < |sent|
  {
    && EmbeddingInput(RequestID(it.pos), it.input.Chunk.Text) in sent[n]
    && w.client(n, sent[n]).Answer?
    && exists v :: v in w.client(n, sent[n]).vectors && v.ID == RequestID(it.pos) && Stores(r, it, v.Values)
  }

  /** Some call from the `from`-th one on did. */
  ghost predicate AnsweredFor(w: World, from: nat, sent: seq<seq<EmbeddingInput>>, it: Item, r: Record) {
    exists n: nat :: from <= n < |sent| && AnsweredAt(w, sent, n, it, r)
  }

  /** More calls later do not change that. */
  lemma StillAnswered(w: World, from: nat, sent: seq<seq<EmbeddingInput>>, sent': seq<seq<EmbeddingInput>>, it: Item,
                      r: Record)
    requires sent <= sent'
    ensures AnsweredFor(w, from, sent, it, r) ==> AnsweredFor(w, from, sent', it, r)
  {
    if AnsweredFor(w, from, sent, it, r) {
      var n: nat :| from <= n < |sent| && AnsweredAt(w, sent, n, it, r);
      assert sent[n] == sent'[n];
      assert AnsweredAt(w, sent', n, it, r);
    }
  }

  /** The record of an item, if it changed from `st` to `st'`, answers that item. */
  ghost predicate RecordAnswers(w: World, st: State, st': State, it: Item) {
    it.pos in st'.records && (it.pos !in st.records || st'.records[it.pos] != st.records[it.pos]) ==>
      AnsweredFor(w, |st.sent|, st'.sent, it, st'.records[it.pos])
  }

  lemma {:induction false} MatchedRecord(records: map<nat, Record>, batch: seq<Item>, byID: map<string, seq<real>>,
                                         k: nat)
    requires Increasing(batch) && k < |batch|
    ensures var r := Matched(records, batch, byID).0; var p := batch[k].pos;
            p in r && (p !in records || r[p] != records[p]) ==>
              RequestID(p) in byID && r[p] == RecordOf(batch[k], byID[RequestID(p)])
    decreases |batch|
  {
    var it := batch[0];
    if RequestID(it.pos) in byID {
      var next := records[it.pos := RecordOf(it, byID[RequestID(it.pos)])];
      if k == 0 {
        PositionApart(batch, 0, 1, |batch|);
        assert batch[1..|batch|] == batch[1..];
        MatchedElsewhere(next, batch[1..], byID, it.pos);
      } else {
        IncreasingSlice(batch, 1, |batch|);
        assert Before(batch, 0, k);
        assert batch[1..|batch|] == batch[1..];
        MatchedRecord(next, batch[1..], byID, k - 1);
      }
    }
  }

  lemma SettledAnswers(w: World, bisect: bool, st: State, batch: seq<Item>, k: nat)
    requires batch != [] && Increasing(batch) && k < |batch| && Attempt(w, bisect, st, batch).Settled?
    ensures RecordAnswers(w, st, Attempt(w, bisect, st, batch).st, batch[k])
  {
    var reply := w.client(|st.sent|, Request(batch));
    if reply.Answer? && DistinctIDs(reply.vectors) && |reply.vectors| == |batch| {
      var p, byID := batch[k].pos, ByID(reply.vectors);
      MatchedRecord(st.records, batch, byID, k);
      ByIDKeys(reply.vectors);
      if RequestID(p) in byID {
        var j :| 0 <= j < |reply.vectors| && reply.vectors[j].ID == RequestID(p);
        ByIDValue(reply.vectors, j);
        var st' := Attempt(w, bisect, st, batch).st;
        assert st'.sent[|st.sent|] == Request(batch) && Request(batch)[k] in Request(batch);
        assert reply.vectors[j] in reply.vectors;
        assert p in st'.records && st'.records[p] == RecordOf(batch[k], reply.vectors[j].Values) ==>
                 AnsweredAt(w, st'.sent, |st.sent|, batch[k], st'.records[p]);
      }
    }
  }

  lemma {:induction false} EmbedElsewhere(w: World, bisect: bool, st: State, batch: seq<Item>, p: nat)
    requires batch != [] && p !in PosSet(batch)
    ensures var r := Embed(w, bisect, st, batch).0.records;
            (p in r <==> p in st.records) && (p in r ==> r[p] == st.records[p])
    decreases |batch|, 1
  {
    if Attempt(w, bisect, st, batch).Settled? {
      if w.client(|st.sent|, Request(batch)).Answer? {
        MatchedElsewhere(st.records, batch, ByID(w.client(|st.sent|, Request(batch)).vectors), p);
      }
    } else if Attempt(w, bisect, st, batch).Retry? {
      HalvesElsewhere(w, bisect, Attempt(w, bisect, st, batch).st, batch, p);
    }
  }

  lemma {:induction false} HalvesElsewhere(w: World, bisect: bool, st: State, batch: seq<Item>, p: nat)
    requires |batch| > 1 && p !in PosSet(batch)
    ensures var r := EmbedHalves(w, bisect, st, batch).0.records;
            (p in r <==> p in st.records) && (p in r ==> r[p] == st.records[p])
    decreases |batch|, 0
  {
    var mid := |batch| / 2;
    var left := Embed(w, bisect, st, batch[..mid]);
    PosSetSplit(batch, mid);
    EmbedElsewhere(w, bisect, st, batch[..mid], p);
    if !left.1 {
      EmbedElsewhere(w, bisect, left.0, batch[mid..], p);
    }
  }

  /** Whatever the client does, no record ever carries a vector answered for another position. */
  lemma {:induction false} EmbedAnswers(w: World, bisect: bool, st: State, batch: seq<Item>, k: nat)
    requires batch != [] && Increasing(batch) && k < |batch|
    ensures RecordAnswers(w, st, Embed(w, bisect, st, batch).0, batch[k])
    decreases |batch|, 1
  {
    if Attempt(w, bisect, st, batch).Settled? {
      SettledAnswers(w, bisect, st, batch, k);
    } else if Attempt(w, bisect, st, batch).Retry? {
      HalvesAnswer(w, bisect, Attempt(w, bisect, st, batch).st, batch, k);
    }
  }

  /** What comes after a stretch that leaves the item's record alone does not spoil its answer. */
  lemma AnswersKept(w: World, st: State, mid: State, st': State, it: Item)
    requires RecordAnswers(w, st, mid, it) && mid.sent <= st'.sent
    requires (it.pos in st'.records <==> it.pos in mid.records)
    requires it.pos in mid.records ==> st'.records[it.pos] == mid.records[it.pos]
    ensures RecordAnswers(w, st, st', it)
  {
    if it.pos in mid.records {
      StillAnswered(w, |st.sent|, mid.sent, st'.sent, it, mid.records[it.pos]);
    }
  }

  lemma {:induction false} HalvesAnswer(w: World, bisect: bool, st: State, batch: seq<Item>, k: nat)
    requires |batch| > 1 && Increasing(batch) && k < |batch|
    ensures RecordAnswers(w, st, EmbedHalves(w, bisect, st, batch).0, batch[k])
    decreases |batch|, 0
  {
    var mid := |batch| / 2;
    var left := Embed(w, bisect, st, batch[..mid]);
    EmbedCalls(w, bisect, st, batch[..mid]);
    HalvesApart(batch, mid, k);
    if k < mid {
      EmbedAnswers(w, bisect, st, batch[..mid], k);
      if !left.1 {
        EmbedElsewhere(w, bisect, left.0, batch[mid..], batch[k].pos);
        EmbedCalls(w, bisect, left.0, batch[mid..]);
        AnswersKept(w, st, left.0, Embed(w, bisect, left.0, batch[mid..]).0, batch[k]);
      }
    } else {
      EmbedElsewhere(w, bisect, st, batch[..mid], batch[k].pos);
      if !left.1 {
        EmbedAnswers(w, bisect, left.0, batch[mid..], k - mid);
        EmbedCalls(w, bisect, left.0, batch[mid..]);
      }
    }
  }

  // ----- a client with poison inputs -----

  ghost predicate HasPoison(request: seq<EmbeddingInput>, poison: set<string>) {
    exists j :: 0 <= j < |request| && request[j].ID in poison
  }

  ghost predicate DistinctRequest(request: seq<EmbeddingInput>) {
    forall i, j :: 0 <= i < j < |request| ==> request[i].ID != request[j].ID
  }

  /**
    * A client that fails exactly on the requests that hold a poison input, answers all others one-to-one, in a run that
    * is never canceled.
    */
  ghost predicate PoisonClient(w: World, poison: set<string>) {
    && (forall n: nat :: !w.done(n))
    && (forall n: nat, request: seq<EmbeddingInput> {:trigger PoisonReply(w, n, request, poison)} ::
          PoisonReply(w, n, request, poison))
  }

  ghost predicate PoisonReply(w: World, n: nat, request: seq<EmbeddingInput>, poison: set<string>) {
    var reply := w.client(n, request);
    DistinctRequest(request) ==>
      if HasPoison(request, poison) then reply.ClientError? && !reply.canceled
      else reply.Answer? && DistinctIDs(reply.vectors) && |reply.vectors| == |request| &&
           OnlyRequested(request, reply.vectors)
  }

  predicate IsPoison(it: Item, poison: set<string>) {
    RequestID(it.pos) in poison
  }

  /** The poison items of a batch, in order. */
  function Poisons(batch: seq<Item>, poison: set<string>): seq<Item> {
    if batch == [] then []
    else Poisons(batch[..|batch| - 1], poison) +
         (if IsPoison(batch[|batch| - 1], poison) then [batch[|batch| - 1]] else [])
  }

  lemma {:induction false} PoisonsConcat(a: seq<Item>, b: seq<Item>, poison: set<string>)
    ensures Poisons(a + b, poison) == Poisons(a, poison) + Poisons(b, poison)
  {
    if b == [] {
      assert a + b == a;
    } else {
      assert (a + b)[..|a + b| - 1] == a + b[..|b| - 1];
      PoisonsConcat(a, b[..|b| - 1], poison);
    }
  }

  lemma {:induction false} PoisonsEmpty(batch: seq<Item>, poison: set<string>)
    ensures Poisons(batch, poison) == [] <==> !HasPoison(Request(batch), poison)
    ensures |Poisons(batch, poison)| <= |batch|
  {
    if batch != [] {
      var init := batch[..|batch| - 1];
      PoisonsEmpty(init, poison);
      var last := EmbeddingInput(RequestID(batch[|init|].pos), batch[|init|].input.Chunk.Text);
      assert Request(batch) == Request(init) + [last];
      assert HasPoison(Request(batch), poison) <==> HasPoison(Request(init), poison) || last.ID in poison by {
        if k :| 0 <= k < |init| && Request(init)[k].ID in poison {
          assert Request(batch)[k].ID in poison;
        }
        assert Request(batch)[|init|] == last;
      }
    }
  }

  lemma RequestDistinct(batch: seq<Item>)
    requires Increasing(batch)
    ensures DistinctRequest(Request(batch))
  {
    forall i, j | 0 <= i < j < |batch|
      ensures Request(batch)[i].ID != Request(batch)[j].ID
    {
      assert Before(batch, i, j);
      if RequestID(batch[i].pos) == RequestID(batch[j].pos) {
        RequestIDInjective(batch[i].pos, batch[j].pos);
      }
    }
  }

  /** The failure of one input alone, as a client error. */
  ghost predicate Isolates(f: PosFailure, it: Item) {
    f.pos == it.pos && f.covers == [it.pos] && f.bf.Inputs == [it.input] && f.bf.Err == ClientFailed
  }

  /** From `st` to `st'` the failures have grown by one isolating failure per listed item, in order. */
  ghost predicate IsolatedAll(st: State, st': State, items: seq<Item>) {
    && |st'.failures| == |st.failures| + |items|
    && st'.failures[..|st.failures|] == st.failures
    && forall j :: 0 <= j < |items| ==> Isolates(st'.failures[|st.failures| + j], items[j])
  }

  lemma IsolatedJoin(st: State, left: State, right: State, a: seq<Item>, b: seq<Item>)
    requires IsolatedAll(st, left, a) && IsolatedAll(left, right, b)
    ensures IsolatedAll(st, right, a + b)
  {
    var n := |st.failures|;
    assert right.failures[..n] == left.failures[..n];
    forall j | 0 <= j < |a + b|
      ensures Isolates(right.failures[n + j], (a + b)[j])
    {
      if j < |a| {
        assert right.failures[n + j] == left.failures[n + j];
      } else {
        assert Isolates(right.failures[|left.failures| + (j - |a|)], b[j - |a|]);
      }
    }
  }

  /** The outcome of one call under a poison client. */
  lemma PoisonAttempt(w: World, st: State, batch: seq<Item>, poison: set<string>, o: Outcome)
    requires batch != [] && Increasing(batch) && PoisonClient(w, poison) && o == Attempt(w, true, st, batch)
    ensures |o.st.sent| == |st.sent| + 1 && !o.Halted?
    ensures o.Retry? <==> Poisons(batch, poison) != [] && |batch| > 1
    ensures o.Retry? ==> o.st.failures == st.failures && o.st.records == st.records
    ensures o.Settled? ==> IsolatedAll(st, o.st, Poisons(batch, poison))
  {
    RequestDistinct(batch);
    PoisonsEmpty(batch, poison);
    var reply := w.client(|st.sent|, Request(batch));
    assert PoisonReply(w, |st.sent|, Request(batch), poison);
    if reply.Answer? {
      AllAnswered(batch, reply.vectors);
      MatchedKeys(st.records, batch, ByID(reply.vectors));
    } else if |batch| == 1 {
      assert batch[..0] == [];
      assert Poisons(batch, poison) == [batch[0]];
      assert Positions(batch) == [batch[0].pos] && InputsOf(batch) == [batch[0].input];
    }
  }

  // ----- isolation -----

  /** Every poison input ends alone in its own failure, in order, and nothing else fails. */
  lemma {:induction false} BisectionIsolates(w: World, st: State, batch: seq<Item>, poison: set<string>)
    requires batch != [] && Increasing(batch) && PoisonClient(w, poison)
    ensures var r := Embed(w, true, st, batch); !r.1 && IsolatedAll(st, r.0, Poisons(batch, poison))
    decreases |batch|, 1
  {
    var o := Attempt(w, true, st, batch);
    PoisonAttempt(w, st, batch, poison, o);
    if o.Retry? {
      HalvesIsolate(w, o.st, batch, poison);
      IsolatedSame(st, o.st, EmbedHalves(w, true, o.st, batch).0, Poisons(batch, poison));
    }
  }

  lemma IsolatedSame(st: State, same: State, st': State, items: seq<Item>)
    requires same.failures == st.failures && IsolatedAll(same, st', items)
    ensures IsolatedAll(st, st', items)
  {
  }

  lemma {:induction false} HalvesIsolate(w: World, st: State, batch: seq<Item>, poison: set<string>)
    requires |batch| > 1 && Increasing(batch) && PoisonClient(w, poison)
    ensures var r := EmbedHalves(w, true, st, batch); !r.1 && IsolatedAll(st, r.0, Poisons(batch, poison))
    decreases |batch|, 0
  {
    var mid := |batch| / 2;
    var left := Embed(w, true, st, batch[..mid]).0;
    HalvesApart(batch, mid, 0);
    BisectionIsolates(w, st, batch[..mid], poison);
    BisectionIsolates(w, left, batch[mid..], poison);
    IsolatedJoin(st, left, Embed(w, true, left, batch[mid..]).0, Poisons(batch[..mid], poison),
                 Poisons(batch[mid..], poison));
    PoisonsConcat(batch[..mid], batch[mid..], poison);
    assert batch[..mid] + batch[mid..] == batch;
  }

  /** Every input that is not poison gets a record, and no poison input does. */
  lemma {:induction false} BisectionStoresRest(w: World, st: State, batch: seq<Item>, poison: set<string>, k: nat)
    requires batch != [] && Increasing(batch) && PoisonClient(w, poison) && k < |batch|
    ensures batch[k].pos in Embed(w, true, st, batch).0.records <==>
            batch[k].pos in st.records || !IsPoison(batch[k], poison)
    decreases |batch|, 1
  {
    var o := Attempt(w, true, st, batch);
    PoisonAttempt(w, st, batch, poison, o);
    if o.Retry? {
      HalvesStoreRest(w, o.st, batch, poison, k);
    } else {
      SettledStoresRest(w, st, batch, poison, k);
    }
  }

  lemma SettledStoresRest(w: World, st: State, batch: seq<Item>, poison: set<string>, k: nat)
    requires batch != [] && Increasing(batch) && PoisonClient(w, poison) && k < |batch|
    requires Poisons(batch, poison) == [] || |batch| == 1
    ensures Attempt(w, true, st, batch).Settled?
    ensures batch[k].pos in Attempt(w, true, st, batch).st.records <==>
            batch[k].pos in st.records || !IsPoison(batch[k], poison)
  {
    RequestDistinct(batch);
    PoisonsEmpty(batch, poison);
    var reply := w.client(|st.sent|, Request(batch));
    assert PoisonReply(w, |st.sent|, Request(batch), poison);
    assert Request(batch)[k].ID == RequestID(batch[k].pos);
    if reply.Answer? {
      AllAnswered(batch, reply.vectors);
      MatchedKeys(st.records, batch, ByID(reply.vectors));
      assert batch[k].pos in PosSet(batch);
    }
  }

  lemma {:induction false} HalvesStoreRest(w: World, st: State, batch: seq<Item>, poison: set<string>, k: nat)
    requires |batch| > 1 && Increasing(batch) && PoisonClient(w, poison) && k < |batch|
    ensures batch[k].pos in EmbedHalves(w, true, st, batch).0.records <==>
            batch[k].pos in st.records || !IsPoison(batch[k], poison)
    decreases |batch|, 0
  {
    var mid := |batch| / 2;
    var left := Embed(w, true, st, batch[..mid]).0;
    NotCutShort(w, st, batch, poison);
    HalvesApart(batch, mid, k);
    if k < mid {
      BisectionStoresRest(w, st, batch[..mid], poison, k);
      EmbedElsewhere(w, true, left, batch[mid..], batch[k].pos);
    } else {
      EmbedElsewhere(w, true, st, batch[..mid], batch[k].pos);
      BisectionStoresRest(w, left, batch[mid..], poison, k - mid);
    }
  }

  lemma HalvesApart(batch: seq<Item>, mid: nat, k: nat)
    requires Increasing(batch) && mid <= |batch| && k < |batch|
    ensures Increasing(batch[..mid]) && Increasing(batch[mid..])
    ensures if k < mid then batch[k].pos !in PosSet(batch[mid..]) else batch[k].pos !in PosSet(batch[..mid])
  {
    assert batch[0..mid] == batch[..mid] && batch[mid..|batch|] == batch[mid..];
    IncreasingSlice(batch, 0, mid);
    IncreasingSlice(batch, mid, |batch|);
    if k < mid {
      PositionApart(batch, k, mid, |batch|);
    } else {
      PositionApart(batch, k, 0, mid);
    }
  }

  /** Under a poison client the second half is always tried. */
  lemma NotCutShort(w: World, st: State, batch: seq<Item>, poison: set<string>)
    requires |batch| > 1 && Increasing(batch) && PoisonClient(w, poison)
    ensures var mid := |batch| / 2;
            EmbedHalves(w, true, st, batch) == Embed(w, true, Embed(w, true, st, batch[..mid]).0, batch[mid..])
  {
    HalvesApart(batch, |batch| / 2, 0);
    BisectionIsolates(w, st, batch[..|batch| / 2], poison);
  }

  // ----- the number of calls -----

  /** The number of halvings from `n` down to one. */
  function CeilLog2(n: nat): nat
    requires n >= 1
  {
    if n == 1 then 0 else 1 + CeilLog2((n + 1) / 2)
  }

  function Pow2(k: nat): nat {
    if k == 0 then 1 else 2 * Pow2(k - 1)
  }

  /** It is the logarithm to base 2, rounded up. */
  lemma {:induction false} CeilLog2IsLog(n: nat)
    requires n >= 1
    ensures n <= Pow2(CeilLog2(n)) && (n > 1 ==> Pow2(CeilLog2(n) - 1) < n)
  {
    if n > 1 {
      CeilLog2IsLog((n + 1) / 2);
    }
  }

  lemma {:induction false} CeilLog2Mono(m: nat, n: nat)
    requires 1 <= m <= n
    ensures CeilLog2(m) <= CeilLog2(n)
  {
    if m > 1 {
      CeilLog2Mono((m + 1) / 2, (n + 1) / 2);
    }
  }

  /** A batch of n inputs with k poisons costs at most 1 + 2 * k * ceil(log2 n) calls. */
  lemma {:induction false} BisectionCost(w: World, st: State, batch: seq<Item>, poison: set<string>)
    requires batch != [] && Increasing(batch) && PoisonClient(w, poison)
    ensures |Embed(w, true, st, batch).0.sent| <= |st.sent| + 1 + 2 * |Poisons(batch, poison)| * CeilLog2(|batch|)
    decreases |batch|, 1
  {
    var o := Attempt(w, true, st, batch);
    PoisonAttempt(w, st, batch, poison, o);
    NoNegativeCost(|Poisons(batch, poison)|, CeilLog2(|batch|));
    if o.Retry? {
      HalvesCost(w, o.st, batch, poison);
    }
  }

  lemma NoNegativeCost(k: nat, l: nat)
    ensures 2 * k * l >= 0
  {
  }

  lemma {:induction false} HalvesCost(w: World, st: State, batch: seq<Item>, poison: set<string>)
    requires |batch| > 1 && Increasing(batch) && PoisonClient(w, poison) && Poisons(batch, poison) != []
    ensures |EmbedHalves(w, true, st, batch).0.sent| <= |st.sent| + 2 * |Poisons(batch, poison)| * CeilLog2(|batch|)
    decreases |batch|, 0
  {
    var mid := |batch| / 2;
    var a, b := batch[..mid], batch[mid..];
    NotCutShort(w, st, batch, poison);
    HalvesApart(batch, mid, 0);
    BisectionCost(w, st, a, poison);
    BisectionCost(w, Embed(w, true, st, a).0, b, poison);
    SplitCost(batch, mid, poison);
  }

  /** The bounds of the two halves add up to the bound of the whole. */
  lemma SplitCost(batch: seq<Item>, mid: nat, poison: set<string>)
    requires |batch| > 1 && mid == |batch| / 2 && Poisons(batch, poison) != []
    ensures (1 + 2 * |Poisons(batch[..mid], poison)| * CeilLog2(mid)) +
            (1 + 2 * |Poisons(batch[mid..], poison)| * CeilLog2(|batch| - mid))
            <= 2 * |Poisons(batch, poison)| * CeilLog2(|batch|)
  {
    assert batch[..mid] + batch[mid..] == batch;
    PoisonsConcat(batch[..mid], batch[mid..], poison);
    HalvesCostAdds(|Poisons(batch[..mid], poison)|, |Poisons(batch[mid..], poison)|, |batch|);
  }

  lemma HalvesCostAdds(k1: nat, k2: nat, n: nat)
    requires n > 1 && k1 + k2 >= 1
    ensures (1 + 2 * k1 * CeilLog2(n / 2)) + (1 + 2 * k2 * CeilLog2(n - n / 2)) <= 2 * (k1 + k2) * CeilLog2(n)
  {
    CeilLog2Mono(n / 2, n - n / 2);
    CostAdds(k1, k2, CeilLog2(n / 2), CeilLog2(n - n / 2), CeilLog2(n));
  }

  lemma CostAdds(k1: nat, k2: nat, l1: nat, l2: nat, l: nat)
    requires l1 <= l2 && l2 + 1 == l && k1 + k2 >= 1
    ensures (1 + 2 * k1 * l1) + (1 + 2 * k2 * l2) <= 2 * (k1 + k2) * l
  {
    assert 2 * k1 * l1 <= 2 * k1 * l2;
    assert 2 * (k1 + k2) * l == 2 * k1 * l2 + 2 * k2 * l2 + 2 * (k1 + k2);
  }
}
