/** No input is lost or counted twice, whatever the client answers and whenever the run is canceled. */
module Accounting {
  import opened Basics
  import opened Batching
  import opened Embedding
  import opened Matching

  // ----- counting the mentions of one position -----

  function Occurs(s: seq<nat>, p: nat): nat {
    if s == [] then 0 else Occurs(s[..|s| - 1], p) + (if s[|s| - 1] == p then 1 else 0)
  }

  lemma {:induction false} OccursConcat(a: seq<nat>, b: seq<nat>, p: nat)
    ensures Occurs(a + b, p) == Occurs(a, p) + Occurs(b, p)
  {
    if b == [] {
      assert a + b == a;
    } else {
      assert (a + b)[..|a + b| - 1] == a + b[..|b| - 1];
      OccursConcat(a, b[..|b| - 1], p);
    }
  }

  lemma {:induction false} OccursIff(s: seq<nat>, p: nat)
    ensures Occurs(s, p) > 0 <==> p in s
  {
    if s != [] {
      OccursIff(s[..|s| - 1], p);
      assert s == s[..|s| - 1] + [s[|s| - 1]];
    }
  }

  lemma {:induction false} IncreasingOccurs(batch: seq<Item>, p: nat)
    requires Increasing(batch)
    ensures Occurs(Positions(batch), p) <= 1
  {
    if batch != [] {
      var n := |batch| - 1;
      var init := batch[..n];
      assert batch[0..n] == init;
      IncreasingSlice(batch, 0, n);
      IncreasingOccurs(init, p);
      assert Positions(batch)[..n] == Positions(init);
      OccursIff(Positions(init), p);
      if p in Positions(init) {
        var k :| 0 <= k < n && Positions(init)[k] == p;
        assert Before(batch, k, n);
      }
    }
  }

  /** How many failures cover a position, with multiplicity. */
  function CoverCount(failures: seq<PosFailure>, p: nat): nat {
    if failures == [] then 0
    else CoverCount(failures[..|failures| - 1], p) + Occurs(failures[|failures| - 1].covers, p)
  }

  /** How often a state mentions a position: once for a record, once for every failure that covers it. */
  function Mentions(st: State, p: nat): nat {
    CoverCount(st.failures, p) + (if p in st.records then 1 else 0)
  }

  /** How many of the first `k` items stand at position `p`. */
  function Among(batch: seq<Item>, k: nat, p: nat): nat
    requires k <= |batch|
  {
    Occurs(Positions(batch)[..k], p)
  }

  lemma AmongAll(batch: seq<Item>, p: nat)
    ensures Among(batch, |batch|, p) == Occurs(Positions(batch), p) && Among(batch, 0, p) == 0
    ensures Among(batch, |batch|, p) > 0 <==> p in PosSet(batch)
  {
    assert Positions(batch)[..|batch|] == Positions(batch);
    OccursIff(Positions(batch), p);
    if p in PosSet(batch) {
      var k :| 0 <= k < |batch| && batch[k].pos == p;
      assert Positions(batch)[k] == p;
    }
  }

  lemma AmongLeft(batch: seq<Item>, mid: nat, k: nat, p: nat)
    requires k <= mid <= |batch|
    ensures Among(batch[..mid], k, p) == Among(batch, k, p)
  {
    assert Positions(batch[..mid])[..k] == Positions(batch)[..k];
  }

  lemma AmongJoin(batch: seq<Item>, mid: nat, k: nat, p: nat)
    requires mid <= |batch| && k <= |batch| - mid
    ensures Among(batch, mid + k, p) == Among(batch[..mid], mid, p) + Among(batch[mid..], k, p)
  {
    assert Positions(batch[..mid])[..mid] + Positions(batch[mid..])[..k] == Positions(batch)[..mid + k];
    OccursConcat(Positions(batch[..mid])[..mid], Positions(batch[mid..])[..k], p);
  }

  lemma FailMentions(st: State, batch: seq<Item>, err: Error, retryable: bool, p: nat)
    requires batch != []
    ensures CoverCount(Fail(st, batch, err, retryable).failures, p) ==
            CoverCount(st.failures, p) + Among(batch, |batch|, p)
  {
    var f := FailureOf(batch, err, retryable);
    assert (st.failures + [f])[..|st.failures|] == st.failures;
    AmongAll(batch, p);
  }

  // ----- how far a batch gets -----

  /** How many items of the batch are dealt with before the run is canceled, or all of them. */
  ghost function Reached(w: World, bisect: bool, st: State, batch: seq<Item>): (k: nat)
    requires batch != []
    ensures k <= |batch|
    decreases |batch|, 1
  {
    match Attempt(w, bisect, st, batch)
    case Settled(_) => |batch|
    case Halted(_) => 0
    case Retry(st') => ReachedInHalves(w, bisect, st', batch)
  }

  ghost function ReachedInHalves(w: World, bisect: bool, st: State, batch: seq<Item>): (k: nat)
    requires |batch| > 1
    ensures k <= |batch|
    decreases |batch|, 0
  {
    var mid := |batch| / 2;
    var left := Embed(w, bisect, st, batch[..mid]);
    if left.1 then Reached(w, bisect, st, batch[..mid])
    else mid + Reached(w, bisect, left.0, batch[mid..])
  }

  /** Only a canceled run leaves items of a batch behind. */
  lemma {:induction false} ReachedAll(w: World, bisect: bool, st: State, batch: seq<Item>)
    requires batch != [] && !Embed(w, bisect, st, batch).1
    ensures Reached(w, bisect, st, batch) == |batch|
    decreases |batch|
  {
    match Attempt(w, bisect, st, batch)
    case Settled(_) =>
    case Retry(st') =>
      var mid := |batch| / 2;
      var left := Embed(w, bisect, st', batch[..mid]);
      ReachedAll(w, bisect, left.0, batch[mid..]);
  }

  // ----- what one batch does to the mentions of a position -----

  /** A canceled or failed call changes neither records nor failures. */
  lemma AttemptKeeps(w: World, bisect: bool, st: State, batch: seq<Item>)
    requires batch != [] && !Attempt(w, bisect, st, batch).Settled?
    ensures var st' := Attempt(w, bisect, st, batch).st; st'.records == st.records && st'.failures == st.failures
    ensures Attempt(w, bisect, st, batch).Retry? ==> bisect && |batch| > 1
  {
  }

  /** For any client: newly mentioned are exactly the first `k` items, and no failure covers an item twice. */
  ghost predicate Covers(st: State, st': State, batch: seq<Item>, k: nat, p: nat)
    requires k <= |batch|
  {
    && (Mentions(st', p) > 0 <==> Mentions(st, p) > 0 || Among(batch, k, p) > 0)
    && CoverCount(st.failures, p) <= CoverCount(st'.failures, p) <= CoverCount(st.failures, p) + Among(batch, k, p)
  }

  lemma AcceptedCovers(st: State, batch: seq<Item>, vectors: seq<Vector>, p: nat)
    requires batch != []
    ensures Covers(st, Accepted(st, batch, vectors), batch, |batch|, p)
  {
    var (records, ok) := Matched(st.records, batch, ByID(vectors));
    MatchedKeys(st.records, batch, ByID(vectors));
    AmongAll(batch, p);
    FailMentions(st, batch, ResponseMismatch, false, p);
    FailMentions(st.(records := records), batch, ResponseMismatch, false, p);
  }

  lemma SettledCovers(w: World, bisect: bool, st: State, batch: seq<Item>, p: nat)
    requires batch != [] && Attempt(w, bisect, st, batch).Settled?
    ensures Covers(st, Attempt(w, bisect, st, batch).st, batch, |batch|, p)
  {
    var st1 := st.(sent := st.sent + [Request(batch)]);
    match w.client(|st.sent|, Request(batch))
    case Answer(vectors) =>
      AcceptedCovers(st1, batch, vectors, p);
    case ClientError(canceled, retryable) =>
      FailMentions(st1.(polls := st1.polls + 1), batch, ClientFailed, retryable, p);
  }

  lemma CoversJoin(st: State, left: State, right: State, batch: seq<Item>, mid: nat, k: nat, p: nat)
    requires mid <= |batch| && k <= |batch| - mid
    requires Covers(st, left, batch[..mid], mid, p) && Covers(left, right, batch[mid..], k, p)
    ensures Covers(st, right, batch, mid + k, p)
  {
    AmongJoin(batch, mid, k, p);
  }

  lemma {:induction false} EmbedReaches(w: World, bisect: bool, st: State, batch: seq<Item>, p: nat)
    requires batch != []
    ensures Covers(st, Embed(w, bisect, st, batch).0, batch, Reached(w, bisect, st, batch), p)
    decreases |batch|, 2
  {
    if Attempt(w, bisect, st, batch).Settled? {
      SettledCovers(w, bisect, st, batch, p);
    } else {
      AttemptKeeps(w, bisect, st, batch);
      AmongAll(batch, p);
      if Attempt(w, bisect, st, batch).Retry? {
        HalvesReach(w, bisect, Attempt(w, bisect, st, batch).st, batch, p);
      }
    }
  }

  lemma {:induction false} HalvesReach(w: World, bisect: bool, st: State, batch: seq<Item>, p: nat)
    requires |batch| > 1
    ensures Covers(st, EmbedHalves(w, bisect, st, batch).0, batch, ReachedInHalves(w, bisect, st, batch), p)
    decreases |batch|, 1
  {
    var mid := |batch| / 2;
    var left := Embed(w, bisect, st, batch[..mid]);
    if left.1 {
      LeftHalfReaches(w, bisect, st, batch, mid, p);
    } else {
      EmbedReaches(w, bisect, st, batch[..mid], p);
      ReachedAll(w, bisect, st, batch[..mid]);
      RightHalfReaches(w, bisect, st, left.0, batch, mid, p);
    }
  }

  lemma {:induction false} LeftHalfReaches(w: World, bisect: bool, st: State, batch: seq<Item>, mid: nat, p: nat)
    requires 0 < mid < |batch|
    ensures Covers(st, Embed(w, bisect, st, batch[..mid]).0, batch, Reached(w, bisect, st, batch[..mid]), p)
    decreases |batch|, 0
  {
    EmbedReaches(w, bisect, st, batch[..mid], p);
    AmongLeft(batch, mid, Reached(w, bisect, st, batch[..mid]), p);
  }

  lemma {:induction false} RightHalfReaches(w: World, bisect: bool, st: State, left: State, batch: seq<Item>, mid: nat,
                                            p: nat)
    requires 0 < mid < |batch| && Covers(st, left, batch[..mid], mid, p)
    ensures Covers(st, Embed(w, bisect, left, batch[mid..]).0, batch, mid + Reached(w, bisect, left, batch[mid..]), p)
    decreases |batch|, 0
  {
    var k := Reached(w, bisect, left, batch[mid..]);
    EmbedReaches(w, bisect, left, batch[mid..], p);
    assert Covers(left, Embed(w, bisect, left, batch[mid..]).0, batch[mid..], k, p);
    CoversJoin(st, left, Embed(w, bisect, left, batch[mid..]).0, batch, mid, k, p);
  }

  // ----- what a failure reports -----

  /**
    * The failure reports some stretch of the batch: those items' inputs, in order, at their own positions, tagged with
    * the first.
    */
  ghost predicate ReportsStretch(f: PosFailure, batch: seq<Item>) {
    exists lo: nat, hi: nat :: lo < hi <= |batch| && ReportsItems(f, batch[lo..hi])
  }

  ghost predicate ReportsItems(f: PosFailure, items: seq<Item>) {
    items != [] && f.bf.Inputs == InputsOf(items) && f.covers == Positions(items) && f.pos == MinPos(items)
  }

  /** From `st` to `st'` failures were only added, and each new one reports a stretch of the batch. */
  ghost predicate NewReports(st: State, st': State, batch: seq<Item>) {
    && st.failures <= st'.failures
    && forall i :: |st.failures| <= i < |st'.failures| ==> ReportsStretch(st'.failures[i], batch)
  }

  lemma FailReports(st: State, batch: seq<Item>, err: Error, retryable: bool)
    requires batch != []
    ensures NewReports(st, Fail(st, batch, err, retryable), batch)
  {
    assert batch[0..|batch|] == batch;
    assert ReportsItems(FailureOf(batch, err, retryable), batch[0..|batch|]);
  }

  lemma AcceptedReports(st: State, batch: seq<Item>, vectors: seq<Vector>)
    requires batch != []
    ensures NewReports(st, Accepted(st, batch, vectors), batch)
  {
    var (records, ok) := Matched(st.records, batch, ByID(vectors));
    FailReports(st, batch, ResponseMismatch, false);
    FailReports(st.(records := records), batch, ResponseMismatch, false);
  }

  lemma SettledReports(w: World, bisect: bool, st: State, batch: seq<Item>)
    requires batch != [] && Attempt(w, bisect, st, batch).Settled?
    ensures NewReports(st, Attempt(w, bisect, st, batch).st, batch)
  {
    var st1 := st.(sent := st.sent + [Request(batch)]);
    var reply := w.client(|st.sent|, Request(batch));
    if reply.Answer? {
      AcceptedReports(st1, batch, reply.vectors);
    } else {
      FailReports(st1.(polls := st1.polls + 1), batch, ClientFailed, reply.retryable);
    }
  }

  /** A stretch of a part of the batch is a stretch of the batch. */
  lemma PartReports(st: State, st': State, batch: seq<Item>, a: nat, b: nat)
    requires a <= b <= |batch| && NewReports(st, st', batch[a..b])
    ensures NewReports(st, st', batch)
  {
    forall i | |st.failures| <= i < |st'.failures|
      ensures ReportsStretch(st'.failures[i], batch)
    {
      assert ReportsStretch(st'.failures[i], batch[a..b]);
      var lo: nat, hi: nat :| lo < hi <= |batch[a..b]| && ReportsItems(st'.failures[i], batch[a..b][lo..hi]);
      SliceOfSlice(batch, a, b, lo, hi);
    }
  }

  lemma ReportsJoin(st: State, left: State, right: State, batch: seq<Item>)
    requires NewReports(st, left, batch) && NewReports(left, right, batch)
    ensures NewReports(st, right, batch)
  {
  }

  lemma {:induction false} EmbedReports(w: World, bisect: bool, st: State, batch: seq<Item>)
    requires batch != []
    ensures NewReports(st, Embed(w, bisect, st, batch).0, batch)
    decreases |batch|, 1
  {
    if Attempt(w, bisect, st, batch).Settled? {
      SettledReports(w, bisect, st, batch);
    } else {
      AttemptKeeps(w, bisect, st, batch);
      if Attempt(w, bisect, st, batch).Retry? {
        HalvesReport(w, bisect, Attempt(w, bisect, st, batch).st, batch);
      }
    }
  }

  lemma {:induction false} HalvesReport(w: World, bisect: bool, st: State, batch: seq<Item>)
    requires |batch| > 1
    ensures NewReports(st, EmbedHalves(w, bisect, st, batch).0, batch)
    decreases |batch|, 0
  {
    var mid := |batch| / 2;
    var left := Embed(w, bisect, st, batch[..mid]);
    assert batch[0..mid] == batch[..mid] && batch[mid..|batch|] == batch[mid..];
    EmbedReports(w, bisect, st, batch[..mid]);
    PartReports(st, left.0, batch, 0, mid);
    if !left.1 {
      var right := Embed(w, bisect, left.0, batch[mid..]).0;
      EmbedReports(w, bisect, left.0, batch[mid..]);
      PartReports(left.0, right, batch, mid, |batch|);
      ReportsJoin(st, left.0, right, batch);
    }
  }

  /**
    * One batch, any client, any context, cancellation at any point: newly mentioned are exactly the items reached, and
    * each new failure reports the very inputs at the positions it covers.
    */
  lemma EmbedCovers(w: World, bisect: bool, st: State, batch: seq<Item>, p: nat)
    requires batch != []
    ensures Covers(st, Embed(w, bisect, st, batch).0, batch, Reached(w, bisect, st, batch), p)
    ensures NewReports(st, Embed(w, bisect, st, batch).0, batch)
  {
    EmbedReaches(w, bisect, st, batch, p);
    EmbedReports(w, bisect, st, batch);
  }

  // ----- exactly once, unless a response is torn -----

  /** The vectors answer the item's request. */
  predicate Answers(vectors: seq<Vector>, it: Item) {
    exists k :: 0 <= k < |vectors| && vectors[k].ID == RequestID(it.pos)
  }

  /** Item `k` stands at `p`, and it and all before it are answered. */
  ghost predicate StoredAt(batch: seq<Item>, vectors: seq<Vector>, k: nat, p: nat) {
    k < |batch| && batch[k].pos == p && forall j :: 0 <= j <= k ==> Answers(vectors, batch[j])
  }

  /**
    * A torn response: its IDs are distinct and as many as the items, but some item goes unanswered (so another ID is
    * unknown), and the item at `p` comes before the first such one. Its record is kept although the batch is failed.
    */
  ghost predicate Tears(batch: seq<Item>, vectors: seq<Vector>, p: nat) {
    && DistinctIDs(vectors) && |vectors| == |batch|
    && (exists m :: 0 <= m < |batch| && !Answers(vectors, batch[m]))
    && (exists k: nat :: StoredAt(batch, vectors, k, p))
  }

  /** How many of the replies that a batch gets are torn at `p`. */
  ghost function Torn(w: World, bisect: bool, st: State, batch: seq<Item>, p: nat): nat
    requires batch != []
    decreases |batch|, 1
  {
    match Attempt(w, bisect, st, batch)
    case Settled(_) =>
      var reply := w.client(|st.sent|, Request(batch));
      if reply.Answer? && Tears(batch, reply.vectors, p) then 1 else 0
    case Halted(_) => 0
    case Retry(st') => TornInHalves(w, bisect, st', batch, p)
  }

  ghost function TornInHalves(w: World, bisect: bool, st: State, batch: seq<Item>, p: nat): nat
    requires |batch| > 1
    decreases |batch|, 0
  {
    var mid := |batch| / 2;
    var left := Embed(w, bisect, st, batch[..mid]);
    Torn(w, bisect, st, batch[..mid], p) + if left.1 then 0 else Torn(w, bisect, left.0, batch[mid..], p)
  }

  /** Each of the first `k` items gains one mention, `p` gains `torn` more, and no other position gains any. */
  ghost predicate Gains(st: State, st': State, batch: seq<Item>, k: nat, torn: nat, p: nat)
    requires k <= |batch|
  {
    Mentions(st', p) == Mentions(st, p) + Among(batch, k, p) + torn
  }

  /** There is room for one record of `p`: it has one or is an item of the batch, once, or neither. */
  ghost predicate Room(st: State, batch: seq<Item>, p: nat) {
    Among(batch, |batch|, p) + (if p in st.records then 1 else 0) <= 1
  }

  /** Behind an answered first item, the rest of the batch is stored as it would be on its own. */
  lemma StoredTail(batch: seq<Item>, vectors: seq<Vector>, k: nat, p: nat)
    requires batch != [] && Answers(vectors, batch[0])
    ensures StoredAt(batch[1..], vectors, k, p) <==> StoredAt(batch, vectors, k + 1, p)
  {
    var rest := batch[1..];
    assert forall j :: 0 <= j < |rest| ==> rest[j] == batch[j + 1];
    if StoredAt(batch, vectors, k + 1, p) {
      forall j | 0 <= j <= k
        ensures Answers(vectors, rest[j])
      {
        assert Answers(vectors, batch[j + 1]);
      }
    }
  }

  /** Where the records of a failed batch stop: a position is stored only before the first unanswered item. */
  lemma {:induction false} MatchedOnlyThose(records: map<nat, Record>, batch: seq<Item>, vectors: seq<Vector>, p: nat)
    requires p in Matched(records, batch, ByID(vectors)).0 && p !in records
    ensures exists k: nat :: StoredAt(batch, vectors, k, p)
    decreases |batch|
  {
    ByIDKeys(vectors);
    var it, rest := batch[0], batch[1..];
    assert Answers(vectors, it);
    if it.pos == p {
      assert StoredAt(batch, vectors, 0, p);
    } else {
      MatchedOnlyThose(records[it.pos := RecordOf(it, ByID(vectors)[RequestID(it.pos)])], rest, vectors, p);
      var k: nat :| StoredAt(rest, vectors, k, p);
      StoredTail(batch, vectors, k, p);
    }
  }

  /** And each of those is stored. */
  lemma {:induction false} MatchedAllThose(records: map<nat, Record>, batch: seq<Item>, vectors: seq<Vector>, k: nat,
                                           p: nat)
    requires StoredAt(batch, vectors, k, p)
    ensures p in Matched(records, batch, ByID(vectors)).0
    decreases |batch|
  {
    ByIDKeys(vectors);
    var it, rest := batch[0], batch[1..];
    assert Answers(vectors, it);
    var next := records[it.pos := RecordOf(it, ByID(vectors)[RequestID(it.pos)])];
    if k == 0 {
      MatchedKeys(next, rest, ByID(vectors));
    } else {
      StoredTail(batch, vectors, k - 1, p);
      MatchedAllThose(next, rest, vectors, k - 1, p);
    }
  }

  lemma MatchedPositions(records: map<nat, Record>, batch: seq<Item>, vectors: seq<Vector>, p: nat)
    requires p !in records
    ensures p in Matched(records, batch, ByID(vectors)).0 <==> exists k: nat :: StoredAt(batch, vectors, k, p)
  {
    if p in Matched(records, batch, ByID(vectors)).0 {
      MatchedOnlyThose(records, batch, vectors, p);
    }
    if k: nat :| StoredAt(batch, vectors, k, p) {
      MatchedAllThose(records, batch, vectors, k, p);
    }
  }

  lemma AcceptedTally(st: State, batch: seq<Item>, vectors: seq<Vector>, p: nat)
    requires batch != [] && Room(st, batch, p)
    ensures Gains(st, Accepted(st, batch, vectors), batch, |batch|, if Tears(batch, vectors, p) then 1 else 0, p)
  {
    AmongAll(batch, p);
    if DistinctIDs(vectors) && |vectors| == |batch| {
      var (records, ok) := Matched(st.records, batch, ByID(vectors));
      MatchedKeys(st.records, batch, ByID(vectors));
      ByIDKeys(vectors);
      if p !in st.records {
        MatchedPositions(st.records, batch, vectors, p);
      }
      FailMentions(st.(records := records), batch, ResponseMismatch, false, p);
    } else {
      FailMentions(st, batch, ResponseMismatch, false, p);
    }
  }

  lemma SettledTally(w: World, bisect: bool, st: State, batch: seq<Item>, p: nat)
    requires batch != [] && Room(st, batch, p) && Attempt(w, bisect, st, batch).Settled?
    ensures Gains(st, Attempt(w, bisect, st, batch).st, batch, |batch|, Torn(w, bisect, st, batch, p), p)
  {
    var st1 := st.(sent := st.sent + [Request(batch)]);
    var reply := w.client(|st.sent|, Request(batch));
    if reply.Answer? {
      AcceptedTally(st1, batch, reply.vectors, p);
    } else {
      FailMentions(st1.(polls := st1.polls + 1), batch, ClientFailed, reply.retryable, p);
    }
  }

  lemma {:induction false} EmbedTally(w: World, bisect: bool, st: State, batch: seq<Item>, p: nat)
    requires batch != [] && Room(st, batch, p)
    ensures Gains(st, Embed(w, bisect, st, batch).0, batch, Reached(w, bisect, st, batch),
                  Torn(w, bisect, st, batch, p), p)
    decreases |batch|, 3
  {
    if Attempt(w, bisect, st, batch).Settled? {
      SettledTally(w, bisect, st, batch, p);
    } else {
      AttemptKeeps(w, bisect, st, batch);
      AmongAll(batch, p);
      if Attempt(w, bisect, st, batch).Retry? {
        HalvesTally(w, bisect, Attempt(w, bisect, st, batch).st, batch, p);
      }
    }
  }

  lemma {:induction false} HalvesTally(w: World, bisect: bool, st: State, batch: seq<Item>, p: nat)
    requires |batch| > 1 && Room(st, batch, p)
    ensures Gains(st, EmbedHalves(w, bisect, st, batch).0, batch, ReachedInHalves(w, bisect, st, batch),
                  TornInHalves(w, bisect, st, batch, p), p)
    decreases |batch|, 2
  {
    var mid := |batch| / 2;
    LeftHalfTally(w, bisect, st, batch, mid, p);
    if Embed(w, bisect, st, batch[..mid]).1 {
      HalvesStop(w, bisect, st, batch, mid, p);
    } else {
      RightHalfTally(w, bisect, st, batch, mid, p);
    }
  }

  /** A first half that is cut short ends the batch. */
  lemma HalvesStop(w: World, bisect: bool, st: State, batch: seq<Item>, mid: nat, p: nat)
    requires |batch| > 1 && mid == |batch| / 2 && Embed(w, bisect, st, batch[..mid]).1
    ensures EmbedHalves(w, bisect, st, batch) == Embed(w, bisect, st, batch[..mid])
    ensures ReachedInHalves(w, bisect, st, batch) == Reached(w, bisect, st, batch[..mid])
    ensures TornInHalves(w, bisect, st, batch, p) == Torn(w, bisect, st, batch[..mid], p)
  {
  }

  /** A first half that is not is dealt with whole, and the second half follows. */
  lemma HalvesGoOn(w: World, bisect: bool, st: State, batch: seq<Item>, mid: nat, p: nat)
    requires |batch| > 1 && mid == |batch| / 2 && !Embed(w, bisect, st, batch[..mid]).1
    ensures Reached(w, bisect, st, batch[..mid]) == mid
    ensures var left := Embed(w, bisect, st, batch[..mid]).0;
            && EmbedHalves(w, bisect, st, batch) == Embed(w, bisect, left, batch[mid..])
            && ReachedInHalves(w, bisect, st, batch) == mid + Reached(w, bisect, left, batch[mid..])
            && TornInHalves(w, bisect, st, batch, p) ==
               Torn(w, bisect, st, batch[..mid], p) + Torn(w, bisect, left, batch[mid..], p)
  {
    ReachedAll(w, bisect, st, batch[..mid]);
  }

  lemma {:induction false} LeftHalfTally(w: World, bisect: bool, st: State, batch: seq<Item>, mid: nat, p: nat)
    requires 0 < mid < |batch| && Room(st, batch, p)
    ensures Gains(st, Embed(w, bisect, st, batch[..mid]).0, batch, Reached(w, bisect, st, batch[..mid]),
                  Torn(w, bisect, st, batch[..mid], p), p)
    ensures Room(Embed(w, bisect, st, batch[..mid]).0, batch[mid..], p)
    decreases |batch|, 0
  {
    AmongJoin(batch, mid, |batch| - mid, p);
    EmbedTally(w, bisect, st, batch[..mid], p);
    AmongLeft(batch, mid, Reached(w, bisect, st, batch[..mid]), p);
    EmbedRecordsWithin(w, bisect, st, batch[..mid], p);
  }

  lemma {:induction false} RightHalfTally(w: World, bisect: bool, st: State, batch: seq<Item>, mid: nat, p: nat)
    requires |batch| > 1 && mid == |batch| / 2 && !Embed(w, bisect, st, batch[..mid]).1
    requires Room(Embed(w, bisect, st, batch[..mid]).0, batch[mid..], p)
    requires Gains(st, Embed(w, bisect, st, batch[..mid]).0, batch, Reached(w, bisect, st, batch[..mid]),
                   Torn(w, bisect, st, batch[..mid], p), p)
    ensures Gains(st, EmbedHalves(w, bisect, st, batch).0, batch, ReachedInHalves(w, bisect, st, batch),
                  TornInHalves(w, bisect, st, batch, p), p)
    decreases |batch|, 1
  {
    HalvesGoOn(w, bisect, st, batch, mid, p);
    HalvesJoin(w, bisect, st, Embed(w, bisect, st, batch[..mid]).0, batch, mid, Torn(w, bisect, st, batch[..mid], p),
               EmbedHalves(w, bisect, st, batch).0, ReachedInHalves(w, bisect, st, batch),
               TornInHalves(w, bisect, st, batch, p), p);
  }

  lemma {:induction false} HalvesJoin(w: World, bisect: bool, st: State, left: State, batch: seq<Item>, mid: nat,
                                      torn: nat, right: State, k: nat, all: nat, p: nat)
    requires 0 < mid < |batch| && Room(left, batch[mid..], p) && Gains(st, left, batch, mid, torn, p)
    requires right == Embed(w, bisect, left, batch[mid..]).0 && k == mid + Reached(w, bisect, left, batch[mid..])
    requires all == torn + Torn(w, bisect, left, batch[mid..], p)
    ensures k <= |batch| && Gains(st, right, batch, k, all, p)
    decreases |batch|, 0
  {
    SecondTally(w, bisect, left, batch[mid..], right, k - mid, all - torn, p);
    assert Gains(left, right, batch[mid..], k - mid, all - torn, p);
    GainsJoin(st, left, right, batch, mid, k - mid, torn, all - torn, p);
  }

  lemma {:induction false} SecondTally(w: World, bisect: bool, left: State, second: seq<Item>, right: State, k: nat,
                                       more: nat, p: nat)
    requires second != [] && Room(left, second, p) && right == Embed(w, bisect, left, second).0
    requires k == Reached(w, bisect, left, second) && more == Torn(w, bisect, left, second, p)
    ensures k <= |second| && Gains(left, right, second, k, more, p)
    decreases |second|, 4
  {
    EmbedTally(w, bisect, left, second, p);
  }

  lemma GainsJoin(st: State, left: State, right: State, batch: seq<Item>, mid: nat, k: nat, torn: nat, more: nat,
                  p: nat)
    requires mid <= |batch| && k <= |batch| - mid
    requires Gains(st, left, batch, mid, torn, p) && Gains(left, right, batch[mid..], k, more, p)
    ensures Gains(st, right, batch, mid + k, torn + more, p)
  {
    AmongJoin(batch, mid, k, p);
    AmongLeft(batch, mid, mid, p);
  }

  /**
    * Any response: each item of the batch is mentioned once more, once again where the response is torn; a failure
    * reports its inputs.
    */
  lemma AcceptedGains(st: State, batch: seq<Item>, vectors: seq<Vector>, p: nat)
    requires batch != [] && Room(st, batch, p)
    ensures Gains(st, Accepted(st, batch, vectors), batch, |batch|, if Tears(batch, vectors, p) then 1 else 0, p)
    ensures NewReports(st, Accepted(st, batch, vectors), batch)
  {
    AcceptedTally(st, batch, vectors, p);
    AcceptedReports(st, batch, vectors);
  }

  /**
    * One batch, for any client: an item reached is mentioned once, and once more for a torn reply; a failure reports
    * its inputs.
    */
  lemma EmbedGains(w: World, bisect: bool, st: State, batch: seq<Item>, p: nat)
    requires batch != [] && Room(st, batch, p)
    ensures Gains(st, Embed(w, bisect, st, batch).0, batch, Reached(w, bisect, st, batch),
                  Torn(w, bisect, st, batch, p), p)
    ensures NewReports(st, Embed(w, bisect, st, batch).0, batch)
  {
    EmbedTally(w, bisect, st, batch, p);
    EmbedReports(w, bisect, st, batch);
  }

  // ----- a client that answers only what it was asked tears nothing -----

  /** Successful replies answer nothing that was not asked. */
  ghost predicate Honest(w: World) {
    forall n: nat, request: seq<EmbeddingInput> {:trigger HonestReply(w, n, request)} :: HonestReply(w, n, request)
  }

  ghost predicate HonestReply(w: World, n: nat, request: seq<EmbeddingInput>) {
    w.client(n, request).Answer? ==> OnlyRequested(request, w.client(n, request).vectors)
  }

  lemma {:induction false} HonestNeverTorn(w: World, bisect: bool, st: State, batch: seq<Item>, p: nat)
    requires batch != [] && Honest(w)
    ensures Torn(w, bisect, st, batch, p) == 0
    decreases |batch|
  {
    match Attempt(w, bisect, st, batch)
    case Settled(_) =>
      assert HonestReply(w, |st.sent|, Request(batch));
      RequestedNeverTears(batch, w.client(|st.sent|, Request(batch)), p);
    case Halted(_) =>
    case Retry(st') =>
      var mid := |batch| / 2;
      HonestNeverTorn(w, bisect, st', batch[..mid], p);
      HonestNeverTorn(w, bisect, Embed(w, bisect, st', batch[..mid]).0, batch[mid..], p);
  }

  lemma RequestedNeverTears(batch: seq<Item>, reply: Reply, p: nat)
    requires reply.Answer? ==> OnlyRequested(Request(batch), reply.vectors)
    ensures reply.Answer? ==> !Tears(batch, reply.vectors, p)
  {
    if reply.Answer? && DistinctIDs(reply.vectors) && |reply.vectors| == |batch| {
      AllAnswered(batch, reply.vectors);
      ByIDKeys(reply.vectors);
      assert forall m :: 0 <= m < |batch| ==> Answers(reply.vectors, batch[m]);
    }
  }

  /** A batch stores records for its own positions only. */
  lemma {:induction false} EmbedRecordsWithin(w: World, bisect: bool, st: State, batch: seq<Item>, p: nat)
    requires batch != []
    ensures p in Embed(w, bisect, st, batch).0.records ==> p in st.records || Among(batch, |batch|, p) > 0
    decreases |batch|, 1
  {
    AmongAll(batch, p);
    if Attempt(w, bisect, st, batch).Settled? {
      SettledRecordsWithin(w, bisect, st, batch, p);
    } else {
      AttemptKeeps(w, bisect, st, batch);
      if Attempt(w, bisect, st, batch).Retry? {
        HalvesRecordsWithin(w, bisect, Attempt(w, bisect, st, batch).st, batch, p);
      }
    }
  }

  lemma SettledRecordsWithin(w: World, bisect: bool, st: State, batch: seq<Item>, p: nat)
    requires batch != [] && Attempt(w, bisect, st, batch).Settled?
    ensures p in Attempt(w, bisect, st, batch).st.records ==> p in st.records || p in PosSet(batch)
  {
    var reply := w.client(|st.sent|, Request(batch));
    if reply.Answer? {
      MatchedKeys(st.records, batch, ByID(reply.vectors));
    }
  }

  lemma {:induction false} HalvesRecordsWithin(w: World, bisect: bool, st: State, batch: seq<Item>, p: nat)
    requires |batch| > 1
    ensures p in EmbedHalves(w, bisect, st, batch).0.records ==> p in st.records || Among(batch, |batch|, p) > 0
    decreases |batch|, 0
  {
    var mid := |batch| / 2;
    var left := Embed(w, bisect, st, batch[..mid]);
    AmongJoin(batch, mid, |batch| - mid, p);
    EmbedRecordsWithin(w, bisect, st, batch[..mid], p);
    if !left.1 {
      EmbedRecordsWithin(w, bisect, left.0, batch[mid..], p);
    }
  }
}
