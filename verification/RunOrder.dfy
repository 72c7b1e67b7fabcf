/** The lists Run returns: in input order, each record carrying its own answer, poison inputs isolated. */
module RunOrder {
  import opened Basics
  import opened Chunks
  import opened Batching
  import opened Embedding
  import opened Matching
  import opened Accounting
  import opened Bisection
  import opened Runner
  import opened RunTheorems

  // ----- records come out in strictly increasing position -----

  /** The record list is the stored records read off at ascending positions, none left out. */
  lemma {:induction false} RecordsAscend(records: map<nat, Record>, n: nat)
    ensures var pos, out := RecordPositions(records, n), RecordsInOrder(records, n);
            && |pos| == |out| && Ascending(pos)
            && (forall p: nat :: p in pos <==> p < n && p in records)
            && (forall k :: 0 <= k < |out| ==> pos[k] in records && out[k] == records[pos[k]])
  {
    if n > 0 {
      RecordsAscend(records, n - 1);
      var init := RecordPositions(records, n - 1);
      forall k | 0 <= k < |init|
        ensures init[k] < n - 1
      {
        assert init[k] in init;
      }
    }
  }

  // ----- failures come out in strictly increasing first position -----

  /**
    * The failure reports inputs of the run, those at the positions it covers, which ascend from the one it is tagged
    * with.
    */
  ghost predicate ReportsRun(inputs: seq<Input>, f: PosFailure) {
    && f.covers != [] && f.pos == f.covers[0] && Ascending(f.covers)
    && |f.bf.Inputs| == |f.covers|
    && forall k :: 0 <= k < |f.covers| ==> f.covers[k] < |inputs| && f.bf.Inputs[k] == inputs[f.covers[k]]
  }

  ghost predicate AllReport(inputs: seq<Input>, failures: seq<PosFailure>) {
    forall k :: 0 <= k < |failures| ==> ReportsRun(inputs, failures[k])
  }

  /** Items of the run in ascending position, each with the input that stands there. */
  ghost predicate ItemsOfRun(inputs: seq<Input>, items: seq<Item>) {
    && Increasing(items)
    && forall k :: 0 <= k < |items| ==> items[k].pos < |inputs| && items[k].input == inputs[items[k].pos]
  }

  lemma {:induction false} MinPosIsFirst(batch: seq<Item>)
    requires batch != []
    ensures MinPos(batch) in Positions(batch) && forall q :: q in Positions(batch) ==> MinPos(batch) <= q
  {
    var last := batch[|batch| - 1].pos;
    var init := batch[..|batch| - 1];
    assert Positions(batch) == Positions(init) + [last];
    if |batch| > 1 {
      MinPosIsFirst(init);
    }
  }

  lemma ItemsReported(inputs: seq<Input>, items: seq<Item>, f: PosFailure)
    requires ItemsOfRun(inputs, items) && ReportsItems(f, items)
    ensures ReportsRun(inputs, f)
  {
    MinPosIsFirst(items);
    assert items[0].pos in Positions(items) by {
      assert Positions(items)[0] == items[0].pos;
    }
    forall a, b | 0 <= a < b < |items|
      ensures items[a].pos < items[b].pos
    {
      assert Before(items, a, b);
    }
  }

  lemma StretchReported(inputs: seq<Input>, batch: seq<Item>, f: PosFailure)
    requires ItemsOfRun(inputs, batch) && ReportsStretch(f, batch)
    ensures ReportsRun(inputs, f)
  {
    var lo: nat, hi: nat :| lo < hi <= |batch| && ReportsItems(f, batch[lo..hi]);
    IncreasingSlice(batch, lo, hi);
    ItemsReported(inputs, batch[lo..hi], f);
  }

  lemma NewReported(inputs: seq<Input>, st: State, st': State, batch: seq<Item>)
    requires ItemsOfRun(inputs, batch) && NewReports(st, st', batch) && AllReport(inputs, st.failures)
    ensures AllReport(inputs, st'.failures)
  {
    forall k | 0 <= k < |st'.failures|
      ensures ReportsRun(inputs, st'.failures[k])
    {
      if k < |st.failures| {
        assert st'.failures[k] == st.failures[k];
      } else {
        StretchReported(inputs, batch, st'.failures[k]);
      }
    }
  }

  lemma {:induction false} BatchesReport(w: World, bisect: bool, st: State, batches: seq<seq<Item>>, inputs: seq<Input>)
    requires NoneEmpty(batches) && ItemsOfRun(inputs, Flatten(batches)) && AllReport(inputs, st.failures)
    ensures AllReport(inputs, RunBatches(w, bisect, st, batches).0.failures)
    decreases |batches|
  {
    if batches != [] && !w.done(st.polls) {
      var r := Embed(w, bisect, Polled(st), batches[0]);
      FlattenParts(batches);
      HalvesApart(Flatten(batches), |batches[0]|, 0);
      EmbedReports(w, bisect, Polled(st), batches[0]);
      NewReported(inputs, Polled(st), r.0, batches[0]);
      if !r.1 {
        BatchesReport(w, bisect, r.0, batches[1..], inputs);
      }
    }
  }

  lemma {:induction false} InvalidReported(inputs: seq<Input>, n: nat)
    requires n <= |inputs|
    ensures AllReport(inputs, InvalidFailures(inputs, n))
  {
    if n > 0 {
      InvalidReported(inputs, n - 1);
    }
  }

  lemma ItemsAreOfRun(inputs: seq<Input>, cfg: RunConfig)
    ensures ItemsOfRun(inputs, Items(inputs, cfg))
  {
    var items := Items(inputs, cfg);
    ValidItemsIncreasing(inputs, cfg.Estimate, |inputs|);
    forall k | 0 <= k < |items|
      ensures items[k].pos < |inputs| && items[k].input == inputs[items[k].pos]
    {
      ItemIs(inputs, cfg.Estimate, |inputs|, k);
    }
  }

  /** Every failure of a run reports the very inputs it covers. */
  lemma RunReports(w: World, inputs: seq<Input>, cfg: RunConfig)
    ensures AllReport(inputs, RunState(w, inputs, cfg).0.failures)
  {
    BatchesNoneEmpty(Items(inputs, cfg), 0, MaxInputs(cfg), MaxTokens(cfg));
    RunFlatten(inputs, cfg);
    ItemsAreOfRun(inputs, cfg);
    InvalidReported(inputs, |inputs|);
    BatchesReport(w, !cfg.DisableBisect, StartState(inputs), BatchesOf(inputs, cfg), inputs);
  }

  /** In order of position; ties would keep their order. */
  ghost predicate SortedByPos(failures: seq<PosFailure>) {
    forall i, j :: 0 <= i < j < |failures| ==> failures[i].pos <= failures[j].pos
  }

  lemma {:induction false} InsertSorts(f: PosFailure, sorted: seq<PosFailure>)
    requires SortedByPos(sorted)
    ensures SortedByPos(InsertFailure(f, sorted))
    ensures multiset(InsertFailure(f, sorted)) == multiset(sorted) + multiset{f}
  {
    if sorted != [] && sorted[|sorted| - 1].pos > f.pos {
      var init, last := sorted[..|sorted| - 1], sorted[|sorted| - 1];
      InsertSorts(f, init);
      assert sorted == init + [last];
      SortedSnoc(f, init, last, InsertFailure(f, init));
    }
  }

  lemma SortedSnoc(f: PosFailure, init: seq<PosFailure>, last: PosFailure, r: seq<PosFailure>)
    requires SortedByPos(r) && multiset(r) == multiset(init) + multiset{f}
    requires f.pos <= last.pos && forall g :: g in init ==> g.pos <= last.pos
    ensures SortedByPos(r + [last])
  {
    forall i | 0 <= i < |r|
      ensures r[i].pos <= last.pos
    {
      assert r[i] in multiset(init) + multiset{f};
    }
  }

  /** Sorting orders the failures and keeps every one of them. */
  lemma {:induction false} SortSorts(failures: seq<PosFailure>)
    ensures SortedByPos(SortFailures(failures))
    ensures multiset(SortFailures(failures)) == multiset(failures)
  {
    if failures != [] {
      var init, last := failures[..|failures| - 1], failures[|failures| - 1];
      SortSorts(init);
      InsertSorts(last, SortFailures(init));
      LastInMultiset(failures);
    }
  }

  lemma LastInMultiset(failures: seq<PosFailure>)
    requires failures != []
    ensures multiset(failures) == multiset(failures[..|failures| - 1]) + multiset{failures[|failures| - 1]}
  {
    assert failures == failures[..|failures| - 1] + [failures[|failures| - 1]];
  }

  /**
    * Failures with equal positions keep their order: of those at one position, the sorted list holds the same sequence.
    */
  function AtPosition(failures: seq<PosFailure>, p: nat): seq<PosFailure> {
    if failures == [] then []
    else
      AtPosition(failures[..|failures| - 1], p) +
      if failures[|failures| - 1].pos == p then [failures[|failures| - 1]] else []
  }

  lemma AtPositionSnoc(init: seq<PosFailure>, last: PosFailure, p: nat)
    ensures AtPosition(init + [last], p) == AtPosition(init, p) + if last.pos == p then [last] else []
  {
    assert (init + [last])[..|init|] == init;
  }

  lemma {:induction false} InsertStable(f: PosFailure, sorted: seq<PosFailure>, p: nat)
    requires SortedByPos(sorted)
    ensures AtPosition(InsertFailure(f, sorted), p) == AtPosition(sorted, p) + if f.pos == p then [f] else []
  {
    if sorted != [] && sorted[|sorted| - 1].pos > f.pos {
      var init, last := sorted[..|sorted| - 1], sorted[|sorted| - 1];
      assert sorted == init + [last];
      InsertStable(f, init, p);
      InsertBefore(f, init, last, InsertFailure(f, init), p);
    } else {
      AtPositionSnoc(sorted, f, p);
    }
  }

  /** A last entry that stays last does not come between. */
  lemma InsertBefore(f: PosFailure, init: seq<PosFailure>, last: PosFailure, r: seq<PosFailure>, p: nat)
    requires last.pos > f.pos && AtPosition(r, p) == AtPosition(init, p) + if f.pos == p then [f] else []
    ensures AtPosition(r + [last], p) == AtPosition(init + [last], p) + if f.pos == p then [f] else []
  {
    AtPositionSnoc(r, last, p);
    AtPositionSnoc(init, last, p);
  }

  lemma {:induction false} SortIsStable(failures: seq<PosFailure>, p: nat)
    ensures AtPosition(SortFailures(failures), p) == AtPosition(failures, p)
  {
    if failures != [] {
      var init := failures[..|failures| - 1];
      SortSorts(init);
      SortIsStable(init, p);
      InsertStable(failures[|failures| - 1], SortFailures(init), p);
    }
  }

  lemma {:induction false} InsertCovers(f: PosFailure, sorted: seq<PosFailure>, p: nat)
    ensures CoverCount(InsertFailure(f, sorted), p) == CoverCount(sorted, p) + Occurs(f.covers, p)
  {
    if sorted != [] && sorted[|sorted| - 1].pos > f.pos {
      InsertCovers(f, sorted[..|sorted| - 1], p);
      CoverSnoc(InsertFailure(f, sorted[..|sorted| - 1]), sorted[|sorted| - 1], p);
    } else {
      CoverSnoc(sorted, f, p);
    }
  }

  lemma {:induction false} SortCovers(failures: seq<PosFailure>, p: nat)
    ensures CoverCount(SortFailures(failures), p) == CoverCount(failures, p)
  {
    if failures != [] {
      SortCovers(failures[..|failures| - 1], p);
      InsertCovers(failures[|failures| - 1], SortFailures(failures[..|failures| - 1]), p);
    }
  }

  /** Two failures that both cover a position count for two. */
  lemma {:induction false} CoveredTwice(failures: seq<PosFailure>, i: nat, j: nat, p: nat)
    requires i < j < |failures| && p in failures[i].covers && p in failures[j].covers
    ensures CoverCount(failures, p) >= 2
  {
    OccursIff(failures[|failures| - 1].covers, p);
    if j == |failures| - 1 {
      CoveredOnce(failures[..j], i, p);
    } else {
      CoveredTwice(failures[..|failures| - 1], i, j, p);
    }
  }

  lemma {:induction false} CoveredOnce(failures: seq<PosFailure>, i: nat, p: nat)
    requires i < |failures| && p in failures[i].covers
    ensures CoverCount(failures, p) >= 1
  {
    OccursIff(failures[|failures| - 1].covers, p);
    if i < |failures| - 1 {
      CoveredOnce(failures[..|failures| - 1], i, p);
    }
  }

  /** The failures of a run, in the order Run reports them. */
  ghost function ReportedFailures(w: World, inputs: seq<Input>, cfg: RunConfig): seq<PosFailure> {
    SortFailures(RunState(w, inputs, cfg).0.failures)
  }

  /** The same failures, in another order: they still report what they cover. */
  lemma ReportedFailuresReport(w: World, inputs: seq<Input>, cfg: RunConfig)
    ensures AllReport(inputs, ReportedFailures(w, inputs, cfg))
  {
    var failures, f := RunState(w, inputs, cfg).0.failures, ReportedFailures(w, inputs, cfg);
    RunReports(w, inputs, cfg);
    SortSorts(failures);
    forall k | 0 <= k < |f|
      ensures ReportsRun(inputs, f[k])
    {
      assert f[k] in multiset(f);
      assert f[k] in multiset(failures);
      assert f[k] in failures;
    }
  }

  /**
    * For any client: the failures Run returns come in strictly increasing position of their first input, also when
    * invalid inputs fall between the members of a failed batch.
    */
  lemma FailuresStrictlyOrdered(w: World, inputs: seq<Input>, cfg: RunConfig, i: nat, j: nat)
    requires i < j < |ReportedFailures(w, inputs, cfg)|
    ensures var f := ReportedFailures(w, inputs, cfg);
            var returned := ResultOf(|inputs|, RunState(w, inputs, cfg).0).Failures;
            && f[i].pos < f[j].pos < |inputs|
            && |returned| == |f| && returned[i] == f[i].bf && returned[j] == f[j].bf
            && returned[i].Inputs != [] && returned[i].Inputs[0] == inputs[f[i].pos]
            && returned[j].Inputs != [] && returned[j].Inputs[0] == inputs[f[j].pos]
  {
    var failures, f := RunState(w, inputs, cfg).0.failures, ReportedFailures(w, inputs, cfg);
    ReportedFailuresReport(w, inputs, cfg);
    SortSorts(failures);
    assert ReportsRun(inputs, f[i]) && ReportsRun(inputs, f[j]);
    if f[i].pos == f[j].pos {
      CoveredTwice(f, i, j, f[i].pos);
      SortCovers(failures, f[i].pos);
      StateAccounts(w, inputs, cfg, f[i].pos);
    }
  }

  // ----- every record is its own input's -----

  lemma {:induction false} BatchesElsewhere(w: World, bisect: bool, st: State, batches: seq<seq<Item>>, p: nat)
    requires NoneEmpty(batches) && p !in PosSet(Flatten(batches))
    ensures var r := RunBatches(w, bisect, st, batches).0.records;
            (p in r <==> p in st.records) && (p in r ==> r[p] == st.records[p])
    decreases |batches|
  {
    if batches != [] && !w.done(st.polls) {
      var r := Embed(w, bisect, Polled(st), batches[0]);
      FlattenParts(batches);
      PosSetSplit(Flatten(batches), |batches[0]|);
      EmbedElsewhere(w, bisect, Polled(st), batches[0], p);
      if !r.1 {
        BatchesElsewhere(w, bisect, r.0, batches[1..], p);
      }
    }
  }

  lemma {:induction false} BatchesCallsGrow(w: World, bisect: bool, st: State, batches: seq<seq<Item>>)
    requires NoneEmpty(batches)
    ensures st.sent <= RunBatches(w, bisect, st, batches).0.sent
    decreases |batches|
  {
    if batches != [] && !w.done(st.polls) {
      var r := Embed(w, bisect, Polled(st), batches[0]);
      EmbedCalls(w, bisect, Polled(st), batches[0]);
      if !r.1 {
        BatchesCallsGrow(w, bisect, r.0, batches[1..]);
      }
    }
  }

  lemma {:induction false} BatchesAnswer(w: World, bisect: bool, st: State, batches: seq<seq<Item>>, k: nat)
    requires NoneEmpty(batches) && Increasing(Flatten(batches)) && k < |Flatten(batches)|
    ensures RecordAnswers(w, st, RunBatches(w, bisect, st, batches).0, Flatten(batches)[k])
    decreases |batches|
  {
    if batches != [] && !w.done(st.polls) {
      var r := Embed(w, bisect, Polled(st), batches[0]);
      var n, it := |batches[0]|, Flatten(batches)[k];
      FlattenParts(batches);
      HalvesApart(Flatten(batches), n, k);
      EmbedCalls(w, bisect, Polled(st), batches[0]);
      if k < n {
        EmbedAnswers(w, bisect, Polled(st), batches[0], k);
        if !r.1 {
          BatchesElsewhere(w, bisect, r.0, batches[1..], it.pos);
          BatchesCallsGrow(w, bisect, r.0, batches[1..]);
          AnswersKept(w, Polled(st), r.0, RunBatches(w, bisect, r.0, batches[1..]).0, it);
        }
      } else {
        EmbedElsewhere(w, bisect, Polled(st), batches[0], it.pos);
        if !r.1 {
          BatchesAnswer(w, bisect, r.0, batches[1..], k - n);
        }
      }
    }
  }

  /** Whatever the client answers, the record at a position is that input's, with a vector answered under its own ID. */
  lemma RunRecordsAnswer(w: World, inputs: seq<Input>, cfg: RunConfig, p: nat)
    requires p in RunState(w, inputs, cfg).0.records
    ensures p < |inputs|
    ensures var st := RunState(w, inputs, cfg).0;
            AnsweredFor(w, 0, st.sent, Item(p, inputs[p], TokensFor(inputs[p], cfg.Estimate)), st.records[p])
  {
    var items := Items(inputs, cfg);
    BatchesNoneEmpty(items, 0, MaxInputs(cfg), MaxTokens(cfg));
    RunFlatten(inputs, cfg);
    ValidItemsIncreasing(inputs, cfg.Estimate, |inputs|);
    if p !in PosSet(items) {
      BatchesElsewhere(w, !cfg.DisableBisect, StartState(inputs), BatchesOf(inputs, cfg), p);
    }
    var k :| 0 <= k < |items| && items[k].pos == p;
    BatchesAnswer(w, !cfg.DisableBisect, StartState(inputs), BatchesOf(inputs, cfg), k);
    ItemIs(inputs, cfg.Estimate, |inputs|, k);
  }

  lemma {:induction false} ItemIs(inputs: seq<Input>, est: Estimator, n: nat, k: nat)
    requires n <= |inputs| && k < |ValidItems(inputs, est, n)|
    ensures var it := ValidItems(inputs, est, n)[k];
            it.pos < n && it == Item(it.pos, inputs[it.pos], TokensFor(inputs[it.pos], est))
  {
    if k < |ValidItems(inputs, est, n - 1)| {
      ItemIs(inputs, est, n - 1, k);
    }
  }

  // ----- poison inputs, over the whole run -----

  lemma {:induction false} BatchesIsolate(w: World, st: State, batches: seq<seq<Item>>, poison: set<string>)
    requires NoneEmpty(batches) && Increasing(Flatten(batches)) && PoisonClient(w, poison)
    ensures var r := RunBatches(w, true, st, batches); !r.1 && IsolatedAll(st, r.0, Poisons(Flatten(batches), poison))
    decreases |batches|, 1
  {
    if batches != [] {
      FlattenParts(batches);
      HalvesApart(Flatten(batches), |batches[0]|, 0);
      FirstBatchIsolates(w, st, batches, poison);
      NextBatchesIsolate(w, st, Embed(w, true, Polled(st), batches[0]).0, batches, poison);
    }
  }

  lemma FirstBatchIsolates(w: World, st: State, batches: seq<seq<Item>>, poison: set<string>)
    requires NoneEmpty(batches) && batches != [] && Increasing(batches[0]) && PoisonClient(w, poison)
    ensures IsolatedAll(st, Embed(w, true, Polled(st), batches[0]).0, Poisons(batches[0], poison))
    ensures RunBatches(w, true, st, batches) ==
            RunBatches(w, true, Embed(w, true, Polled(st), batches[0]).0, batches[1..])
  {
    BisectionIsolates(w, Polled(st), batches[0], poison);
  }

  /** Over all batches: an item gets a record exactly when it is not poison. */
  lemma {:induction false} BatchesStoreRest(w: World, st: State, batches: seq<seq<Item>>, poison: set<string>, k: nat)
    requires NoneEmpty(batches) && Increasing(Flatten(batches)) && PoisonClient(w, poison) && k < |Flatten(batches)|
    ensures var p := Flatten(batches)[k].pos;
            p in RunBatches(w, true, st, batches).0.records <==>
            p in st.records || !IsPoison(Flatten(batches)[k], poison)
    decreases |batches|
  {
    var next, n, it := Embed(w, true, Polled(st), batches[0]).0, |batches[0]|, Flatten(batches)[k];
    FlattenParts(batches);
    HalvesApart(Flatten(batches), n, k);
    FirstBatchIsolates(w, st, batches, poison);
    if k < n {
      BisectionStoresRest(w, Polled(st), batches[0], poison, k);
      BatchesElsewhere(w, true, next, batches[1..], it.pos);
    } else {
      EmbedElsewhere(w, true, Polled(st), batches[0], it.pos);
      BatchesStoreRest(w, next, batches[1..], poison, k - n);
    }
  }

  lemma {:induction false} NextBatchesIsolate(w: World, st: State, next: State, batches: seq<seq<Item>>,
                                              poison: set<string>)
    requires NoneEmpty(batches) && batches != [] && Increasing(Flatten(batches[1..])) && PoisonClient(w, poison)
    requires IsolatedAll(st, next, Poisons(batches[0], poison))
    ensures var r := RunBatches(w, true, next, batches[1..]);
            !r.1 && IsolatedAll(st, r.0, Poisons(Flatten(batches), poison))
    decreases |batches|, 0
  {
    var rest := batches[1..];
    BatchesIsolate(w, next, rest, poison);
    PoisonsConcat(batches[0], Flatten(rest), poison);
    IsolatedJoin(st, next, RunBatches(w, true, next, rest).0, Poisons(batches[0], poison),
                 Poisons(Flatten(rest), poison));
  }

  /**
    * With bisection on and a client that fails exactly on poison, a run finishes, and its failures are the invalid
    * inputs followed by every valid poison input alone; every other valid input gets a record.
    */
  lemma RunIsolates(w: World, inputs: seq<Input>, cfg: RunConfig, poison: set<string>)
    requires PoisonClient(w, poison) && !cfg.DisableBisect
    ensures var r := RunState(w, inputs, cfg);
            !r.1 && IsolatedAll(StartState(inputs), r.0, Poisons(Items(inputs, cfg), poison))
    ensures forall it :: it in Items(inputs, cfg) ==>
            (it.pos in RunState(w, inputs, cfg).0.records <==> !IsPoison(it, poison))
  {
    BatchesNoneEmpty(Items(inputs, cfg), 0, MaxInputs(cfg), MaxTokens(cfg));
    RunFlatten(inputs, cfg);
    ValidItemsIncreasing(inputs, cfg.Estimate, |inputs|);
    BatchesIsolate(w, StartState(inputs), BatchesOf(inputs, cfg), poison);
    forall it | it in Items(inputs, cfg)
      ensures it.pos in RunState(w, inputs, cfg).0.records <==> !IsPoison(it, poison)
    {
      var k: nat :| k < |Items(inputs, cfg)| && Items(inputs, cfg)[k] == it;
      BatchesStoreRest(w, StartState(inputs), BatchesOf(inputs, cfg), poison, k);
    }
  }
}
