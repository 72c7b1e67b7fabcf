/** How many calls a whole run makes. */
module RunCalls {
  import opened Batching
  import opened Embedding
  import opened Matching
  import opened Bisection
  import opened Runner
  import opened RunTheorems
  import opened RunOrder

  // ----- any client -----

  lemma {:induction false} BatchesCalls(w: World, bisect: bool, st: State, batches: seq<seq<Item>>)
    requires NoneEmpty(batches)
    ensures |RunBatches(w, bisect, st, batches).0.sent| <= |st.sent| + 2 * |Flatten(batches)| - |batches|
    decreases |batches|
  {
    if batches != [] {
      FlattenLength(batches[1..]);
      if !w.done(st.polls) {
        EmbedCalls(w, bisect, Polled(st), batches[0]);
        BatchesCalls(w, bisect, Embed(w, bisect, Polled(st), batches[0]).0, batches[1..]);
      }
    }
  }

  lemma {:induction false} FlattenLength(batches: seq<seq<Item>>)
    requires NoneEmpty(batches)
    ensures |batches| <= |Flatten(batches)|
    decreases |batches|
  {
    if batches != [] {
      FlattenLength(batches[1..]);
    }
  }

  /** Whatever the client does, n valid inputs in b batches cost at most 2n - b calls. */
  lemma RunCallsBounded(w: World, inputs: seq<Input>, cfg: RunConfig)
    ensures |RunState(w, inputs, cfg).0.sent| <= 2 * |Items(inputs, cfg)| - |BatchesOf(inputs, cfg)|
  {
    BatchesNoneEmpty(Items(inputs, cfg), 0, MaxInputs(cfg), MaxTokens(cfg));
    RunFlatten(inputs, cfg);
    BatchesCalls(w, !cfg.DisableBisect, StartState(inputs), BatchesOf(inputs, cfg));
  }

  // ----- a client that fails on poison inputs -----

  /** One batch of at most `cap` inputs. */
  lemma BatchCost(w: World, st: State, batch: seq<Item>, poison: set<string>, cap: nat)
    requires batch != [] && |batch| <= cap && Increasing(batch) && PoisonClient(w, poison)
    ensures |Embed(w, true, st, batch).0.sent| <= |st.sent| + 1 + 2 * |Poisons(batch, poison)| * CeilLog2(cap)
  {
    BisectionCost(w, st, batch, poison);
    CeilLog2Mono(|batch|, cap);
    ProductMono(2 * |Poisons(batch, poison)|, CeilLog2(|batch|), CeilLog2(cap));
  }

  lemma ProductMono(a: nat, x: nat, y: nat)
    requires x <= y
    ensures a * x <= a * y
  {
  }

  lemma {:induction false} BatchesCost(w: World, st: State, batches: seq<seq<Item>>, poison: set<string>, cap: nat)
    requires NoneEmpty(batches) && Increasing(Flatten(batches)) && PoisonClient(w, poison)
    requires cap >= 1 && forall k :: 0 <= k < |batches| ==> |batches[k]| <= cap
    ensures |RunBatches(w, true, st, batches).0.sent| <=
            |st.sent| + |batches| + 2 * |Poisons(Flatten(batches), poison)| * CeilLog2(cap)
    decreases |batches|
  {
    if batches != [] {
      var next := Embed(w, true, Polled(st), batches[0]).0;
      FlattenParts(batches);
      HalvesApart(Flatten(batches), |batches[0]|, 0);
      BatchCost(w, Polled(st), batches[0], poison, cap);
      FirstBatchIsolates(w, st, batches, poison);
      BatchesCost(w, next, batches[1..], poison, cap);
      PoisonsApart(batches, poison, |st.sent|, |next.sent|, |RunBatches(w, true, st, batches).0.sent|, CeilLog2(cap));
    }
  }

  /** A bound for the first batch and one for the others make up one for all of them. */
  lemma PoisonsApart(batches: seq<seq<Item>>, poison: set<string>, before: int, between: int, after: int, l: nat)
    requires batches != [] && between <= before + 1 + 2 * |Poisons(batches[0], poison)| * l
    requires after <= between + |batches[1..]| + 2 * |Poisons(Flatten(batches[1..]), poison)| * l
    ensures after <= before + |batches| + 2 * |Poisons(Flatten(batches), poison)| * l
  {
    PoisonsConcat(batches[0], Flatten(batches[1..]), poison);
    CostsAdd(before, between, after, |batches| - 1, |Poisons(batches[0], poison)|,
             |Poisons(Flatten(batches[1..]), poison)|, l);
  }

  /** The bound of one batch and the bound of the rest make up the bound of all. */
  lemma CostsAdd(before: int, between: int, after: int, n: nat, a: nat, b: nat, l: nat)
    requires between <= before + 1 + 2 * a * l && after <= between + n + 2 * b * l
    ensures after <= before + (n + 1) + 2 * (a + b) * l
  {
    assert 2 * (a + b) * l == 2 * a * l + 2 * b * l;
  }

  /**
    * A run with k poison inputs costs at most one call a batch and 2k ceil(log2 cap) more, `cap` being the most inputs
    * in a batch.
    */
  lemma RunCost(w: World, inputs: seq<Input>, cfg: RunConfig, poison: set<string>)
    requires PoisonClient(w, poison) && !cfg.DisableBisect
    ensures |RunState(w, inputs, cfg).0.sent| <=
            |BatchesOf(inputs, cfg)| + 2 * |Poisons(Items(inputs, cfg), poison)| *
                                       CeilLog2(if cfg.MaxBatchInputs > 0 then cfg.MaxBatchInputs else 96)
  {
    var items, batches := Items(inputs, cfg), BatchesOf(inputs, cfg);
    BatchesNoneEmpty(items, 0, MaxInputs(cfg), MaxTokens(cfg));
    RunFlatten(inputs, cfg);
    ValidItemsIncreasing(inputs, cfg.Estimate, |inputs|);
    forall k | 0 <= k < |batches|
      ensures |batches[k]| <= MaxInputs(cfg)
    {
      BatchesFit(items, 0, MaxInputs(cfg), MaxTokens(cfg), batches[k]);
    }
    BatchesCost(w, StartState(inputs), batches, poison, MaxInputs(cfg));
  }
}
