/** What Run promises about every input, for any client and any cancellation. */
module RunTheorems {
  import opened Batching
  import opened Embedding
  import opened Matching
  import opened Accounting
  import opened Runner
  import opened Chunks

  // ----- the items of a run -----

  lemma {:induction false} ValidItemsIncreasing(inputs: seq<Input>, est: Estimator, n: nat)
    requires n <= |inputs|
    ensures Increasing(ValidItems(inputs, est, n))
    ensures forall k :: 0 <= k < |ValidItems(inputs, est, n)| ==> ValidItems(inputs, est, n)[k].pos < n
  {
    if n > 0 {
      ValidItemsIncreasing(inputs, est, n - 1);
      var init, items := ValidItems(inputs, est, n - 1), ValidItems(inputs, est, n);
      forall a, b
        ensures Before(items, a, b)
      {
        assert Before(init, a, b);
      }
    }
  }

  /** An input is an item of the run, once, exactly when it is valid. */
  lemma {:induction false} ValidItemsOccur(inputs: seq<Input>, est: Estimator, n: nat, p: nat)
    requires n <= |inputs|
    ensures Occurs(Positions(ValidItems(inputs, est, n)), p) == if p < n && Validate(inputs[p]).Accept? then 1 else 0
  {
    if n > 0 {
      ValidItemsOccur(inputs, est, n - 1, p);
      var init := ValidItems(inputs, est, n - 1);
      if Validate(inputs[n - 1]).Accept? {
        OccursSnoc(init, Item(n - 1, inputs[n - 1], TokensFor(inputs[n - 1], est)), p);
      } else {
        assert ValidItems(inputs, est, n) == init;
      }
    }
  }

  lemma OccursSnoc(items: seq<Item>, it: Item, p: nat)
    ensures Occurs(Positions(items + [it]), p) == Occurs(Positions(items), p) + if it.pos == p then 1 else 0
  {
    var all := Positions(items + [it]);
    assert all[..|all| - 1] == Positions(items);
  }

  lemma CoverSnoc(failures: seq<PosFailure>, f: PosFailure, p: nat)
    ensures CoverCount(failures + [f], p) == CoverCount(failures, p) + Occurs(f.covers, p)
  {
    assert (failures + [f])[..|failures|] == failures;
  }

  lemma OccursSingle(q: nat, p: nat)
    ensures Occurs([q], p) == if q == p then 1 else 0
  {
    assert [q][..0] == [];
  }

  /** An input has a failure of its own from validation, once, exactly when it is invalid. */
  lemma InvalidFailuresCover(inputs: seq<Input>, n: nat, p: nat)
    requires n <= |inputs|
    ensures CoverCount(InvalidFailures(inputs, n), p) == if p < n && IsInvalid(inputs, p) then 1 else 0
  {
    var invalid := IsInvalid(inputs, p);
    var failures: seq<PosFailure> := [];
    for k := 0 to n
      invariant failures == InvalidFailures(inputs, k)
      invariant CoverCount(failures, p) == if p < k && invalid then 1 else 0
    {
      RejectionCovers(failures, inputs, k, p, invalid);
      failures := failures + Rejection(k, inputs[k]);
    }
  }

  lemma RejectionCovers(failures: seq<PosFailure>, inputs: seq<Input>, pos: nat, p: nat, invalid: bool)
    requires pos < |inputs| && invalid == IsInvalid(inputs, p)
    ensures CoverCount(failures + Rejection(pos, inputs[pos]), p) ==
            CoverCount(failures, p) + if pos == p && invalid then 1 else 0
  {
    ValidateIff(inputs[pos]);
    match Validate(inputs[pos])
    case Accept =>
      assert failures + [] == failures;
    case Reject(why) =>
      CoverSnoc(failures, InvalidFailure(pos, inputs[pos], why), p);
      OccursSingle(pos, p);
  }

  // ----- the batches of a run -----

  /** How many of the items are dealt with before the run is canceled, or all of them. */
  ghost function RunReached(w: World, bisect: bool, st: State, batches: seq<seq<Item>>): (k: nat)
    requires NoneEmpty(batches)
    ensures k <= |Flatten(batches)|
    decreases |batches|
  {
    if batches == [] || w.done(st.polls) then 0
    else
      var r := Embed(w, bisect, Polled(st), batches[0]);
      if r.1 then Reached(w, bisect, Polled(st), batches[0])
      else |batches[0]| + RunReached(w, bisect, r.0, batches[1..])
  }

  lemma {:induction false} RunReachedAll(w: World, bisect: bool, st: State, batches: seq<seq<Item>>)
    requires NoneEmpty(batches) && !RunBatches(w, bisect, st, batches).1
    ensures RunReached(w, bisect, st, batches) == |Flatten(batches)|
    decreases |batches|
  {
    if batches != [] {
      var r := Embed(w, bisect, Polled(st), batches[0]);
      RunReachedAll(w, bisect, r.0, batches[1..]);
    }
  }

  lemma FlattenParts(batches: seq<seq<Item>>)
    requires batches != []
    ensures |batches[0]| <= |Flatten(batches)|
    ensures Flatten(batches)[..|batches[0]|] == batches[0] && Flatten(batches)[|batches[0]|..] == Flatten(batches[1..])
  {
  }

  /** A whole run of batches: what it deals with is a prefix of all their items. */
  lemma {:induction false} BatchesCover(w: World, bisect: bool, st: State, batches: seq<seq<Item>>, p: nat)
    requires NoneEmpty(batches)
    ensures Covers(st, RunBatches(w, bisect, st, batches).0, Flatten(batches), RunReached(w, bisect, st, batches), p)
    decreases |batches|, 1
  {
    AmongAll(Flatten(batches), p);
    if batches != [] && !w.done(st.polls) {
      var r := Embed(w, bisect, Polled(st), batches[0]);
      FlattenParts(batches);
      if r.1 {
        LastBatchCovers(w, bisect, Polled(st), batches, p);
      } else {
        NextBatchesCover(w, bisect, Polled(st), r.0, batches, p);
      }
    }
  }

  lemma LastBatchCovers(w: World, bisect: bool, st: State, batches: seq<seq<Item>>, p: nat)
    requires NoneEmpty(batches) && batches != [] && |batches[0]| <= |Flatten(batches)|
    ensures Covers(st, Embed(w, bisect, st, batches[0]).0, Flatten(batches), Reached(w, bisect, st, batches[0]), p)
  {
    FlattenParts(batches);
    EmbedReaches(w, bisect, st, batches[0], p);
    AmongLeft(Flatten(batches), |batches[0]|, Reached(w, bisect, st, batches[0]), p);
  }

  lemma {:induction false} NextBatchesCover(w: World, bisect: bool, st: State, next: State, batches: seq<seq<Item>>,
                                            p: nat)
    requires NoneEmpty(batches) && batches != [] && Embed(w, bisect, st, batches[0]) == (next, false)
    requires |batches[0]| + RunReached(w, bisect, next, batches[1..]) <= |Flatten(batches)|
    ensures Covers(st, RunBatches(w, bisect, next, batches[1..]).0, Flatten(batches),
                   |batches[0]| + RunReached(w, bisect, next, batches[1..]), p)
    decreases |batches|, 0
  {
    EmbedReaches(w, bisect, st, batches[0], p);
    ReachedAll(w, bisect, st, batches[0]);
    BatchesCover(w, bisect, next, batches[1..], p);
    CoversAppend(st, next, RunBatches(w, bisect, next, batches[1..]).0, batches,
                 RunReached(w, bisect, next, batches[1..]), p);
  }

  lemma CoversAppend(st: State, next: State, final: State, batches: seq<seq<Item>>, k: nat, p: nat)
    requires batches != [] && k <= |Flatten(batches[1..])| && |batches[0]| + k <= |Flatten(batches)|
    requires Covers(st, next, batches[0], |batches[0]|, p) && Covers(next, final, Flatten(batches[1..]), k, p)
    ensures Covers(st, final, Flatten(batches), |batches[0]| + k, p)
  {
    FlattenParts(batches);
    CoversJoin(st, next, final, Flatten(batches), |batches[0]|, k, p);
  }

  // ----- the same, counted exactly -----

  /** How many of the replies to the batches are torn at `p`. */
  ghost function RunTorn(w: World, bisect: bool, st: State, batches: seq<seq<Item>>, p: nat): nat
    requires NoneEmpty(batches)
    decreases |batches|
  {
    if batches == [] || w.done(st.polls) then 0
    else
      var r := Embed(w, bisect, Polled(st), batches[0]);
      Torn(w, bisect, Polled(st), batches[0], p) + if r.1 then 0 else RunTorn(w, bisect, r.0, batches[1..], p)
  }

  lemma {:induction false} BatchesGain(w: World, bisect: bool, st: State, batches: seq<seq<Item>>, p: nat)
    requires NoneEmpty(batches) && Room(st, Flatten(batches), p)
    ensures Gains(st, RunBatches(w, bisect, st, batches).0, Flatten(batches), RunReached(w, bisect, st, batches),
                  RunTorn(w, bisect, st, batches, p), p)
    decreases |batches|
  {
    if batches == [] || w.done(st.polls) {
      AmongAll(Flatten(batches), p);
    } else {
      FirstBatchGains(w, bisect, st, batches, p);
      if Embed(w, bisect, Polled(st), batches[0]).1 {
        RunStops(w, bisect, st, batches, p);
      } else {
        RunGoesOn(w, bisect, st, batches, p);
        var next := Embed(w, bisect, Polled(st), batches[0]).0;
        BatchesGain(w, bisect, next, batches[1..], p);
        GainsAppend(st, next, RunBatches(w, bisect, next, batches[1..]).0, batches, |batches[0]|,
                    RunReached(w, bisect, next, batches[1..]), Torn(w, bisect, Polled(st), batches[0], p),
                    RunTorn(w, bisect, next, batches[1..], p), p);
      }
    }
  }

  /** A batch that is not cut short is dealt with whole, and the run goes on behind it. */
  lemma RunGoesOn(w: World, bisect: bool, st: State, batches: seq<seq<Item>>, p: nat)
    requires NoneEmpty(batches) && batches != [] && !w.done(st.polls)
    requires !Embed(w, bisect, Polled(st), batches[0]).1
    ensures var next := Embed(w, bisect, Polled(st), batches[0]).0;
            && Reached(w, bisect, Polled(st), batches[0]) == |batches[0]|
            && RunBatches(w, bisect, st, batches) == RunBatches(w, bisect, next, batches[1..])
            && RunReached(w, bisect, st, batches) == |batches[0]| + RunReached(w, bisect, next, batches[1..])
            && RunTorn(w, bisect, st, batches, p) ==
               Torn(w, bisect, Polled(st), batches[0], p) + RunTorn(w, bisect, next, batches[1..], p)
  {
    ReachedAll(w, bisect, Polled(st), batches[0]);
  }

  /** A batch that is cut short ends the run. */
  lemma RunStops(w: World, bisect: bool, st: State, batches: seq<seq<Item>>, p: nat)
    requires NoneEmpty(batches) && batches != [] && !w.done(st.polls)
    requires Embed(w, bisect, Polled(st), batches[0]).1
    ensures RunBatches(w, bisect, st, batches) == Embed(w, bisect, Polled(st), batches[0])
    ensures RunReached(w, bisect, st, batches) == Reached(w, bisect, Polled(st), batches[0])
    ensures RunTorn(w, bisect, st, batches, p) == Torn(w, bisect, Polled(st), batches[0], p)
  {
  }

  lemma FirstBatchGains(w: World, bisect: bool, st: State, batches: seq<seq<Item>>, p: nat)
    requires NoneEmpty(batches) && batches != [] && Room(st, Flatten(batches), p)
    ensures |batches[0]| <= |Flatten(batches)|
    ensures Gains(st, Embed(w, bisect, Polled(st), batches[0]).0, Flatten(batches),
                  Reached(w, bisect, Polled(st), batches[0]),
                  Torn(w, bisect, Polled(st), batches[0], p), p)
    ensures Room(Embed(w, bisect, Polled(st), batches[0]).0, Flatten(batches[1..]), p)
  {
    var all, n := Flatten(batches), |batches[0]|;
    FlattenParts(batches);
    AmongJoin(all, n, |all| - n, p);
    EmbedTally(w, bisect, Polled(st), batches[0], p);
    AmongLeft(all, n, Reached(w, bisect, Polled(st), batches[0]), p);
    EmbedRecordsWithin(w, bisect, Polled(st), batches[0], p);
  }

  lemma GainsAppend(st: State, next: State, final: State, batches: seq<seq<Item>>, n: nat, k: nat, torn: nat,
                    more: nat, p: nat)
    requires batches != [] && n == |batches[0]| <= |Flatten(batches)| && k <= |Flatten(batches[1..])|
    requires Gains(st, next, Flatten(batches), n, torn, p) && Gains(next, final, Flatten(batches[1..]), k, more, p)
    ensures n + k <= |Flatten(batches)| && Gains(st, final, Flatten(batches), n + k, torn + more, p)
  {
    var all := Flatten(batches);
    FlattenParts(batches);
    assert all[n..] == Flatten(batches[1..]);
    GainsJoin(st, next, final, all, n, k, torn, more, p);
  }

  lemma {:induction false} HonestRunNeverTorn(w: World, bisect: bool, st: State, batches: seq<seq<Item>>, p: nat)
    requires NoneEmpty(batches) && Honest(w)
    ensures RunTorn(w, bisect, st, batches, p) == 0
    decreases |batches|
  {
    if batches != [] && !w.done(st.polls) {
      HonestNeverTorn(w, bisect, Polled(st), batches[0], p);
      HonestRunNeverTorn(w, bisect, Embed(w, bisect, Polled(st), batches[0]).0, batches[1..], p);
    }
  }

  // ----- a whole run -----

  /** The valid items of the run, and how many of them it dealt with. */
  function Items(inputs: seq<Input>, cfg: RunConfig): seq<Item> {
    ValidItems(inputs, cfg.Estimate, |inputs|)
  }

  ghost function Done(w: World, inputs: seq<Input>, cfg: RunConfig): (k: nat)
    ensures k <= |Items(inputs, cfg)|
    ensures !RunState(w, inputs, cfg).1 ==> k == |Items(inputs, cfg)|
  {
    BatchesNoneEmpty(Items(inputs, cfg), 0, MaxInputs(cfg), MaxTokens(cfg));
    RunFlatten(inputs, cfg);
    if !RunState(w, inputs, cfg).1 then
      RunReachedAll(w, !cfg.DisableBisect, StartState(inputs), BatchesOf(inputs, cfg));
      RunReached(w, !cfg.DisableBisect, StartState(inputs), BatchesOf(inputs, cfg))
    else
      RunReached(w, !cfg.DisableBisect, StartState(inputs), BatchesOf(inputs, cfg))
  }

  lemma RunFlatten(inputs: seq<Input>, cfg: RunConfig)
    ensures Flatten(BatchesOf(inputs, cfg)) == Items(inputs, cfg)
  {
    BatchesFlatten(Items(inputs, cfg), 0, MaxInputs(cfg), MaxTokens(cfg));
    assert Items(inputs, cfg)[0..] == Items(inputs, cfg);
  }

  predicate IsInvalid(inputs: seq<Input>, p: nat) {
    p < |inputs| && !Sendable(inputs[p])
  }

  /**
    * For any client and any cancellation: a position is in a record or a failure exactly when its input is invalid
    * or among the first Done valid ones, and no position is covered by two failures.
    */
  lemma StateAccounts(w: World, inputs: seq<Input>, cfg: RunConfig, p: nat)
    ensures var st := RunState(w, inputs, cfg).0;
            && (Mentions(st, p) > 0 <==> IsInvalid(inputs, p) || Among(Items(inputs, cfg), Done(w, inputs, cfg), p) > 0)
            && CoverCount(st.failures, p) <= 1
  {
    BatchesNoneEmpty(Items(inputs, cfg), 0, MaxInputs(cfg), MaxTokens(cfg));
    RunFlatten(inputs, cfg);
    BatchesCover(w, !cfg.DisableBisect, StartState(inputs), BatchesOf(inputs, cfg), p);
    InvalidFailuresCover(inputs, |inputs|, p);
    AmongAtMost(inputs, cfg, Done(w, inputs, cfg), p);
  }

  /** A prefix of the valid items holds a position at most once, and only a valid one. */
  lemma AmongAtMost(inputs: seq<Input>, cfg: RunConfig, k: nat, p: nat)
    requires k <= |Items(inputs, cfg)|
    ensures Among(Items(inputs, cfg), k, p) <= (if p < |inputs| && Sendable(inputs[p]) then 1 else 0)
    ensures k == |Items(inputs, cfg)| ==>
              Among(Items(inputs, cfg), k, p) == (if p < |inputs| && Sendable(inputs[p]) then 1 else 0)
  {
    var s := Positions(Items(inputs, cfg));
    if p < |inputs| {
      ValidateIff(inputs[p]);
    }
    ValidItemsOccur(inputs, cfg.Estimate, |inputs|, p);
    OccursConcat(s[..k], s[k..], p);
    assert s[..k] + s[k..] == s;
  }

  /** A run that returns no error leaves no input out, and names nothing that is not an input. */
  lemma StateConserves(w: World, inputs: seq<Input>, cfg: RunConfig, p: nat)
    requires !RunState(w, inputs, cfg).1
    ensures Mentions(RunState(w, inputs, cfg).0, p) > 0 <==> p < |inputs|
  {
    StateAccounts(w, inputs, cfg, p);
    AmongAtMost(inputs, cfg, Done(w, inputs, cfg), p);
  }

  /** How many replies of the run are torn at `p`. */
  ghost function TornReplies(w: World, inputs: seq<Input>, cfg: RunConfig, p: nat): nat {
    BatchesNoneEmpty(Items(inputs, cfg), 0, MaxInputs(cfg), MaxTokens(cfg));
    RunTorn(w, !cfg.DisableBisect, StartState(inputs), BatchesOf(inputs, cfg), p)
  }

  /**
    * The exact account for any client: the invalid inputs and a prefix of the valid ones are mentioned once,
    * and a position once more for every torn reply.
    */
  lemma StateCounts(w: World, inputs: seq<Input>, cfg: RunConfig, p: nat)
    ensures Mentions(RunState(w, inputs, cfg).0, p) ==
            (if IsInvalid(inputs, p) then 1 else 0) + Among(Items(inputs, cfg), Done(w, inputs, cfg), p) +
            TornReplies(w, inputs, cfg, p)
  {
    BatchesNoneEmpty(Items(inputs, cfg), 0, MaxInputs(cfg), MaxTokens(cfg));
    RunFlatten(inputs, cfg);
    AmongAtMost(inputs, cfg, |Items(inputs, cfg)|, p);
    BatchesGain(w, !cfg.DisableBisect, StartState(inputs), BatchesOf(inputs, cfg), p);
    InvalidFailuresCover(inputs, |inputs|, p);
  }

  /** A run without error puts an input in exactly one record or failure if and only if no reply is torn at it. */
  lemma StateExactlyOnceIff(w: World, inputs: seq<Input>, cfg: RunConfig, p: nat)
    requires !RunState(w, inputs, cfg).1 && p < |inputs|
    ensures Mentions(RunState(w, inputs, cfg).0, p) == 1 <==> TornReplies(w, inputs, cfg, p) == 0
  {
    StateCounts(w, inputs, cfg, p);
    AmongAtMost(inputs, cfg, Done(w, inputs, cfg), p);
  }

  /**
    * When successful responses hold only requested IDs, every input is in exactly one record or failure; after a
    * cancellation, exactly the invalid inputs and a prefix of the valid ones are, each once.
    */
  lemma StateExactlyOnce(w: World, inputs: seq<Input>, cfg: RunConfig, p: nat)
    requires Honest(w)
    ensures Mentions(RunState(w, inputs, cfg).0, p) ==
            (if IsInvalid(inputs, p) then 1 else 0) + Among(Items(inputs, cfg), Done(w, inputs, cfg), p)
    ensures !RunState(w, inputs, cfg).1 ==> Mentions(RunState(w, inputs, cfg).0, p) == if p < |inputs| then 1 else 0
  {
    BatchesNoneEmpty(Items(inputs, cfg), 0, MaxInputs(cfg), MaxTokens(cfg));
    StateCounts(w, inputs, cfg, p);
    HonestRunNeverTorn(w, !cfg.DisableBisect, StartState(inputs), BatchesOf(inputs, cfg), p);
    AmongAtMost(inputs, cfg, Done(w, inputs, cfg), p);
  }
}
