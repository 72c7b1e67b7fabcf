/** Run: validate, batch, embed batch by batch until done or canceled, and put the results back in input order. */
module Runner {
  import opened Chunks
  import opened Batching
  import opened Embedding

  const DEFAULT_MAX_BATCH_INPUTS := 96
  const DEFAULT_MAX_BATCH_TOKENS := 20_000

  datatype RunConfig = RunConfig(MaxBatchInputs: int, MaxBatchTokens: int, Estimate: Estimator, DisableBisect: bool)

  function MaxInputs(cfg: RunConfig): (m: int)
    ensures m >= 1
  {
    if cfg.MaxBatchInputs <= 0 then DEFAULT_MAX_BATCH_INPUTS else cfg.MaxBatchInputs
  }

  function MaxTokens(cfg: RunConfig): (m: int)
    ensures m >= 1
  {
    if cfg.MaxBatchTokens <= 0 then DEFAULT_MAX_BATCH_TOKENS else cfg.MaxBatchTokens
  }

  // ----- validation -----

  function InvalidFailure(pos: nat, input: Input, why: Invalid): PosFailure {
    PosFailure(pos, BatchFailure([input], InvalidInput(why), false), [pos])
  }

  /** The failures of the invalid inputs among the first `n`. */
  function InvalidFailures(inputs: seq<Input>, n: nat): seq<PosFailure>
    requires n <= |inputs|
  {
    if n == 0 then [] else InvalidFailures(inputs, n - 1) + Rejection(n - 1, inputs[n - 1])
  }

  /** The failure of one input, when it is invalid. */
  function Rejection(pos: nat, input: Input): seq<PosFailure> {
    match Validate(input)
    case Accept => []
    case Reject(why) => [InvalidFailure(pos, input, why)]
  }

  /** The items of the valid inputs among the first `n`. */
  function ValidItems(inputs: seq<Input>, est: Estimator, n: nat): seq<Item>
    requires n <= |inputs|
  {
    if n == 0 then []
    else
      ValidItems(inputs, est, n - 1) +
      if Validate(inputs[n - 1]).Accept? then [Item(n - 1, inputs[n - 1], TokensFor(inputs[n - 1], est))] else []
  }

  // ----- the run over the batches -----

  ghost predicate NoneEmpty(batches: seq<seq<Item>>) {
    forall k :: 0 <= k < |batches| ==> batches[k] != []
  }

  /** The state after one look at the context. */
  function Polled(st: State): State {
    st.(polls := st.polls + 1)
  }

  ghost function RunBatches(w: World, bisect: bool, st: State, batches: seq<seq<Item>>): (State, bool)
    requires NoneEmpty(batches)
    decreases |batches|
  {
    if batches == [] then (st, false)
    else
      if w.done(st.polls) then (Polled(st), true)
      else
        var r := Embed(w, bisect, Polled(st), batches[0]);
        if r.1 then r else RunBatches(w, bisect, r.0, batches[1..])
  }

  function BatchesOf(inputs: seq<Input>, cfg: RunConfig): seq<seq<Item>> {
    Batches(ValidItems(inputs, cfg.Estimate, |inputs|), 0, MaxInputs(cfg), MaxTokens(cfg))
  }

  lemma BatchesNoneEmpty(items: seq<Item>, i: nat, maxInputs: int, maxTokens: int)
    requires i <= |items|
    ensures NoneEmpty(Batches(items, i, maxInputs, maxTokens))
    decreases |items| - i
  {
    if i < |items| {
      var j := Fill(TokensOf(items), i, i + 1, maxInputs, maxTokens);
      BatchesNoneEmpty(items, j, maxInputs, maxTokens);
    }
  }

  function StartState(inputs: seq<Input>): State {
    State(map[], InvalidFailures(inputs, |inputs|), [], 0)
  }

  /** What a run has gathered when it returns, and whether it was canceled. */
  ghost function RunState(w: World, inputs: seq<Input>, cfg: RunConfig): (State, bool) {
    BatchesNoneEmpty(ValidItems(inputs, cfg.Estimate, |inputs|), 0, MaxInputs(cfg), MaxTokens(cfg));
    RunBatches(w, !cfg.DisableBisect, StartState(inputs), BatchesOf(inputs, cfg))
  }

  // ----- assembling the result -----

  datatype RunResult = RunResult(Records: seq<Record>, Failures: seq<BatchFailure>)

  /** The positions below `n` that have a record, ascending. */
  function RecordPositions(records: map<nat, Record>, n: nat): seq<nat> {
    if n == 0 then [] else RecordPositions(records, n - 1) + if n - 1 in records then [n - 1] else []
  }

  /** The records at positions below `n`, in order of position. */
  function RecordsInOrder(records: map<nat, Record>, n: nat): seq<Record> {
    if n == 0 then [] else RecordsInOrder(records, n - 1) + if n - 1 in records then [records[n - 1]] else []
  }

  /** Inserts a failure behind all that do not come after it. */
  function InsertFailure(f: PosFailure, sorted: seq<PosFailure>): seq<PosFailure> {
    if sorted == [] || sorted[|sorted| - 1].pos <= f.pos then sorted + [f]
    else InsertFailure(f, sorted[..|sorted| - 1]) + [sorted[|sorted| - 1]]
  }

  /** sort.SliceStable by position. */
  function SortFailures(failures: seq<PosFailure>): seq<PosFailure> {
    if failures == [] then []
    else InsertFailure(failures[|failures| - 1], SortFailures(failures[..|failures| - 1]))
  }

  function Reports(failures: seq<PosFailure>): (r: seq<BatchFailure>)
    ensures |r| == |failures| && forall k :: 0 <= k < |r| ==> r[k] == failures[k].bf
  {
    seq(|failures|, k requires 0 <= k < |failures| => failures[k].bf)
  }

  function ResultOf(n: nat, st: State): RunResult {
    RunResult(RecordsInOrder(st.records, n), Reports(SortFailures(st.failures)))
  }

  method Assemble(n: nat, records: map<nat, Record>, failures: seq<PosFailure>) returns (result: RunResult)
    ensures result == RunResult(RecordsInOrder(records, n), Reports(SortFailures(failures)))
  {
    var out: seq<Record> := [];
    for pos := 0 to n
      invariant out == RecordsInOrder(records, pos)
    {
      if pos in records {
        out := out + [records[pos]];
      }
    }
    var sorted := SortFailures(failures);
    var bfs: seq<BatchFailure> := [];
    for i := 0 to |sorted|
      invariant |bfs| == i && forall k :: 0 <= k < i ==> bfs[k] == sorted[k].bf
    {
      bfs := bfs + [sorted[i].bf];
    }
    assert bfs == Reports(sorted);
    result := RunResult(out, bfs);
  }

  // ----- the source's loops -----

  method ValidateAll(inputs: seq<Input>, est: Estimator) returns (valid: seq<Item>, failures: seq<PosFailure>)
    ensures valid == ValidItems(inputs, est, |inputs|) && failures == InvalidFailures(inputs, |inputs|)
  {
    valid, failures := [], [];
    for i := 0 to |inputs|
      invariant valid == ValidItems(inputs, est, i) && failures == InvalidFailures(inputs, i)
    {
      var verdict := Validate(inputs[i]);
      if verdict.Reject? {
        failures := failures + [InvalidFailure(i, inputs[i], verdict.why)];
      } else {
        valid := valid + [Item(i, inputs[i], TokensFor(inputs[i], est))];
      }
    }
  }

  /** The loop over the batches. */
  method EmbedAll(w: World, bisect: bool, batches: seq<seq<Item>>, session: Session) returns (canceled: bool)
    requires NoneEmpty(batches)
    modifies session
    ensures (session.StateOf(), canceled) == RunBatches(w, bisect, old(session.StateOf()), batches)
  {
    var b := 0;
    assert batches[0..] == batches;
    while b < |batches|
      invariant 0 <= b <= |batches|
      invariant RunBatches(w, bisect, session.StateOf(), batches[b..]) ==
                RunBatches(w, bisect, old(session.StateOf()), batches)
    {
      assert batches[b..][0] == batches[b] && batches[b..][1..] == batches[b + 1..];
      var done := session.ContextDone(w);
      if done {
        return true;
      }
      var stopped := session.EmbedBatch(w, bisect, batches[b]);
      if stopped {
        return true;
      }
      b := b + 1;
    }
    canceled := false;
  }

  method Run(w: World, inputs: seq<Input>, cfg: RunConfig) returns (result: RunResult, canceled: bool)
    ensures result == ResultOf(|inputs|, RunState(w, inputs, cfg).0)
    ensures canceled == RunState(w, inputs, cfg).1
  {
    var valid, failures := ValidateAll(inputs, cfg.Estimate);
    var batches := PackBatches(valid, MaxInputs(cfg), MaxTokens(cfg));
    BatchesNoneEmpty(valid, 0, MaxInputs(cfg), MaxTokens(cfg));
    var session := new Session();
    session.failures := failures;
    canceled := EmbedAll(w, !cfg.DisableBisect, batches, session);
    result := Assemble(|inputs|, session.records, session.failures);
  }
}
