/** What a run sends, how each reply is dealt with, and when the run is canceled. */
module RunReplies {
  import opened Basics
  import opened Chunks
  import opened Packing
  import opened Batching
  import opened Embedding
  import opened Matching
  import opened Runner
  import opened RunTheorems
  import opened RunOrder
  import opened Accounting
  import opened Bisection

  // ----- how often a run looks at its context, and what it sees -----

  /** How many of the requests sent were answered by an error. */
  function Errors(w: World, sent: seq<seq<EmbeddingInput>>): nat {
    if sent == [] then 0
    else
      Errors(w, sent[..|sent| - 1]) +
      if w.client(|sent| - 1, sent[|sent| - 1]).ClientError? then 1 else 0
  }

  /** One of the looks at the context from the `from`-th to before the `to`-th finds it done. */
  ghost predicate SeesDone(w: World, from: nat, to: nat) {
    exists m: nat :: from <= m < to && w.done(m)
  }

  predicate CancelReply(w: World, n: nat, request: seq<EmbeddingInput>) {
    w.client(n, request).ClientError? && w.client(n, request).canceled
  }

  /** One of the requests from the `from`-th on is answered by an error that carries a cancellation. */
  ghost predicate SeesCancel(w: World, from: nat, sent: seq<seq<EmbeddingInput>>) {
    exists n: nat :: from <= n < |sent| && CancelReply(w, n, sent[n])
  }

  /**
    * From `st` to `st'` the run looked at its context once for every error and `extra` times more, and it stopped
    * exactly when a look found the context done or an error carried a cancellation.
    */
  ghost predicate Looks(w: World, st: State, st': State, extra: int, stopped: bool) {
    && st.sent <= st'.sent && st.polls <= st'.polls
    && st'.polls - st.polls == Errors(w, st'.sent) - Errors(w, st.sent) + extra
    && (stopped <==> SeesDone(w, st.polls, st'.polls) || SeesCancel(w, |st.sent|, st'.sent))
  }

  lemma ErrorsSnoc(w: World, sent: seq<seq<EmbeddingInput>>, request: seq<EmbeddingInput>)
    ensures Errors(w, sent + [request]) == Errors(w, sent) + if w.client(|sent|, request).ClientError? then 1 else 0
  {
    assert (sent + [request])[..|sent|] == sent;
  }

  lemma LooksJoin(w: World, st: State, mid: State, st': State, x: int, y: int, stopped: bool)
    requires Looks(w, st, mid, x, false) && Looks(w, mid, st', y, stopped)
    ensures Looks(w, st, st', x + y, stopped)
  {
    forall n: nat | |st.sent| <= n < |mid.sent|
      ensures !CancelReply(w, n, st'.sent[n])
    {
      assert mid.sent[n] == st'.sent[n];
    }
  }

  /** One more request, and a look at the context when it is answered by an error. */
  lemma CallLooks(w: World, st: State, request: seq<EmbeddingInput>, st': State, stopped: bool)
    requires st'.sent == st.sent + [request]
    requires st'.polls == st.polls + if w.client(|st.sent|, request).ClientError? then 1 else 0
    requires stopped <==> w.client(|st.sent|, request).ClientError? &&
                          (w.done(st.polls) || CancelReply(w, |st.sent|, request))
    ensures Looks(w, st, st', 0, stopped)
  {
    ErrorsSnoc(w, st.sent, request);
    assert st'.sent[|st.sent|] == request;
  }

  lemma AttemptLooks(w: World, bisect: bool, st: State, batch: seq<Item>, o: Outcome)
    requires batch != [] && o == Attempt(w, bisect, st, batch)
    ensures Looks(w, st, o.st, 0, o.Halted?)
  {
    CallLooks(w, st, Request(batch), o.st, o.Halted?);
  }

  lemma {:induction false} EmbedLooks(w: World, bisect: bool, st: State, batch: seq<Item>)
    requires batch != []
    ensures Looks(w, st, Embed(w, bisect, st, batch).0, 0, Embed(w, bisect, st, batch).1)
    decreases |batch|, 1
  {
    var o := Attempt(w, bisect, st, batch);
    AttemptLooks(w, bisect, st, batch, o);
    if o.Retry? {
      var r := EmbedHalves(w, bisect, o.st, batch);
      HalvesLook(w, bisect, o.st, batch);
      LooksJoin(w, st, o.st, r.0, 0, 0, r.1);
    }
  }

  lemma {:induction false} HalvesLook(w: World, bisect: bool, st: State, batch: seq<Item>)
    requires |batch| > 1
    ensures Looks(w, st, EmbedHalves(w, bisect, st, batch).0, 0, EmbedHalves(w, bisect, st, batch).1)
    decreases |batch|, 0
  {
    var mid := |batch| / 2;
    var left := Embed(w, bisect, st, batch[..mid]);
    EmbedLooks(w, bisect, st, batch[..mid]);
    if !left.1 {
      var r := Embed(w, bisect, left.0, batch[mid..]);
      EmbedLooks(w, bisect, left.0, batch[mid..]);
      LooksJoin(w, st, left.0, r.0, 0, 0, r.1);
    }
  }

  lemma PollLooks(w: World, st: State)
    ensures Looks(w, st, Polled(st), 1, w.done(st.polls))
  {
  }

  lemma {:induction false} BatchesLook(w: World, bisect: bool, st: State, batches: seq<seq<Item>>) returns (begun: nat)
    requires NoneEmpty(batches)
    ensures begun <= |batches| && (!RunBatches(w, bisect, st, batches).1 ==> begun == |batches|)
    ensures Looks(w, st, RunBatches(w, bisect, st, batches).0, begun, RunBatches(w, bisect, st, batches).1)
    decreases |batches|
  {
    begun := 0;
    if batches != [] {
      PollLooks(w, st);
      begun := 1;
      if !w.done(st.polls) {
        var r := Embed(w, bisect, Polled(st), batches[0]);
        EmbedLooks(w, bisect, Polled(st), batches[0]);
        LooksJoin(w, st, Polled(st), r.0, 1, 0, r.1);
        if !r.1 {
          var more := BatchesLook(w, bisect, r.0, batches[1..]);
          var last := RunBatches(w, bisect, r.0, batches[1..]);
          LooksJoin(w, st, r.0, last.0, 1, more, last.1);
          begun := 1 + more;
        }
      }
    }
  }

  /**
    * A run looks at its context in front of every batch and after every error, and it is canceled if and only if a look
    * finds the context done or an error carries a cancellation.
    */
  lemma RunCanceledIff(w: World, inputs: seq<Input>, cfg: RunConfig) returns (begun: nat)
    ensures var (st, canceled) := RunState(w, inputs, cfg);
            && st.polls == begun + Errors(w, st.sent)
            && begun <= |BatchesOf(inputs, cfg)| && (!canceled ==> begun == |BatchesOf(inputs, cfg)|)
            && (canceled <==> SeesDone(w, 0, st.polls) || SeesCancel(w, 0, st.sent))
  {
    BatchesNoneEmpty(Items(inputs, cfg), 0, MaxInputs(cfg), MaxTokens(cfg));
    begun := BatchesLook(w, !cfg.DisableBisect, StartState(inputs), BatchesOf(inputs, cfg));
  }

  // ----- the reply behind every failure -----

  /** Not one vector for each input of the request and no other. */
  ghost predicate Mismatch(request: seq<EmbeddingInput>, vectors: seq<Vector>) {
    || !DistinctIDs(vectors)
    || |vectors| != |request|
    || exists k :: 0 <= k < |request| && !Answered(vectors, request[k].ID)
  }

  ghost predicate Answered(vectors: seq<Vector>, id: string) {
    exists j :: 0 <= j < |vectors| && vectors[j].ID == id
  }

  /** The request asked for exactly the inputs that the failure reports. */
  ghost predicate AsksFor(request: seq<EmbeddingInput>, f: PosFailure) {
    && |request| == |f.covers| == |f.bf.Inputs|
    && forall k :: 0 <= k < |request| ==>
         request[k] == EmbeddingInput(RequestID(f.covers[k]), f.bf.Inputs[k].Chunk.Text)
  }

  /** The failure is the one that the n-th reply calls for. */
  ghost predicate FailedBy(w: World, bisect: bool, sent: seq<seq<EmbeddingInput>>, n: nat, f: PosFailure)
    requires n < |sent|
  {
    && AsksFor(sent[n], f)
    && match w.client(n, sent[n])
       case Answer(vectors) => Mismatch(sent[n], vectors) && f.bf.Err == ResponseMismatch && !f.bf.Retryable
       case ClientError(canceled, retryable) =>
         && !canceled && (bisect ==> |sent[n]| == 1)
         && f.bf.Err == ClientFailed && f.bf.Retryable == retryable
  }

  ghost predicate FailedBySome(w: World, bisect: bool, from: nat, sent: seq<seq<EmbeddingInput>>, f: PosFailure) {
    exists n: nat :: from <= n < |sent| && FailedBy(w, bisect, sent, n, f)
  }

  ghost predicate FailsSome(w: World, bisect: bool, sent: seq<seq<EmbeddingInput>>, n: nat, failures: seq<PosFailure>)
    requires n < |sent|
  {
    exists i :: 0 <= i < |failures| && FailedBy(w, bisect, sent, n, failures[i])
  }

  ghost predicate Mismatched(w: World, n: nat, request: seq<EmbeddingInput>) {
    w.client(n, request).Answer? && Mismatch(request, w.client(n, request).vectors)
  }

  /** Every new failure is called for by a new reply, and every new reply that does not match its request fails it. */
  ghost predicate Replies(w: World, bisect: bool, st: State, st': State) {
    && st.sent <= st'.sent && st.failures <= st'.failures
    && (forall i :: |st.failures| <= i < |st'.failures| ==>
          FailedBySome(w, bisect, |st.sent|, st'.sent, st'.failures[i]))
    && (forall n: nat :: |st.sent| <= n < |st'.sent| && Mismatched(w, n, st'.sent[n]) ==>
          FailsSome(w, bisect, st'.sent, n, st'.failures))
  }

  lemma RepliesJoin(w: World, bisect: bool, st: State, mid: State, st': State)
    requires Replies(w, bisect, st, mid) && Replies(w, bisect, mid, st')
    ensures Replies(w, bisect, st, st')
  {
    forall i | |st.failures| <= i < |mid.failures|
      ensures FailedBySome(w, bisect, |st.sent|, st'.sent, st'.failures[i])
    {
      assert FailedBySome(w, bisect, |st.sent|, mid.sent, mid.failures[i]);
      var n: nat :| |st.sent| <= n < |mid.sent| && FailedBy(w, bisect, mid.sent, n, mid.failures[i]);
      assert FailedBy(w, bisect, st'.sent, n, st'.failures[i]);
    }
    forall i | |mid.failures| <= i < |st'.failures|
      ensures FailedBySome(w, bisect, |st.sent|, st'.sent, st'.failures[i])
    {
      assert FailedBySome(w, bisect, |mid.sent|, st'.sent, st'.failures[i]);
    }
    forall n: nat | |st.sent| <= n < |mid.sent| && Mismatched(w, n, st'.sent[n])
      ensures FailsSome(w, bisect, st'.sent, n, st'.failures)
    {
      assert mid.sent[n] == st'.sent[n];
      var i :| 0 <= i < |mid.failures| && FailedBy(w, bisect, mid.sent, n, mid.failures[i]);
      assert FailedBy(w, bisect, st'.sent, n, st'.failures[i]);
    }
  }

  /** The failure of a batch reports what its request asked for. */
  lemma FailureAsked(batch: seq<Item>, err: Error, retryable: bool)
    requires batch != []
    ensures AsksFor(Request(batch), FailureOf(batch, err, retryable))
  {
  }

  /** The matching loop accepts exactly the vectors that answer every input of the request. */
  lemma AcceptsMatching(st: State, batch: seq<Item>, vectors: seq<Vector>)
    requires batch != []
    ensures var st' := Accepted(st, batch, vectors);
            st'.sent == st.sent && st'.failures == st.failures + if Mismatch(Request(batch), vectors)
            then [FailureOf(batch, ResponseMismatch, false)] else []
  {
    MatchedKeys(st.records, batch, ByID(vectors));
    ByIDKeys(vectors);
    forall k | 0 <= k < |batch|
      ensures RequestID(batch[k].pos) in ByID(vectors) <==> Answered(vectors, Request(batch)[k].ID)
    {
    }
  }

  lemma SettledReplies(w: World, bisect: bool, st: State, batch: seq<Item>, o: Outcome)
    requires batch != [] && o == Attempt(w, bisect, st, batch)
    ensures Replies(w, bisect, st, o.st)
  {
    var n, st1 := |st.sent|, st.(sent := st.sent + [Request(batch)]);
    assert o.st.sent == st1.sent && st1.sent[n] == Request(batch);
    match w.client(n, Request(batch))
    case Answer(vectors) =>
      AcceptsMatching(st1, batch, vectors);
      var f := FailureOf(batch, ResponseMismatch, false);
      FailureAsked(batch, ResponseMismatch, false);
      if Mismatch(Request(batch), vectors) {
        assert o.st.failures[|st.failures|] == f && FailedBy(w, bisect, o.st.sent, n, f);
      }
    case ClientError(canceled, retryable) =>
      FailureAsked(batch, ClientFailed, retryable);
      if o.Settled? {
        var f := FailureOf(batch, ClientFailed, retryable);
        assert o.st.failures == st.failures + [f] && FailedBy(w, bisect, o.st.sent, n, f);
      }
  }

  lemma {:induction false} EmbedReplies(w: World, bisect: bool, st: State, batch: seq<Item>)
    requires batch != []
    ensures Replies(w, bisect, st, Embed(w, bisect, st, batch).0)
    decreases |batch|, 1
  {
    var o := Attempt(w, bisect, st, batch);
    SettledReplies(w, bisect, st, batch, o);
    if o.Retry? {
      HalvesReply(w, bisect, o.st, batch);
      RepliesJoin(w, bisect, st, o.st, EmbedHalves(w, bisect, o.st, batch).0);
    }
  }

  lemma {:induction false} HalvesReply(w: World, bisect: bool, st: State, batch: seq<Item>)
    requires |batch| > 1
    ensures Replies(w, bisect, st, EmbedHalves(w, bisect, st, batch).0)
    decreases |batch|, 0
  {
    var mid := |batch| / 2;
    var left := Embed(w, bisect, st, batch[..mid]);
    EmbedReplies(w, bisect, st, batch[..mid]);
    if !left.1 {
      EmbedReplies(w, bisect, left.0, batch[mid..]);
      RepliesJoin(w, bisect, st, left.0, Embed(w, bisect, left.0, batch[mid..]).0);
    }
  }

  lemma {:induction false} BatchesReply(w: World, bisect: bool, st: State, batches: seq<seq<Item>>)
    requires NoneEmpty(batches)
    ensures Replies(w, bisect, st, RunBatches(w, bisect, st, batches).0)
    decreases |batches|
  {
    if batches != [] && !w.done(st.polls) {
      var r := Embed(w, bisect, Polled(st), batches[0]);
      EmbedReplies(w, bisect, Polled(st), batches[0]);
      assert Replies(w, bisect, st, Polled(st));
      RepliesJoin(w, bisect, st, Polled(st), r.0);
      if !r.1 {
        BatchesReply(w, bisect, r.0, batches[1..]);
        RepliesJoin(w, bisect, st, r.0, RunBatches(w, bisect, r.0, batches[1..]).0);
      }
    }
  }

  lemma {:induction false} InvalidRejected(inputs: seq<Input>, n: nat, i: nat)
    requires n <= |inputs| && i < |InvalidFailures(inputs, n)|
    ensures RejectedFor(inputs, InvalidFailures(inputs, n)[i])
  {
    if i < |InvalidFailures(inputs, n - 1)| {
      InvalidRejected(inputs, n - 1, i);
    } else {
      ValidateIff(inputs[n - 1]);
    }
  }

  /** The failure of one invalid input, for the first rule it breaks; there is no use in trying it again. */
  ghost predicate RejectedFor(inputs: seq<Input>, f: PosFailure) {
    && f.covers == [f.pos] && f.pos < |inputs| && f.bf.Inputs == [inputs[f.pos]] && !f.bf.Retryable
    && f.bf.Err.InvalidInput? && BreaksFirst(inputs[f.pos], f.bf.Err.why)
  }

  /**
    * Every failure Run returns is an invalid input's, for the first rule it breaks, or is called for by a reply to the
    * very inputs it reports: an error without a cancellation, with the retryability of that error, or a response that
    * does not match. And every response that does not match is among the failures.
    */
  lemma RunFailures(w: World, inputs: seq<Input>, cfg: RunConfig)
    ensures var (st, _) := RunState(w, inputs, cfg); var f := ReportedFailures(w, inputs, cfg);
            var returned := ResultOf(|inputs|, st).Failures;
            && |returned| == |f|
            && (forall k :: 0 <= k < |f| ==> returned[k] == f[k].bf)
            && (forall k :: 0 <= k < |f| ==>
                  RejectedFor(inputs, f[k]) || FailedBySome(w, !cfg.DisableBisect, 0, st.sent, f[k]))
            && (forall n: nat :: n < |st.sent| && Mismatched(w, n, st.sent[n]) ==>
                  FailsSome(w, !cfg.DisableBisect, st.sent, n, f))
  {
    var bisect, st, f := !cfg.DisableBisect, RunState(w, inputs, cfg).0, ReportedFailures(w, inputs, cfg);
    BatchesNoneEmpty(Items(inputs, cfg), 0, MaxInputs(cfg), MaxTokens(cfg));
    BatchesReply(w, bisect, StartState(inputs), BatchesOf(inputs, cfg));
    SortSorts(st.failures);
    forall k | 0 <= k < |f|
      ensures RejectedFor(inputs, f[k]) || FailedBySome(w, bisect, 0, st.sent, f[k])
    {
      assert f[k] in multiset(f);
      var i :| 0 <= i < |st.failures| && st.failures[i] == f[k];
      FailureExplained(w, bisect, inputs, st, i);
    }
    forall n: nat | n < |st.sent| && Mismatched(w, n, st.sent[n])
      ensures FailsSome(w, bisect, st.sent, n, f)
    {
      var i :| 0 <= i < |st.failures| && FailedBy(w, bisect, st.sent, n, st.failures[i]);
      assert st.failures[i] in multiset(st.failures);
      var k :| 0 <= k < |f| && f[k] == st.failures[i];
    }
  }

  lemma FailureExplained(w: World, bisect: bool, inputs: seq<Input>, st: State, i: nat)
    requires Replies(w, bisect, StartState(inputs), st) && i < |st.failures|
    ensures RejectedFor(inputs, st.failures[i]) || FailedBySome(w, bisect, 0, st.sent, st.failures[i])
  {
    if i < |InvalidFailures(inputs, |inputs|)| {
      InvalidRejected(inputs, |inputs|, i);
    }
  }

  // ----- the requests -----

  /** The request asks for the inputs at the given positions, all of them sendable. */
  ghost predicate AsksAt(inputs: seq<Input>, request: seq<EmbeddingInput>, positions: seq<nat>) {
    && |request| == |positions| && Ascending(positions)
    && forall k :: 0 <= k < |positions| ==>
         && positions[k] < |inputs| && Sendable(inputs[positions[k]])
         && request[k] == EmbeddingInput(RequestID(positions[k]), inputs[positions[k]].Chunk.Text)
  }

  /** The request is for a stretch of the batch. */
  ghost predicate AsksStretch(request: seq<EmbeddingInput>, batch: seq<Item>) {
    exists lo: nat, hi: nat :: lo < hi <= |batch| && request == Request(batch[lo..hi])
  }

  ghost predicate SentFrom(st: State, st': State, batch: seq<Item>) {
    && st.sent <= st'.sent
    && forall n :: |st.sent| <= n < |st'.sent| ==> AsksStretch(st'.sent[n], batch)
  }

  lemma PartSent(st: State, st': State, batch: seq<Item>, a: nat, b: nat)
    requires a <= b <= |batch| && SentFrom(st, st', batch[a..b])
    ensures SentFrom(st, st', batch)
  {
    forall n | |st.sent| <= n < |st'.sent|
      ensures AsksStretch(st'.sent[n], batch)
    {
      assert AsksStretch(st'.sent[n], batch[a..b]);
      var lo: nat, hi: nat :| lo < hi <= |batch[a..b]| && st'.sent[n] == Request(batch[a..b][lo..hi]);
      SliceOfSlice(batch, a, b, lo, hi);
    }
  }

  lemma {:induction false} EmbedSends(w: World, bisect: bool, st: State, batch: seq<Item>)
    requires batch != []
    ensures SentFrom(st, Embed(w, bisect, st, batch).0, batch)
    decreases |batch|, 1
  {
    var o := Attempt(w, bisect, st, batch);
    assert o.st.sent == st.sent + [Request(batch)];
    assert AsksStretch(Request(batch), batch) by {
      assert batch[0..|batch|] == batch;
    }
    if o.Retry? {
      HalvesSend(w, bisect, o.st, batch);
    }
  }

  lemma {:induction false} HalvesSend(w: World, bisect: bool, st: State, batch: seq<Item>)
    requires |batch| > 1
    ensures SentFrom(st, EmbedHalves(w, bisect, st, batch).0, batch)
    decreases |batch|, 0
  {
    var mid := |batch| / 2;
    var left := Embed(w, bisect, st, batch[..mid]);
    assert batch[0..mid] == batch[..mid] && batch[mid..|batch|] == batch[mid..];
    EmbedSends(w, bisect, st, batch[..mid]);
    PartSent(st, left.0, batch, 0, mid);
    if !left.1 {
      EmbedSends(w, bisect, left.0, batch[mid..]);
      PartSent(left.0, Embed(w, bisect, left.0, batch[mid..]).0, batch, mid, |batch|);
    }
  }

  lemma {:induction false} BatchesSend(w: World, bisect: bool, st: State, batches: seq<seq<Item>>, n: nat)
      returns (b: nat)
    requires NoneEmpty(batches) && |st.sent| <= n < |RunBatches(w, bisect, st, batches).0.sent|
    ensures b < |batches| && AsksStretch(RunBatches(w, bisect, st, batches).0.sent[n], batches[b])
    decreases |batches|
  {
    var r := Embed(w, bisect, Polled(st), batches[0]);
    EmbedSends(w, bisect, Polled(st), batches[0]);
    if n < |r.0.sent| {
      b := 0;
      if !r.1 {
        BatchesCallsGrow(w, bisect, r.0, batches[1..]);
      }
    } else {
      var more := BatchesSend(w, bisect, r.0, batches[1..], n);
      b := more + 1;
    }
  }

  /** The chunk's own count when it is set, else the estimate of its text. */
  function CountOf(input: Input, est: Estimator): int {
    if input.Chunk.TokenCount > 0 then input.Chunk.TokenCount else est(input.Chunk.Text)
  }

  /** The token counts of the inputs at the given positions, the first `n` of them. */
  function Counted(inputs: seq<Input>, est: Estimator, positions: seq<nat>, n: nat): int
    requires n <= |positions| && forall k :: 0 <= k < |positions| ==> positions[k] < |inputs|
  {
    if n == 0 then 0 else Counted(inputs, est, positions, n - 1) + CountOf(inputs[positions[n - 1]], est)
  }

  lemma {:induction false} CountedIsSum(inputs: seq<Input>, est: Estimator, items: seq<Item>, n: nat)
    requires n <= |items| && ItemsOfRun(inputs, items)
    requires forall k :: 0 <= k < |items| ==> items[k].tokens == CountOf(items[k].input, est)
    ensures Counted(inputs, est, Positions(items), n) == Sum(TokensOf(items), 0, n)
  {
    if n > 0 {
      CountedIsSum(inputs, est, items, n - 1);
    }
  }

  /** A batch is a stretch of the items. */
  lemma {:induction false} BatchIsStretch(items: seq<Item>, i: nat, maxInputs: int, maxTokens: int, b: nat)
      returns (lo: nat, hi: nat)
    requires i <= |items| && b < |Batches(items, i, maxInputs, maxTokens)|
    ensures i <= lo < hi <= |items| && Batches(items, i, maxInputs, maxTokens)[b] == items[lo..hi]
    decreases |items| - i
  {
    lo, hi := i, Fill(TokensOf(items), i, i + 1, maxInputs, maxTokens);
    if b > 0 {
      lo, hi := BatchIsStretch(items, hi, maxInputs, maxTokens, b - 1);
    }
  }

  lemma {:induction false} ItemSendable(inputs: seq<Input>, est: Estimator, n: nat, k: nat)
    requires n <= |inputs| && k < |ValidItems(inputs, est, n)|
    ensures Sendable(ValidItems(inputs, est, n)[k].input)
  {
    if k < |ValidItems(inputs, est, n - 1)| {
      ItemSendable(inputs, est, n - 1, k);
    } else {
      ValidateIff(inputs[n - 1]);
    }
  }

  /** Items of the run that are sendable and counted as the run counts them. */
  ghost predicate Askable(inputs: seq<Input>, est: Estimator, items: seq<Item>) {
    && ItemsOfRun(inputs, items)
    && forall k :: 0 <= k < |items| ==> Sendable(items[k].input) && items[k].tokens == CountOf(items[k].input, est)
  }

  lemma ItemsAskable(inputs: seq<Input>, cfg: RunConfig)
    ensures Askable(inputs, cfg.Estimate, Items(inputs, cfg))
  {
    ItemsAreOfRun(inputs, cfg);
    forall k | 0 <= k < |Items(inputs, cfg)|
      ensures Sendable(Items(inputs, cfg)[k].input)
      ensures Items(inputs, cfg)[k].tokens == CountOf(Items(inputs, cfg)[k].input, cfg.Estimate)
    {
      ItemSendable(inputs, cfg.Estimate, |inputs|, k);
      ItemIs(inputs, cfg.Estimate, |inputs|, k);
    }
  }

  lemma StretchAskable(inputs: seq<Input>, est: Estimator, items: seq<Item>, lo: nat, hi: nat)
    requires Askable(inputs, est, items) && lo <= hi <= |items|
    ensures Askable(inputs, est, items[lo..hi])
  {
    IncreasingSlice(items, lo, hi);
  }

  lemma AskableAsks(inputs: seq<Input>, est: Estimator, items: seq<Item>)
    requires Askable(inputs, est, items)
    ensures AsksAt(inputs, Request(items), Positions(items))
  {
    forall a, b | 0 <= a < b < |items|
      ensures items[a].pos < items[b].pos
    {
      assert Before(items, a, b);
    }
  }

  lemma StretchAsks(inputs: seq<Input>, est: Estimator, items: seq<Item>, lo: nat, hi: nat)
      returns (positions: seq<nat>)
    requires Askable(inputs, est, items) && lo <= hi <= |items|
    ensures AsksAt(inputs, Request(items[lo..hi]), positions) && |positions| == hi - lo
    ensures Counted(inputs, est, positions, |positions|) == Sum(TokensOf(items), lo, hi)
  {
    positions := Positions(items[lo..hi]);
    StretchAskable(inputs, est, items, lo, hi);
    AskableAsks(inputs, est, items[lo..hi]);
    CountedIsSum(inputs, est, items[lo..hi], hi - lo);
    SliceSum(items, lo, hi);
  }

  /** No input's estimate is negative. */
  ghost predicate EstimatesNonNegative(inputs: seq<Input>, est: Estimator) {
    forall k :: 0 <= k < |inputs| ==> est(inputs[k].Chunk.Text) >= 0
  }

  lemma TokensNonNegative(inputs: seq<Input>, cfg: RunConfig)
    requires EstimatesNonNegative(inputs, cfg.Estimate)
    ensures NonNegative(TokensOf(Items(inputs, cfg)))
  {
    forall k | 0 <= k < |Items(inputs, cfg)|
      ensures Items(inputs, cfg)[k].tokens >= 0
    {
      ItemIs(inputs, cfg.Estimate, |inputs|, k);
    }
  }

  /**
    * Every request of a run asks for inputs with both IDs, text that is not blank and no negative index, in input
    * order, each by its own text under its own ID; it keeps to the input cap, and to the token cap unless it holds one
    * input.
    */
  lemma RunSends(w: World, inputs: seq<Input>, cfg: RunConfig, n: nat) returns (positions: seq<nat>)
    requires n < |RunState(w, inputs, cfg).0.sent|
    ensures AsksAt(inputs, RunState(w, inputs, cfg).0.sent[n], positions)
    ensures 1 <= |positions| <= InputCap(cfg)
    ensures EstimatesNonNegative(inputs, cfg.Estimate) && |positions| > 1 ==>
              Counted(inputs, cfg.Estimate, positions, |positions|) <= TokenCap(cfg)
  {
    var items := Items(inputs, cfg);
    var lo, hi := StretchSent(w, inputs, cfg, n);
    ItemsAskable(inputs, cfg);
    positions := StretchAsks(inputs, cfg.Estimate, items, lo, hi);
  }

  /** Every request is for a stretch of the run's items that keeps to the caps. */
  lemma StretchSent(w: World, inputs: seq<Input>, cfg: RunConfig, n: nat) returns (lo: nat, hi: nat)
    requires n < |RunState(w, inputs, cfg).0.sent|
    ensures lo < hi <= |Items(inputs, cfg)|
    ensures RunState(w, inputs, cfg).0.sent[n] == Request(Items(inputs, cfg)[lo..hi])
    ensures hi - lo <= MaxInputs(cfg)
    ensures EstimatesNonNegative(inputs, cfg.Estimate) && hi - lo > 1 ==>
              Sum(TokensOf(Items(inputs, cfg)), lo, hi) <= MaxTokens(cfg)
  {
    var items, batches, request := Items(inputs, cfg), BatchesOf(inputs, cfg), RunState(w, inputs, cfg).0.sent[n];
    BatchesNoneEmpty(items, 0, MaxInputs(cfg), MaxTokens(cfg));
    var b := BatchesSend(w, !cfg.DisableBisect, StartState(inputs), batches, n);
    var first, last := BatchIsStretch(items, 0, MaxInputs(cfg), MaxTokens(cfg), b);
    BatchesFit(items, 0, MaxInputs(cfg), MaxTokens(cfg), batches[b]);
    if EstimatesNonNegative(inputs, cfg.Estimate) {
      TokensNonNegative(inputs, cfg);
    }
    lo, hi := PartFits(items, first, last, batches[b], request, MaxInputs(cfg), MaxTokens(cfg));
  }

  /** A stretch of a batch keeps to the caps when no token count is negative. */
  lemma PartFits(items: seq<Item>, first: nat, last: nat, batch: seq<Item>, request: seq<EmbeddingInput>,
                 maxInputs: int, maxTokens: int) returns (lo: nat, hi: nat)
    requires first <= last <= |items| && batch == items[first..last] && AsksStretch(request, batch)
    requires BatchOk(batch, maxInputs, maxTokens)
    ensures lo < hi <= |items| && request == Request(items[lo..hi]) && hi - lo <= maxInputs
    ensures NonNegative(TokensOf(items)) && hi - lo > 1 ==> Sum(TokensOf(items), lo, hi) <= maxTokens
  {
    lo, hi := PartOfStretch(items, first, last, request);
    SliceSum(items, first, last);
    if NonNegative(TokensOf(items)) {
      SumMonotone(TokensOf(items), first, lo, hi, last);
    }
  }

  lemma PartOfStretch(items: seq<Item>, first: nat, last: nat, request: seq<EmbeddingInput>)
      returns (lo: nat, hi: nat)
    requires first <= last <= |items| && AsksStretch(request, items[first..last])
    ensures first <= lo < hi <= last && request == Request(items[lo..hi])
  {
    var x: nat, y: nat :| x < y <= |items[first..last]| && request == Request(items[first..last][x..y]);
    SliceOfSlice(items, first, last, x, y);
    lo, hi := first + x, first + y;
  }

  // ----- the order of the calls -----

  /** The caps in force. */
  function InputCap(cfg: RunConfig): int {
    if cfg.MaxBatchInputs > 0 then cfg.MaxBatchInputs else 96
  }

  function TokenCap(cfg: RunConfig): int {
    if cfg.MaxBatchTokens > 0 then cfg.MaxBatchTokens else 20_000
  }

  /** The items are the sendable inputs, each once, in input order and with its own count. */
  lemma ItemsAreSendable(inputs: seq<Input>, cfg: RunConfig, p: nat)
    ensures Askable(inputs, cfg.Estimate, Items(inputs, cfg))
    ensures Occurs(Positions(Items(inputs, cfg)), p) == if p < |inputs| && Sendable(inputs[p]) then 1 else 0
  {
    ItemsAskable(inputs, cfg);
    ValidItemsOccur(inputs, cfg.Estimate, |inputs|, p);
    if p < |inputs| {
      ValidateIff(inputs[p]);
    }
  }

  /** The batches are the items in order, each batch within the caps, and none with room for the item behind it. */
  lemma RunBatchesPacked(inputs: seq<Input>, cfg: RunConfig, k: nat)
    requires k < |BatchesOf(inputs, cfg)|
    ensures Flatten(BatchesOf(inputs, cfg)) == Items(inputs, cfg)
    ensures var batches := BatchesOf(inputs, cfg);
            && BatchOk(batches[k], InputCap(cfg), TokenCap(cfg))
            && (k + 1 < |batches| ==>
                  && batches[k + 1] != []
                  && (|batches[k]| >= InputCap(cfg) ||
                      Sum(TokensOf(batches[k]), 0, |batches[k]|) + batches[k + 1][0].tokens > TokenCap(cfg)))
  {
    RunFlatten(inputs, cfg);
    BatchesFit(Items(inputs, cfg), 0, MaxInputs(cfg), MaxTokens(cfg), BatchesOf(inputs, cfg)[k]);
    if k + 1 < |BatchesOf(inputs, cfg)| {
      BatchesAreFull(Items(inputs, cfg), 0, MaxInputs(cfg), MaxTokens(cfg), k);
    }
  }

  /** No request from the `from`-th on is refused when it could still be cut in halves. */
  ghost predicate NoneHalved(w: World, bisect: bool, from: nat, sent: seq<seq<EmbeddingInput>>) {
    bisect ==> forall n: nat :: from <= n < |sent| ==> !Refused(w, n, sent[n])
  }

  /** What is sent after `before` asks for the batches one by one, for all of them when `whole`. */
  ghost predicate OneByOne(before: seq<seq<EmbeddingInput>>, sent: seq<seq<EmbeddingInput>>, batches: seq<seq<Item>>,
                           whole: bool) {
    && before <= sent && |sent| - |before| <= |batches| && (whole ==> |sent| - |before| == |batches|)
    && forall b :: |before| <= b < |sent| ==> sent[b] == Request(batches[b - |before|])
  }

  /** Where nothing is bisected, batch after batch is asked for, once each. */
  lemma {:induction false} BatchesSendOnce(w: World, bisect: bool, st: State, batches: seq<seq<Item>>)
    requires NoneEmpty(batches)
    requires NoneHalved(w, bisect, |st.sent|, RunBatches(w, bisect, st, batches).0.sent)
    ensures var r := RunBatches(w, bisect, st, batches); OneByOne(st.sent, r.0.sent, batches, !r.1)
    decreases |batches|
  {
    if batches != [] && !w.done(st.polls) {
      var r := Embed(w, bisect, Polled(st), batches[0]);
      FirstSentOnce(w, bisect, st, batches);
      if !r.1 {
        var last := RunBatches(w, bisect, r.0, batches[1..]);
        BatchesSendOnce(w, bisect, r.0, batches[1..]);
        SentBehind(st.sent, r.0.sent, last.0.sent, batches, !last.1);
      }
    }
  }

  lemma FirstSentOnce(w: World, bisect: bool, st: State, batches: seq<seq<Item>>)
    requires NoneEmpty(batches) && batches != [] && !w.done(st.polls)
    requires NoneHalved(w, bisect, |st.sent|, RunBatches(w, bisect, st, batches).0.sent)
    ensures Embed(w, bisect, Polled(st), batches[0]).0.sent == st.sent + [Request(batches[0])]
  {
    var r, sent := Embed(w, bisect, Polled(st), batches[0]), RunBatches(w, bisect, st, batches).0.sent;
    FirstBatchOnce(w, bisect, Polled(st), batches[0]);
    if !r.1 {
      BatchesCallsGrow(w, bisect, r.0, batches[1..]);
    }
    assert r.0.sent[|st.sent|] == sent[|st.sent|];
  }

  /** One batch is one call, or its request is refused. */
  lemma FirstBatchOnce(w: World, bisect: bool, st: State, batch: seq<Item>)
    requires batch != []
    ensures var sent := Embed(w, bisect, st, batch).0.sent;
            && |st.sent| < |sent| && sent[|st.sent|] == Request(batch)
            && (sent == st.sent + [Request(batch)] || (bisect && Refused(w, |st.sent|, Request(batch))))
  {
    var o := Attempt(w, bisect, st, batch);
    assert o.st.sent == st.sent + [Request(batch)];
    if o.Retry? {
      HalvesCalls(w, bisect, o.st, batch);
      assert o.st.sent[|st.sent|] == Request(batch);
    }
  }

  lemma SentBehind(before: seq<seq<EmbeddingInput>>, mid: seq<seq<EmbeddingInput>>, sent: seq<seq<EmbeddingInput>>,
                   batches: seq<seq<Item>>, whole: bool)
    requires batches != [] && mid == before + [Request(batches[0])] && OneByOne(mid, sent, batches[1..], whole)
    ensures OneByOne(before, sent, batches, whole)
  {
    forall b | |before| <= b < |sent|
      ensures sent[b] == Request(batches[b - |before|])
    {
      assert b > |before| ==> sent[b] == Request(batches[1..][b - |mid|]);
    }
  }

  /** Unless a call is bisected, a run asks for its batches one by one, and for all of them when it is not canceled. */
  lemma RunSendsOnce(w: World, inputs: seq<Input>, cfg: RunConfig)
    requires NoneHalved(w, !cfg.DisableBisect, 0, RunState(w, inputs, cfg).0.sent)
    ensures var (st, canceled) := RunState(w, inputs, cfg); OneByOne([], st.sent, BatchesOf(inputs, cfg), !canceled)
  {
    BatchesNoneEmpty(Items(inputs, cfg), 0, MaxInputs(cfg), MaxTokens(cfg));
    BatchesSendOnce(w, !cfg.DisableBisect, StartState(inputs), BatchesOf(inputs, cfg));
  }

  predicate Refused(w: World, n: nat, request: seq<EmbeddingInput>) {
    w.client(n, request).ClientError? && |request| > 1
  }

  /** The n-th call, refused, is followed at once by its first half, and later by its second half. */
  ghost predicate HalvesFollow(sent: seq<seq<EmbeddingInput>>, n: nat)
    requires n < |sent|
  {
    var mid := |sent[n]| / 2;
    && n + 1 < |sent| && sent[n + 1] == sent[n][..mid]
    && exists m :: n + 1 < m < |sent| && sent[m] == sent[n][mid..]
  }

  /** Of the calls after `st`, each refused one is tried again in halves, as far as the run was not stopped. */
  ghost predicate Bisects(w: World, st: State, st': State, stopped: bool) {
    && st.sent <= st'.sent
    && forall n: nat :: |st.sent| <= n < |st'.sent| && Refused(w, n, st'.sent[n]) ==>
         && (!stopped ==> HalvesFollow(st'.sent, n))
         && (n + 1 < |st'.sent| ==> st'.sent[n + 1] == st'.sent[n][..|st'.sent[n]| / 2])
  }

  lemma HalvesStillFollow(sent: seq<seq<EmbeddingInput>>, sent': seq<seq<EmbeddingInput>>, n: nat)
    requires sent <= sent' && n < |sent| && HalvesFollow(sent, n)
    ensures HalvesFollow(sent', n)
  {
    assert sent[n] == sent'[n];
    var m :| n + 1 < m < |sent| && sent[m] == sent[n][|sent[n]| / 2..];
    assert sent'[m] == sent[m];
  }

  lemma BisectsJoin(w: World, st: State, mid: State, st': State, stopped: bool)
    requires Bisects(w, st, mid, false) && Bisects(w, mid, st', stopped)
    ensures Bisects(w, st, st', stopped)
  {
    forall n: nat | |st.sent| <= n < |mid.sent| && Refused(w, n, st'.sent[n])
      ensures HalvesFollow(st'.sent, n)
    {
      assert st'.sent[n] == mid.sent[n];
      HalvesStillFollow(mid.sent, st'.sent, n);
    }
  }

  lemma RequestSlice(batch: seq<Item>, mid: nat)
    requires mid <= |batch|
    ensures Request(batch)[..mid] == Request(batch[..mid]) && Request(batch)[mid..] == Request(batch[mid..])
  {
  }

  lemma {:induction false} EmbedBisects(w: World, st: State, batch: seq<Item>)
    requires batch != []
    ensures var r := Embed(w, true, st, batch);
            && Bisects(w, st, r.0, r.1)
            && |st.sent| < |r.0.sent| && r.0.sent[|st.sent|] == Request(batch)
    decreases |batch|, 1
  {
    var o := Attempt(w, true, st, batch);
    assert o.st.sent == st.sent + [Request(batch)];
    if o.Retry? {
      var r := EmbedHalves(w, true, o.st, batch);
      HalvesBisect(w, o.st, batch);
      RequestSlice(batch, |batch| / 2);
      FirstCallBisects(w, st, o.st, r.0, Request(batch), r.1);
    }
  }

  /** A refused call whose halves are tried behind it. */
  lemma FirstCallBisects(w: World, st: State, mid: State, st': State, request: seq<EmbeddingInput>, stopped: bool)
    requires mid.sent == st.sent + [request] && Bisects(w, mid, st', stopped)
    requires |mid.sent| < |st'.sent| && st'.sent[|mid.sent|] == request[..|request| / 2]
    requires stopped || exists m :: |mid.sent| < m < |st'.sent| && st'.sent[m] == request[|request| / 2..]
    ensures Bisects(w, st, st', stopped)
  {
    assert st'.sent[|st.sent|] == request;
  }

  lemma {:induction false} HalvesBisect(w: World, st: State, batch: seq<Item>)
    requires |batch| > 1
    ensures var r := EmbedHalves(w, true, st, batch); var mid := |batch| / 2;
            && Bisects(w, st, r.0, r.1)
            && |st.sent| < |r.0.sent| && r.0.sent[|st.sent|] == Request(batch[..mid])
            && (r.1 || exists m :: |st.sent| < m < |r.0.sent| && r.0.sent[m] == Request(batch[mid..]))
    decreases |batch|, 0
  {
    var mid := |batch| / 2;
    var left := Embed(w, true, st, batch[..mid]);
    EmbedBisects(w, st, batch[..mid]);
    if !left.1 {
      var r := Embed(w, true, left.0, batch[mid..]);
      EmbedBisects(w, left.0, batch[mid..]);
      BisectsJoin(w, st, left.0, r.0, r.1);
    }
  }

  lemma {:induction false} BatchesBisect(w: World, st: State, batches: seq<seq<Item>>)
    requires NoneEmpty(batches)
    ensures var r := RunBatches(w, true, st, batches); Bisects(w, st, r.0, r.1)
    decreases |batches|
  {
    if batches != [] && !w.done(st.polls) {
      var r := Embed(w, true, Polled(st), batches[0]);
      EmbedBisects(w, Polled(st), batches[0]);
      if !r.1 {
        var last := RunBatches(w, true, r.0, batches[1..]);
        BatchesBisect(w, r.0, batches[1..]);
        BisectsJoin(w, Polled(st), r.0, last.0, last.1);
      }
    }
  }

  /** With bisection, every refused call for several inputs is tried again in halves, the first half at once. */
  lemma RunBisects(w: World, inputs: seq<Input>, cfg: RunConfig)
    requires !cfg.DisableBisect
    ensures var (st, canceled) := RunState(w, inputs, cfg);
            && (forall n: nat :: n < |st.sent| && Refused(w, n, st.sent[n]) && !canceled ==> HalvesFollow(st.sent, n))
            && (forall n: nat :: n + 1 < |st.sent| && Refused(w, n, st.sent[n]) ==>
                  st.sent[n + 1] == st.sent[n][..|st.sent[n]| / 2])
  {
    BatchesNoneEmpty(Items(inputs, cfg), 0, MaxInputs(cfg), MaxTokens(cfg));
    BatchesBisect(w, StartState(inputs), BatchesOf(inputs, cfg));
  }
}
