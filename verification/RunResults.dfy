/** What Run returns accounts for its inputs: the theorems on the run's state, read off the result itself. */
module RunResults {
  import opened Basics
  import opened Utf8
  import opened Space
  import opened Chunks
  import opened Packing
  import opened Batching
  import opened Embedding
  import opened Matching
  import opened Accounting
  import opened Bisection
  import opened Runner
  import opened RunTheorems
  import opened RunOrder

  // ----- reading a result -----

  /** The record carries the input's provenance, text and count. */
  predicate Carries(r: Record, input: Input, est: Estimator) {
    && r.SourceID == input.SourceID && r.ArtifactID == input.ArtifactID
    && r.ChunkIndex == input.Chunk.Index && r.Text == input.Chunk.Text
    && r.TokenCount == if input.Chunk.TokenCount > 0 then input.Chunk.TokenCount else est(input.Chunk.Text)
  }

  /** The failure returns the inputs at the given positions, in that order. */
  predicate FailureReads(inputs: seq<Input>, bf: BatchFailure, positions: seq<nat>) {
    && |bf.Inputs| == |positions|
    && forall k :: 0 <= k < |positions| ==> positions[k] < |inputs| && bf.Inputs[k] == inputs[positions[k]]
  }

  /**
    * The result's records carry the inputs at `stored`, and its failures return those at `failed`, one list for each.
    */
  ghost predicate Reads(inputs: seq<Input>, est: Estimator, result: RunResult, stored: seq<nat>,
                        failed: seq<seq<nat>>) {
    && |result.Records| == |stored| && Ascending(stored)
    && (forall k :: 0 <= k < |stored| ==> stored[k] < |inputs| && Carries(result.Records[k], inputs[stored[k]], est))
    && |result.Failures| == |failed|
    && (forall k :: 0 <= k < |failed| ==> FailureReads(inputs, result.Failures[k], failed[k]))
  }

  function Concat<T>(parts: seq<seq<T>>): seq<T> {
    if parts == [] then [] else Concat(parts[..|parts| - 1]) + parts[|parts| - 1]
  }

  /** How often a position is among those read off a result: as a record's, or as one of a failure's. */
  function Returned(stored: seq<nat>, failed: seq<seq<nat>>, p: nat): nat {
    Occurs(stored + Concat(failed), p)
  }

  /** The result Run returns. */
  ghost function Result(w: World, inputs: seq<Input>, cfg: RunConfig): RunResult {
    ResultOf(|inputs|, RunState(w, inputs, cfg).0)
  }

  ghost function Stored(w: World, inputs: seq<Input>, cfg: RunConfig): seq<nat> {
    RecordPositions(RunState(w, inputs, cfg).0.records, |inputs|)
  }

  function CoversOf(failures: seq<PosFailure>): (r: seq<seq<nat>>)
    ensures |r| == |failures|
  {
    seq(|failures|, k requires 0 <= k < |failures| => failures[k].covers)
  }

  ghost function Failed(w: World, inputs: seq<Input>, cfg: RunConfig): seq<seq<nat>> {
    CoversOf(ReportedFailures(w, inputs, cfg))
  }

  lemma {:induction false} ConcatCovers(failures: seq<PosFailure>, p: nat)
    ensures Occurs(Concat(CoversOf(failures)), p) == CoverCount(failures, p)
  {
    if failures != [] {
      var init := failures[..|failures| - 1];
      ConcatCovers(init, p);
      assert CoversOf(failures)[..|failures| - 1] == CoversOf(init);
      OccursConcat(Concat(CoversOf(init)), failures[|failures| - 1].covers, p);
    }
  }

  lemma {:induction false} AscendingOccurs(s: seq<nat>, p: nat)
    requires Ascending(s)
    ensures Occurs(s, p) == if p in s then 1 else 0
  {
    if s != [] {
      var init := s[..|s| - 1];
      AscendingOccurs(init, p);
      assert s == init + [s[|s| - 1]];
    }
  }

  lemma RecordsRead(w: World, inputs: seq<Input>, cfg: RunConfig, k: nat)
    requires k < |Result(w, inputs, cfg).Records| && k < |Stored(w, inputs, cfg)|
    ensures var p := Stored(w, inputs, cfg)[k];
            p < |inputs| && Carries(Result(w, inputs, cfg).Records[k], inputs[p], cfg.Estimate)
  {
    RecordsAscend(RunState(w, inputs, cfg).0.records, |inputs|);
    RunRecordsAnswer(w, inputs, cfg, Stored(w, inputs, cfg)[k]);
  }

  /**
    * Whatever the client answers, each record returned is that of its own input and carries the vector that some call
    * answered for that input's ID.
    */
  lemma RecordsAnswered(w: World, inputs: seq<Input>, cfg: RunConfig, k: nat) returns (p: nat, n: nat, v: Vector)
    requires k < |Result(w, inputs, cfg).Records|
    ensures |Stored(w, inputs, cfg)| == |Result(w, inputs, cfg).Records| && p == Stored(w, inputs, cfg)[k] < |inputs|
    ensures Carries(Result(w, inputs, cfg).Records[k], inputs[p], cfg.Estimate)
    ensures Result(w, inputs, cfg).Records[k].Values == v.Values && v.ID == RequestID(p)
    ensures var sent := RunState(w, inputs, cfg).0.sent;
            && n < |sent| && EmbeddingInput(RequestID(p), inputs[p].Chunk.Text) in sent[n]
            && w.client(n, sent[n]).Answer? && v in w.client(n, sent[n]).vectors
  {
    var st := RunState(w, inputs, cfg).0;
    RecordsAscend(st.records, |inputs|);
    p := Stored(w, inputs, cfg)[k];
    RunRecordsAnswer(w, inputs, cfg, p);
    RecordsRead(w, inputs, cfg, k);
    n, v := AnswerOf(w, st.sent, Item(p, inputs[p], TokensFor(inputs[p], cfg.Estimate)), st.records[p]);
  }

  lemma AnswerOf(w: World, sent: seq<seq<EmbeddingInput>>, it: Item, r: Record) returns (n: nat, v: Vector)
    requires AnsweredFor(w, 0, sent, it, r)
    ensures n < |sent| && EmbeddingInput(RequestID(it.pos), it.input.Chunk.Text) in sent[n]
    ensures w.client(n, sent[n]).Answer? && v in w.client(n, sent[n]).vectors
    ensures v.ID == RequestID(it.pos) && r.Values == v.Values
  {
    n :| n < |sent| && AnsweredAt(w, sent, n, it, r);
    v :| v in w.client(n, sent[n]).vectors && v.ID == RequestID(it.pos) && Stores(r, it, v.Values);
  }

  /** The result reads as the positions that the run's state has stored and failed. */
  lemma ResultReads(w: World, inputs: seq<Input>, cfg: RunConfig)
    ensures Reads(inputs, cfg.Estimate, Result(w, inputs, cfg), Stored(w, inputs, cfg), Failed(w, inputs, cfg))
  {
    var result, stored, reported := Result(w, inputs, cfg), Stored(w, inputs, cfg), ReportedFailures(w, inputs, cfg);
    RecordsAscend(RunState(w, inputs, cfg).0.records, |inputs|);
    forall k | 0 <= k < |stored|
      ensures stored[k] < |inputs| && Carries(result.Records[k], inputs[stored[k]], cfg.Estimate)
    {
      RecordsRead(w, inputs, cfg, k);
    }
    ReportedFailuresReport(w, inputs, cfg);
    forall k | 0 <= k < |reported|
      ensures FailureReads(inputs, result.Failures[k], CoversOf(reported)[k])
    {
      assert ReportsRun(inputs, reported[k]);
    }
  }

  lemma ReturnedIsMentions(w: World, inputs: seq<Input>, cfg: RunConfig, p: nat)
    ensures Returned(Stored(w, inputs, cfg), Failed(w, inputs, cfg), p) == Mentions(RunState(w, inputs, cfg).0, p)
    ensures Occurs(Concat(Failed(w, inputs, cfg)), p) == CoverCount(RunState(w, inputs, cfg).0.failures, p)
  {
    var st := RunState(w, inputs, cfg).0;
    OccursConcat(Stored(w, inputs, cfg), Concat(Failed(w, inputs, cfg)), p);
    RecordsAscend(st.records, |inputs|);
    AscendingOccurs(Stored(w, inputs, cfg), p);
    ConcatCovers(ReportedFailures(w, inputs, cfg), p);
    SortCovers(st.failures, p);
    if p in st.records {
      RunRecordsAnswer(w, inputs, cfg, p);
    }
  }

  // ----- every position is accounted for -----

  /**
    * For any client and any cancellation: the positions read off the result are exactly those of the invalid inputs and
    * of the first Done valid ones, and no position is in two failures.
    */
  lemma RunAccounts(w: World, inputs: seq<Input>, cfg: RunConfig) returns (stored: seq<nat>, failed: seq<seq<nat>>)
    ensures Reads(inputs, cfg.Estimate, Result(w, inputs, cfg), stored, failed)
    ensures forall p: nat ::
              Returned(stored, failed, p) > 0 <==>
              IsInvalid(inputs, p) || Among(Items(inputs, cfg), Done(w, inputs, cfg), p) > 0
    ensures forall p: nat :: Occurs(Concat(failed), p) <= 1
  {
    stored, failed := Stored(w, inputs, cfg), Failed(w, inputs, cfg);
    ResultReads(w, inputs, cfg);
    forall p: nat
      ensures Returned(stored, failed, p) > 0 <==>
              IsInvalid(inputs, p) || Among(Items(inputs, cfg), Done(w, inputs, cfg), p) > 0
      ensures Occurs(Concat(failed), p) <= 1
    {
      ReturnedIsMentions(w, inputs, cfg, p);
      StateAccounts(w, inputs, cfg, p);
    }
  }

  /**
    * The exact account for any client: the invalid inputs and a prefix of the valid ones are returned once, and a
    * position once more for every torn reply.
    */
  lemma RunCounts(w: World, inputs: seq<Input>, cfg: RunConfig) returns (stored: seq<nat>, failed: seq<seq<nat>>)
    ensures Reads(inputs, cfg.Estimate, Result(w, inputs, cfg), stored, failed)
    ensures forall p: nat ::
              Returned(stored, failed, p) ==
              (if IsInvalid(inputs, p) then 1 else 0) + Among(Items(inputs, cfg), Done(w, inputs, cfg), p) +
              TornReplies(w, inputs, cfg, p)
  {
    stored, failed := Stored(w, inputs, cfg), Failed(w, inputs, cfg);
    ResultReads(w, inputs, cfg);
    forall p: nat
      ensures Returned(stored, failed, p) ==
              (if IsInvalid(inputs, p) then 1 else 0) + Among(Items(inputs, cfg), Done(w, inputs, cfg), p) +
              TornReplies(w, inputs, cfg, p)
    {
      ReturnedIsMentions(w, inputs, cfg, p);
      StateCounts(w, inputs, cfg, p);
    }
  }

  // ----- conservation, said of the returned lists alone -----

  /** The input is in the result: in a record, or among the inputs of a failure. */
  ghost predicate InResult(result: RunResult, input: Input, est: Estimator) {
    || (exists r :: r in result.Records && Carries(r, input, est))
    || (exists f :: f in result.Failures && input in f.Inputs)
  }

  lemma {:induction false} InConcat(parts: seq<seq<nat>>, p: nat)
    requires p in Concat(parts)
    ensures exists k :: 0 <= k < |parts| && p in parts[k]
    decreases |parts|
  {
    var init := parts[..|parts| - 1];
    if p in Concat(init) {
      InConcat(init, p);
      var k :| 0 <= k < |init| && p in init[k];
      assert parts[k] == init[k];
    } else {
      assert p in parts[|parts| - 1];
    }
  }

  lemma ReadPositionInResult(inputs: seq<Input>, est: Estimator, result: RunResult, stored: seq<nat>,
                             failed: seq<seq<nat>>, p: nat)
    requires Reads(inputs, est, result, stored, failed) && p < |inputs| && Returned(stored, failed, p) > 0
    ensures InResult(result, inputs[p], est)
  {
    OccursIff(stored + Concat(failed), p);
    if p in stored {
      var k :| 0 <= k < |stored| && stored[k] == p;
      assert result.Records[k] in result.Records;
    } else {
      InConcat(failed, p);
      var k :| 0 <= k < |failed| && p in failed[k];
      var j :| 0 <= j < |failed[k]| && failed[k][j] == p;
      assert result.Failures[k].Inputs[j] == inputs[p] && result.Failures[k] in result.Failures;
    }
  }

  /** A run that returns no error leaves no input out of its result, and returns nothing that is not an input. */
  lemma RunConserves(w: World, inputs: seq<Input>, cfg: RunConfig)
    requires !RunState(w, inputs, cfg).1
    ensures forall x :: x in inputs ==> InResult(Result(w, inputs, cfg), x, cfg.Estimate)
    ensures forall r :: r in Result(w, inputs, cfg).Records ==> exists x :: x in inputs && Carries(r, x, cfg.Estimate)
    ensures forall f, x :: f in Result(w, inputs, cfg).Failures && x in f.Inputs ==> x in inputs
  {
    var result, stored, failed := Result(w, inputs, cfg), Stored(w, inputs, cfg), Failed(w, inputs, cfg);
    ResultReads(w, inputs, cfg);
    forall x | x in inputs
      ensures InResult(result, x, cfg.Estimate)
    {
      var p :| 0 <= p < |inputs| && inputs[p] == x;
      StateConserves(w, inputs, cfg, p);
      ReturnedIsMentions(w, inputs, cfg, p);
      ReadPositionInResult(inputs, cfg.Estimate, result, stored, failed, p);
    }
    forall r | r in result.Records
      ensures exists x :: x in inputs && Carries(r, x, cfg.Estimate)
    {
      var k :| 0 <= k < |result.Records| && result.Records[k] == r;
      assert inputs[stored[k]] in inputs;
    }
    forall f, x | f in result.Failures && x in f.Inputs
      ensures x in inputs
    {
      var k :| 0 <= k < |result.Failures| && result.Failures[k] == f;
      assert FailureReads(inputs, f, failed[k]);
    }
  }

  // ----- exactly once, said of the returned lists alone -----

  /** What a record and a returned input have in common. */
  datatype Key = Key(SourceID: string, ArtifactID: string, ChunkIndex: int, Text: bytes)

  function InputKey(x: Input): Key {
    Key(x.SourceID, x.ArtifactID, x.Chunk.Index, x.Chunk.Text)
  }

  function RecordKey(r: Record): Key {
    Key(r.SourceID, r.ArtifactID, r.ChunkIndex, r.Text)
  }

  function InputKeys(inputs: seq<Input>): (r: seq<Key>)
    ensures |r| == |inputs|
  {
    seq(|inputs|, k requires 0 <= k < |inputs| => InputKey(inputs[k]))
  }

  function RecordKeys(records: seq<Record>): (r: seq<Key>)
    ensures |r| == |records|
  {
    seq(|records|, k requires 0 <= k < |records| => RecordKey(records[k]))
  }

  function FailureKeys(failures: seq<BatchFailure>): seq<Key> {
    if failures == [] then [] else FailureKeys(failures[..|failures| - 1]) + InputKeys(failures[|failures| - 1].Inputs)
  }

  /** All that a result returns. */
  function ResultKeys(result: RunResult): seq<Key> {
    RecordKeys(result.Records) + FailureKeys(result.Failures)
  }

  /** The inputs at the given positions. */
  function KeysAt(inputs: seq<Input>, positions: seq<nat>): (r: seq<Key>)
    requires forall k :: 0 <= k < |positions| ==> positions[k] < |inputs|
    ensures |r| == |positions|
  {
    seq(|positions|, k requires 0 <= k < |positions| => InputKey(inputs[positions[k]]))
  }

  ghost predicate InRange(positions: seq<nat>, n: nat) {
    forall k :: 0 <= k < |positions| ==> positions[k] < n
  }

  lemma KeysAtConcat(inputs: seq<Input>, a: seq<nat>, b: seq<nat>)
    requires InRange(a, |inputs|) && InRange(b, |inputs|)
    ensures InRange(a + b, |inputs|) && KeysAt(inputs, a + b) == KeysAt(inputs, a) + KeysAt(inputs, b)
  {
  }

  lemma {:induction false} FailuresRead(inputs: seq<Input>, failures: seq<BatchFailure>, failed: seq<seq<nat>>)
    requires |failures| == |failed| && forall k :: 0 <= k < |failed| ==> FailureReads(inputs, failures[k], failed[k])
    ensures InRange(Concat(failed), |inputs|) && FailureKeys(failures) == KeysAt(inputs, Concat(failed))
    decreases |failed|
  {
    if failed != [] {
      var n := |failed| - 1;
      FailuresRead(inputs, failures[..n], failed[..n]);
      assert FailureReads(inputs, failures[n], failed[n]);
      assert InputKeys(failures[n].Inputs) == KeysAt(inputs, failed[n]);
      KeysAtConcat(inputs, Concat(failed[..n]), failed[n]);
    }
  }

  /** What a result returns are the inputs at the positions it reads as. */
  lemma ResultKeysRead(inputs: seq<Input>, est: Estimator, result: RunResult, stored: seq<nat>, failed: seq<seq<nat>>)
    requires Reads(inputs, est, result, stored, failed)
    ensures InRange(stored + Concat(failed), |inputs|)
    ensures ResultKeys(result) == KeysAt(inputs, stored + Concat(failed))
  {
    assert RecordKeys(result.Records) == KeysAt(inputs, stored);
    FailuresRead(inputs, result.Failures, failed);
    KeysAtConcat(inputs, stored, Concat(failed));
  }

  lemma {:induction false} OccursIsMultiset(s: seq<nat>, p: nat)
    ensures Occurs(s, p) == multiset(s)[p]
  {
    if s != [] {
      OccursIsMultiset(s[..|s| - 1], p);
      assert s == s[..|s| - 1] + [s[|s| - 1]];
    }
  }

  lemma SameMultiset(s: seq<nat>, t: seq<nat>)
    requires forall p: nat :: Occurs(s, p) == Occurs(t, p)
    ensures multiset(s) == multiset(t)
  {
    forall p: nat
      ensures multiset(s)[p] == multiset(t)[p]
    {
      OccursIsMultiset(s, p);
      OccursIsMultiset(t, p);
    }
  }

  /** The order of positions does not matter to what stands there. */
  lemma {:induction false} KeysAtMultiset(inputs: seq<Input>, s: seq<nat>, t: seq<nat>)
    requires InRange(s, |inputs|) && InRange(t, |inputs|) && multiset(s) == multiset(t)
    ensures multiset(KeysAt(inputs, s)) == multiset(KeysAt(inputs, t))
    decreases |s|
  {
    assert |s| == |multiset(s)| == |multiset(t)| == |t|;
    if s != [] {
      var n := |s| - 1;
      var init, last := s[..n], s[n];
      var a, b := TakeOut(s, t, |inputs|);
      assert s == init + [last];
      KeysAtMultiset(inputs, init, a + b);
      KeysAtConcat(inputs, init, [last]);
      KeysAtAround(inputs, a, last, b);
    }
  }

  /** The last entry of `s` stands somewhere in `t`, and what is left of both is the same again. */
  lemma TakeOut(s: seq<nat>, t: seq<nat>, n: nat) returns (a: seq<nat>, b: seq<nat>)
    requires s != [] && multiset(s) == multiset(t) && InRange(t, n)
    ensures t == a + [s[|s| - 1]] + b && InRange(a, n) && InRange(b, n)
    ensures multiset(s[..|s| - 1]) == multiset(a + b)
  {
    var init: seq<nat>, last: nat := s[..|s| - 1], s[|s| - 1];
    assert s == init + [last];
    assert last in multiset(s);
    a, b := SplitAround(t, last, n);
    OneFewer(init, last, a, b);
  }

  lemma SplitAround(t: seq<nat>, x: nat, n: nat) returns (a: seq<nat>, b: seq<nat>)
    requires x in multiset(t) && InRange(t, n)
    ensures t == a + [x] + b && InRange(a, n) && InRange(b, n)
  {
    var j :| 0 <= j < |t| && t[j] == x;
    a, b := t[..j], t[j + 1..];
  }

  lemma OneFewer(init: seq<nat>, last: nat, a: seq<nat>, b: seq<nat>)
    requires multiset(init + [last]) == multiset(a + [last] + b)
    ensures multiset(init) == multiset(a + b)
  {
    forall x: nat
      ensures multiset(init)[x] == multiset(a + b)[x]
    {
      assert multiset(init + [last])[x] == multiset(init)[x] + multiset{last}[x];
      assert multiset(a + [last] + b)[x] == multiset(a)[x] + multiset{last}[x] + multiset(b)[x];
    }
  }

  lemma KeysAtAround(inputs: seq<Input>, a: seq<nat>, p: nat, b: seq<nat>)
    requires InRange(a, |inputs|) && p < |inputs| && InRange(b, |inputs|)
    ensures InRange(a + b, |inputs|) && InRange(a + [p] + b, |inputs|)
    ensures multiset(KeysAt(inputs, a + [p] + b)) == multiset(KeysAt(inputs, a + b)) + multiset(KeysAt(inputs, [p]))
  {
    KeysAtConcat(inputs, a, b);
    KeysAtConcat(inputs, a, [p]);
    KeysAtConcat(inputs, a + [p], b);
  }

  function UpTo(n: nat): (r: seq<nat>)
    ensures |r| == n
  {
    seq(n, k => k)
  }

  lemma UpToOccurs(n: nat, p: nat)
    ensures InRange(UpTo(n), n) && Occurs(UpTo(n), p) == if p < n then 1 else 0
  {
    AscendingOccurs(UpTo(n), p);
    assert p < n ==> UpTo(n)[p] == p;
  }

  /** n positions below n that leave none out hold each of them once. */
  lemma EachOnce(s: seq<nat>, n: nat)
    requires |s| == n && forall p: nat :: p < n ==> Occurs(s, p) >= 1
    ensures multiset(s) == multiset(UpTo(n))
  {
    forall p: nat
      ensures multiset(UpTo(n))[p] <= multiset(s)[p]
    {
      UpToOccurs(n, p);
      OccursIsMultiset(UpTo(n), p);
      OccursIsMultiset(s, p);
    }
    assert multiset(UpTo(n)) <= multiset(s);
    assert |multiset(s) - multiset(UpTo(n))| == 0;
  }

  // ----- which inputs a result returns, as a multiset -----

  /** A result that reads as positions which occur as often as those of `positions` returns what stands there. */
  lemma ReturnsThose(inputs: seq<Input>, est: Estimator, result: RunResult, stored: seq<nat>, failed: seq<seq<nat>>,
                     positions: seq<nat>)
    requires Reads(inputs, est, result, stored, failed) && InRange(positions, |inputs|)
    requires forall p: nat :: Returned(stored, failed, p) == Occurs(positions, p)
    ensures multiset(ResultKeys(result)) == multiset(KeysAt(inputs, positions))
  {
    ResultKeysRead(inputs, est, result, stored, failed);
    forall p: nat
      ensures Occurs(stored + Concat(failed), p) == Occurs(positions, p)
    {
      assert Returned(stored, failed, p) == Occurs(positions, p);
    }
    SameMultiset(stored + Concat(failed), positions);
    KeysAtMultiset(inputs, stored + Concat(failed), positions);
  }

  lemma AllKeys(inputs: seq<Input>)
    ensures InRange(UpTo(|inputs|), |inputs|) && KeysAt(inputs, UpTo(|inputs|)) == InputKeys(inputs)
  {
  }

  /** A run without error returns exactly its inputs, each once, if and only if no reply is torn anywhere. */
  lemma RunExactlyOnceIff(w: World, inputs: seq<Input>, cfg: RunConfig)
    requires !RunState(w, inputs, cfg).1
    ensures multiset(ResultKeys(Result(w, inputs, cfg))) == multiset(InputKeys(inputs)) <==>
            forall p: nat :: TornReplies(w, inputs, cfg, p) == 0
  {
    var stored, failed := Stored(w, inputs, cfg), Failed(w, inputs, cfg);
    ResultReads(w, inputs, cfg);
    AllKeys(inputs);
    if forall p: nat :: TornReplies(w, inputs, cfg, p) == 0 {
      forall p: nat
        ensures Returned(stored, failed, p) == Occurs(UpTo(|inputs|), p)
      {
        NothingTornOnce(w, inputs, cfg, p);
      }
      ReturnsThose(inputs, cfg.Estimate, Result(w, inputs, cfg), stored, failed, UpTo(|inputs|));
    }
    if multiset(ResultKeys(Result(w, inputs, cfg))) == multiset(InputKeys(inputs)) {
      forall p: nat
        ensures TornReplies(w, inputs, cfg, p) == 0
      {
        OnceNothingTorn(w, inputs, cfg, p);
      }
    }
  }

  lemma NothingTornOnce(w: World, inputs: seq<Input>, cfg: RunConfig, p: nat)
    requires !RunState(w, inputs, cfg).1 && TornReplies(w, inputs, cfg, p) == 0
    ensures Returned(Stored(w, inputs, cfg), Failed(w, inputs, cfg), p) == Occurs(UpTo(|inputs|), p)
  {
    ReturnedIsMentions(w, inputs, cfg, p);
    StateConserves(w, inputs, cfg, p);
    if p < |inputs| {
      StateExactlyOnceIff(w, inputs, cfg, p);
    }
    UpToOccurs(|inputs|, p);
  }

  lemma OnceNothingTorn(w: World, inputs: seq<Input>, cfg: RunConfig, p: nat)
    requires !RunState(w, inputs, cfg).1
    requires multiset(ResultKeys(Result(w, inputs, cfg))) == multiset(InputKeys(inputs))
    ensures TornReplies(w, inputs, cfg, p) == 0
  {
    var stored, failed := Stored(w, inputs, cfg), Failed(w, inputs, cfg);
    var all := stored + Concat(failed);
    ResultReads(w, inputs, cfg);
    ResultKeysRead(inputs, cfg.Estimate, Result(w, inputs, cfg), stored, failed);
    assert |all| == |multiset(ResultKeys(Result(w, inputs, cfg)))| == |inputs|;
    forall q: nat | q < |inputs|
      ensures Occurs(all, q) >= 1
    {
      ReturnedIsMentions(w, inputs, cfg, q);
      StateConserves(w, inputs, cfg, q);
    }
    EachOnce(all, |inputs|);
    OccursIsMultiset(all, p);
    OccursIsMultiset(UpTo(|inputs|), p);
    UpToOccurs(|inputs|, p);
    ReturnedIsMentions(w, inputs, cfg, p);
    StateConserves(w, inputs, cfg, p);
    StateCounts(w, inputs, cfg, p);
    if p < |inputs| {
      StateExactlyOnceIff(w, inputs, cfg, p);
    }
  }

  /** The position of one input, when it is invalid. */
  function InvalidAt(inputs: seq<Input>, p: nat): seq<nat> {
    if IsInvalid(inputs, p) then [p] else []
  }

  /** The positions of the invalid inputs among the first `n`. */
  function InvalidPositions(inputs: seq<Input>, n: nat): seq<nat> {
    if n == 0 then [] else InvalidPositions(inputs, n - 1) + InvalidAt(inputs, n - 1)
  }

  lemma {:induction false} InvalidPositionsAscend(inputs: seq<Input>, n: nat)
    ensures InRange(InvalidPositions(inputs, n), n) && Ascending(InvalidPositions(inputs, n))
  {
    if n > 0 {
      InvalidPositionsAscend(inputs, n - 1);
    }
  }

  lemma {:induction false} InvalidPositionsAre(inputs: seq<Input>, n: nat, p: nat)
    ensures p in InvalidPositions(inputs, n) <==> p < n && IsInvalid(inputs, p)
  {
    if n > 0 {
      InvalidPositionsAre(inputs, n - 1, p);
      assert p in InvalidAt(inputs, n - 1) <==> p == n - 1 && IsInvalid(inputs, p);
    }
  }

  /** The positions a run deals with: those of the invalid inputs, and of the first Done valid ones. */
  ghost function DealtWith(w: World, inputs: seq<Input>, cfg: RunConfig): seq<nat> {
    InvalidPositions(inputs, |inputs|) + Positions(Items(inputs, cfg))[..Done(w, inputs, cfg)]
  }

  lemma DealtWithInRange(w: World, inputs: seq<Input>, cfg: RunConfig)
    ensures InRange(DealtWith(w, inputs, cfg), |inputs|)
  {
    InvalidPositionsAscend(inputs, |inputs|);
    ItemsAreOfRun(inputs, cfg);
  }

  lemma DealtWithOccurs(w: World, inputs: seq<Input>, cfg: RunConfig, p: nat)
    ensures Occurs(DealtWith(w, inputs, cfg), p) ==
            (if IsInvalid(inputs, p) then 1 else 0) + Among(Items(inputs, cfg), Done(w, inputs, cfg), p)
  {
    var invalid := InvalidPositions(inputs, |inputs|);
    InvalidPositionsAscend(inputs, |inputs|);
    InvalidPositionsAre(inputs, |inputs|, p);
    AscendingOccurs(invalid, p);
    OccursConcat(invalid, Positions(Items(inputs, cfg))[..Done(w, inputs, cfg)], p);
  }

  /**
    * When successful responses hold only requested IDs: a run without error returns exactly its inputs, each once; a
    * canceled one exactly the invalid inputs and a prefix of the valid ones, each once.
    */
  lemma RunExactlyOnce(w: World, inputs: seq<Input>, cfg: RunConfig)
    requires Honest(w)
    ensures InRange(DealtWith(w, inputs, cfg), |inputs|)
    ensures multiset(ResultKeys(Result(w, inputs, cfg))) == multiset(KeysAt(inputs, DealtWith(w, inputs, cfg)))
    ensures !RunState(w, inputs, cfg).1 ==> multiset(ResultKeys(Result(w, inputs, cfg))) == multiset(InputKeys(inputs))
  {
    DealtWithInRange(w, inputs, cfg);
    ResultReads(w, inputs, cfg);
    forall p: nat
      ensures Returned(Stored(w, inputs, cfg), Failed(w, inputs, cfg), p) == Occurs(DealtWith(w, inputs, cfg), p)
    {
      ReturnedIsMentions(w, inputs, cfg, p);
      StateExactlyOnce(w, inputs, cfg, p);
      DealtWithOccurs(w, inputs, cfg, p);
    }
    ReturnsThose(inputs, cfg.Estimate, Result(w, inputs, cfg), Stored(w, inputs, cfg), Failed(w, inputs, cfg),
                 DealtWith(w, inputs, cfg));
    if !RunState(w, inputs, cfg).1 {
      forall p: nat
        ensures TornReplies(w, inputs, cfg, p) == 0
      {
        BatchesNoneEmpty(Items(inputs, cfg), 0, MaxInputs(cfg), MaxTokens(cfg));
        HonestRunNeverTorn(w, !cfg.DisableBisect, StartState(inputs), BatchesOf(inputs, cfg), p);
      }
      RunExactlyOnceIff(w, inputs, cfg);
    }
  }

  // ----- the condition is needed: a run whose only reply is torn -----

  /** Two inputs, both valid, that make up one batch. */
  const TWO_INPUTS: seq<Input> := [Input("s", "a", Chunk([65], 0, 0, 1, 1)), Input("s", "a", Chunk([66], 1, 1, 2, 1))]
  const TWO_PER_BATCH: RunConfig := RunConfig(2, 2, s => 1, false)

  /** It answers the first input, and a second one nobody asked about. */
  const STRANGER: World := World((n, request) => Answer([Vector("in-0", []), Vector("x", [])]), n => false)

  function TwoItems(): seq<Item> {
    [Item(0, TWO_INPUTS[0], 1), Item(1, TWO_INPUTS[1], 1)]
  }

  lemma TwoInputsOneBatch()
    ensures BatchesOf(TWO_INPUTS, TWO_PER_BATCH) == [TwoItems()]
  {
    var letters := [TWO_INPUTS[0].Chunk.Text, TWO_INPUTS[1].Chunk.Text];
    assert !IsBlank(letters[0]) && !IsBlank(letters[1]);
    var items, est := Items(TWO_INPUTS, TWO_PER_BATCH), TWO_PER_BATCH.Estimate;
    assert ValidItems(TWO_INPUTS, est, 1) == ValidItems(TWO_INPUTS, est, 0) + [TwoItems()[0]];
    assert items == TwoItems();
    var tok := TokensOf(items);
    assert Sum(tok, 0, 2) == Sum(tok, 0, 1) + tok[1] && Sum(tok, 0, 1) == Sum(tok, 0, 0) + tok[0];
    assert Fill(tok, 0, 1, 2, 2) == 2;
    assert items[0..2] == items;
  }

  lemma StrangerTears()
    ensures Tears(TwoItems(), STRANGER.client(0, Request(TwoItems())).vectors, 0)
  {
    var items, vectors := TwoItems(), STRANGER.client(0, Request(TwoItems())).vectors;
    assert RequestID(0)[3] == '0' && RequestID(1)[3] == '1';
    assert vectors[0].ID == RequestID(0);
    assert Answers(vectors, items[0]) && !Answers(vectors, items[1]);
    assert StoredAt(items, vectors, 0, 0);
  }

  /** The state the one reply leaves: the first input stored, and both failed. */
  ghost function TornState(): State {
    var st := State(map[], [], [Request(TwoItems())], 1);
    Fail(st.(records := map[0 := RecordOf(TwoItems()[0], [])]), TwoItems(), ResponseMismatch, false)
  }

  lemma StrangerAccepted()
    ensures Accepted(State(map[], [], [Request(TwoItems())], 1), TwoItems(), [Vector("in-0", []), Vector("x", [])]) ==
            TornState()
  {
    var items, vectors := TwoItems(), [Vector("in-0", []), Vector("x", [])];
    StrangerTears();
    assert RequestID(0) == "in-0" && RequestID(1) == "in-1";
    ByIDKeys(vectors);
    assert vectors[..1] == [vectors[0]] && vectors[..1][..0] == [];
    assert ByID(vectors[..1]) == map["in-0" := []];
    assert ByID(vectors) == map["in-0" := [], "x" := []];
    assert items[1..] == [items[1]];
    assert Matched(map[0 := RecordOf(items[0], [])], items[1..], ByID(vectors)) ==
           (map[0 := RecordOf(items[0], [])], false);
  }

  lemma TornRunState()
    ensures RunState(STRANGER, TWO_INPUTS, TWO_PER_BATCH) == (TornState(), false)
  {
    TwoInputsOneBatch();
    assert InvalidFailures(TWO_INPUTS, 2) == [];
    StrangerEmbeds(Polled(StartState(TWO_INPUTS)));
    var batches := BatchesOf(TWO_INPUTS, TWO_PER_BATCH);
    assert batches == [TwoItems()] && batches[1..] == [];
  }

  lemma StrangerEmbeds(st: State)
    requires st == State(map[], [], [], 1)
    ensures Embed(STRANGER, true, st, TwoItems()) == (TornState(), false)
  {
    StrangerAccepted();
    var st1 := st.(sent := st.sent + [Request(TwoItems())]);
    assert st1 == State(map[], [], [Request(TwoItems())], 1);
    assert STRANGER.client(|st.sent|, Request(TwoItems())) == Answer([Vector("in-0", []), Vector("x", [])]);
    assert Attempt(STRANGER, true, st, TwoItems()) == Settled(TornState());
  }

  lemma TornResult()
    ensures ResultOf(2, TornState()) ==
            RunResult([RecordOf(TwoItems()[0], [])], [BatchFailure(TWO_INPUTS, ResponseMismatch, false)])
  {
    var st := TornState();
    var f := FailureOf(TwoItems(), ResponseMismatch, false);
    assert st.failures == [f] && st.failures[..0] == [];
    assert InputsOf(TwoItems()) == TWO_INPUTS;
    assert SortFailures(st.failures) == [f];
    assert RecordsInOrder(st.records, 0) == [];
    assert RecordsInOrder(st.records, 1) == [RecordOf(TwoItems()[0], [])];
    assert RecordsInOrder(st.records, 2) == RecordsInOrder(st.records, 1);
  }

  /**
    * This run returns no error and two copies of its first input: one in a record, one in the failure of the whole
    * batch.
    */
  lemma TornRunExample()
    ensures !RunState(STRANGER, TWO_INPUTS, TWO_PER_BATCH).1
    ensures Result(STRANGER, TWO_INPUTS, TWO_PER_BATCH) ==
            RunResult([RecordOf(TwoItems()[0], [])], [BatchFailure(TWO_INPUTS, ResponseMismatch, false)])
  {
    TornRunState();
    TornResult();
  }

  /** In the count by positions: position 0 is mentioned twice. */
  lemma TornRunMentions()
    ensures Mentions(RunState(STRANGER, TWO_INPUTS, TWO_PER_BATCH).0, 0) == 2
  {
    TwoInputsOneBatch();
    StrangerTears();
    TornRunState();
    StateCounts(STRANGER, TWO_INPUTS, TWO_PER_BATCH, 0);
    AmongAtMost(TWO_INPUTS, TWO_PER_BATCH, Done(STRANGER, TWO_INPUTS, TWO_PER_BATCH), 0);
  }
}
