/** The embedding runner: one call per batch, bisection of failing batches, answers matched by ID. */
module Embedding {
  import opened Basics
  import opened Utf8
  import opened Batching

  // ----- request IDs -----

  /** The opaque ID of the input at a position. */
  function RequestID(pos: nat): string {
    "in-" + Itoa(pos)
  }

  // ----- the client and the context, as arbitrary oracles -----

  datatype EmbeddingInput = EmbeddingInput(ID: string, Text: bytes)

  datatype Vector = Vector(ID: string, Values: seq<real>)

  /** What one Embed call comes back with; `canceled` says the error carries a context cancellation. */
  datatype Reply = Answer(vectors: seq<Vector>) | ClientError(canceled: bool, retryable: bool)

  /** The client's reply to its n-th call, and whether the n-th look at the run's context finds it done. */
  datatype World = World(client: (nat, seq<EmbeddingInput>) -> Reply, done: nat -> bool)

  // ----- results -----

  datatype Record = Record(
    SourceID: string, ArtifactID: string, ChunkIndex: int, Text: bytes, Values: seq<real>, TokenCount: int)

  datatype Error = InvalidInput(why: Invalid) | ClientFailed | ResponseMismatch

  datatype BatchFailure = BatchFailure(Inputs: seq<Input>, Err: Error, Retryable: bool)

  /** A failure with the smallest position it covers, and (for the statements below) all of them. */
  datatype PosFailure = PosFailure(pos: nat, bf: BatchFailure, covers: seq<nat>)

  /** What a run has gathered, the requests it has sent so far, and how often it has looked at the context. */
  datatype State = State(
    records: map<nat, Record>, failures: seq<PosFailure>, sent: seq<seq<EmbeddingInput>>, polls: nat)

  function Positions(batch: seq<Item>): (r: seq<nat>)
    ensures |r| == |batch|
  {
    seq(|batch|, k requires 0 <= k < |batch| => batch[k].pos)
  }

  function InputsOf(batch: seq<Item>): (r: seq<Input>)
    ensures |r| == |batch|
  {
    seq(|batch|, k requires 0 <= k < |batch| => batch[k].input)
  }

  function Request(batch: seq<Item>): (r: seq<EmbeddingInput>)
    ensures |r| == |batch|
  {
    seq(|batch|, k requires 0 <= k < |batch| => EmbeddingInput(RequestID(batch[k].pos), batch[k].input.Chunk.Text))
  }

  function MinPos(batch: seq<Item>): nat
    requires batch != []
  {
    if |batch| == 1 then batch[0].pos
    else
      var m := MinPos(batch[..|batch| - 1]);
      if batch[|batch| - 1].pos < m then batch[|batch| - 1].pos else m
  }

  function FailureOf(batch: seq<Item>, err: Error, retryable: bool): PosFailure
    requires batch != []
  {
    PosFailure(MinPos(batch), BatchFailure(InputsOf(batch), err, retryable), Positions(batch))
  }

  function Fail(st: State, batch: seq<Item>, err: Error, retryable: bool): State
    requires batch != []
  {
    st.(failures := st.failures + [FailureOf(batch, err, retryable)])
  }

  function RecordOf(it: Item, values: seq<real>): Record {
    Record(it.input.SourceID, it.input.ArtifactID, it.input.Chunk.Index, it.input.Chunk.Text, values, it.tokens)
  }

  // ----- matching a response -----

  /** No two vectors share an ID. */
  ghost predicate DistinctIDs(vectors: seq<Vector>) {
    forall i, j :: 0 <= i < j < |vectors| ==> vectors[i].ID != vectors[j].ID
  }

  /** The vectors by ID. */
  function ByID(vectors: seq<Vector>): map<string, seq<real>> {
    if vectors == [] then map[]
    else ByID(vectors[..|vectors| - 1])[vectors[|vectors| - 1].ID := vectors[|vectors| - 1].Values]
  }

  /** The records after the items of `batch` are matched in order, stopping at the first one without a vector. */
  function Matched(records: map<nat, Record>, batch: seq<Item>, byID: map<string, seq<real>>): (map<nat, Record>, bool)
    decreases |batch|
  {
    if batch == [] then (records, true)
    else if RequestID(batch[0].pos) !in byID then (records, false)
    else
      var it := batch[0];
      Matched(records[it.pos := RecordOf(it, byID[RequestID(it.pos)])], batch[1..], byID)
  }

  /** What a successful reply does: a duplicate, a wrong count or a missing ID fails the whole batch. */
  ghost function Accepted(st: State, batch: seq<Item>, vectors: seq<Vector>): State
    requires batch != []
  {
    if !DistinctIDs(vectors) || |vectors| != |batch| then Fail(st, batch, ResponseMismatch, false)
    else
      var (records, ok) := Matched(st.records, batch, ByID(vectors));
      if ok then st.(records := records) else Fail(st.(records := records), batch, ResponseMismatch, false)
  }

  // ----- embedBatch -----

  /** How one call on a batch ends: dealt with, run canceled, or to be tried again in halves. */
  datatype Outcome = Settled(st: State) | Halted(st: State) | Retry(st: State)

  ghost function Attempt(w: World, bisect: bool, st: State, batch: seq<Item>): Outcome
    requires batch != []
  {
    var st1 := st.(sent := st.sent + [Request(batch)]);
    match w.client(|st.sent|, Request(batch))
    case Answer(vectors) => Settled(Accepted(st1, batch, vectors))
    case ClientError(canceled, retryable) =>
      var st2 := st1.(polls := st1.polls + 1);
      if w.done(st.polls) || canceled then Halted(st2)
      else if bisect && |batch| > 1 then Retry(st2)
      else Settled(Fail(st2, batch, ClientFailed, retryable))
  }

  /** The state after one batch, and whether the run was canceled in it. */
  ghost function Embed(w: World, bisect: bool, st: State, batch: seq<Item>): (State, bool)
    requires batch != []
    decreases |batch|, 1
  {
    match Attempt(w, bisect, st, batch)
    case Settled(st') => (st', false)
    case Halted(st') => (st', true)
    case Retry(st') => EmbedHalves(w, bisect, st', batch)
  }

  /** The two halves of a failed batch, the second one only when the first was not cut short. */
  ghost function EmbedHalves(w: World, bisect: bool, st: State, batch: seq<Item>): (State, bool)
    requires |batch| > 1
    decreases |batch|, 0
  {
    var mid := |batch| / 2;
    var left := Embed(w, bisect, st, batch[..mid]);
    if left.1 then left else Embed(w, bisect, left.0, batch[mid..])
  }

  /** The records map and the failure list that every call of a run shares. */
  class Session {
    var records: map<nat, Record>
    var failures: seq<PosFailure>
    var sent: seq<seq<EmbeddingInput>>
    var polls: nat

    constructor ()
      ensures StateOf() == State(map[], [], [], 0)
    {
      records, failures, sent, polls := map[], [], [], 0;
    }

    function StateOf(): State
      reads this
    {
      State(records, failures, sent, polls)
    }

    /** One Embed call on the client. */
    method CallClient(w: World, request: seq<EmbeddingInput>) returns (reply: Reply)
      modifies this`sent
      ensures reply == w.client(|old(sent)|, request) && sent == old(sent) + [request]
    {
      reply := w.client(|sent|, request);
      sent := sent + [request];
    }

    /** One look at ctx.Err(). */
    method ContextDone(w: World) returns (b: bool)
      modifies this`polls
      ensures b == w.done(old(polls)) && polls == old(polls) + 1
    {
      b := w.done(polls);
      polls := polls + 1;
    }

    method AddBatchFailure(batch: seq<Item>, err: Error, retryable: bool)
      requires batch != []
      modifies this`failures
      ensures failures == old(failures) + [FailureOf(batch, err, retryable)]
    {
      var minPos := batch[0].pos;
      var ins: seq<Input> := [];
      for i := 0 to |batch|
        invariant |ins| == i && forall k :: 0 <= k < i ==> ins[k] == batch[k].input
        invariant minPos == if i == 0 then batch[0].pos else MinPos(batch[..i])
      {
        assert batch[..i + 1][..i] == batch[..i];
        ins := ins + [batch[i].input];
        if batch[i].pos < minPos {
          minPos := batch[i].pos;
        }
      }
      assert batch[..|batch|] == batch && ins == InputsOf(batch);
      failures := failures + [PosFailure(minPos, BatchFailure(ins, err, retryable), Positions(batch))];
    }

    /** The loop that stores one record per item until an ID is missing. */
    method StoreRecords(batch: seq<Item>, byID: map<string, seq<real>>) returns (ok: bool)
      modifies this`records
      ensures (records, ok) == Matched(old(records), batch, byID)
    {
      var i := 0;
      while i < |batch|
        invariant 0 <= i <= |batch|
        invariant Matched(records, batch[i..], byID) == Matched(old(records), batch, byID)
      {
        var it := batch[i];
        assert batch[i..][0] == it && batch[i..][1..] == batch[i + 1..];
        var id := RequestID(it.pos);
        if id !in byID {
          return false;
        }
        records := records[it.pos := RecordOf(it, byID[id])];
        i := i + 1;
      }
      ok := true;
    }

    /** A successful reply. */
    method AcceptReply(batch: seq<Item>, vectors: seq<Vector>)
      requires batch != []
      modifies this
      ensures StateOf() == Accepted(old(StateOf()), batch, vectors)
    {
      var byID, distinct := CollectVectors(vectors);
      if !distinct || |byID| != |batch| {
        AddBatchFailure(batch, ResponseMismatch, false);
        return;
      }
      var ok := StoreRecords(batch, byID);
      if !ok {
        AddBatchFailure(batch, ResponseMismatch, false);
      }
    }

    method EmbedBatch(w: World, bisect: bool, batch: seq<Item>) returns (canceled: bool)
      requires batch != []
      modifies this
      ensures (StateOf(), canceled) == Embed(w, bisect, old(StateOf()), batch)
      decreases |batch|, 1
    {
      var reply := CallClient(w, Request(batch));
      if reply.ClientError? {
        var done := ContextDone(w);
        if done || reply.canceled {
          return true;
        }
        if bisect && |batch| > 1 {
          canceled := Bisect(w, bisect, batch);
          return;
        }
        AddBatchFailure(batch, ClientFailed, reply.retryable);
        return false;
      }
      AcceptReply(batch, reply.vectors);
      return false;
    }

    method Bisect(w: World, bisect: bool, batch: seq<Item>) returns (canceled: bool)
      requires |batch| > 1
      modifies this
      ensures (StateOf(), canceled) == EmbedHalves(w, bisect, old(StateOf()), batch)
      decreases |batch|, 0
    {
      var mid := |batch| / 2;
      canceled := EmbedBatch(w, bisect, batch[..mid]);
      if canceled {
        return;
      }
      canceled := EmbedBatch(w, bisect, batch[mid..]);
    }
  }

  // ----- the answer table -----

  /** The table holds the IDs of the vectors and no other. */
  lemma {:induction false} ByIDKeys(vectors: seq<Vector>)
    ensures forall id :: id in ByID(vectors) <==> exists k :: 0 <= k < |vectors| && vectors[k].ID == id
  {
    if vectors != [] {
      var init := vectors[..|vectors| - 1];
      ByIDKeys(init);
      var last := vectors[|vectors| - 1];
      assert last.ID in ByID(vectors);
      forall id | id in ByID(vectors)
        ensures exists k :: 0 <= k < |vectors| && vectors[k].ID == id
      {
        if id in ByID(init) {
          var k :| 0 <= k < |init| && init[k].ID == id;
          assert vectors[k].ID == id;
        }
      }
      forall k | 0 <= k < |vectors|
        ensures vectors[k].ID in ByID(vectors)
      {
        if k < |init| {
          assert init[k].ID in ByID(init);
        }
      }
    }
  }

  /** With distinct IDs, each vector is found under its own ID. */

  /** One more vector keeps the IDs distinct exactly when its own is not in the table yet. */
  lemma NextDistinct(vectors: seq<Vector>, i: nat)
    requires i < |vectors| && DistinctIDs(vectors[..i])
    ensures DistinctIDs(vectors[..i + 1]) <==> vectors[i].ID !in ByID(vectors[..i])
    ensures vectors[i].ID in ByID(vectors[..i]) ==> !DistinctIDs(vectors)
    ensures ByID(vectors[..i + 1]) == ByID(vectors[..i])[vectors[i].ID := vectors[i].Values]
  {
    ByIDKeys(vectors[..i]);
    assert vectors[..i + 1][..i] == vectors[..i];
    if k :| 0 <= k < i && vectors[k].ID == vectors[i].ID {
      assert vectors[..i][k].ID in ByID(vectors[..i]);
      assert vectors[..i + 1][k].ID == vectors[..i + 1][i].ID;
    }
  }

  /** Vectors by ID, with a stop at the first repeated ID. */
  method CollectVectors(vectors: seq<Vector>) returns (byID: map<string, seq<real>>, distinct: bool)
    ensures distinct <==> DistinctIDs(vectors)
    ensures distinct ==> byID == ByID(vectors) && |byID| == |vectors|
  {
    byID := map[];
    for i := 0 to |vectors|
      invariant DistinctIDs(vectors[..i]) && byID == ByID(vectors[..i]) && |byID| == i
    {
      NextDistinct(vectors, i);
      var v := vectors[i];
      if v.ID in byID {
        return byID, false;
      }
      byID := byID[v.ID := v.Values];
    }
    assert vectors[..|vectors|] == vectors;
    distinct := true;
  }
}
