/** The embedding runner's inputs, their validation, and the greedy batches under two caps. */
module Batching {
  import opened Space
  import opened Chunks
  import opened Packing

  // ----- inputs -----

  /** One chunk with the provenance that locates it. */
  datatype Input = Input(SourceID: string, ArtifactID: string, Chunk: Chunk)

  datatype Invalid = MissingArtifactID | MissingSourceID | EmptyText | NegativeIndex

  datatype Verdict = Accept | Reject(why: Invalid)

  /** Input.validate: the first rule broken, in the source's order. */
  function Validate(input: Input): Verdict {
    if input.ArtifactID == "" then Reject(MissingArtifactID)
    else if input.SourceID == "" then Reject(MissingSourceID)
    else if IsBlank(input.Chunk.Text) then Reject(EmptyText)
    else if input.Chunk.Index < 0 then Reject(NegativeIndex)
    else Accept
  }

  /** The rules an input may break. */
  predicate Breaks(input: Input, rule: Invalid) {
    match rule
    case MissingArtifactID => |input.ArtifactID| == 0
    case MissingSourceID => |input.SourceID| == 0
    case EmptyText => TrimSpace(input.Chunk.Text) == []
    case NegativeIndex => input.Chunk.Index < 0
  }

  /** The order in which they are tried. */
  const RULES: seq<Invalid> := [MissingArtifactID, MissingSourceID, EmptyText, NegativeIndex]

  /** The input breaks this rule and none of those before it. */
  predicate BreaksFirst(input: Input, rule: Invalid) {
    Breaks(input, rule) && exists n :: 0 <= n < |RULES| && RULES[n] == rule && KeepsRules(input, n)
  }

  predicate KeepsRules(input: Input, n: nat)
    requires n <= |RULES|
  {
    forall k :: 0 <= k < n ==> !Breaks(input, RULES[k])
  }

  /** Both IDs are set, the text is not blank, and the index is not negative. */
  predicate Sendable(input: Input) {
    input.ArtifactID != "" && input.SourceID != "" && TrimSpace(input.Chunk.Text) != [] && input.Chunk.Index >= 0
  }

  /** An input is accepted exactly when it breaks no rule, and rejected for the first one it breaks. */
  lemma ValidateIff(input: Input)
    ensures Validate(input).Accept? <==> Sendable(input)
    ensures forall rule :: Validate(input) == Reject(rule) <==> BreaksFirst(input, rule)
  {
    BlankIffTrimmedAway(input.Chunk.Text);
    assert RULES[0] == MissingArtifactID && RULES[1] == MissingSourceID && RULES[2] == EmptyText &&
           RULES[3] == NegativeIndex;
    match Validate(input)
    case Accept =>
    case Reject(why) =>
      assert KeepsRules(input, match why case MissingArtifactID => 0 case MissingSourceID => 1 case EmptyText => 2
                               case NegativeIndex => 3);
  }

  /** A validated input with its position in the run and its token estimate. */
  datatype Item = Item(pos: nat, input: Input, tokens: int)

  /** The chunk's own count when it is set, else the estimate. */
  function TokensFor(input: Input, est: Estimator): int {
    if input.Chunk.TokenCount > 0 then input.Chunk.TokenCount else est(input.Chunk.Text)
  }

  function TokensOf(items: seq<Item>): (r: seq<int>)
    ensures |r| == |items| && forall k :: 0 <= k < |items| ==> r[k] == items[k].tokens
  {
    seq(|items|, k requires 0 <= k < |items| => items[k].tokens)
  }

  // ----- packBatches -----

  /** A batch may hold units i..j: no more inputs than allowed, and no more tokens unless it is a single input. */
  predicate BatchFits(tok: seq<int>, i: nat, j: nat, maxInputs: int, maxTokens: int)
    requires i <= j <= |tok|
  {
    i < j && (j == i + 1 || (j - i <= maxInputs && Sum(tok, i, j) <= maxTokens))
  }

  /** The end of the batch that begins at `i` and already reaches `j`. */
  function Fill(tok: seq<int>, i: nat, j: nat, maxInputs: int, maxTokens: int): (r: nat)
    requires i < j <= |tok|
    ensures j <= r <= |tok|
    ensures r > j ==> r - i <= maxInputs && Sum(tok, i, r) <= maxTokens
    ensures r < |tok| ==> r - i >= maxInputs || Sum(tok, i, r + 1) > maxTokens
    decreases |tok| - j
  {
    if j < |tok| && j - i < maxInputs && Sum(tok, i, j + 1) <= maxTokens then
      Fill(tok, i, j + 1, maxInputs, maxTokens)
    else j
  }

  /** The batches of items i..: each takes as many of the following items as fit. */
  function Batches(items: seq<Item>, i: nat, maxInputs: int, maxTokens: int): seq<seq<Item>>
    requires i <= |items|
    decreases |items| - i
  {
    if i == |items| then []
    else
      var j := Fill(TokensOf(items), i, i + 1, maxInputs, maxTokens);
      [items[i..j]] + Batches(items, j, maxInputs, maxTokens)
  }

  /** The open batch holds items start..i, and the closed ones stand in front of it in the final batches. */
  ghost predicate PackedSoFar(items: seq<Item>, start: nat, i: nat, cur: seq<Item>, curTok: int, maxInputs: int,
                              maxTokens: int, closed: seq<seq<Item>>, all: seq<seq<Item>>)
  {
    && start <= i <= |items| && cur == items[start..i] && curTok == Sum(TokensOf(items), start, i)
    && Rest(items, start, i, maxInputs, maxTokens, closed) == all
  }

  method PackBatches(items: seq<Item>, maxInputs: int, maxTokens: int) returns (batches: seq<seq<Item>>)
    requires maxInputs >= 1
    ensures batches == Batches(items, 0, maxInputs, maxTokens)
  {
    ghost var start, all := 0, Batches(items, 0, maxInputs, maxTokens);
    batches := [];
    var cur: seq<Item> := [];
    var curTok := 0;
    for i := 0 to |items|
      invariant PackedSoFar(items, start, i, cur, curTok, maxInputs, maxTokens, batches, all)
    {
      var it := items[i];
      if |cur| > 0 && (|cur| >= maxInputs || curTok + it.tokens > maxTokens) {
        PackedCloses(items, start, i, cur, curTok, maxInputs, maxTokens, batches, all);
        batches := batches + [cur];
        cur := [];
        curTok := 0;
        start := i;
      }
      PackedGrows(items, start, i, cur, curTok, maxInputs, maxTokens, batches, all);
      cur := cur + [it];
      curTok := curTok + it.tokens;
    }
    PackedEnds(items, start, cur, curTok, maxInputs, maxTokens, batches, all);
    if |cur| > 0 {
      batches := batches + [cur];
    }
  }

  /** The final batches, given those already closed and the open one over items start..i. */
  function Rest(items: seq<Item>, start: nat, i: nat, maxInputs: int, maxTokens: int,
                closed: seq<seq<Item>>): seq<seq<Item>>
    requires start <= i <= |items|
  {
    if start == i then closed + Batches(items, i, maxInputs, maxTokens)
    else
      var j := Fill(TokensOf(items), start, i, maxInputs, maxTokens);
      closed + [items[start..j]] + Batches(items, j, maxInputs, maxTokens)
  }

  /** An item that does not fit closes the open batch. */
  lemma PackedCloses(items: seq<Item>, start: nat, i: nat, cur: seq<Item>, curTok: int, maxInputs: int, maxTokens: int,
                      closed: seq<seq<Item>>, all: seq<seq<Item>>)
    requires i < |items| && PackedSoFar(items, start, i, cur, curTok, maxInputs, maxTokens, closed, all)
    requires |cur| > 0 && (|cur| >= maxInputs || curTok + items[i].tokens > maxTokens)
    ensures PackedSoFar(items, i, i, [], 0, maxInputs, maxTokens, closed + [cur], all)
  {
    assert Sum(TokensOf(items), start, i + 1) == curTok + items[i].tokens;
  }

  /** An item that fits, or that opens a batch, joins it. */
  lemma PackedGrows(items: seq<Item>, start: nat, i: nat, cur: seq<Item>, curTok: int, maxInputs: int, maxTokens: int,
                     closed: seq<seq<Item>>, all: seq<seq<Item>>)
    requires i < |items| && PackedSoFar(items, start, i, cur, curTok, maxInputs, maxTokens, closed, all)
    requires |cur| > 0 ==> |cur| < maxInputs && curTok + items[i].tokens <= maxTokens
    ensures PackedSoFar(items, start, i + 1, cur + [items[i]], curTok + items[i].tokens, maxInputs, maxTokens,
                        closed, all)
  {
    assert Sum(TokensOf(items), start, i + 1) == curTok + items[i].tokens;
    if start == i {
      var j := Fill(TokensOf(items), i, i + 1, maxInputs, maxTokens);
      assert Batches(items, i, maxInputs, maxTokens) == [items[i..j]] + Batches(items, j, maxInputs, maxTokens);
    }
  }

  lemma PackedEnds(items: seq<Item>, start: nat, cur: seq<Item>, curTok: int, maxInputs: int, maxTokens: int,
                    closed: seq<seq<Item>>, all: seq<seq<Item>>)
    requires PackedSoFar(items, start, |items|, cur, curTok, maxInputs, maxTokens, closed, all)
    ensures all == if |cur| > 0 then closed + [cur] else closed
  {
  }

  // ----- the batches keep the items, and there are as few as possible -----

  function Flatten(batches: seq<seq<Item>>): seq<Item> {
    if batches == [] then [] else batches[0] + Flatten(batches[1..])
  }

  /** The batches, in order, are the items. */
  lemma {:induction false} BatchesFlatten(items: seq<Item>, i: nat, maxInputs: int, maxTokens: int)
    requires i <= |items| && maxInputs >= 1
    ensures Flatten(Batches(items, i, maxInputs, maxTokens)) == items[i..]
    decreases |items| - i
  {
    if i < |items| {
      var j := Fill(TokensOf(items), i, i + 1, maxInputs, maxTokens);
      BatchesFlatten(items, j, maxInputs, maxTokens);
      var rest := Batches(items, j, maxInputs, maxTokens);
      assert ([items[i..j]] + rest)[1..] == rest;
    }
  }

  /** Each batch fits. */
  lemma {:induction false} BatchesFit(items: seq<Item>, i: nat, maxInputs: int, maxTokens: int, b: seq<Item>)
    requires i <= |items| && maxInputs >= 1 && b in Batches(items, i, maxInputs, maxTokens)
    ensures BatchOk(b, maxInputs, maxTokens)
    decreases |items| - i
  {
    var j := Fill(TokensOf(items), i, i + 1, maxInputs, maxTokens);
    if b == items[i..j] {
      SliceSum(items, i, j);
    } else {
      BatchesFit(items, j, maxInputs, maxTokens, b);
    }
  }

  /** A batch is never empty, obeys the input cap, and obeys the token cap unless it holds a single input. */
  ghost predicate BatchOk(batch: seq<Item>, maxInputs: int, maxTokens: int) {
    && 1 <= |batch| <= maxInputs
    && (|batch| > 1 ==> Sum(TokensOf(batch), 0, |batch|) <= maxTokens)
  }

  lemma {:induction false} SliceSum(items: seq<Item>, i: nat, j: nat)
    requires i <= j <= |items|
    ensures Sum(TokensOf(items[i..j]), 0, j - i) == Sum(TokensOf(items), i, j)
    decreases j
  {
    if i < j {
      SliceSum(items, i, j - 1);
      SumPrefix(TokensOf(items[i..j - 1]), TokensOf(items[i..j]), j - 1 - i);
    }
  }

  lemma {:induction false} SumPrefix(a: seq<int>, b: seq<int>, n: nat)
    requires n <= |a| && n <= |b| && forall k :: 0 <= k < n ==> a[k] == b[k]
    ensures Sum(a, 0, n) == Sum(b, 0, n)
  {
    if n > 0 {
      SumPrefix(a, b, n - 1);
    }
  }

  /** No batch takes what fits: the next item is beyond one of the caps. */
  lemma {:induction false} BatchesAreFull(items: seq<Item>, i: nat, maxInputs: int, maxTokens: int, k: nat)
    requires i <= |items| && k + 1 < |Batches(items, i, maxInputs, maxTokens)|
    ensures var b := Batches(items, i, maxInputs, maxTokens);
            && b[k + 1] != []
            && (|b[k]| >= maxInputs || Sum(TokensOf(b[k]), 0, |b[k]|) + b[k + 1][0].tokens > maxTokens)
    decreases |items| - i
  {
    var j := Fill(TokensOf(items), i, i + 1, maxInputs, maxTokens);
    if k > 0 {
      BatchesAreFull(items, j, maxInputs, maxTokens, k - 1);
    } else {
      SliceSum(items, i, j);
      assert Sum(TokensOf(items), i, j + 1) == Sum(TokensOf(items), i, j) + items[j].tokens;
    }
  }

  /** `ends` cuts items a.. into consecutive groups that each fit a batch. */
  ghost predicate Grouping(tok: seq<int>, a: nat, ends: seq<nat>, maxInputs: int, maxTokens: int)
    decreases |ends|
  {
    if ends == [] then a == |tok|
    else a < ends[0] <= |tok| && BatchFits(tok, a, ends[0], maxInputs, maxTokens) &&
         Grouping(tok, ends[0], ends[1..], maxInputs, maxTokens)
  }

  /** From item b on, the greedy batches are no more than the groups of any grouping from a <= b on. */
  lemma {:induction false} BatchesStayAhead(items: seq<Item>, a: nat, b: nat, ends: seq<nat>, maxInputs: int,
                                            maxTokens: int)
    requires NonNegative(TokensOf(items)) && a <= b <= |items|
    requires Grouping(TokensOf(items), a, ends, maxInputs, maxTokens)
    ensures |Batches(items, b, maxInputs, maxTokens)| <= |ends|
    decreases |ends|
  {
    if b < |items| {
      var tok := TokensOf(items);
      var k := ends[0];
      if k <= b {
        BatchesStayAhead(items, k, b, ends[1..], maxInputs, maxTokens);
      } else {
        var j := Fill(tok, b, b + 1, maxInputs, maxTokens);
        if j < k {
          SumMonotone(tok, a, b, j + 1, k);
        }
        BatchesStayAhead(items, k, j, ends[1..], maxInputs, maxTokens);
      }
    }
  }

  /** packBatches makes the fewest batches any grouping under the two caps can make, oversize inputs alone. */
  lemma BatchesAreFewest(items: seq<Item>, ends: seq<nat>, maxInputs: int, maxTokens: int)
    requires NonNegative(TokensOf(items)) && Grouping(TokensOf(items), 0, ends, maxInputs, maxTokens)
    ensures |Batches(items, 0, maxInputs, maxTokens)| <= |ends|
  {
    BatchesStayAhead(items, 0, 0, ends, maxInputs, maxTokens);
  }
}
