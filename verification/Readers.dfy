/** Byte-limited reading: one byte past the limit is an error, never a silent truncation. */
module Readers {
  import opened Basics
  import opened Utf8

  // ----- the source behind the limit -----

  datatype Status = More | AtEnd | Broken

  /** What a source offers on one read: a number of bytes and a status. */
  datatype Offer = Offer(n: nat, status: Status)

  /** The bytes a read of `asked` bytes really gets: no more than asked for, offered and left. */
  function Given(data: bytes, pos: nat, asked: nat, offer: Offer): (n: nat)
    requires pos <= |data|
    ensures n <= asked && pos + n <= |data|
  {
    Min(offer.n, Min(asked, |data| - pos))
  }

  /** A source reports its end only when it has given everything. */
  function StatusAfter(data: bytes, pos: nat, offer: Offer): Status {
    if offer.status == AtEnd && pos != |data| then More else offer.status
  }

  /** An io.Reader over `data` with an arbitrary schedule of short reads. */
  class Source {
    const data: bytes
    const offers: nat -> Offer
    var pos: nat
    var count: nat

    constructor (data: bytes, offers: nat -> Offer)
      ensures this.data == data && this.offers == offers && pos == 0 && count == 0
    {
      this.data, this.offers, pos, count := data, offers, 0, 0;
    }

    method Read(asked: nat) returns (got: bytes, status: Status)
      requires pos <= |data|
      modifies this
      ensures var n := Given(data, old(pos), asked, offers(old(count)));
              && pos == old(pos) + n && count == old(count) + 1
              && got == data[old(pos)..pos]
              && status == StatusAfter(data, pos, offers(old(count)))
    {
      var n := Given(data, pos, asked, offers(count));
      got := data[pos..pos + n];
      pos := pos + n;
      status := StatusAfter(data, pos, offers(count));
      count := count + 1;
    }
  }

  // ----- the limiting reader -----

  datatype Outcome = Going | Ended | Failed | TooLarge

  /** The limiting reader's state: what is left of the allowance, and where the source stands. */
  datatype State = State(remaining: int, pos: nat, count: nat)

  function OutcomeOf(remaining: int, status: Status): Outcome {
    if remaining < 0 then TooLarge
    else match status
      case More => Going
      case AtEnd => Ended
      case Broken => Failed
  }

  /** One Read(p) with a buffer of `want` bytes: the next state, the bytes handed over, and how it ended. */
  function ReadOnce(data: bytes, offers: nat -> Offer, st: State, want: nat): (r: (State, bytes, Outcome))
    requires st.pos <= |data|
    ensures r.0.pos <= |data|
  {
    if st.remaining < 0 then (st, [], TooLarge)
    else
      var asked := Min(want, st.remaining + 1);
      var n := Given(data, st.pos, asked, offers(st.count));
      var next := State(st.remaining - n, st.pos + n, st.count + 1);
      (next, data[st.pos..st.pos + n], OutcomeOf(next.remaining, StatusAfter(data, next.pos, offers(st.count))))
  }

  /** Reads until something other than more data is reported, at most `n` times, with buffers of the given sizes. */
  function ReadMany(data: bytes, offers: nat -> Offer, wants: nat -> nat, st: State, n: nat)
      : (r: (State, bytes, Outcome))
    requires st.pos <= |data|
    ensures r.0.pos <= |data|
    decreases n
  {
    if n == 0 then (st, [], Going)
    else
      var (next, got, outcome) := ReadOnce(data, offers, st, wants(st.count));
      if outcome != Going then (next, got, outcome)
      else
        var (last, more, end) := ReadMany(data, offers, wants, next, n - 1);
        (last, got + more, end)
  }

  /** limitReader, and cappedReader, which reads by the same rule. */
  class LimitReader {
    const source: Source
    var remaining: int

    constructor (source: Source, limit: int)
      ensures this.source == source && remaining == limit
    {
      this.source, remaining := source, limit;
    }

    function StateOf(): State
      reads this, source
    {
      State(remaining, source.pos, source.count)
    }

    method Read(want: nat) returns (got: bytes, outcome: Outcome)
      requires source.pos <= |source.data|
      modifies this, source
      ensures source.pos <= |source.data|
      ensures (StateOf(), got, outcome) == ReadOnce(source.data, source.offers, old(StateOf()), want)
    {
      if remaining < 0 {
        return [], TooLarge;
      }
      var asked := want;
      if asked > remaining + 1 {
        asked := remaining + 1;
      }
      var status;
      got, status := source.Read(asked);
      remaining := remaining - |got|;
      if remaining < 0 {
        return got, TooLarge;
      }
      outcome := OutcomeOf(remaining, status);
    }

    /** A decoder that keeps reading, with buffers of the given sizes, until the data ends or `n` reads are made. */
    method ReadOn(wants: nat -> nat, n: nat) returns (data: bytes, outcome: Outcome)
      requires source.pos <= |source.data|
      modifies this, source
      ensures source.pos <= |source.data|
      ensures (StateOf(), data, outcome) == ReadMany(source.data, source.offers, wants, old(StateOf()), n)
      decreases n
    {
      if n == 0 {
        return [], Going;
      }
      data, outcome := Read(wants(source.count));
      if outcome == Going {
        var more;
        more, outcome := ReadOn(wants, n - 1);
        data := data + more;
      }
    }
  }

  // ----- any sequence of reads -----

  /** The allowance left and the bytes handed over always add up. */
  lemma {:induction false} ReadManyCounts(data: bytes, offers: nat -> Offer, wants: nat -> nat, st: State, n: nat)
    requires st.pos <= |data| && st.remaining >= 0
    ensures var (last, out, end) := ReadMany(data, offers, wants, st, n);
            && st.pos <= last.pos && out == data[st.pos..last.pos]
            && last.remaining == st.remaining - (last.pos - st.pos)
            && (end == TooLarge <==> last.remaining < 0) && last.remaining >= -1
            && (end == Ended ==> last.pos == |data|)
    decreases n
  {
    if n > 0 {
      var r := ReadOnce(data, offers, st, wants(st.count));
      ReadOnceCounts(data, offers, st, wants(st.count), r.0, r.1, r.2);
      if r.2 == Going {
        ReadManyCounts(data, offers, wants, r.0, n - 1);
        SlicesJoin(data, st.pos, r.0.pos, ReadMany(data, offers, wants, r.0, n - 1).0.pos);
      }
    }
  }

  lemma SlicesJoin(data: bytes, a: nat, b: nat, c: nat)
    requires a <= b <= c <= |data|
    ensures data[a..b] + data[b..c] == data[a..c]
  {
  }

  /** One read within the allowance. */
  lemma ReadOnceCounts(data: bytes, offers: nat -> Offer, st: State, want: nat, next: State, got: bytes,
                       outcome: Outcome)
    requires st.pos <= |data| && st.remaining >= 0 && (next, got, outcome) == ReadOnce(data, offers, st, want)
    ensures st.pos <= next.pos <= |data| && got == data[st.pos..next.pos]
    ensures next.remaining == st.remaining - (next.pos - st.pos) && next.remaining >= -1
    ensures outcome == TooLarge <==> next.remaining < 0
    ensures outcome == Ended ==> next.pos == |data|
  {
  }

  /**
    * One read within the allowance gets as much as the buffer, the allowance and one byte, the source's offer and the
    * data left allow, and unless the allowance is overdrawn it passes the source's own status on, an error included.
    */
  lemma ReadPassesOn(data: bytes, offers: nat -> Offer, st: State, want: nat)
    requires st.pos <= |data| && st.remaining >= 0
    ensures var (next, got, outcome) := ReadOnce(data, offers, st, want);
            var offer := offers(st.count);
            && |got| <= want && |got| <= st.remaining + 1 && |got| <= offer.n
            && (|got| == want || |got| == st.remaining + 1 || |got| == offer.n || next.pos == |data|)
            && next.pos == st.pos + |got| && next.count == st.count + 1
            && (|got| == st.remaining + 1 ==> outcome == TooLarge)
            && (|got| <= st.remaining ==>
                  && (outcome == Failed <==> offer.status == Broken)
                  && (outcome == Ended <==> offer.status == AtEnd && next.pos == |data|))
  {
  }

  /** A reading that fails has met an error of the source; one without errors in its schedule does not fail. */
  lemma {:induction false} FailureIsTheSources(data: bytes, offers: nat -> Offer, wants: nat -> nat, st: State, n: nat)
    requires st.pos <= |data| && st.remaining >= 0
    ensures var (last, out, end) := ReadMany(data, offers, wants, st, n);
            end == Failed ==> last.count > st.count && offers(last.count - 1).status == Broken
    decreases n
  {
    if n > 0 {
      var r := ReadOnce(data, offers, st, wants(st.count));
      ReadPassesOn(data, offers, st, wants(st.count));
      if r.2 == Going {
        FailureIsTheSources(data, offers, wants, r.0, n - 1);
      }
    }
  }

  /**
    * Under every schedule of buffer sizes and short reads: what has been handed over is a prefix of the source; a
    * clean end means the whole source, which then fits the limit; the too-large error comes exactly after limit + 1
    * bytes and only on a source that is longer.
    */
  lemma LimitedReading(data: bytes, offers: nat -> Offer, wants: nat -> nat, limit: nat, n: nat)
    ensures var (last, out, end) := ReadMany(data, offers, wants, State(limit, 0, 0), n);
            && out <= data && |out| <= limit + 1
            && (end == Ended ==> out == data && |data| <= limit)
            && (end == TooLarge <==> |out| == limit + 1)
            && (end == TooLarge ==> |data| > limit)
  {
    ReadManyCounts(data, offers, wants, State(limit, 0, 0), n);
  }

  /** Each of the next `n` reads hands over at least one byte or ends the reading. */
  predicate Live(data: bytes, offers: nat -> Offer, wants: nat -> nat, st: State, n: nat)
    requires st.pos <= |data|
    decreases n
  {
    n == 0 ||
    var r := ReadOnce(data, offers, st, wants(st.count));
    r.2 != Going || (r.0.pos > st.pos && Live(data, offers, wants, r.0, n - 1))
  }

  lemma {:induction false} LiveStops(data: bytes, offers: nat -> Offer, wants: nat -> nat, st: State, n: nat)
    requires st.pos <= |data| && st.remaining >= 0 && n > st.remaining + 1 && Live(data, offers, wants, st, n)
    ensures ReadMany(data, offers, wants, st, n).2 != Going
    decreases n
  {
    var r := ReadOnce(data, offers, st, wants(st.count));
    if r.2 == Going {
      LiveStops(data, offers, wants, r.0, n - 1);
    }
  }

  /**
    * A live source is drained within limit + 2 reads: one within the limit is delivered unchanged, a longer one always
    * ends in the error.
    */
  lemma LimitedDrain(data: bytes, offers: nat -> Offer, wants: nat -> nat, limit: nat, n: nat)
    requires n >= limit + 2 && Live(data, offers, wants, State(limit, 0, 0), n)
    ensures var (last, out, end) := ReadMany(data, offers, wants, State(limit, 0, 0), n);
            end == Failed || (if |data| <= limit then end == Ended && out == data else end == TooLarge)
  {
    LimitedReading(data, offers, wants, limit, n);
    LiveStops(data, offers, wants, State(limit, 0, 0), n);
  }

  // ----- one budget for many parts -----

  /** One archive part as it is read: its bytes, the schedule of its reader, and how many reads its decoder makes. */
  datatype Part = Part(data: bytes, offers: nat -> Offer, wants: nat -> nat, n: nat)

  /** Reading one part under what is left of the shared budget. */
  function ReadPart(p: Part, remaining: int): (State, bytes, Outcome) {
    ReadMany(p.data, p.offers, p.wants, State(remaining, 0, 0), p.n)
  }

  /** partDecoder over a run of parts: each part starts with what the one before left, and an error ends the run. */
  function ReadParts(parts: seq<Part>, remaining: int): (int, seq<bytes>, bool)
    decreases |parts|
  {
    if parts == [] then (remaining, [], true)
    else
      var (last, out, end) := ReadPart(parts[0], remaining);
      if end == TooLarge || end == Failed then (last.remaining, [out], false)
      else
        var (left, more, ok) := ReadParts(parts[1..], last.remaining);
        (left, [out] + more, ok)
  }

  function TotalLength(outs: seq<bytes>): nat {
    if outs == [] then 0 else |outs[0]| + TotalLength(outs[1..])
  }

  lemma TotalCons(out: bytes, more: seq<bytes>)
    ensures TotalLength([out] + more) == |out| + TotalLength(more)
  {
    assert ([out] + more)[1..] == more;
  }

  /** The counter carried across parts accounts for every byte read, and a successful run never leaves the budget. */
  lemma {:induction false} PartsShareBudget(parts: seq<Part>, budget: int)
    requires budget >= 0
    ensures var (left, outs, ok) := ReadParts(parts, budget);
            && TotalLength(outs) == budget - left
            && (ok ==> left >= 0 && TotalLength(outs) <= budget && |outs| == |parts|)
            && TotalLength(outs) <= budget + 1
            && |outs| <= |parts| && forall k :: 0 <= k < |outs| ==> outs[k] <= parts[k].data
    decreases |parts|
  {
    if parts != [] {
      var p := parts[0];
      var (last, out, end) := ReadPart(p, budget);
      ReadManyCounts(p.data, p.offers, p.wants, State(budget, 0, 0), p.n);
      if end == TooLarge || end == Failed {
        TotalCons(out, []);
      } else {
        PartsShareBudget(parts[1..], last.remaining);
        TotalCons(out, ReadParts(parts[1..], last.remaining).1);
      }
    }
  }

  predicate FailsRun(end: Outcome) {
    end == TooLarge || end == Failed
  }

  /**
    * Part `k` is read under what the bytes before it left of the budget; the last one, and only it, fails a failed run.
    */
  predicate InTurn(parts: seq<Part>, budget: int, outs: seq<bytes>, ok: bool, k: nat) {
    k < |parts| && k < |outs| &&
    var (_, out, end) := ReadPart(parts[k], budget - TotalLength(outs[..k]));
    && outs[k] == out
    && (FailsRun(end) <==> !ok && k == |outs| - 1)
    && (end == Ended ==> out == parts[k].data)
  }

  lemma {:induction false} PartsInTurn(parts: seq<Part>, budget: int, k: nat)
    requires budget >= 0 && k < |ReadParts(parts, budget).1|
    ensures InTurn(parts, budget, ReadParts(parts, budget).1, ReadParts(parts, budget).2, k)
    decreases |parts|
  {
    var (last, out, end) := ReadPart(parts[0], budget);
    ReadManyCounts(parts[0].data, parts[0].offers, parts[0].wants, State(budget, 0, 0), parts[0].n);
    if k > 0 {
      var (_, more, ok) := ReadParts(parts[1..], last.remaining);
      PartsInTurn(parts[1..], last.remaining, k - 1);
      NextInTurn(parts, budget, out, last.remaining, more, ok, k);
    } else {
      FirstInTurn(parts, budget);
    }
  }

  lemma FirstInTurn(parts: seq<Part>, budget: int)
    requires parts != [] && budget >= 0
    ensures InTurn(parts, budget, ReadParts(parts, budget).1, ReadParts(parts, budget).2, 0)
  {
    var p := parts[0];
    ReadManyCounts(p.data, p.offers, p.wants, State(budget, 0, 0), p.n);
    if !FailsRun(ReadPart(p, budget).2) {
      StopsLater(parts, budget);
    }
    assert ReadParts(parts, budget).1[..0] == [];
  }

  lemma NextInTurn(parts: seq<Part>, budget: int, out: bytes, left: int, more: seq<bytes>, ok: bool, k: nat)
    requires parts != [] && k > 0 && left == budget - |out| && InTurn(parts[1..], left, more, ok, k - 1)
    ensures InTurn(parts, budget, [out] + more, ok, k)
  {
    assert ([out] + more)[..k] == [out] + more[..k - 1];
    TotalCons(out, more[..k - 1]);
  }

  /** A run that does not end with its first part and fails has read a second one. */
  lemma StopsLater(parts: seq<Part>, budget: int)
    requires parts != [] && !FailsRun(ReadPart(parts[0], budget).2)
    ensures ReadParts(parts, budget).2 || |ReadParts(parts, budget).1| > 1
  {
  }

  /** partDecoder's counter over a run of parts. */
  class PartDecoder {
    var remaining: int

    constructor (budget: int)
      ensures remaining == budget
    {
      remaining := budget;
    }

    /** Reads one part through a fresh limiting reader and carries the counter on. */
    method Read(p: Part) returns (data: bytes, outcome: Outcome)
      modifies this
      ensures var r := ReadPart(p, old(remaining)); remaining == r.0.remaining && data == r.1 && outcome == r.2
    {
      var source := new Source(p.data, p.offers);
      var reader := new LimitReader(source, remaining);
      data, outcome := reader.ReadOn(p.wants, p.n);
      remaining := reader.remaining;
    }
  }
}
