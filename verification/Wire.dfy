/** Bounded encoding: a writer that refuses to pass its limit, and the request limits that
    are checked with it. A serialised value is the sequence of chunks its writer receives. */
module Wire {
  import opened Tables
  import opened Classifier

  newtype byte = b: int | 0 <= b < 256

  const USIZE_MAX := 0xFFFF_FFFF_FFFF_FFFF

  const JEV_MAX_CHOICE_OPTIONS := 255
  const JEV_MAX_SCORE_LEVELS := 10
  const JEV_MAX_STATE_AND_LONGEST_QUESTION_TOKENS := 32_000
  const JEV_MAX_REQUEST_TOKENS := 64_000
  const JEV_TEMPLATE_RESERVE_TOKENS := 512
  const PAIR_BUDGET := JEV_MAX_STATE_AND_LONGEST_QUESTION_TOKENS - JEV_TEMPLATE_RESERVE_TOKENS
  const TOTAL_BUDGET := JEV_MAX_REQUEST_TOKENS - JEV_TEMPLATE_RESERVE_TOKENS

  datatype WireError = LimitExceeded | InvalidConfiguration

  /** The encoded value, whatever its chunks. */
  function Joined(chunks: seq<seq<byte>>): seq<byte> {
    if chunks == [] then [] else Joined(chunks[..|chunks| - 1]) + chunks[|chunks| - 1]
  }

  /** No prefix of the chunks is longer than the whole. */
  lemma {:induction false} PrefixFits(chunks: seq<seq<byte>>, i: nat)
    requires i <= |chunks|
    ensures |Joined(chunks[..i])| <= |Joined(chunks)|
  {
    if i == |chunks| {
      assert chunks[..i] == chunks;
    } else {
      var shorter := chunks[..|chunks| - 1];
      PrefixFits(shorter, i);
      assert shorter[..i] == chunks[..i];
    }
  }

  class CappedWriter {
    var output: seq<byte>
    var written: nat
    const maxBytes: nat
    const keeps: bool

    /** A counting writer (`keeps` false) discards its output. */
    constructor (maxBytes: nat, keeps: bool)
      ensures Valid() && written == 0 && output == []
      ensures this.maxBytes == maxBytes && this.keeps == keeps
    {
      this.maxBytes := maxBytes;
      this.keeps := keeps;
      written := 0;
      output := [];
    }

    ghost predicate Valid()
      reads this
    {
      written <= maxBytes && (keeps ==> written == |output|)
    }

    /** Takes a chunk whole or not at all. */
    method Write(bytes: seq<byte>) returns (ok: bool)
      requires Valid()
      modifies this
      ensures Valid()
      ensures ok <==> old(written) + |bytes| <= maxBytes
      ensures written == if ok then old(written) + |bytes| else old(written)
      ensures output == if ok && keeps then old(output) + bytes else old(output)
    {
      var left: nat := maxBytes - written;
      if |bytes| > left {
        return false;
      }
      if keeps {
        output := output + bytes;
      }
      written := written + |bytes|;
      return true;
    }
  }

  /** Accepts exactly when the whole output fits, for every chunking, and then keeps all of it. */
  method Encode(chunks: seq<seq<byte>>, maxBytes: Option<nat>) returns (r: Result<seq<byte>, WireError>)
    ensures r.Ok? <==> |Joined(chunks)| <= (if maxBytes.Some? then maxBytes.value else USIZE_MAX)
    ensures r.Ok? ==> r.value == Joined(chunks)
  {
    var body := new CappedWriter(if maxBytes.Some? then maxBytes.value else USIZE_MAX, true);
    for i := 0 to |chunks|
      invariant body.Valid() && fresh(body)
      invariant body.keeps && body.output == Joined(chunks[..i])
    {
      assert chunks[..i + 1][..i] == chunks[..i];
      PrefixFits(chunks, i + 1);
      var ok := body.Write(chunks[i]);
      if !ok {
        return Err(LimitExceeded);
      }
    }
    assert chunks[..|chunks|] == chunks;
    return Ok(body.output);
  }

  method EncodedLen(chunks: seq<seq<byte>>, maxBytes: nat) returns (r: Result<nat, WireError>)
    ensures r.Ok? <==> |Joined(chunks)| <= maxBytes
    ensures r.Ok? ==> r.value == |Joined(chunks)|
  {
    var counter := new CappedWriter(maxBytes, false);
    for i := 0 to |chunks|
      invariant counter.Valid() && fresh(counter) && counter.maxBytes == maxBytes
      invariant !counter.keeps && counter.written == |Joined(chunks[..i])|
    {
      assert chunks[..i + 1][..i] == chunks[..i];
      PrefixFits(chunks, i + 1);
      var ok := counter.Write(chunks[i]);
      if !ok {
        return Err(LimitExceeded);
      }
    }
    assert chunks[..|chunks|] == chunks;
    return Ok(counter.written);
  }

  // ---- Request limits -----------------------------------------------------------

  /** A question and the chunks of its wire form. */
  datatype WireQuestion = WireQuestion(kind: QuestionKind, chunks: seq<seq<byte>>)

  predicate CountFits(kind: QuestionKind) {
    match kind
    case Noul => true
    case Choice(options) => |options| <= JEV_MAX_CHOICE_OPTIONS
    case Score(levels) => |levels| <= JEV_MAX_SCORE_LEVELS
  }

  function Size(q: WireQuestion): nat {
    |Joined(q.chunks)|
  }

  function TotalSize(questions: seq<WireQuestion>): nat {
    if questions == [] then 0 else TotalSize(questions[..|questions| - 1]) + Size(questions[|questions| - 1])
  }

  lemma {:induction false} PrefixTotal(questions: seq<WireQuestion>, i: nat)
    requires i <= |questions|
    ensures TotalSize(questions[..i]) <= TotalSize(questions)
  {
    if i == |questions| {
      assert questions[..i] == questions;
    } else {
      var shorter := questions[..|questions| - 1];
      PrefixTotal(shorter, i);
      assert shorter[..i] == questions[..i];
    }
  }

  /** The documented limits. */
  ghost predicate WithinLimits(state: nat, questions: seq<WireQuestion>) {
    && (forall i | 0 <= i < |questions| :: CountFits(questions[i].kind))
    && state <= PAIR_BUDGET
    && (forall i | 0 <= i < |questions| :: state + Size(questions[i]) <= PAIR_BUDGET)
    && state + TotalSize(questions) <= TOTAL_BUDGET
  }

  /** The incremental check is exact; the remaining budget never goes below zero. */
  method CheckLimits(state: seq<seq<byte>>, questions: seq<WireQuestion>) returns (r: Result<(), WireError>)
    ensures r.Ok? <==> WithinLimits(|Joined(state)|, questions)
  {
    for i := 0 to |questions|
      invariant forall j | 0 <= j < i :: CountFits(questions[j].kind)
    {
      if !CountFits(questions[i].kind) {
        return Err(InvalidConfiguration);
      }
    }
    var stateLen := EncodedLen(state, PAIR_BUDGET);
    if stateLen.Err? {
      return Err(InvalidConfiguration);
    }
    var s := stateLen.value;
    var all: nat := 0;
    for i := 0 to |questions|
      invariant all == TotalSize(questions[..i]) && s + all <= TOTAL_BUDGET
      invariant forall j | 0 <= j < i :: s + Size(questions[j]) <= PAIR_BUDGET
    {
      var forPair: nat := PAIR_BUDGET - s;
      var forTotal: nat := TOTAL_BUDGET - s - all;
      assert questions[..i + 1][..i] == questions[..i];
      PrefixTotal(questions, i + 1);
      var len := EncodedLen(questions[i].chunks, if forPair < forTotal then forPair else forTotal);
      if len.Err? {
        assert all + Size(questions[i]) == TotalSize(questions[..i + 1]);
        return Err(InvalidConfiguration);
      }
      all := all + len.value;
    }
    assert questions[..|questions|] == questions;
    return Ok(());
  }
}
