/**
  The session cost (`calculate_session_cost`) and the choice of decimals in
  `format_cost`. Amounts are exact reals; the price table is a parameter.
 */
module Cost {
  import opened Wrappers
  import opened Transcript

  /** Currency per token; the two cache rates are optional. */
  datatype ModelPricing = ModelPricing(
    inputCost: real,
    outputCost: real,
    cacheCreationCost: Option<real>,
    cacheReadCost: Option<real>)

  type PriceTable = map<string, ModelPricing>

  predicate NonNegativeRates(p: ModelPricing) {
    && p.inputCost >= 0.0
    && p.outputCost >= 0.0
    && (p.cacheCreationCost.Some? ==> p.cacheCreationCost.value >= 0.0)
    && (p.cacheReadCost.Some? ==> p.cacheReadCost.value >= 0.0)
  }

  /**
    The role normalisation of the two record shapes: a string
    `message.role` decides; only when it is absent does a top-level
    `type` of "assistant" count.
   */
  predicate IsAssistant(r: Rec) {
    match r.role
    case Some(role) => role == "assistant"
    case None => r.kind == Some("assistant")
  }

  /** A line whose usage is charged. */
  predicate IsCharged(line: Line) {
    line.Parsed? && IsAssistant(line.rec) && line.rec.usage.Some?
  }

  /** The cost of one message; cache rates apply only when the model has them. */
  function MessageCost(u: Usage, p: ModelPricing): real {
    var base := (u.inputTokens as real) * p.inputCost + (u.outputTokens as real) * p.outputCost;
    var creation := match p.cacheCreationCost case Some(r) => (u.cacheCreationTokens as real) * r case None => 0.0;
    var read := match p.cacheReadCost case Some(r) => (u.cacheReadTokens as real) * r case None => 0.0;
    base + creation + read
  }

  function LineCost(line: Line, p: ModelPricing): real {
    if IsCharged(line) then MessageCost(line.rec.usage.value, p) else 0.0
  }

  /** The sum of the per-line costs. */
  function TotalCost(lines: seq<Line>, p: ModelPricing): real
    decreases |lines|
  {
    if lines == [] then 0.0 else TotalCost(lines[..|lines| - 1], p) + LineCost(lines[|lines| - 1], p)
  }

  /**
    What `calculate_session_cost` returns: None without a transcript or a
    model id, for a model missing from the table, and when the total is not
    positive.
   */
  function SessionCost(transcript: Option<seq<Line>>, modelId: Option<string>, table: PriceTable): Option<real> {
    if transcript.None? || modelId.None? || modelId.value !in table then None
    else
      var total := TotalCost(transcript.value, table[modelId.value]);
      if total > 0.0 then Some(total) else None
  }

  /**
    `calculate_session_cost`. `transcript` is None when there is no path or
    the file cannot be read.
   */
  method CalculateSessionCost(transcript: Option<seq<Line>>, modelId: Option<string>, table: PriceTable)
    returns (cost: Option<real>)
    ensures cost == SessionCost(transcript, modelId, table)
    ensures cost.Some? ==> cost.value > 0.0
  {
    if transcript.None? || modelId.None? {
      return None;
    }
    if modelId.value !in table {
      return None;
    }
    var pricing := table[modelId.value];
    var lines := transcript.value;
    var totalCost := 0.0;
    for i := 0 to |lines|
      invariant totalCost == TotalCost(lines[..i], pricing)
    {
      assert lines[..i + 1][..i] == lines[..i];
      var line := lines[i];
      if line.Blank? {
        continue;
      }
      if line.Parsed? {
        var r := line.rec;
        var isAssistant := match r.role case Some(role) => role == "assistant" case None => r.kind == Some("assistant");
        if isAssistant && r.usage.Some? {
          var u := r.usage.value;
          var messageCost := 0.0;
          messageCost := messageCost + (u.inputTokens as real) * pricing.inputCost;
          messageCost := messageCost + (u.outputTokens as real) * pricing.outputCost;
          if pricing.cacheCreationCost.Some? {
            messageCost := messageCost + (u.cacheCreationTokens as real) * pricing.cacheCreationCost.value;
          }
          if pricing.cacheReadCost.Some? {
            messageCost := messageCost + (u.cacheReadTokens as real) * pricing.cacheReadCost.value;
          }
          assert messageCost == LineCost(line, pricing);
          totalCost := totalCost + messageCost;
        }
      }
    }
    assert lines[..|lines|] == lines;
    if totalCost > 0.0 {
      cost := Some(totalCost);
    } else {
      cost := None;
    }
  }

  /** The total over a concatenation is the sum of the totals. */
  lemma {:induction false} TotalCostAppend(a: seq<Line>, b: seq<Line>, p: ModelPricing)
    ensures TotalCost(a + b, p) == TotalCost(a, p) + TotalCost(b, p)
    decreases |b|
  {
    if b != [] {
      var b' := b[..|b| - 1];
      TotalCostAppend(a, b', p);
      assert (a + b)[..|a + b| - 1] == a + b';
      assert (a + b)[|a + b| - 1] == b[|b| - 1];
    } else {
      assert a + b == a;
    }
  }

  /** The order of the two parts does not matter. */
  lemma TotalCostCommutes(a: seq<Line>, b: seq<Line>, p: ModelPricing)
    ensures TotalCost(a + b, p) == TotalCost(b + a, p)
  {
    TotalCostAppend(a, b, p);
    TotalCostAppend(b, a, p);
  }

  /** The lines chosen (`inA == true`) or left out by a mask, in order. */
  function Select(lines: seq<Line>, mask: seq<bool>, inA: bool): (r: seq<Line>)
    requires |mask| == |lines|
    decreases |lines|
  {
    if lines == [] then []
    else
      var n := |lines| - 1;
      Select(lines[..n], mask[..n], inA) + (if mask[n] == inA then [lines[n]] else [])
  }

  /** Cost is additive over any partition of the transcript into two parts. */
  lemma {:induction false} TotalCostPartition(lines: seq<Line>, mask: seq<bool>, p: ModelPricing)
    requires |mask| == |lines|
    ensures TotalCost(lines, p) == TotalCost(Select(lines, mask, true), p) + TotalCost(Select(lines, mask, false), p)
    decreases |lines|
  {
    if lines != [] {
      var n := |lines| - 1;
      TotalCostPartition(lines[..n], mask[..n], p);
      var last := if mask[n] then [lines[n]] else [];
      var other := if mask[n] then [] else [lines[n]];
      TotalCostAppend(Select(lines[..n], mask[..n], true), last, p);
      TotalCostAppend(Select(lines[..n], mask[..n], false), other, p);
      assert TotalCost([lines[n]], p) == LineCost(lines[n], p) by {
        assert [lines[n]][..0] == [];
      }
      assert TotalCost([], p) == 0.0;
    }
  }

  /** With non-negative rates the total never goes below zero. */
  lemma {:induction false} TotalCostNonNegative(lines: seq<Line>, p: ModelPricing)
    requires NonNegativeRates(p)
    ensures TotalCost(lines, p) >= 0.0
    decreases |lines|
  {
    if lines != [] {
      TotalCostNonNegative(lines[..|lines| - 1], p);
      var l := lines[|lines| - 1];
      if IsCharged(l) {
        UsageCostNonNegative(l.rec.usage.value, p);
      }
    }
  }

  /** With non-negative rates a message costs at least its input tokens' share, and so nothing negative. */
  lemma UsageCostNonNegative(u: Usage, p: ModelPricing)
    requires NonNegativeRates(p)
    ensures MessageCost(u, p) >= (u.inputTokens as real) * p.inputCost >= 0.0
  {
    assert (u.inputTokens as real) * p.inputCost >= 0.0;
    assert (u.outputTokens as real) * p.outputCost >= 0.0;
    if p.cacheCreationCost.Some? {
      assert (u.cacheCreationTokens as real) * p.cacheCreationCost.value >= 0.0;
    }
    if p.cacheReadCost.Some? {
      assert (u.cacheReadTokens as real) * p.cacheReadCost.value >= 0.0;
    }
  }

  /** A model the table does not price never yields a cost. */
  lemma UnknownModelHasNoCost(transcript: Option<seq<Line>>, modelId: string, table: PriceTable)
    requires modelId !in table
    ensures SessionCost(transcript, Some(modelId), table).None?
  {
  }

  /**
    With non-negative rates, one charged line whose message costs something
    makes the session cost present, and at least that message's cost.
   */
  lemma ChargedLineMakesCostPositive(lines: seq<Line>, modelId: string, table: PriceTable, k: nat)
    requires modelId in table && NonNegativeRates(table[modelId])
    requires k < |lines| && IsCharged(lines[k])
    requires MessageCost(lines[k].rec.usage.value, table[modelId]) > 0.0
    ensures SessionCost(Some(lines), Some(modelId), table).Some?
    ensures SessionCost(Some(lines), Some(modelId), table).value >= MessageCost(lines[k].rec.usage.value, table[modelId])
  {
    var p := table[modelId];
    assert lines == lines[..k] + [lines[k]] + lines[k + 1..];
    TotalCostAppend(lines[..k] + [lines[k]], lines[k + 1..], p);
    TotalCostAppend(lines[..k], [lines[k]], p);
    TotalCostNonNegative(lines[..k], p);
    TotalCostNonNegative(lines[k + 1..], p);
    assert [lines[k]][..0] == [];
  }

  /**
    In particular, with non-negative rates, one charged line whose input
    tokens cost something makes the cost present and positive.
   */
  lemma ChargedInputMakesCostPositive(lines: seq<Line>, modelId: string, table: PriceTable, k: nat)
    requires modelId in table && NonNegativeRates(table[modelId])
    requires k < |lines| && IsCharged(lines[k])
    requires lines[k].rec.usage.value.inputTokens > 0 && table[modelId].inputCost > 0.0
    ensures SessionCost(Some(lines), Some(modelId), table).Some?
  {
    var p := table[modelId];
    var u := lines[k].rec.usage.value;
    UsageCostNonNegative(u, p);
    assert (u.inputTokens as real) * p.inputCost > 0.0;
    ChargedLineMakesCostPositive(lines, modelId, table, k);
  }

  /**
    A transcript whose charged lines all cost nothing (no charged line at
    all, or only zero usage) totals zero, so there is no session cost even
    for a priced model.
   */
  lemma {:induction false} FreeTranscriptHasNoCost(lines: seq<Line>, modelId: string, table: PriceTable)
    requires modelId in table
    requires forall j :: 0 <= j < |lines| && IsCharged(lines[j]) ==> MessageCost(lines[j].rec.usage.value, table[modelId]) == 0.0
    ensures TotalCost(lines, table[modelId]) == 0.0
    ensures SessionCost(Some(lines), Some(modelId), table).None?
    decreases |lines|
  {
    if lines != [] {
      var n := |lines| - 1;
      assert forall j :: 0 <= j < n ==> lines[..n][j] == lines[j];
      FreeTranscriptHasNoCost(lines[..n], modelId, table);
    }
  }

  /** An uncharged line costs nothing; neither does a message with all four counts zero. */
  lemma NothingChargedCostsNothing(line: Line, p: ModelPricing)
    ensures !IsCharged(line) ==> LineCost(line, p) == 0.0
    ensures MessageCost(Usage(0, 0, 0, 0), p) == 0.0
  {
  }

  /** `format_cost` prints three decimals below one cent and two from there up. */
  function CostDecimals(cost: real): (d: nat)
    ensures d == 3 || d == 2
    ensures d == 3 <==> cost < 0.01
  {
    if cost < 0.01 then 3 else 2
  }

  /**
    One assistant turn of 1000 input and 500 output tokens at $3 and $15 per
    million costs $0.0105, shown with two decimals.
   */
  lemma OneTurnExample()
    ensures
      var sonnet := ModelPricing(3.0 / 1000000.0, 15.0 / 1000000.0, Some(3.75 / 1000000.0), Some(0.30 / 1000000.0));
      var turn := Parsed(Rec(None, Some("assistant"), None, Some(Usage(1000, 500, 0, 0))));
      var table := map["claude-sonnet-4-20250514" := sonnet];
      && SessionCost(Some([turn]), Some("claude-sonnet-4-20250514"), table) == Some(0.0105)
      && CostDecimals(0.0105) == 2
  {
    var sonnet := ModelPricing(3.0 / 1000000.0, 15.0 / 1000000.0, Some(3.75 / 1000000.0), Some(0.30 / 1000000.0));
    var turn := Parsed(Rec(None, Some("assistant"), None, Some(Usage(1000, 500, 0, 0))));
    assert [turn][..0] == [];
    assert TotalCost([turn], sonnet) == LineCost(turn, sonnet);
  }
}
