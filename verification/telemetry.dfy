/** Normalizing, ingesting and polling usage observations. */
module Telemetry {
  import opened Decimals
  import Texts
  import opened Wrappers

  /** The attribute names that the service itself reads or writes, and any other. */
  datatype Attribute =
    Prompt | Completion | Input | Output | CostQuality | MetadataVersion | CacheSavings | Other(name: string)

  datatype Observation = Observation(
    source: string, sourceId: string, runtime: string, agent: string, execution: string, model: string,
    provider: string, requestCount: int, inputTokens: int, outputTokens: int, cachedInputTokens: int,
    cacheCreationTokens: int, reasoningTokens: int, totalTokens: int, errorCount: int,
    contextWindow: Option<int>, inputCost: Option<string>, outputCost: Option<string>, totalCost: Option<string>,
    observedAt: int, metadataVersion: string, attributes: map<Attribute, string>)

  /** The unique key of the observation table. */
  type Key = (string, string, string)

  function KeyOf(o: Observation): Key {
    (o.source, o.runtime, o.sourceId)
  }

  datatype ModelMetadata = ModelMetadata(
    contextWindow: int, inputPrice: Option<string>, outputPrice: Option<string>, version: string)

  datatype Lookup = NotFound | LookupFails | Found(metadata: ModelMetadata)

  /** What the model catalogue answers for a provider and a model; always NotFound without a catalogue. */
  type Catalogue = (string, string) -> Lookup

  // ----- normalize -----

  /** Go's int64 addition. */
  function Wrap64(x: int): int {
    (x + 0x8000_0000_0000_0000) % 0x1_0000_0000_0000_0000 - 0x8000_0000_0000_0000
  }

  predicate WellFormed(o: Observation) {
    && o.source != "" && Texts.Trim(o.sourceId) != "" && Texts.Trim(o.runtime) != ""
    && o.requestCount >= 0 && o.inputTokens >= 0 && o.outputTokens >= 0 && o.cachedInputTokens >= 0
    && o.cacheCreationTokens >= 0 && o.reasoningTokens >= 0 && o.totalTokens >= 0 && o.errorCount >= 0
  }

  const CONTENT_KEYS := {Prompt, Completion, Input, Output}

  /** Fills in the total and drops message contents. */
  function Tidy(o: Observation): Observation {
    o.(totalTokens := if o.totalTokens == 0 then Wrap64(o.inputTokens + o.outputTokens) else o.totalTokens,
       attributes := o.attributes - CONTENT_KEYS)
  }

  /** A missing cost is estimated where the catalogue has a price; None if that price is unreadable. */
  function FillCost(cost: Option<string>, tokens: int, price: Option<string>): Option<Option<string>> {
    if cost.Some? || price.None? then Some(cost) else
      match EstimatedTokenCost(tokens, price.value)
      case None => None
      case Some(text) => Some(Some(text))
  }

  /** The costs of an observation: input, output and total. */
  datatype Costs = Costs(input: Option<string>, output: Option<string>, total: Option<string>)

  ghost function FillCosts(o: Observation, m: ModelMetadata): Option<Costs> {
    var input := FillCost(o.inputCost, o.inputTokens, m.inputPrice);
    var output := FillCost(o.outputCost, o.outputTokens, m.outputPrice);
    if input.None? || output.None? then None
    else if o.totalCost.Some? then Some(Costs(input.value, output.value, o.totalCost))
    else
      match SumOf([input.value, output.value])
      case Invalid => None
      case NothingToAdd => Some(Costs(input.value, output.value, None))
      case Total(text) => Some(Costs(input.value, output.value, Some(text)))
  }

  /** What reading cached tokens saved; None if nothing was saved, or nobody knows what it cost. */
  function CacheSavingsOf(o: Observation, m: ModelMetadata): Option<string> {
    if o.cachedInputTokens > 0 && m.inputPrice.Some? then EstimatedTokenCost(o.cachedInputTokens, m.inputPrice.value)
    else None
  }

  function MarkEstimated(attributes: map<Attribute, string>, costs: Costs, version: string): map<Attribute, string> {
    if costs.input.None? && costs.output.None? then attributes
    else attributes[CostQuality := "estimated"][MetadataVersion := version]
  }

  ghost function Enrich(o: Observation, m: ModelMetadata): Option<Observation> {
    var costs := FillCosts(o, m);
    var savings := CacheSavingsOf(o, m);
    if costs.None? || (savings.None? && o.cachedInputTokens > 0 && m.inputPrice.Some?) then None else
      var marked := MarkEstimated(o.attributes, costs.value, m.version);
      Some(o.(metadataVersion := m.version,
              contextWindow :=
                if o.contextWindow.None? && m.contextWindow > 0 then Some(m.contextWindow) else o.contextWindow,
              inputCost := costs.value.input, outputCost := costs.value.output, totalCost := costs.value.total,
              attributes := if savings.Some? then marked[CacheSavings := savings.value] else marked))
  }

  /** The observation as it is stored, or None if it is rejected. */
  ghost function Normalized(catalogue: Catalogue, o: Observation): Option<Observation> {
    if !WellFormed(o) then None
    else if o.model == "" then Some(Tidy(o))
    else
      match catalogue(o.provider, o.model)
      case NotFound => Some(Tidy(o))
      case LookupFails => None
      case Found(m) => Enrich(Tidy(o), m)
  }

  lemma NormalizedKeepsKey(catalogue: Catalogue, o: Observation)
    requires Normalized(catalogue, o).Some?
    ensures KeyOf(Normalized(catalogue, o).value) == KeyOf(o)
  {
  }

  /** normalize, which updates the observation step by step. */
  method Normalize(catalogue: Catalogue, observation: Observation) returns (result: Option<Observation>)
    ensures result == Normalized(catalogue, observation)
  {
    if !WellFormed(observation) {
      return None;
    }
    var o := Tidy(observation);
    if o.model == "" {
      return Some(o);
    }
    match catalogue(o.provider, o.model) {
      case NotFound => return Some(o);
      case LookupFails => return None;
      case Found(m) =>
        result := Price(o, m);
    }
  }

  method Price(observation: Observation, m: ModelMetadata) returns (result: Option<Observation>)
    ensures result == Enrich(observation, m)
  {
    hide EstimatedTokenCost, SumOf;
    var o := observation.(metadataVersion := m.version);
    if o.contextWindow.None? && m.contextWindow > 0 {
      o := o.(contextWindow := Some(m.contextWindow));
    }
    var costs := PriceTokens(observation, m);
    if costs.None? {
      return None;
    }
    o := o.(inputCost := costs.value.input, outputCost := costs.value.output, totalCost := costs.value.total);
    if o.inputCost.Some? || o.outputCost.Some? {
      o := o.(attributes := o.attributes[CostQuality := "estimated"][MetadataVersion := m.version]);
    }
    if o.cachedInputTokens > 0 && m.inputPrice.Some? {
      var savings := EstimatedTokenCost(o.cachedInputTokens, m.inputPrice.value);
      if savings.None? {
        return None;
      }
      o := o.(attributes := o.attributes[CacheSavings := savings.value]);
    }
    return Some(o);
  }

  method PriceTokens(o: Observation, m: ModelMetadata) returns (result: Option<Costs>)
    ensures result == FillCosts(o, m)
  {
    hide EstimatedTokenCost, SumOf;
    var costs := Costs(o.inputCost, o.outputCost, o.totalCost);
    if costs.input.None? && m.inputPrice.Some? {
      var cost := EstimatedTokenCost(o.inputTokens, m.inputPrice.value);
      if cost.None? {
        return None;
      }
      costs := costs.(input := cost);
    }
    if costs.output.None? && m.outputPrice.Some? {
      var cost := EstimatedTokenCost(o.outputTokens, m.outputPrice.value);
      if cost.None? {
        return None;
      }
      costs := costs.(output := cost);
    }
    if costs.total.None? {
      var sum := SumDecimalPointers([costs.input, costs.output]);
      if sum.Invalid? {
        return None;
      }
      costs := costs.(total := if sum.Total? then Some(sum.text) else None);
    }
    return Some(costs);
  }

  /** Normalizing leaves costs that were reported as they are. */
  lemma ReportedCostsStay(catalogue: Catalogue, o: Observation)
    requires Normalized(catalogue, o).Some?
    ensures var n := Normalized(catalogue, o).value;
            && (o.inputCost.Some? ==> n.inputCost == o.inputCost)
            && (o.outputCost.Some? ==> n.outputCost == o.outputCost)
            && (o.totalCost.Some? ==> n.totalCost == o.totalCost)
  {
    hide EstimatedTokenCost, SumOf, CacheSavingsOf, MarkEstimated;
  }

  /**
   * Where no cost was reported and the catalogue has readable prices, the stored total is the exact sum of the stored
   * input and output costs, and within 10^-10 dollars of what the tokens cost at those prices.
   */
  lemma StoredCostsAddUp(catalogue: Catalogue, o: Observation, m: ModelMetadata, input: real, output: real)
    requires Normalized(catalogue, o).Some? && o.model != "" && catalogue(o.provider, o.model) == Found(m)
    requires o.inputCost.None? && o.outputCost.None? && o.totalCost.None?
    requires m.inputPrice.Some? && Parse(m.inputPrice.value) == Some(input)
    requires m.outputPrice.Some? && Parse(m.outputPrice.value) == Some(output)
    ensures var n := Normalized(catalogue, o).value;
            && n.inputCost.Some? && n.outputCost.Some? && n.totalCost.Some?
            && Parse(n.inputCost.value).Some? && Parse(n.outputCost.value).Some? && Parse(n.totalCost.value).Some?
            && var total := Parse(n.totalCost.value).value;
               var exact := (input * o.inputTokens as real + output * o.outputTokens as real) / 1_000_000.0;
               && total == Parse(n.inputCost.value).value + Parse(n.outputCost.value).value
               && Abs(total - exact) <= 0.0000000001
  {
    hide Parse, DecimalFromRat, SumOf, CacheSavingsOf, MarkEstimated;
    var x, y := Cost(o.inputTokens, input), Cost(o.outputTokens, output);
    TotalOfEstimatesIsExact(x, y, DecimalFromRat(x), DecimalFromRat(y));
    assert x + y == (input * o.inputTokens as real + output * o.outputTokens as real) / 1_000_000.0;
  }

  predicate HidesContent(o: Observation) {
    o.attributes.Keys !! CONTENT_KEYS
  }

  /** Attributes that carry prompts, completions or message contents are never stored. */
  lemma ContentIsDropped(catalogue: Catalogue, o: Observation)
    requires Normalized(catalogue, o).Some?
    ensures HidesContent(Normalized(catalogue, o).value)
  {
    hide FillCosts, CacheSavingsOf;
  }

  /** An observation without tokens is stored without any. */
  lemma NoTotalNoTokens(catalogue: Catalogue, o: Observation)
    requires Normalized(catalogue, o).Some?
    requires o.inputTokens < 0x8000_0000_0000_0000 && o.outputTokens < 0x8000_0000_0000_0000
    ensures var n := Normalized(catalogue, o).value;
            n.totalTokens == 0 ==> n.inputTokens == 0 && n.outputTokens == 0
  {
    hide FillCosts, CacheSavingsOf, MarkEstimated;
  }

  // ----- Ingest -----

  type Store = map<Key, Observation>

  /** What the database answers to one upsert. */
  datatype Reply = Stored | UnknownRuntime | Broken

  datatype Ingestion = Ingestion(store: Store, accepted: nat, rejected: nat, deduplicated: nat, failed: bool,
                                 stopped: bool)

  /** One more observation; a broken database ends the ingestion. */
  ghost function IngestOne(catalogue: Catalogue, s: Ingestion, o: Observation, reply: Reply): Ingestion {
    if s.stopped then s
    else if Normalized(catalogue, o).None? then s.(rejected := s.rejected + 1, failed := true)
    else
      match reply
      case UnknownRuntime => s.(rejected := s.rejected + 1, failed := true)
      case Broken => s.(failed := true, stopped := true)
      case Stored =>
        var n := Normalized(catalogue, o).value;
        var t := s.(store := s.store[KeyOf(n) := n]);
        if KeyOf(n) in s.store then t.(deduplicated := t.deduplicated + 1) else t.(accepted := t.accepted + 1)
  }

  ghost function Ingested(catalogue: Catalogue, store: Store, observations: seq<Observation>,
                          replies: nat -> Reply): Ingestion {
    if observations == [] then Ingestion(store, 0, 0, 0, false, false) else
      var n := |observations| - 1;
      IngestOne(catalogue, Ingested(catalogue, store, observations[..n], replies), observations[n], replies(n))
  }

  class TelemetryService {
    const catalogue: Catalogue
    var store: Store

    constructor (catalogue: Catalogue)
      ensures this.catalogue == catalogue && store == map[]
    {
      this.catalogue, store := catalogue, map[];
    }

    method Ingest(observations: seq<Observation>, replies: nat -> Reply)
        returns (accepted: nat, rejected: nat, deduplicated: nat, failed: bool)
      modifies this`store
      ensures var end := Ingested(catalogue, old(store), observations, replies);
              && store == end.store && accepted == end.accepted && rejected == end.rejected
              && deduplicated == end.deduplicated && failed == end.failed
    {
      hide Normalized;
      accepted, rejected, deduplicated, failed := 0, 0, 0, false;
      assert observations[..0] == [];
      for i := 0 to |observations|
        invariant Ingestion(store, accepted, rejected, deduplicated, failed, false) ==
                  Ingested(catalogue, old(store), observations[..i], replies)
      {
        assert observations[..i + 1][..i] == observations[..i];
        var normalized := Normalize(catalogue, observations[i]);
        if normalized.None? {
          rejected, failed := rejected + 1, true;
          continue;
        }
        match replies(i) {
          case UnknownRuntime =>
            rejected, failed := rejected + 1, true;
          case Broken =>
            failed := true;
            StoppedStays(catalogue, old(store), observations, replies, i + 1);
            return;
          case Stored =>
            var key := KeyOf(normalized.value);
            if key in store {
              deduplicated := deduplicated + 1;
            } else {
              accepted := accepted + 1;
            }
            store := store[key := normalized.value];
        }
      }
      assert observations[..|observations|] == observations;
    }
  }

  /** After a broken upsert nothing more happens. */
  lemma {:induction false} StoppedStays(catalogue: Catalogue, store: Store, observations: seq<Observation>,
                                        replies: nat -> Reply, i: nat)
    requires i <= |observations| && Ingested(catalogue, store, observations[..i], replies).stopped
    ensures Ingested(catalogue, store, observations, replies) == Ingested(catalogue, store, observations[..i], replies)
    decreases |observations|
  {
    hide Normalized;
    if i == |observations| {
      assert observations[..i] == observations;
    } else {
      var n := |observations| - 1;
      assert observations[..n][..i] == observations[..i];
      StoppedStays(catalogue, store, observations[..n], replies, i);
    }
  }

  lemma IngestOneCounts(catalogue: Catalogue, s: Ingestion, o: Observation, reply: Reply)
    ensures var t := IngestOne(catalogue, s, o, reply);
            && s.store.Keys <= t.store.Keys && |t.store| == |s.store| + (t.accepted - s.accepted)
            && (!t.stopped ==>
                  && !s.stopped
                  && t.accepted + t.rejected + t.deduplicated == s.accepted + s.rejected + s.deduplicated + 1)
            && (!t.failed ==> t.rejected == s.rejected && !s.failed && (t.stopped ==> s.stopped))
  {
    hide Normalized;
  }

  /** accepted counts the keys that are new, and an ingestion that was not cut short counts every observation once. */
  lemma {:induction false} IngestCounts(catalogue: Catalogue, store: Store, observations: seq<Observation>,
                                        replies: nat -> Reply)
    ensures var end := Ingested(catalogue, store, observations, replies);
            && store.Keys <= end.store.Keys && |end.store| == |store| + end.accepted
            && (!end.stopped ==> end.accepted + end.rejected + end.deduplicated == |observations|)
            && (!end.failed ==> end.rejected == 0 && !end.stopped)
  {
    hide IngestOne;
    if observations != [] {
      var n := |observations| - 1;
      IngestCounts(catalogue, store, observations[..n], replies);
      IngestOneCounts(catalogue, Ingested(catalogue, store, observations[..n], replies), observations[n], replies(n));
    }
  }

  ghost predicate FreeOfContent(store: Store) {
    forall k :: k in store ==> HidesContent(store[k])
  }

  /** Whatever is ingested, and however the database answers, the store stays free of contents. */
  lemma {:induction false} StoreIsFreeOfContent(catalogue: Catalogue, store: Store, observations: seq<Observation>,
                                                replies: nat -> Reply)
    requires FreeOfContent(store)
    ensures FreeOfContent(Ingested(catalogue, store, observations, replies).store)
  {
    hide IngestOne, FreeOfContent;
    if observations != [] {
      var n := |observations| - 1;
      StoreIsFreeOfContent(catalogue, store, observations[..n], replies);
      IngestOneHides(catalogue, Ingested(catalogue, store, observations[..n], replies), observations[n], replies(n));
    }
  }

  lemma IngestOneHides(catalogue: Catalogue, s: Ingestion, o: Observation, reply: Reply)
    requires FreeOfContent(s.store)
    ensures FreeOfContent(IngestOne(catalogue, s, o, reply).store)
  {
    hide Normalized, HidesContent;
    if Normalized(catalogue, o).Some? {
      ContentIsDropped(catalogue, o);
    }
  }
}
