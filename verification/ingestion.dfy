/** What normalizing and ingesting store, observation by observation. */
module IngestionResults {
  import opened Decimals
  import opened Telemetry
  import opened Wrappers
  import Texts

  // ----- One observation -----

  /** A price or cost that is needed and cannot be read. */
  ghost predicate Unpriceable(o: Observation, m: ModelMetadata) {
    || (o.inputCost.None? && m.inputPrice.Some? && Parse(m.inputPrice.value).None?)
    || (o.outputCost.None? && m.outputPrice.Some? && Parse(m.outputPrice.value).None?)
    || (o.totalCost.None? && o.inputCost.Some? && Parse(o.inputCost.value).None?)
    || (o.totalCost.None? && o.outputCost.Some? && Parse(o.outputCost.value).None?)
    || (o.cachedInputTokens > 0 && m.inputPrice.Some? && Parse(m.inputPrice.value).None?)
  }

  lemma SumOfPair(a: Option<string>, b: Option<string>)
    ensures SumOf([a, b]).Invalid? <==> (a.Some? && Parse(a.value).None?) || (b.Some? && Parse(b.value).None?)
    ensures SumOf([a, b]).NothingToAdd? <==> a.None? && b.None?
    ensures SumOf([a, b]).Total? ==> SumOf([a, b]).text == DecimalFromRat(ValueOf(a) + ValueOf(b))
  {
    hide Parse, DecimalFromRat;
    var values := [a, b];
    assert values[..1] == [a] && [a][..0] == [];
    assert TotalOf([a]) == ValueOf(a);
    assert TotalOf(values) == ValueOf(a) + ValueOf(b);
    assert values[0] == a && values[1] == b;
  }

  lemma CostsFilled(o: Observation, m: ModelMetadata)
    ensures FillCosts(o, m).None? <==>
              || (o.inputCost.None? && m.inputPrice.Some? && Parse(m.inputPrice.value).None?)
              || (o.outputCost.None? && m.outputPrice.Some? && Parse(m.outputPrice.value).None?)
              || (o.totalCost.None? && o.inputCost.Some? && Parse(o.inputCost.value).None?)
              || (o.totalCost.None? && o.outputCost.Some? && Parse(o.outputCost.value).None?)
    ensures FillCosts(o, m).Some? && o.totalCost.None? ==>
              var c := FillCosts(o, m).value;
              if c.input.None? && c.output.None? then c.total.None?
              else c.total == Some(DecimalFromRat(ValueOf(c.input) + ValueOf(c.output)))
  {
    hide Parse, DecimalFromRat, SumOf;
    if o.inputCost.None? && m.inputPrice.Some? && Parse(m.inputPrice.value).Some? {
      PrintThenParse(Cost(o.inputTokens, Parse(m.inputPrice.value).value));
    }
    if o.outputCost.None? && m.outputPrice.Some? && Parse(m.outputPrice.value).Some? {
      PrintThenParse(Cost(o.outputTokens, Parse(m.outputPrice.value).value));
    }
    var input := FillCost(o.inputCost, o.inputTokens, m.inputPrice);
    var output := FillCost(o.outputCost, o.outputTokens, m.outputPrice);
    if input.Some? && output.Some? {
      SumOfPair(input.value, output.value);
    }
  }

  /** An observation is rejected exactly if it lacks its identity, counts below zero, or cannot be priced. */
  lemma RejectedObservations(catalogue: Catalogue, o: Observation)
    ensures Normalized(catalogue, o).None? <==>
              || o.source == "" || Texts.Trim(o.sourceId) == "" || Texts.Trim(o.runtime) == ""
              || o.requestCount < 0 || o.inputTokens < 0 || o.outputTokens < 0 || o.cachedInputTokens < 0
              || o.cacheCreationTokens < 0 || o.reasoningTokens < 0 || o.totalTokens < 0 || o.errorCount < 0
              || (o.model != "" && catalogue(o.provider, o.model).LookupFails?)
              || (o.model != "" && catalogue(o.provider, o.model).Found? &&
                  Unpriceable(o, catalogue(o.provider, o.model).metadata))
  {
    hide Parse, DecimalFromRat, FillCosts, Texts.Trim;
    if o.model != "" && catalogue(o.provider, o.model).Found? {
      CostsFilled(Tidy(o), catalogue(o.provider, o.model).metadata);
    }
  }

  /**
   * Normalizing fills in the total, the context window, the costs and the version, and edits attributes; nothing else
   * changes. A missing total becomes the sum of input and output, unless that leaves 64 bits: then it is below zero.
   */
  lemma NormalizedFields(catalogue: Catalogue, o: Observation)
    requires Normalized(catalogue, o).Some?
    ensures var n := Normalized(catalogue, o).value;
            && n == o.(totalTokens := n.totalTokens, contextWindow := n.contextWindow, inputCost := n.inputCost,
                       outputCost := n.outputCost, totalCost := n.totalCost, metadataVersion := n.metadataVersion,
                       attributes := n.attributes)
            && (o.totalTokens != 0 ==> n.totalTokens == o.totalTokens)
            && (o.totalTokens == 0 && o.inputTokens + o.outputTokens < 0x8000_0000_0000_0000 ==>
                  n.totalTokens == o.inputTokens + o.outputTokens)
            && (o.totalTokens == 0 && o.inputTokens + o.outputTokens >= 0x8000_0000_0000_0000 &&
                o.inputTokens < 0x8000_0000_0000_0000 && o.outputTokens < 0x8000_0000_0000_0000 ==>
                  n.totalTokens < 0)
  {
    hide FillCosts, CacheSavingsOf, MarkEstimated, Texts.Trim;
  }

  ghost predicate Priced(catalogue: Catalogue, o: Observation, m: ModelMetadata) {
    Normalized(catalogue, o).Some? && o.model != "" && catalogue(o.provider, o.model) == Found(m)
  }

  /** Without catalogue data nothing is priced. */
  lemma UnknownModelsStayUnpriced(catalogue: Catalogue, o: Observation)
    requires Normalized(catalogue, o).Some?
    ensures (o.model == "" || !catalogue(o.provider, o.model).Found?) ==>
              var n := Normalized(catalogue, o).value;
              && n == o.(totalTokens := n.totalTokens, attributes := n.attributes)
              && n.attributes == o.attributes - {Prompt, Completion, Input, Output}
  {
    hide Texts.Trim;
  }

  /** cost is what the tokens cost at a price per million, to half a unit of the tenth decimal. */
  ghost predicate IsEstimate(cost: Option<string>, tokens: int, price: string) {
    && cost.Some? && Parse(cost.value).Some? && Parse(price).Some?
    && Abs(Parse(cost.value).value - Parse(price).value * tokens as real / 1_000_000.0) <= 0.00000000005
  }

  /** Each missing cost with a price is estimated to half a unit of the tenth decimal. */
  lemma EachEstimateIsClose(catalogue: Catalogue, o: Observation, m: ModelMetadata)
    requires Priced(catalogue, o, m)
    ensures var n := Normalized(catalogue, o).value;
            && (o.inputCost.None? && m.inputPrice.Some? ==>
                  IsEstimate(n.inputCost, o.inputTokens, m.inputPrice.value))
            && (o.outputCost.None? && m.outputPrice.Some? ==>
                  IsEstimate(n.outputCost, o.outputTokens, m.outputPrice.value))
            && (o.inputCost.None? && m.inputPrice.None? ==> n.inputCost.None?)
            && (o.outputCost.None? && m.outputPrice.None? ==> n.outputCost.None?)
            && (o.cachedInputTokens > 0 && m.inputPrice.Some? ==>
                  && CacheSavings in n.attributes
                  && IsEstimate(Some(n.attributes[CacheSavings]), o.cachedInputTokens, m.inputPrice.value))
  {
    hide Parse, DecimalFromRat, SumOf, EstimatedTokenCost, IsEstimate, Texts.Trim;
    if m.inputPrice.Some? {
      EstimateIsClose(o.inputTokens, m.inputPrice.value);
      EstimateIsClose(o.cachedInputTokens, m.inputPrice.value);
    }
    if m.outputPrice.Some? {
      EstimateIsClose(o.outputTokens, m.outputPrice.value);
    }
  }

  lemma EstimateIsClose(tokens: int, price: string)
    ensures EstimatedTokenCost(tokens, price).Some? ==> IsEstimate(EstimatedTokenCost(tokens, price), tokens, price)
  {
    hide Parse, DecimalFromRat;
    if Parse(price).Some? {
      EstimateError(tokens, price, Parse(price).value);
    }
  }

  /** A missing total is the sum, to ten decimals, of the costs there are; without any there is none. */
  lemma MissingTotalIsSum(catalogue: Catalogue, o: Observation, m: ModelMetadata)
    requires Priced(catalogue, o, m) && o.totalCost.None?
    ensures var n := Normalized(catalogue, o).value;
            && (n.inputCost.None? && n.outputCost.None? <==> n.totalCost.None?)
            && (n.totalCost.Some? ==>
                  Parse(n.totalCost.value) == Some(Rounded(ValueOf(n.inputCost) + ValueOf(n.outputCost))))
  {
    hide Parse, DecimalFromRat, FillCosts, Texts.Trim;
    CostsFilled(Tidy(o), m);
    var n := Normalized(catalogue, o).value;
    PrintThenParse(ValueOf(n.inputCost) + ValueOf(n.outputCost));
  }

  /** What else a priced observation takes from the catalogue. */
  lemma CatalogueData(catalogue: Catalogue, o: Observation, m: ModelMetadata)
    requires Priced(catalogue, o, m)
    ensures var n := Normalized(catalogue, o).value;
            && n.metadataVersion == m.version
            && n.contextWindow == (if o.contextWindow.Some? then o.contextWindow
                                   else if m.contextWindow > 0 then Some(m.contextWindow) else None)
            && (n.inputCost.Some? || n.outputCost.Some? ==>
                  && CostQuality in n.attributes && n.attributes[CostQuality] == "estimated"
                  && MetadataVersion in n.attributes && n.attributes[MetadataVersion] == m.version)
            && (forall a :: a !in {CostQuality, MetadataVersion, CacheSavings, Prompt, Completion, Input, Output} ==>
                  (a in n.attributes <==> a in o.attributes) &&
                  (a in o.attributes ==> n.attributes[a] == o.attributes[a]))
  {
    hide FillCosts, EstimatedTokenCost, Texts.Trim;
  }

  // ----- Many observations -----

  /** The database breaks off the ingestion at this observation. */
  ghost predicate Breaks(catalogue: Catalogue, observations: seq<Observation>, replies: nat -> Reply, k: nat)
    requires k < |observations|
  {
    Normalized(catalogue, observations[k]).Some? && replies(k) == Broken
  }

  /** The observation is reached: nothing before it broke the ingestion off. */
  ghost predicate Reached(catalogue: Catalogue, observations: seq<Observation>, replies: nat -> Reply, i: nat)
    requires i <= |observations|
  {
    forall k :: 0 <= k < i ==> !Breaks(catalogue, observations, replies, k)
  }

  ghost predicate Written(catalogue: Catalogue, observations: seq<Observation>, replies: nat -> Reply, i: nat)
    requires i < |observations|
  {
    && Reached(catalogue, observations, replies, i)
    && Normalized(catalogue, observations[i]).Some? && replies(i) == Stored
  }

  ghost predicate Refused(catalogue: Catalogue, observations: seq<Observation>, replies: nat -> Reply, i: nat)
    requires i < |observations|
  {
    && Reached(catalogue, observations, replies, i)
    && (Normalized(catalogue, observations[i]).None? || replies(i) == UnknownRuntime)
  }

  /** Of the first n observations, how many are refused. */
  ghost function RefusedAmong(catalogue: Catalogue, observations: seq<Observation>, replies: nat -> Reply, n: nat): nat
    requires n <= |observations|
  {
    if n == 0 then 0 else
      RefusedAmong(catalogue, observations, replies, n - 1) +
      if Refused(catalogue, observations, replies, n - 1) then 1 else 0
  }

  /** Of the first n observations, the last that was written under a key. */
  ghost function LastWrite(catalogue: Catalogue, observations: seq<Observation>, replies: nat -> Reply, n: nat,
                           key: Key)
      : Option<nat>
    requires n <= |observations|
  {
    if n == 0 then None
    else if Written(catalogue, observations, replies, n - 1) && KeyOf(observations[n - 1]) == key then Some(n - 1)
    else LastWrite(catalogue, observations, replies, n - 1, key)
  }

  lemma {:induction false} LastWriteIsLast(catalogue: Catalogue, observations: seq<Observation>, replies: nat -> Reply,
                                           n: nat, key: Key)
    requires n <= |observations|
    ensures var last := LastWrite(catalogue, observations, replies, n, key);
            && (last.Some? ==> last.value < n && Written(catalogue, observations, replies, last.value) &&
                               KeyOf(observations[last.value]) == key)
            && (forall j :: (if last.Some? then last.value else -1) < j < n ==>
                  !(Written(catalogue, observations, replies, j) && KeyOf(observations[j]) == key))
  {
    hide Written;
    if n > 0 {
      LastWriteIsLast(catalogue, observations, replies, n - 1, key);
    }
  }

  /** Under a key is stored what was last written there, and without a write what was there before. */
  ghost predicate LastWriteWins(catalogue: Catalogue, store: Store, observations: seq<Observation>,
                                replies: nat -> Reply, n: nat, end: Store)
    requires n <= |observations|
  {
    forall key :: StoredUnder(catalogue, store, observations, replies, n, end, key)
  }

  ghost predicate StoredUnder(catalogue: Catalogue, store: Store, observations: seq<Observation>,
                              replies: nat -> Reply, n: nat, end: Store, key: Key)
    requires n <= |observations|
  {
    var last := LastWrite(catalogue, observations, replies, n, key);
    if last.None? then (key in end <==> key in store) && (key in store ==> key in end && end[key] == store[key])
    else last.value < n && key in end && Normalized(catalogue, observations[last.value]) == Some(end[key])
  }

  lemma OneMoreWrite(catalogue: Catalogue, store: Store, observations: seq<Observation>, replies: nat -> Reply, n: nat,
                     before: Store, after: Store)
    requires n < |observations| && LastWriteWins(catalogue, store, observations, replies, n, before)
    requires if Written(catalogue, observations, replies, n)
             then after == before[KeyOf(observations[n]) := Normalized(catalogue, observations[n]).value]
             else after == before
    ensures LastWriteWins(catalogue, store, observations, replies, n + 1, after)
  {
    hide Normalized, Written;
    NormalizedIfWritten(catalogue, observations, replies, n);
    var next := n + 1;
    forall key ensures StoredUnder(catalogue, store, observations, replies, next, after, key) {
      assert StoredUnder(catalogue, store, observations, replies, n, before, key);
    }
  }

  lemma NormalizedIfWritten(catalogue: Catalogue, observations: seq<Observation>, replies: nat -> Reply, n: nat)
    requires n < |observations|
    ensures Written(catalogue, observations, replies, n) ==> Normalized(catalogue, observations[n]).Some?
  {
  }

  lemma ReachedOneMore(catalogue: Catalogue, observations: seq<Observation>, replies: nat -> Reply, n: nat)
    requires n < |observations|
    ensures Reached(catalogue, observations, replies, n + 1) <==>
              Reached(catalogue, observations, replies, n) && !Breaks(catalogue, observations, replies, n)
  {
    hide Breaks;
  }

  /** What one observation does to an ingestion that has come this far. */
  lemma IngestOneTells(catalogue: Catalogue, s: Ingestion, observations: seq<Observation>, replies: nat -> Reply,
                       n: nat)
    requires n < |observations| && (s.stopped <==> !Reached(catalogue, observations, replies, n))
    ensures var t := IngestOne(catalogue, s, observations[n], replies(n));
            && t.store == (if Written(catalogue, observations, replies, n)
                           then s.store[KeyOf(observations[n]) := Normalized(catalogue, observations[n]).value]
                           else s.store)
            && (t.stopped <==> s.stopped || Breaks(catalogue, observations, replies, n))
            && t.rejected == s.rejected + (if Refused(catalogue, observations, replies, n) then 1 else 0)
            && (t.failed <==> s.failed || Refused(catalogue, observations, replies, n) ||
                              (!s.stopped && Breaks(catalogue, observations, replies, n)))
  {
    hide Normalized, Reached;
    if Normalized(catalogue, observations[n]).Some? {
      NormalizedKeepsKey(catalogue, observations[n]);
    }
  }

  /**
   * After the first n observations the last write of every key is what is stored, other keys keep what they had, the
   * refused ones are counted, and the ingestion has stopped exactly at the first observation that broke it off.
   */
  lemma {:induction false} IngestTells(catalogue: Catalogue, store: Store, observations: seq<Observation>,
                                       replies: nat -> Reply, n: nat)
    requires n <= |observations|
    ensures var end := Ingested(catalogue, store, observations[..n], replies);
            && LastWriteWins(catalogue, store, observations, replies, n, end.store)
            && (end.stopped <==> !Reached(catalogue, observations, replies, n))
            && end.rejected == RefusedAmong(catalogue, observations, replies, n)
            && (end.failed <==> end.stopped || end.rejected > 0)
  {
    hide Normalized, IngestOne, LastWriteWins, Reached, Refused, Written, Breaks;
    if n == 0 {
      NothingWritten(catalogue, store, observations, replies);
    } else {
      IngestTells(catalogue, store, observations, replies, n - 1);
      assert observations[..n][..n - 1] == observations[..n - 1];
      var before := Ingested(catalogue, store, observations[..n - 1], replies);
      IngestOneTells(catalogue, before, observations, replies, n - 1);
      ReachedOneMore(catalogue, observations, replies, n - 1);
      OneMoreWrite(catalogue, store, observations, replies, n - 1, before.store,
                   Ingested(catalogue, store, observations[..n], replies).store);
    }
  }

  lemma NothingWritten(catalogue: Catalogue, store: Store, observations: seq<Observation>, replies: nat -> Reply)
    ensures LastWriteWins(catalogue, store, observations, replies, 0, store)
    ensures Reached(catalogue, observations, replies, 0)
  {
  }

  /** Observation i is the last that was written under the key. */
  ghost predicate WrittenLast(catalogue: Catalogue, observations: seq<Observation>, replies: nat -> Reply, i: nat,
                              key: Key)
    requires i < |observations|
  {
    && Written(catalogue, observations, replies, i) && KeyOf(observations[i]) == key
    && forall j :: i < j < |observations| ==>
         !(Written(catalogue, observations, replies, j) && KeyOf(observations[j]) == key)
  }

  /**
   * Under every key the latest observation that was written replaces what was stored before; a key that none was
   * written under keeps what it had.
   */
  lemma LatestIsStored(catalogue: Catalogue, store: Store, observations: seq<Observation>, replies: nat -> Reply,
                       key: Key)
    ensures var end := Ingested(catalogue, store, observations, replies).store;
            && (forall i :: 0 <= i < |observations| && WrittenLast(catalogue, observations, replies, i, key) ==>
                  key in end && Normalized(catalogue, observations[i]) == Some(end[key]))
            && ((forall i :: 0 <= i < |observations| ==> !WrittenLast(catalogue, observations, replies, i, key)) ==>
                  (key in end <==> key in store) && (key in store ==> end[key] == store[key]))
  {
    hide Ingested, Normalized, Written;
    var n := |observations|;
    assert observations[..n] == observations;
    IngestTells(catalogue, store, observations, replies, n);
    LastWriteIsLast(catalogue, observations, replies, n, key);
    var last := LastWrite(catalogue, observations, replies, n, key);
    assert StoredUnder(catalogue, store, observations, replies, n,
                       Ingested(catalogue, store, observations, replies).store, key);
    assert last.Some? ==> WrittenLast(catalogue, observations, replies, last.value, key);
    forall i | 0 <= i < n && WrittenLast(catalogue, observations, replies, i, key) ensures last == Some(i) {
      assert last.None? || last.value <= i;
    }
  }

  /** What is refused is counted, and the first observation that the database breaks off at ends the ingestion. */
  lemma IngestionOutcome(catalogue: Catalogue, store: Store, observations: seq<Observation>, replies: nat -> Reply)
    ensures var end := Ingested(catalogue, store, observations, replies);
            && end.rejected == RefusedAmong(catalogue, observations, replies, |observations|)
            && (end.stopped <==> exists k :: 0 <= k < |observations| && Breaks(catalogue, observations, replies, k))
            && (end.failed <==> end.stopped || end.rejected > 0)
  {
    hide Ingested, RefusedAmong, Breaks;
    assert observations[..|observations|] == observations;
    IngestTells(catalogue, store, observations, replies, |observations|);
  }
}
