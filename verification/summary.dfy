/** Usage summaries as aggregates over the stored observations, and what they conserve. */
module Summaries {
  import opened Ordering
  import opened Telemetry
  import Texts
  import opened Wrappers

  datatype Tokens = Tokens(requests: int, input: int, output: int, total: int) {
    function Plus(t: Tokens): Tokens {
      Tokens(requests + t.requests, input + t.input, output + t.output, total + t.total)
    }
  }

  const NO_TOKENS := Tokens(0, 0, 0, 0)

  function TokensOf(o: Observation): Tokens {
    Tokens(o.requestCount, o.inputTokens, o.outputTokens, o.totalTokens)
  }

  function Sum(rows: seq<Observation>): Tokens {
    if rows == [] then NO_TOKENS else TokensOf(rows[0]).Plus(Sum(rows[1..]))
  }

  // ----- Which rows a query looks at -----

  /** Empty texts stand for no restriction; interval is in seconds. */
  datatype Query = Query(
    from: int, to: int, runtime: string, agent: string, model: string, execution: string, source: string, interval: int)

  /** What the joins see: the agents bound to runtime agents, and the runtimes of the caller's organization. */
  datatype Directory = Directory(agentOf: (string, string) -> Option<string>, visible: string -> bool)

  predicate InScope(q: Query, d: Directory, o: Observation) {
    && q.from <= o.observedAt < q.to
    && (q.runtime == "" || o.runtime == q.runtime)
    && (q.agent == "" || d.agentOf(o.runtime, o.agent) == Some(q.agent))
    && (q.model == "" || o.model == q.model)
    && (q.execution == "" || o.execution == q.execution)
    && d.visible(o.runtime)
  }

  function Filter(rows: seq<Observation>, keep: Observation -> bool): (r: seq<Observation>)
    ensures forall o :: o in r <==> o in rows && keep(o)
  {
    if rows == [] then [] else (if keep(rows[0]) then [rows[0]] else []) + Filter(rows[1..], keep)
  }

  function ScopeOf(q: Query, d: Directory): Observation -> bool {
    (o: Observation) => InScope(q, d, o)
  }

  function Scoped(q: Query, d: Directory, table: seq<Observation>): seq<Observation> {
    Filter(table, ScopeOf(q, d))
  }

  function Rank(source: string): nat {
    if source == "gantry_native" then 1 else if source == "langsmith" then 2 else if source == "otel" then 3 else 99
  }

  /** The source of best rank that the runtime has rows from; among unknown sources, the first. */
  function PreferredSource(rows: seq<Observation>, runtime: string): Option<string> {
    if rows == [] then None else
      var rest := PreferredSource(rows[1..], runtime);
      if rows[0].runtime != runtime then rest
      else if rest.Some? && Rank(rest.value) < Rank(rows[0].source) then rest
      else Some(rows[0].source)
  }

  function ChosenSource(q: Query, scoped: seq<Observation>, runtime: string): Option<string> {
    if q.source != "" then Some(q.source) else PreferredSource(scoped, runtime)
  }

  /** The rows that count: those of each runtime's chosen source. */
  function Selected(q: Query, d: Directory, table: seq<Observation>): seq<Observation> {
    var scoped := Scoped(q, d, table);
    Filter(scoped, FromChosenSource(q, scoped))
  }

  function FromChosenSource(q: Query, scoped: seq<Observation>): Observation -> bool {
    (o: Observation) => ChosenSource(q, scoped, o.runtime) == Some(o.source)
  }

  lemma {:induction false} PreferredIsBest(rows: seq<Observation>, runtime: string)
    ensures var best := PreferredSource(rows, runtime);
            && (best.None? <==> forall o :: o in rows ==> o.runtime != runtime)
            && (best.Some? ==>
                  && (exists o :: o in rows && o.runtime == runtime && o.source == best.value)
                  && (forall o :: o in rows && o.runtime == runtime ==> Rank(best.value) <= Rank(o.source)))
  {
    hide Rank;
    if rows != [] {
      PreferredIsBest(rows[1..], runtime);
      assert rows == [rows[0]] + rows[1..];
    }
  }

  /**
   * A runtime contributes all its rows in scope from exactly one source: the requested one, or the best that
   * it has.
   */
  lemma OneSourcePerRuntime(q: Query, d: Directory, table: seq<Observation>, a: Observation)
    requires a in Selected(q, d, table)
    ensures forall o :: o in Scoped(q, d, table) && o.runtime == a.runtime ==>
              (o in Selected(q, d, table) <==> o.source == a.source)
    ensures q.source != "" ==> a.source == q.source
    ensures q.source == "" ==>
              forall o :: o in Scoped(q, d, table) && o.runtime == a.runtime ==> Rank(a.source) <= Rank(o.source)
  {
    hide Rank, InScope;
    PreferredIsBest(Scoped(q, d, table), a.runtime);
  }

  // ----- GROUP BY -----

  datatype Group<K> = Group(key: K, tokens: Tokens)

  function AddTo<K(==)>(groups: seq<Group<K>>, key: K, tokens: Tokens): seq<Group<K>> {
    if groups == [] then [Group(key, tokens)]
    else if groups[0].key == key then [Group(key, groups[0].tokens.Plus(tokens))] + groups[1..]
    else [groups[0]] + AddTo(groups[1..], key, tokens)
  }

  function Having<K(==)>(key: Observation -> K, k: K): Observation -> bool {
    (o: Observation) => key(o) == k
  }

  function GroupBy<K(==)>(rows: seq<Observation>, key: Observation -> K): seq<Group<K>> {
    if rows == [] then [] else AddTo(GroupBy(rows[1..], key), key(rows[0]), TokensOf(rows[0]))
  }

  function SumGroups<K>(groups: seq<Group<K>>): Tokens {
    if groups == [] then NO_TOKENS else groups[0].tokens.Plus(SumGroups(groups[1..]))
  }

  ghost predicate DistinctKeys<K(!new)>(groups: seq<Group<K>>) {
    forall i, j :: 0 <= i < j < |groups| ==> groups[i].key != groups[j].key
  }

  lemma {:induction false} AddToSum<K>(groups: seq<Group<K>>, key: K, tokens: Tokens)
    ensures SumGroups(AddTo(groups, key, tokens)) == SumGroups(groups).Plus(tokens)
  {
    if groups != [] && groups[0].key != key {
      AddToSum(groups[1..], key, tokens);
    }
  }

  /** Grouping loses nothing and invents nothing. */
  lemma {:induction false} GroupBySum<K>(rows: seq<Observation>, key: Observation -> K)
    ensures SumGroups(GroupBy(rows, key)) == Sum(rows)
  {
    if rows != [] {
      GroupBySum(rows[1..], key);
      AddToSum(GroupBy(rows[1..], key), key(rows[0]), TokensOf(rows[0]));
    }
  }

  /** The tokens filed under a key. */
  function TokensAt<K(==)>(groups: seq<Group<K>>, key: K): Option<Tokens> {
    if groups == [] then None else if groups[0].key == key then Some(groups[0].tokens) else TokensAt(groups[1..], key)
  }

  lemma {:induction false} AddToAt<K(!new)>(groups: seq<Group<K>>, key: K, tokens: Tokens, k: K)
    requires DistinctKeys(groups)
    ensures DistinctKeys(AddTo(groups, key, tokens))
    ensures forall g :: g in AddTo(groups, key, tokens) ==> g.key == key || exists h :: h in groups && h.key == g.key
    ensures TokensAt(AddTo(groups, key, tokens), k) ==
            if k != key then TokensAt(groups, k)
            else if TokensAt(groups, k).Some? then Some(TokensAt(groups, k).value.Plus(tokens)) else Some(tokens)
  {
    if groups != [] {
      var rest := groups[1..];
      AddToAt(rest, key, tokens, k);
      var more := AddTo(rest, key, tokens);
      if groups[0].key != key {
        forall i | 0 <= i < |more| ensures more[i].key != groups[0].key {
          assert more[i] in more;
        }
        forall h | h in rest ensures h in groups {
        }
        assert groups[0] in groups;
      }
    }
  }

  lemma FilterFirst(rows: seq<Observation>, f: Observation -> bool)
    requires rows != []
    ensures Filter(rows, f) == if f(rows[0]) then [rows[0]] + Filter(rows[1..], f) else Filter(rows[1..], f)
  {
  }

  /** Every group holds exactly the tokens of its rows, there is one group per key, and none is empty. */
  lemma {:induction false} GroupByIsExact<K(!new)>(rows: seq<Observation>, key: Observation -> K, k: K)
    ensures DistinctKeys(GroupBy(rows, key))
    ensures var mine := Filter(rows, Having(key, k));
            TokensAt(GroupBy(rows, key), k) == if mine == [] then None else Some(Sum(mine))
  {
    hide AddTo, TokensAt, DistinctKeys, Filter, TokensOf;
    if rows == [] {
      NoGroups(key, k);
    } else {
      GroupByIsExact(rows[1..], key, k);
      AddToAt(GroupBy(rows[1..], key), key(rows[0]), TokensOf(rows[0]), k);
      var f := Having(key, k);
      FilterFirst(rows, f);
      var mine, rest := Filter(rows, f), Filter(rows[1..], f);
      if key(rows[0]) == k {
        assert mine[0] == rows[0] && mine[1..] == rest;
      }
    }
  }

  lemma NoGroups<K(!new)>(key: Observation -> K, k: K)
    ensures DistinctKeys(GroupBy([], key)) && TokensAt(GroupBy([], key), k) == None && Filter([], Having(key, k)) == []
  {
  }

  lemma {:induction false} InsertSum<K>(g: Group<K>, groups: seq<Group<K>>, less: (Group<K>, Group<K>) -> bool)
    ensures SumGroups(Insert(g, groups, less)) == g.tokens.Plus(SumGroups(groups))
  {
    if groups != [] && less(groups[0], g) {
      InsertSum(g, groups[1..], less);
      assert Insert(g, groups, less)[1..] == Insert(g, groups[1..], less);
    } else {
      assert Insert(g, groups, less)[1..] == groups;
    }
  }

  /** ORDER BY keeps the sum. */
  lemma {:induction false} SortSum<K>(groups: seq<Group<K>>, less: (Group<K>, Group<K>) -> bool)
    ensures SumGroups(Sort(groups, less)) == SumGroups(groups)
  {
    if groups != [] {
      SortSum(groups[1..], less);
      InsertSum(groups[0], Sort(groups[1..], less), less);
    }
  }

  // ----- The model breakdown -----

  function ModelOf(): Observation -> string {
    (o: Observation) => o.model
  }

  const MODEL_LIMIT := 50

  /** Most tokens first; place orders model names. */
  function ModelBefore(place: string -> int): (Group<string>, Group<string>) -> bool {
    (a: Group<string>, b: Group<string>) =>
      a.tokens.total > b.tokens.total || (a.tokens.total == b.tokens.total && place(a.key) < place(b.key))
  }

  function AllModels(rows: seq<Observation>, place: string -> int): seq<Group<string>> {
    Sort(GroupBy(rows, ModelOf()), ModelBefore(place))
  }

  function ModelBreakdown(rows: seq<Observation>, place: string -> int): seq<Group<string>> {
    var all := AllModels(rows, place);
    if |all| <= MODEL_LIMIT then all else all[..MODEL_LIMIT]
  }

  ghost predicate Descending(groups: seq<Group<string>>) {
    forall i, j :: 0 <= i < j < |groups| ==> groups[i].tokens.total >= groups[j].tokens.total
  }

  lemma FirstDescends(first: Group<string>, rest: seq<Group<string>>)
    requires Descending(rest) && forall g :: g in rest ==> first.tokens.total >= g.tokens.total
    ensures Descending([first] + rest)
  {
  }

  lemma RestDescends(groups: seq<Group<string>>)
    requires groups != [] && Descending(groups)
    ensures Descending(groups[1..]) && forall g :: g in groups ==> groups[0].tokens.total >= g.tokens.total
  {
  }

  lemma {:induction false} InsertDescends(g: Group<string>, groups: seq<Group<string>>, place: string -> int)
    requires Descending(groups)
    ensures Descending(Insert(g, groups, ModelBefore(place)))
  {
    hide Descending;
    if groups != [] {
      RestDescends(groups);
    }
    if groups != [] && ModelBefore(place)(groups[0], g) {
      InsertDescends(g, groups[1..], place);
      InsertPermutes(g, groups[1..], ModelBefore(place));
      var more := Insert(g, groups[1..], ModelBefore(place));
      forall x | x in more ensures groups[0].tokens.total >= x.tokens.total {
        assert x in multiset(more);
        assert x == g || x in groups[1..];
      }
      FirstDescends(groups[0], more);
    } else {
      FirstDescends(g, groups);
    }
  }

  lemma {:induction false} SortDescends(groups: seq<Group<string>>, place: string -> int)
    ensures Descending(Sort(groups, ModelBefore(place)))
  {
    if groups != [] {
      SortDescends(groups[1..], place);
      InsertDescends(groups[0], Sort(groups[1..], ModelBefore(place)), place);
    }
  }

  /** How many models used tokens at all. */
  function ModelsWithTokens(groups: seq<Group<string>>): nat {
    if groups == [] then 0 else (if groups[0].tokens.total > 0 then 1 else 0) + ModelsWithTokens(groups[1..])
  }

  ghost predicate NoNegativeTotals(groups: seq<Group<string>>) {
    forall i :: 0 <= i < |groups| ==> groups[i].tokens.total >= 0
  }

  /** Of groups in descending order, the first n hold all tokens exactly when at most n hold any. */
  lemma {:induction false} PrefixHoldsAll(groups: seq<Group<string>>, n: nat)
    requires Descending(groups) && NoNegativeTotals(groups) && n <= |groups|
    ensures SumGroups(groups[..n]).total <= SumGroups(groups).total
    ensures SumGroups(groups[..n]).total == SumGroups(groups).total <==> ModelsWithTokens(groups) <= n
  {
    if groups != [] {
      var rest := groups[1..];
      if n > 0 {
        assert groups[..n][1..] == rest[..n - 1];
        PrefixHoldsAll(rest, n - 1);
        if groups[0].tokens.total == 0 {
          NoneBelowZero(rest);
        }
      } else {
        assert rest[..0] == groups[..0];
        PrefixHoldsAll(rest, 0);
      }
    }
  }

  lemma {:induction false} NoneBelowZero(groups: seq<Group<string>>)
    requires forall i :: 0 <= i < |groups| ==> groups[i].tokens.total == 0
    ensures ModelsWithTokens(groups) == 0
  {
    if groups != [] {
      NoneBelowZero(groups[1..]);
    }
  }

  lemma {:induction false} SumNotNegative(rows: seq<Observation>)
    requires forall o :: o in rows ==> o.totalTokens >= 0
    ensures Sum(rows).total >= 0
  {
    if rows != [] {
      SumNotNegative(rows[1..]);
    }
  }

  lemma ModelTotalsNotNegative(rows: seq<Observation>, place: string -> int)
    requires forall o :: o in rows ==> o.totalTokens >= 0
    ensures NoNegativeTotals(AllModels(rows, place))
  {
    var key := ModelOf();
    var groups := GroupBy(rows, key);
    var all := Sort(groups, ModelBefore(place));
    SortPermutes(groups, ModelBefore(place));
    forall i | 0 <= i < |all| ensures all[i].tokens.total >= 0 {
      assert all[i] in all;
      GroupByIsExact(rows, key, all[i].key);
      AtFinds(groups, all[i]);
      SumNotNegative(Filter(rows, Having(key, all[i].key)));
    }
  }

  lemma {:induction false} AtFinds<K(!new)>(groups: seq<Group<K>>, g: Group<K>)
    requires DistinctKeys(groups) && g in groups
    ensures TokensAt(groups, g.key) == Some(g.tokens)
  {
    if groups[0].key != g.key {
      AtFinds(groups[1..], g);
    } else {
      var i :| 0 <= i < |groups| && groups[i] == g;
      assert i == 0;
    }
  }

  // ----- The same, said of the rows -----

  /** The models that the rows are about. */
  function Models(rows: seq<Observation>): set<string> {
    set o | o in rows :: o.model
  }

  /** The models that used any tokens. */
  function ModelsUsing(rows: seq<Observation>): set<string> {
    set o | o in rows && o.totalTokens > 0 :: o.model
  }

  function Keys(groups: seq<Group<string>>): set<string> {
    set g | g in groups :: g.key
  }

  function KeysWithTokens(groups: seq<Group<string>>): set<string> {
    set g | g in groups && g.tokens.total > 0 :: g.key
  }

  lemma FirstKey(groups: seq<Group<string>>)
    requires groups != [] && DistinctKeys(groups)
    ensures var first, rest := groups[0], groups[1..];
            && DistinctKeys(rest) && first.key !in Keys(rest) && Keys(groups) == {first.key} + Keys(rest)
            && KeysWithTokens(rest) <= Keys(rest)
            && KeysWithTokens(groups) ==
               if first.tokens.total > 0 then {first.key} + KeysWithTokens(rest) else KeysWithTokens(rest)
  {
    var first, rest := groups[0], groups[1..];
    forall g | g in rest ensures g in groups && g.key != first.key {
      var i :| 0 <= i < |rest| && rest[i] == g;
      assert groups[i + 1] == g;
    }
    forall g | g in groups ensures g == first || g in rest {
      var i :| 0 <= i < |groups| && groups[i] == g;
      assert i > 0 ==> rest[i - 1] == g;
    }
    assert first in groups;
  }

  lemma {:induction false} CountKeys(groups: seq<Group<string>>)
    requires DistinctKeys(groups)
    ensures |Keys(groups)| == |groups| && |KeysWithTokens(groups)| == ModelsWithTokens(groups)
  {
    if groups == [] {
      assert Keys([]) == {} && KeysWithTokens([]) == {};
    } else {
      hide Keys, KeysWithTokens, DistinctKeys;
      FirstKey(groups);
      CountKeys(groups[1..]);
    }
  }

  lemma {:induction false} InsertCounts(g: Group<string>, groups: seq<Group<string>>,
                                        less: (Group<string>, Group<string>) -> bool)
    ensures ModelsWithTokens(Insert(g, groups, less)) == ModelsWithTokens([g]) + ModelsWithTokens(groups)
  {
    if groups != [] && less(groups[0], g) {
      InsertCounts(g, groups[1..], less);
      assert Insert(g, groups, less)[1..] == Insert(g, groups[1..], less);
    } else {
      assert Insert(g, groups, less)[1..] == groups;
    }
  }

  lemma {:induction false} SortCounts(groups: seq<Group<string>>, less: (Group<string>, Group<string>) -> bool)
    ensures ModelsWithTokens(Sort(groups, less)) == ModelsWithTokens(groups)
  {
    if groups != [] {
      SortCounts(groups[1..], less);
      InsertCounts(groups[0], Sort(groups[1..], less), less);
      assert ModelsWithTokens([groups[0]]) == if groups[0].tokens.total > 0 then 1 else 0;
    }
  }

  lemma {:induction false} SumIsPositive(rows: seq<Observation>)
    requires forall o :: o in rows ==> o.totalTokens >= 0
    ensures Sum(rows).total > 0 <==> exists o :: o in rows && o.totalTokens > 0
  {
    if rows != [] {
      assert rows == [rows[0]] + rows[1..];
      SumIsPositive(rows[1..]);
      SumNotNegative(rows[1..]);
    }
  }

  lemma AtIsMember<K>(groups: seq<Group<K>>, k: K)
    requires TokensAt(groups, k).Some?
    ensures Group(k, TokensAt(groups, k).value) in groups
  {
    if groups[0].key != k {
      AtIsMember(groups[1..], k);
    }
  }

  /** The groups are those of the models of the rows, with and without tokens. */
  lemma GroupsAreModels(rows: seq<Observation>)
    requires forall o :: o in rows ==> o.totalTokens >= 0
    ensures var groups := GroupBy(rows, ModelOf());
            DistinctKeys(groups) && Keys(groups) == Models(rows) && KeysWithTokens(groups) == ModelsUsing(rows)
  {
    var groups := GroupBy(rows, ModelOf());
    GroupByIsExact(rows, ModelOf(), "");
    forall k ensures k in Keys(groups) <==> k in Models(rows) {
      ModelOfGroup(rows, k);
    }
    forall k ensures k in KeysWithTokens(groups) <==> k in ModelsUsing(rows) {
      ModelOfGroup(rows, k);
    }
  }

  lemma ModelOfGroup(rows: seq<Observation>, k: string)
    requires forall o :: o in rows ==> o.totalTokens >= 0
    ensures k in Keys(GroupBy(rows, ModelOf())) <==> k in Models(rows)
    ensures k in KeysWithTokens(GroupBy(rows, ModelOf())) <==> k in ModelsUsing(rows)
  {
    hide GroupBy, TokensAt, Filter;
    var groups := GroupBy(rows, ModelOf());
    var mine := Filter(rows, Having(ModelOf(), k));
    GroupByIsExact(rows, ModelOf(), k);
    SumIsPositive(mine);
    if mine != [] {
      assert mine[0] in mine;
      AtIsMember(groups, k);
    }
    forall g | g in groups && g.key == k ensures TokensAt(groups, k) == Some(g.tokens) {
      AtFinds(groups, g);
    }
  }

  /**
   * The breakdown accounts for every token exactly when no more than fifty models used any; with no more than
   * fifty models in all, it accounts for everything.
   */
  lemma BreakdownConserves(rows: seq<Observation>, place: string -> int)
    requires forall o :: o in rows ==> o.totalTokens >= 0
    ensures SumGroups(ModelBreakdown(rows, place)).total == Sum(rows).total <==> |ModelsUsing(rows)| <= MODEL_LIMIT
    ensures |Models(rows)| <= MODEL_LIMIT ==> SumGroups(ModelBreakdown(rows, place)) == Sum(rows)
  {
    hide GroupBy, Sort, Models, ModelsUsing, Keys, KeysWithTokens, ModelsWithTokens, Sum, SumGroups;
    var groups := GroupBy(rows, ModelOf());
    var all := AllModels(rows, place);
    GroupBySum(rows, ModelOf());
    SortSum(groups, ModelBefore(place));
    SortDescends(groups, place);
    SortPermutes(groups, ModelBefore(place));
    SortCounts(groups, ModelBefore(place));
    GroupsAreModels(rows);
    CountKeys(groups);
    ModelTotalsNotNegative(rows, place);
    PrefixHoldsAll(all, if |all| <= MODEL_LIMIT then |all| else MODEL_LIMIT);
    assert all[..|all|] == all;
  }

  // ----- A summary that loses tokens -----

  /** One request of one token to a model, observed under the model's name. */
  function OneRequest(model: string): Observation {
    Observation("otel", model, "r", "", "", model, "", 1, 0, 1, 0, 0, 0, 1, 0, None, None, None, None, 0, "", map[])
  }

  /** One such request to each of n models. */
  function OneEach(n: nat): seq<Observation> {
    if n == 0 then [] else OneEach(n - 1) + [OneRequest(seq(n, _ => 'm'))]
  }

  lemma ModelsUsingSnoc(rows: seq<Observation>, o: Observation)
    ensures ModelsUsing(rows + [o]) == if o.totalTokens > 0 then ModelsUsing(rows) + {o.model} else ModelsUsing(rows)
    ensures forall m :: m in ModelsUsing(rows) ==> exists x :: x in rows && x.model == m
  {
    forall x ensures x in rows + [o] <==> x in rows || x == o {
    }
  }

  lemma {:induction false} OneEachCounts(n: nat)
    ensures |ModelsUsing(OneEach(n))| == n
    ensures forall o :: o in OneEach(n) ==> o.totalTokens == 1 && |o.model| <= n
  {
    hide ModelsUsing, OneRequest;
    if n == 0 {
      assert |ModelsUsing([])| == 0 by { NoModels(); }
    } else {
      OneEachCounts(n - 1);
      OneMoreModel(OneEach(n - 1), seq(n, _ => 'm'));
    }
  }

  lemma NoModels()
    ensures ModelsUsing([]) == {}
  {
  }

  lemma OneMoreModel(rows: seq<Observation>, model: string)
    requires forall o :: o in rows ==> o.totalTokens == 1 && |o.model| < |model|
    ensures |ModelsUsing(rows + [OneRequest(model)])| == |ModelsUsing(rows)| + 1
    ensures forall o :: o in rows + [OneRequest(model)] ==> o.totalTokens == 1 && |o.model| <= |model|
  {
    hide ModelsUsing;
    ModelsUsingSnoc(rows, OneRequest(model));
    assert model !in ModelsUsing(rows);
  }

  // ----- The time series -----

  /** Seconds of the bucket width; an hour unless one of the offered widths is asked for. */
  function BucketWidth(interval: int): (w: int)
    ensures w > 0
  {
    if interval == 300 then 300 else if interval == 900 then 900 else if interval == 21600 then 21600
    else if interval == 86400 then 86400 else 3600
  }

  /** date_bin: the start of the bucket that t falls in; origin is the start of the year 2000. */
  function DateBin(width: int, t: int, origin: int): int
    requires width > 0
  {
    origin + (t - origin) / width * width
  }

  function BinOf(width: int, origin: int): Observation -> int
    requires width > 0
  {
    (o: Observation) => DateBin(width, o.observedAt, origin)
  }

  function ObservedIn(from: int, to: int): Observation -> bool {
    (o: Observation) => from <= o.observedAt < to
  }

  function BucketBefore(): (Group<int>, Group<int>) -> bool {
    (a: Group<int>, b: Group<int>) => a.key < b.key
  }

  function TimeSeries(rows: seq<Observation>, width: int, origin: int): seq<Group<int>>
    requires width > 0
  {
    Sort(GroupBy(rows, BinOf(width, origin)), BucketBefore())
  }

  /** Every time falls in one half-open bucket of the grid and in no other. */
  lemma OneBucketEach(width: int, t: int, origin: int, n: int)
    requires width > 0
    ensures var start := DateBin(width, t, origin); start <= t < start + width && (start - origin) % width == 0
    ensures origin + n * width <= t < origin + (n + 1) * width <==> DateBin(width, t, origin) == origin + n * width
  {
    var q := (t - origin) / width;
    assert (t - origin) == q * width + (t - origin) % width;
    MultipleOf(q, width);
    if n < q {
      Stretch(n + 1, q, width);
    } else if n > q {
      Stretch(q + 1, n, width);
    }
  }

  lemma MultipleOf(q: int, width: int)
    requires width > 0
    ensures (q * width) % width == 0
  {
    var r := (q * width) % width;
    var k := (q * width) / width;
    assert q * width == k * width + r;
    assert (q - k) * width == r;
    if q > k {
      Stretch(1, q - k, width);
    } else if q < k {
      Stretch(q - k, -1, width);
    }
  }

  lemma Stretch(a: int, b: int, width: int)
    requires a <= b && width > 0
    ensures a * width <= b * width
  {
  }

  /** The buckets hold all tokens of the rows. */
  lemma TimeSeriesConserves(rows: seq<Observation>, width: int, origin: int)
    requires width > 0
    ensures SumGroups(TimeSeries(rows, width, origin)) == Sum(rows)
  {
    var key := BinOf(width, origin);
    GroupBySum(rows, key);
    SortSum(GroupBy(rows, key), BucketBefore());
  }

  /** The bucket that starts at a time holds exactly the rows observed from then on for its width. */
  lemma BucketHoldsItsRows(rows: seq<Observation>, width: int, origin: int, n: int, bucket: Group<int>)
    requires width > 0 && bucket in TimeSeries(rows, width, origin) && bucket.key == origin + n * width
    ensures bucket.tokens == Sum(Filter(rows, ObservedIn(bucket.key, bucket.key + width)))
  {
    var key := BinOf(width, origin);
    var groups := GroupBy(rows, key);
    SortPermutes(groups, BucketBefore());
    GroupByIsExact(rows, key, bucket.key);
    AtFinds(groups, bucket);
    forall o: Observation ensures key(o) == bucket.key <==> bucket.key <= o.observedAt < bucket.key + width {
      OneBucketEach(width, o.observedAt, origin, n);
    }
    SameFilter(rows, Having(key, bucket.key),
               ObservedIn(bucket.key, bucket.key + width));
  }

  lemma {:induction false} SameFilter(rows: seq<Observation>, f: Observation -> bool, g: Observation -> bool)
    requires forall o :: f(o) <==> g(o)
    ensures Filter(rows, f) == Filter(rows, g)
  {
    if rows != [] {
      SameFilter(rows[1..], f, g);
    }
  }

  // ----- The summary -----

  datatype Summary = Summary(available: bool, totals: Tokens, models: seq<Group<string>>, series: seq<Group<int>>)

  function SourcesOf(rows: seq<Observation>): set<string> {
    set o | o in rows :: o.source
  }

  /** Totals always; the breakdowns only when all selected rows are from one source. */
  function Summarize(q: Query, d: Directory, table: seq<Observation>, place: string -> int, origin: int): Summary {
    var rows := Selected(q, d, table);
    var available := |SourcesOf(rows)| == 1;
    if available then
      Summary(true, Sum(rows), ModelBreakdown(rows, place), TimeSeries(rows, BucketWidth(q.interval), origin))
    else Summary(false, Sum(rows), [], [])
  }

  /** An available summary conserves usage over buckets, and over models as far as fifty rows can. */
  lemma SummaryConserves(q: Query, d: Directory, table: seq<Observation>, place: string -> int, origin: int)
    requires forall o :: o in table ==> o.totalTokens >= 0
    ensures var s := Summarize(q, d, table, place, origin);
            var rows := Selected(q, d, table);
            s.available ==>
              && SumGroups(s.series) == s.totals
              && (SumGroups(s.models).total == s.totals.total <==>
                    |ModelsUsing(rows)| <= MODEL_LIMIT)
              && (|Models(rows)| <= MODEL_LIMIT ==> SumGroups(s.models) == s.totals)
  {
    hide ModelBreakdown, TimeSeries, Models, ModelsUsing;
    var rows := Selected(q, d, table);
    TimeSeriesConserves(rows, BucketWidth(q.interval), origin);
    BreakdownConserves(rows, place);
  }

  lemma NameIsNotBlank(n: nat)
    requires n > 0
    ensures Texts.Trim(seq(n, _ => 'm')) == seq(n, _ => 'm')
  {
  }

  /** The service accepts the requests, and the table has a row for each. */
  lemma {:induction false} OneEachIsStorable(n: nat)
    ensures |OneEach(n)| == n
    ensures forall i :: 0 <= i < n ==> OneEach(n)[i] == OneRequest(seq(i + 1, _ => 'm')) && WellFormed(OneEach(n)[i])
    ensures forall i, j :: 0 <= i < j < n ==> KeyOf(OneEach(n)[i]) != KeyOf(OneEach(n)[j])
  {
    if n > 0 {
      OneEachIsStorable(n - 1);
      NameIsNotBlank(n);
      assert Texts.Trim("r") == "r";
      forall i | 0 <= i < n ensures |OneEach(n)[i].sourceId| == i + 1 {
      }
    }
  }

  lemma {:induction false} FilterAll(rows: seq<Observation>, keep: Observation -> bool)
    requires forall o :: o in rows ==> keep(o)
    ensures Filter(rows, keep) == rows
  {
    if rows != [] {
      FilterAll(rows[1..], keep);
    }
  }

  /** Rows of one runtime from one source are all selected, and that source is the only one. */
  lemma OneSourceIsSelected(q: Query, d: Directory, rows: seq<Observation>, runtime: string, source: string)
    requires rows != [] && q.source == ""
    requires forall o :: o in rows ==> InScope(q, d, o) && o.runtime == runtime && o.source == source
    ensures Selected(q, d, rows) == rows && SourcesOf(rows) == {source}
  {
    FilterAll(rows, ScopeOf(q, d));
    PreferredIsBest(rows, runtime);
    assert rows[0] in rows;
    FilterAll(rows, FromChosenSource(q, rows));
  }

  /** A day's summary without restrictions on anything but the time. */
  const DAY := Query(0, 86400, "", "", "", "", "", 3600)

  /** Fifty-one models with a token each: the summary is available, and its breakdown loses one of the tokens. */
  lemma FiftyOneModelsLoseTokens(d: Directory, place: string -> int, origin: int)
    requires d.visible("r")
    ensures var s := Summarize(DAY, d, OneEach(51), place, origin);
            s.available && SumGroups(s.models).total != s.totals.total
  {
    hide OneEach, ModelsUsing, Models, ModelBreakdown, TimeSeries, Sum, Selected, SourcesOf;
    var rows := OneEach(51);
    OneEachCounts(51);
    OneEachIsStorable(51);
    OneSourceIsSelected(DAY, d, rows, "r", "otel");
    SummaryConserves(DAY, d, rows, place, origin);
  }

  // ----- Which rows count, and how they are added up and listed -----

  lemma {:induction false} FilterCounts(rows: seq<Observation>, keep: Observation -> bool, o: Observation)
    ensures multiset(Filter(rows, keep))[o] == if keep(o) then multiset(rows)[o] else 0
  {
    if rows != [] {
      assert rows == [rows[0]] + rows[1..];
      FilterCounts(rows[1..], keep, o);
    }
  }

  /**
   * The rows of a summary are rows of the table, each as often as it is there, within the time asked for and meeting
   * every restriction.
   */
  lemma SelectedIsInScope(q: Query, d: Directory, table: seq<Observation>, o: Observation)
    ensures o in Selected(q, d, table) ==>
              && multiset(Selected(q, d, table))[o] == multiset(table)[o]
              && q.from <= o.observedAt < q.to && d.visible(o.runtime)
              && (q.runtime != "" ==> o.runtime == q.runtime) && (q.model != "" ==> o.model == q.model)
              && (q.agent != "" ==> d.agentOf(o.runtime, o.agent) == Some(q.agent))
              && (q.execution != "" ==> o.execution == q.execution) && (q.source != "" ==> o.source == q.source)
  {
    hide PreferredSource;
    var scoped := Scoped(q, d, table);
    FilterCounts(table, ScopeOf(q, d), o);
    FilterCounts(scoped, FromChosenSource(q, scoped), o);
  }

  /** Unless a source is asked for, gantry_native comes before langsmith, otel after it, and any other source last. */
  lemma BestSourceCounts(q: Query, d: Directory, table: seq<Observation>, o: Observation, p: Observation)
    requires o in Selected(q, d, table) && q.source == ""
    requires p in table && InScope(q, d, p) && p.runtime == o.runtime
    ensures p.source == "gantry_native" ==> o.source == "gantry_native"
    ensures p.source == "langsmith" ==> o.source in {"gantry_native", "langsmith"}
    ensures p.source == "otel" ==> o.source in {"gantry_native", "langsmith", "otel"}
  {
    hide InScope, Selected, Rank;
    OneSourcePerRuntime(q, d, table, o);
    assert p in Scoped(q, d, table);
    RankedNames(o.source, p.source);
  }

  lemma RankedNames(a: string, b: string)
    requires Rank(a) <= Rank(b)
    ensures b == "gantry_native" ==> a == "gantry_native"
    ensures b == "langsmith" ==> a in {"gantry_native", "langsmith"}
    ensures b == "otel" ==> a in {"gantry_native", "langsmith", "otel"}
  {
  }

  /** A row in scope counts if it is from the source asked for, or the only source that its runtime has. */
  lemma InScopeCounts(q: Query, d: Directory, table: seq<Observation>, o: Observation)
    requires o in table && q.from <= o.observedAt < q.to && d.visible(o.runtime)
    requires (q.runtime != "" ==> o.runtime == q.runtime) && (q.model != "" ==> o.model == q.model)
    requires (q.agent != "" ==> d.agentOf(o.runtime, o.agent) == Some(q.agent))
    requires q.execution != "" ==> o.execution == q.execution
    requires if q.source != "" then o.source == q.source
             else forall p :: p in table && p.runtime == o.runtime ==> p.source == o.source
    ensures o in Selected(q, d, table)
  {
    PreferredIsBest(Scoped(q, d, table), o.runtime);
  }

  /** Column by column, one row more adds its own numbers. */
  lemma SumAddsColumns(rows: seq<Observation>, o: Observation)
    ensures Sum([]) == Tokens(0, 0, 0, 0)
    ensures Sum([o] + rows) ==
            Tokens(o.requestCount + Sum(rows).requests, o.inputTokens + Sum(rows).input,
                   o.outputTokens + Sum(rows).output, o.totalTokens + Sum(rows).total)
  {
    assert ([o] + rows)[1..] == rows;
  }

  /** At most fifty models are listed, those with more tokens first and models with as many by name. */
  lemma ModelsInOrder(rows: seq<Observation>, place: string -> int)
    ensures var models := ModelBreakdown(rows, place);
            && |models| <= 50 && (|models| < 50 ==> |models| == |Models(rows)|)
            && forall i, j :: 0 <= i < j < |models| ==>
                 models[i].tokens.total > models[j].tokens.total ||
                 (models[i].tokens.total == models[j].tokens.total && place(models[i].key) <= place(models[j].key))
  {
    hide GroupBy, Sort, Models;
    var groups := GroupBy(rows, ModelOf());
    SortPermutes(groups, ModelBefore(place));
    ModelsAreOrdered(place);
    SortSorts(groups, ModelBefore(place));
    GroupKeysAreModels(rows);
    CountKeys(groups);
  }

  lemma ModelsAreOrdered(place: string -> int)
    ensures WeakOrder(ModelBefore(place))
  {
  }

  lemma GroupKeysAreModels(rows: seq<Observation>)
    ensures DistinctKeys(GroupBy(rows, ModelOf())) && Keys(GroupBy(rows, ModelOf())) == Models(rows)
  {
    var groups := GroupBy(rows, ModelOf());
    GroupByIsExact(rows, ModelOf(), "");
    forall k ensures k in Keys(groups) <==> k in Models(rows) {
      GroupByIsExact(rows, ModelOf(), k);
      var mine := Filter(rows, Having(ModelOf(), k));
      if mine != [] {
        assert mine[0] in mine;
        AtIsMember(groups, k);
      }
      forall g | g in groups && g.key == k ensures TokensAt(groups, k) == Some(g.tokens) {
        AtFinds(groups, g);
      }
    }
  }

  /** Buckets are listed by time, no two with the same start. */
  lemma BucketsInOrder(rows: seq<Observation>, width: int, origin: int)
    requires width > 0
    ensures var series := TimeSeries(rows, width, origin);
            forall i, j :: 0 <= i < j < |series| ==> series[i].key < series[j].key
  {
    hide GroupBy, Sort;
    var groups := GroupBy(rows, BinOf(width, origin));
    var series := TimeSeries(rows, width, origin);
    GroupByIsExact(rows, BinOf(width, origin), 0);
    SortPermutes(groups, BucketBefore());
    BucketsAreOrdered();
    SortSorts(groups, BucketBefore());
    NoRepeatsPermuted(groups, series);
    forall i, j | 0 <= i < j < |series| ensures series[i].key < series[j].key {
      assert series[i] in series && series[j] in series;
      assert !BucketBefore()(series[j], series[i]);
    }
  }

  lemma BucketsAreOrdered()
    ensures WeakOrder(BucketBefore())
  {
  }

  /** Breakdowns are there exactly if all rows that count are from one source; totals always are. */
  lemma AvailableIsOneSource(q: Query, d: Directory, table: seq<Observation>, place: string -> int, origin: int)
    ensures var s, rows := Summarize(q, d, table, place, origin), Selected(q, d, table);
            && s.totals == Sum(rows)
            && (s.available <==> rows != [] && forall a, b :: a in rows && b in rows ==> a.source == b.source)
            && (!s.available ==> s.models == [] && s.series == [])
  {
    hide ModelBreakdown, TimeSeries, Sum, Selected;
    var rows := Selected(q, d, table);
    var sources := SourcesOf(rows);
    if rows != [] {
      assert rows[0] in rows;
      assert rows[0].source in sources;
      if forall a, b :: a in rows && b in rows ==> a.source == b.source {
        assert sources == {rows[0].source};
      }
      if |sources| == 1 {
        forall a | a in rows ensures a.source == rows[0].source {
          assert a.source in sources;
          OnlyElement(sources, a.source, rows[0].source);
        }
      }
    } else {
      assert sources == {};
    }
  }

  lemma OnlyElement(s: set<string>, a: string, b: string)
    requires a in s && b in s && |s| == 1
    ensures a == b
  {
    assert |s - {a}| == 0;
    assert b !in s - {a};
  }

  // ----- The lines of a summary, said of the rows -----

  function OfModel(model: string): Observation -> bool {
    (o: Observation) => o.model == model
  }

  /** A grid of buckets of one width; each holds the rows observed in it, and each row is in one. */
  ghost predicate BucketsOf(rows: seq<Observation>, series: seq<Group<int>>, width: int, origin: int)
    requires width > 0
  {
    && (forall b :: b in series ==>
          (b.key - origin) % width == 0 && b.tokens == Sum(Filter(rows, ObservedIn(b.key, b.key + width))))
    && (forall o :: o in rows ==> exists b :: b in series && b.key <= o.observedAt < b.key + width)
  }

  /** Each line of an available summary is the sum of its own rows, and buckets are as wide as asked for. */
  lemma SummaryLines(q: Query, d: Directory, table: seq<Observation>, place: string -> int, origin: int)
    ensures var s, rows := Summarize(q, d, table, place, origin), Selected(q, d, table);
            s.available ==>
              && (forall m :: m in s.models ==> m.tokens == Sum(Filter(rows, OfModel(m.key))))
              && (q.interval in {300, 900, 21600, 86400} ==> BucketsOf(rows, s.series, q.interval, origin))
              && (q.interval !in {300, 900, 21600, 86400} ==> BucketsOf(rows, s.series, 3600, origin))
  {
    hide Selected, ModelBreakdown, TimeSeries, BucketsOf, Sum, Filter;
    var rows := Selected(q, d, table);
    forall m | m in ModelBreakdown(rows, place) ensures m.tokens == Sum(Filter(rows, OfModel(m.key))) {
      ModelLine(rows, place, m);
    }
    SeriesIsGrid(rows, BucketWidth(q.interval), origin);
  }

  lemma GroupLine<K(!new)>(rows: seq<Observation>, key: Observation -> K, g: Group<K>)
    requires g in GroupBy(rows, key)
    ensures g.tokens == Sum(Filter(rows, Having(key, g.key)))
    ensures exists o :: o in rows && key(o) == g.key
  {
    hide GroupBy, Sum;
    var mine := Filter(rows, Having(key, g.key));
    GroupByIsExact(rows, key, g.key);
    AtFinds(GroupBy(rows, key), g);
    assert mine[0] in mine;
  }

  lemma ModelLine(rows: seq<Observation>, place: string -> int, m: Group<string>)
    requires m in ModelBreakdown(rows, place)
    ensures m.tokens == Sum(Filter(rows, OfModel(m.key)))
  {
    hide GroupBy, Sort, Sum, Filter;
    var groups := GroupBy(rows, ModelOf());
    SortPermutes(groups, ModelBefore(place));
    assert m in multiset(Sort(groups, ModelBefore(place)));
    GroupLine(rows, ModelOf(), m);
    SameFilter(rows, Having(ModelOf(), m.key), OfModel(m.key));
  }

  lemma SeriesIsGrid(rows: seq<Observation>, width: int, origin: int)
    requires width > 0
    ensures BucketsOf(rows, TimeSeries(rows, width, origin), width, origin)
  {
    hide GroupBy, Sort, Sum, Filter, DateBin;
    var key, series := BinOf(width, origin), TimeSeries(rows, width, origin);
    var groups := GroupBy(rows, key);
    SortPermutes(groups, BucketBefore());
    forall b | b in series
      ensures (b.key - origin) % width == 0 && b.tokens == Sum(Filter(rows, ObservedIn(b.key, b.key + width)))
    {
      assert b in multiset(series);
      GroupLine(rows, key, b);
      var o :| o in rows && key(o) == b.key;
      OneBucketEach(width, o.observedAt, origin, 0);
      BucketHoldsItsRows(rows, width, origin, (b.key - origin) / width, b);
    }
    forall o | o in rows ensures exists b :: b in series && b.key <= o.observedAt < b.key + width {
      var b := GroupOfRow(rows, key, o);
      assert b in multiset(groups);
      OneBucketEach(width, o.observedAt, origin, 0);
    }
  }

  lemma GroupOfRow<K(!new)>(rows: seq<Observation>, key: Observation -> K, o: Observation) returns (g: Group<K>)
    requires o in rows
    ensures g in GroupBy(rows, key) && g.key == key(o)
  {
    hide GroupBy;
    var mine := Filter(rows, Having(key, key(o)));
    GroupByIsExact(rows, key, key(o));
    assert o in mine;
    AtIsMember(GroupBy(rows, key), key(o));
    g :| g in GroupBy(rows, key) && g.key == key(o);
  }
}
