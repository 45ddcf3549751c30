/**
 * Rate cards, model-name resolution, cache-write token selection, the cost
 * formula and display labels (pricing.go).
 */
module Pricing {
  import opened Text
  import opened Wrappers

  /** Dollars per million tokens. Cache rates are derived from the input rate. */
  datatype ModelPricing = ModelPricing(input: real, output: real) {
    function CacheWrite5m(): real { input * 1.25 }
    function CacheWrite1h(): real { input * 2.0 }
    function CacheRead(): real { input * 0.1 }
  }

  const PricingTable: map<string, ModelPricing> := map[
    "claude-opus-4-6"            := ModelPricing(5.00, 25.00),
    "claude-opus-4-5-20251101"   := ModelPricing(5.00, 25.00),
    "claude-opus-4-1-20250414"   := ModelPricing(15.00, 75.00),
    "claude-sonnet-4-6"          := ModelPricing(3.00, 15.00),
    "claude-sonnet-4-5-20250929" := ModelPricing(3.00, 15.00),
    "claude-sonnet-4-20250514"   := ModelPricing(3.00, 15.00),
    "claude-haiku-4-5-20251001"  := ModelPricing(1.00, 5.00),
    "claude-haiku-3-5-20241022"  := ModelPricing(0.80, 4.00)
  ]

  datatype FamilyPrefix = FamilyPrefix(prefix: string, key: string)

  /** The family prefixes in declaration order, before `init` sorts them. */
  const FamilyPrefixes: seq<FamilyPrefix> := [
    FamilyPrefix("claude-opus-4-6", "claude-opus-4-6"),
    FamilyPrefix("claude-opus-4-5", "claude-opus-4-5-20251101"),
    FamilyPrefix("claude-opus-4-1", "claude-opus-4-1-20250414"),
    FamilyPrefix("claude-opus-4", "claude-opus-4-1-20250414"),
    FamilyPrefix("claude-sonnet-4-6", "claude-sonnet-4-6"),
    FamilyPrefix("claude-sonnet-4-5", "claude-sonnet-4-5-20250929"),
    FamilyPrefix("claude-sonnet-4", "claude-sonnet-4-20250514"),
    FamilyPrefix("claude-sonnet-3", "claude-sonnet-4-5-20250929"),
    FamilyPrefix("claude-haiku-4-5", "claude-haiku-4-5-20251001"),
    FamilyPrefix("claude-haiku-3-5", "claude-haiku-3-5-20241022"),
    FamilyPrefix("claude-haiku-3", "claude-haiku-3-5-20241022")
  ]

  const DefaultPricing: ModelPricing := PricingTable["claude-sonnet-4-6"]

  // ---------------------------------------------------------------------------
  // The `init` sort: longest prefix first

  predicate LongestFirst(prefixes: seq<FamilyPrefix>) {
    forall i, j :: 0 <= i < j < |prefixes| ==> |prefixes[i].prefix| >= |prefixes[j].prefix|
  }

  function InsertByLength(fp: FamilyPrefix, sorted: seq<FamilyPrefix>): (r: seq<FamilyPrefix>)
    requires LongestFirst(sorted)
    ensures LongestFirst(r)
    ensures |r| == |sorted| + 1
    ensures r[0] == fp || (sorted != [] && r[0] == sorted[0])
  {
    if sorted == [] || |sorted[0].prefix| <= |fp.prefix| then [fp] + sorted
    else
      var rest := InsertByLength(fp, sorted[1..]);
      assert |rest[0].prefix| <= |sorted[0].prefix|;
      var r := [sorted[0]] + rest;
      forall i, j | 0 <= i < j < |r| ensures |r[i].prefix| >= |r[j].prefix| {
        assert r[j] == rest[j - 1];
        if i > 0 {
          assert r[i] == rest[i - 1];
        }
      }
      r
  }

  lemma {:induction false} InsertByLengthPermutes(fp: FamilyPrefix, sorted: seq<FamilyPrefix>)
    requires LongestFirst(sorted)
    ensures multiset(InsertByLength(fp, sorted)) == multiset(sorted) + multiset{fp}
  {
    if sorted != [] && |sorted[0].prefix| > |fp.prefix| {
      InsertByLengthPermutes(fp, sorted[1..]);
      assert sorted == [sorted[0]] + sorted[1..];
    }
  }

  /** The in-place `sort.Slice` of `init`, as a value-level sort by descending prefix length. */
  function SortLongestFirst(s: seq<FamilyPrefix>): (r: seq<FamilyPrefix>)
    ensures LongestFirst(r)
    ensures multiset(r) == multiset(s)
  {
    if s == [] then []
    else
      var r := InsertByLength(s[0], SortLongestFirst(s[1..]));
      InsertByLengthPermutes(s[0], SortLongestFirst(s[1..]));
      assert s == [s[0]] + s[1..];
      r
  }

  /** `prefixes` holds exactly the entries of `family`, longest prefix first (ties in any order). */
  ghost predicate SortedFrom(prefixes: seq<FamilyPrefix>, family: seq<FamilyPrefix>) {
    LongestFirst(prefixes) && forall fp :: fp in prefixes <==> fp in family
  }

  lemma {:induction false} SortIsSortedFrom(family: seq<FamilyPrefix>)
    ensures SortedFrom(SortLongestFirst(family), family)
  {
    var r := SortLongestFirst(family);
    forall fp ensures fp in r <==> fp in family {
      assert fp in r <==> fp in multiset(r);
      assert fp in family <==> fp in multiset(family);
    }
  }

  // ---------------------------------------------------------------------------
  // resolvePricing

  /** The card stored under `key`, or Go's zero card when the key is absent. */
  function Lookup(table: map<string, ModelPricing>, key: string): ModelPricing {
    if key in table then table[key] else ModelPricing(0.0, 0.0)
  }

  /** Index of the first entry whose prefix starts `model`, or -1. */
  function FirstPrefixMatch(prefixes: seq<FamilyPrefix>, model: string): (k: int)
    ensures -1 <= k < |prefixes|
    ensures k >= 0 ==> prefixes[k].prefix <= model
    ensures forall j :: 0 <= j < (if k < 0 then |prefixes| else k) ==> !(prefixes[j].prefix <= model)
  {
    if prefixes == [] then -1
    else if prefixes[0].prefix <= model then 0
    else
      var k := FirstPrefixMatch(prefixes[1..], model);
      if k < 0 then -1 else k + 1
  }

  /** resolvePricing over a given table, prefix order and default card. */
  function ResolveIn(table: map<string, ModelPricing>, prefixes: seq<FamilyPrefix>, default: ModelPricing,
                     model: string): ModelPricing
  {
    if model in table then table[model]
    else
      var k := FirstPrefixMatch(prefixes, model);
      if k < 0 then default else Lookup(table, prefixes[k].key)
  }

  predicate DistinctPrefixes(family: seq<FamilyPrefix>) {
    forall i, j :: 0 <= i < j < |family| ==> family[i].prefix != family[j].prefix
  }

  /** `fp` is an entry of `family` matching `model`, and no matching entry is longer. */
  ghost predicate IsLongestMatch(family: seq<FamilyPrefix>, fp: FamilyPrefix, model: string) {
    && fp in family
    && fp.prefix <= model
    && forall q :: q in family && q.prefix <= model ==> |q.prefix| <= |fp.prefix|
  }

  predicate NoMatch(family: seq<FamilyPrefix>, model: string) {
    forall fp :: fp in family ==> !(fp.prefix <= model)
  }

  /** Two prefixes of one string with equal lengths are equal. */
  lemma PrefixesOfSameLength(p: string, q: string, s: string)
    requires p <= s && q <= s && |p| == |q|
    ensures p == q
  {
    assert p == s[..|p|] && q == s[..|q|];
  }

  lemma LongestMatchUnique(family: seq<FamilyPrefix>, a: FamilyPrefix, b: FamilyPrefix, model: string)
    requires DistinctPrefixes(family)
    requires IsLongestMatch(family, a, model) && IsLongestMatch(family, b, model)
    ensures a == b
  {
    PrefixesOfSameLength(a.prefix, b.prefix, model);
    var i :| 0 <= i < |family| && family[i] == a;
    var j :| 0 <= j < |family| && family[j] == b;
  }

  /** When some entry matches, some matching entry is a longest match. */
  lemma LongestMatchExists(family: seq<FamilyPrefix>, model: string, fp: FamilyPrefix) returns (best: FamilyPrefix)
    requires fp in family && fp.prefix <= model
    ensures IsLongestMatch(family, best, model)
  {
    var i := 0;
    best := fp;
    while i < |family|
      invariant 0 <= i <= |family|
      invariant best in family && best.prefix <= model
      invariant forall j :: 0 <= j < i && family[j].prefix <= model ==> |family[j].prefix| <= |best.prefix|
    {
      if family[i].prefix <= model && |family[i].prefix| > |best.prefix| {
        best := family[i];
      }
      i := i + 1;
    }
  }

  /**
   * Whatever order the longest-first sort leaves equal-length prefixes in,
   * resolution is the exact entry, else the entry of the longest matching
   * family prefix, else the default.
   */
  lemma {:induction false} ResolutionIgnoresTieOrder(table: map<string, ModelPricing>, family: seq<FamilyPrefix>,
                                                     prefixes: seq<FamilyPrefix>, default: ModelPricing, model: string)
    requires DistinctPrefixes(family) && SortedFrom(prefixes, family)
    ensures model in table ==> ResolveIn(table, prefixes, default, model) == table[model]
    ensures model !in table ==>
              forall fp :: IsLongestMatch(family, fp, model) ==> ResolveIn(table, prefixes, default, model) == Lookup(table, fp.key)
    ensures model !in table && NoMatch(family, model) ==> ResolveIn(table, prefixes, default, model) == default
  {
    var k := FirstPrefixMatch(prefixes, model);
    if k >= 0 {
      var hit := prefixes[k];
      forall q | q in family && q.prefix <= model ensures |q.prefix| <= |hit.prefix| {
        var j :| 0 <= j < |prefixes| && prefixes[j] == q;
        assert j >= k;
      }
      assert IsLongestMatch(family, hit, model);
      forall fp | IsLongestMatch(family, fp, model) ensures fp == hit {
        LongestMatchUnique(family, fp, hit, model);
      }
    } else {
      forall fp | fp in family ensures !(fp.prefix <= model) {
        var j :| 0 <= j < |prefixes| && prefixes[j] == fp;
      }
    }
  }

  /** With non-negative cards in the table and as the default, every resolved card is non-negative. */
  lemma ResolvedRatesNonNegative(table: map<string, ModelPricing>, prefixes: seq<FamilyPrefix>, default: ModelPricing,
                                 model: string)
    requires forall key :: key in table ==> table[key].input >= 0.0 && table[key].output >= 0.0
    requires default.input >= 0.0 && default.output >= 0.0
    ensures ResolveIn(table, prefixes, default, model).input >= 0.0
    ensures ResolveIn(table, prefixes, default, model).output >= 0.0
  {
  }

  // Facts about the concrete tables

  lemma FamilyPrefixesDistinct()
    ensures DistinctPrefixes(FamilyPrefixes)
  {
    forall i, j | 0 <= i < j < |FamilyPrefixes|
      ensures FamilyPrefixes[i].prefix != FamilyPrefixes[j].prefix
    {
      var a := FamilyPrefixes[i].prefix;
      var b := FamilyPrefixes[j].prefix;
      assert |a| != |b| || a[|a| - 1] != b[|b| - 1] || a[13] != b[13];
    }
  }

  /** Every family key names a row of the pricing table, so a prefix hit never yields the zero card. */
  lemma FamilyKeysArePriced()
    ensures forall i :: 0 <= i < |FamilyPrefixes| ==> FamilyPrefixes[i].key in PricingTable
  {
  }

  lemma TableRatesNonNegative()
    ensures forall key :: key in PricingTable ==> PricingTable[key].input >= 0.0 && PricingTable[key].output >= 0.0
    ensures DefaultPricing == ModelPricing(3.0, 15.0)
  {
  }

  /**
   * One order `init` may leave the family entries in. `sort.Slice` is not
   * stable, so which of the equal-length entries comes first is unspecified;
   * ResolutionIgnoresTieOrder shows the choice does not matter.
   */
  const SortedFamilyPrefixes: seq<FamilyPrefix> := [
    FamilyPrefixes[4], FamilyPrefixes[5], FamilyPrefixes[8], FamilyPrefixes[9],
    FamilyPrefixes[0], FamilyPrefixes[1], FamilyPrefixes[2], FamilyPrefixes[6],
    FamilyPrefixes[7], FamilyPrefixes[10], FamilyPrefixes[3]
  ]

  lemma SortedFamilyPrefixesIsSortedFrom()
    ensures SortedFrom(SortedFamilyPrefixes, FamilyPrefixes)
  {
    forall fp | fp in FamilyPrefixes ensures fp in SortedFamilyPrefixes {
      var i :| 0 <= i < |FamilyPrefixes| && FamilyPrefixes[i] == fp;
      assert i in {0, 1, 2, 3, 4, 5, 6, 7, 8, 9, 10};
    }
  }

  /** resolvePricing: exact match, then the longest family prefix, then the default card. */
  function ResolvePricing(model: string): (p: ModelPricing)
    ensures model in PricingTable ==> p == PricingTable[model]
    ensures model !in PricingTable ==>
              forall fp :: IsLongestMatch(FamilyPrefixes, fp, model) ==> fp.key in PricingTable && p == PricingTable[fp.key]
    ensures model !in PricingTable && NoMatch(FamilyPrefixes, model) ==> p == ModelPricing(3.0, 15.0)
    ensures p.input >= 0.0 && p.output >= 0.0
  {
    FamilyPrefixesDistinct();
    SortedFamilyPrefixesIsSortedFrom();
    FamilyKeysArePriced();
    TableRatesNonNegative();
    ResolutionIgnoresTieOrder(PricingTable, FamilyPrefixes, SortedFamilyPrefixes, DefaultPricing, model);
    ResolvedRatesNonNegative(PricingTable, SortedFamilyPrefixes, DefaultPricing, model);
    ResolveIn(PricingTable, SortedFamilyPrefixes, DefaultPricing, model)
  }

  /** Resolving over the order the `init` sort model produces gives the card of any other longest-first order. */
  lemma InitSortResolvesAlike(table: map<string, ModelPricing>, family: seq<FamilyPrefix>, prefixes: seq<FamilyPrefix>,
                              default: ModelPricing, model: string)
    requires DistinctPrefixes(family) && SortedFrom(prefixes, family)
    ensures ResolveIn(table, SortLongestFirst(family), default, model) == ResolveIn(table, prefixes, default, model)
  {
    SortIsSortedFrom(family);
    ResolutionIgnoresTieOrder(table, family, SortLongestFirst(family), default, model);
    ResolutionIgnoresTieOrder(table, family, prefixes, default, model);
    if model !in table && !NoMatch(family, model) {
      var fp :| fp in family && fp.prefix <= model;
      var best := LongestMatchExists(family, model, fp);
    }
  }

  lemma ExactResolutionExample()
    ensures ResolvePricing("claude-opus-4-6") == ModelPricing(5.0, 25.0)
  {
  }

  // ---------------------------------------------------------------------------
  // Usage and cost

  datatype CacheCreation = CacheCreation(ephemeral5mInputTokens: int, ephemeral1hInputTokens: int)

  datatype Usage = Usage(
    inputTokens: int,
    outputTokens: int,
    cacheReadInputTokens: int,
    cacheCreationInputTokens: int,
    cacheCreation: Option<CacheCreation>)

  /** The nested 5m/1h breakdown is present and not all zero. */
  predicate HasBreakdown(u: Usage) {
    u.cacheCreation.Some? &&
    (u.cacheCreation.value.ephemeral5mInputTokens != 0 || u.cacheCreation.value.ephemeral1hInputTokens != 0)
  }

  predicate IsZeroUsage(u: Usage) {
    u.inputTokens == 0 && u.outputTokens == 0 && u.cacheReadInputTokens == 0 &&
    u.cacheCreationInputTokens == 0 &&
    (u.cacheCreation.Some? ==>
      u.cacheCreation.value.ephemeral5mInputTokens == 0 && u.cacheCreation.value.ephemeral1hInputTokens == 0)
  }

  predicate NonNegativeUsage(u: Usage) {
    u.inputTokens >= 0 && u.outputTokens >= 0 && u.cacheReadInputTokens >= 0 &&
    u.cacheCreationInputTokens >= 0 &&
    (u.cacheCreation.Some? ==>
      u.cacheCreation.value.ephemeral5mInputTokens >= 0 && u.cacheCreation.value.ephemeral1hInputTokens >= 0)
  }

  /** Usage.CacheWriteTokens: the (5m, 1h) cache-write token counts. */
  function CacheWriteTokens(u: Usage): (r: (int, int))
    ensures HasBreakdown(u) ==>
              r == (u.cacheCreation.value.ephemeral5mInputTokens, u.cacheCreation.value.ephemeral1hInputTokens)
    ensures !HasBreakdown(u) ==> r == (if u.cacheCreationInputTokens > 0 then u.cacheCreationInputTokens else 0, 0)
    ensures r.1 != 0 ==> u.cacheCreation.Some? && r.1 == u.cacheCreation.value.ephemeral1hInputTokens
    ensures IsZeroUsage(u) ==> r == (0, 0)
    ensures NonNegativeUsage(u) ==> r.0 >= 0 && r.1 >= 0
  {
    var (c5m, c1h) :=
      if u.cacheCreation.Some?
      then (u.cacheCreation.value.ephemeral5mInputTokens, u.cacheCreation.value.ephemeral1hInputTokens)
      else (0, 0);
    if c5m == 0 && c1h == 0 && u.cacheCreationInputTokens > 0 then (u.cacheCreationInputTokens, c1h)
    else (c5m, c1h)
  }

  const Mtok: real := 1_000_000.0

  /** The five-term linear cost at a given card. */
  function CostAt(p: ModelPricing, input: int, output: int, cache5m: int, cache1h: int, cacheRead: int): real {
    (input as real / Mtok) * p.input +
    (output as real / Mtok) * p.output +
    (cache5m as real / Mtok) * p.CacheWrite5m() +
    (cache1h as real / Mtok) * p.CacheWrite1h() +
    (cacheRead as real / Mtok) * p.CacheRead()
  }

  lemma CostAtNonNegative(p: ModelPricing, input: int, output: int, cache5m: int, cache1h: int, cacheRead: int)
    requires p.input >= 0.0 && p.output >= 0.0
    ensures input >= 0 && output >= 0 && cache5m >= 0 && cache1h >= 0 && cacheRead >= 0 ==>
              CostAt(p, input, output, cache5m, cache1h, cacheRead) >= 0.0
    ensures input == 0 && output == 0 && cache5m == 0 && cache1h == 0 && cacheRead == 0 ==>
              CostAt(p, input, output, cache5m, cache1h, cacheRead) == 0.0
  {
    if input >= 0 && output >= 0 && cache5m >= 0 && cache1h >= 0 && cacheRead >= 0 {
    assert (input as real / Mtok) * p.input >= 0.0;
    assert (output as real / Mtok) * p.output >= 0.0;
    assert (cache5m as real / Mtok) * p.CacheWrite5m() >= 0.0;
    assert (cache1h as real / Mtok) * p.CacheWrite1h() >= 0.0;
    assert (cacheRead as real / Mtok) * p.CacheRead() >= 0.0;
    }
  }

  /** calcCost */
  function CalcCost(model: string, usage: Usage): (c: real)
    ensures IsZeroUsage(usage) ==> c == 0.0
    ensures NonNegativeUsage(usage) ==> c >= 0.0
  {
    var p := ResolvePricing(model);
    var cache := CacheWriteTokens(usage);
    var cache5m := cache.0;
    var cache1h := cache.1;
    CostAtNonNegative(p, usage.inputTokens, usage.outputTokens, cache5m, cache1h, usage.cacheReadInputTokens);
    CostAt(p, usage.inputTokens, usage.outputTokens, cache5m, cache1h, usage.cacheReadInputTokens)
  }

  /** Without cache tokens only the input and output rates apply. */
  lemma CostAtWithoutCache(p: ModelPricing, input: int, output: int)
    ensures CostAt(p, input, output, 0, 0, 0) == (input as real / Mtok) * p.input + (output as real / Mtok) * p.output
  {
  }

  lemma CalcCostWithoutCache(model: string, input: int, output: int)
    ensures var p := ResolvePricing(model);
      CalcCost(model, Usage(input, output, 0, 0, None)) == (input as real / Mtok) * p.input + (output as real / Mtok) * p.output
  {
    var u := Usage(input, output, 0, 0, None);
    assert CacheWriteTokens(u) == (0, 0);
    CostAtWithoutCache(ResolvePricing(model), input, output);
  }

  lemma CalcCostExamples()
    ensures CalcCost("claude-opus-4-6", Usage(1_000_000, 1_000_000, 0, 0, None)) == 30.0
    ensures CalcCost("claude-opus-4-6", Usage(0, 0, 1_000_000, 1_000_000, None)) == 6.75
    ensures CalcCost("claude-opus-4-6", Usage(0, 0, 0, 2_000_000, Some(CacheCreation(1_000_000, 1_000_000)))) == 16.25
  {
  }

  // ---------------------------------------------------------------------------
  // shortModel

  /** The display-label table, checked in this order against the lower-cased model. */
  const ModelLabels: seq<(string, string)> := [
    ("opus-4-6", "Opus 4.6"),
    ("opus-4-5", "Opus 4.5"),
    ("opus-4-1", "Opus 4.1"),
    ("opus-4", "Opus 4"),
    ("opus-3", "Opus 3"),
    ("sonnet-4-6", "Sonnet 4.6"),
    ("sonnet-4-5", "Sonnet 4.5"),
    ("sonnet-4", "Sonnet 4"),
    ("sonnet-3", "Sonnet 3.x"),
    ("haiku-4-5", "Haiku 4.5"),
    ("haiku-3-5", "Haiku 3.5"),
    ("haiku-3", "Haiku 3")
  ]

  /** Index of the first label whose pattern occurs in `m`, or -1. */
  function FirstLabel(labels: seq<(string, string)>, m: string): (k: int)
    ensures -1 <= k < |labels|
    ensures k >= 0 ==> Contains(m, labels[k].0)
    ensures forall j :: 0 <= j < (if k < 0 then |labels| else k) ==> !Contains(m, labels[j].0)
  {
    if labels == [] then -1
    else if Contains(m, labels[0].0) then 0
    else
      var k := FirstLabel(labels[1..], m);
      if k < 0 then -1 else k + 1
  }

  /** shortModel: the label of the first pattern found in the lower-cased model, else the model unchanged. */
  function ShortModel(model: string): (r: string)
    ensures
      || (exists k :: 0 <= k < |ModelLabels| && Contains(Lower(model), ModelLabels[k].0) && r == ModelLabels[k].1 &&
            forall j :: 0 <= j < k ==> !Contains(Lower(model), ModelLabels[j].0))
      || ((forall j :: 0 <= j < |ModelLabels| ==> !Contains(Lower(model), ModelLabels[j].0)) && r == model)
  {
    var k := FirstLabel(ModelLabels, Lower(model));
    if k >= 0 then ModelLabels[k].1 else model
  }

  lemma ShortModelExample()
    ensures ShortModel("claude-opus-4-6") == "Opus 4.6"
  {
    var m := "claude-opus-4-6";
    assert Lower(m) == m;
    assert OccursAt(m, "opus-4-6", 7);
    ContainsIff(m, "opus-4-6");
  }
}
