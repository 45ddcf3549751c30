/**
 * Folding the deduplicated records into the per-model, per-day and
 * per-project bucket views, and reading totals and the date range back
 * (parser.go, the second half of `parseLogs`, `getOrCreateBucket`,
 * `getOrCreateNestedBucket`, `DateRange`, `Totals`).
 *
 * Buckets are values here: each sits in exactly one map slot, so updating
 * the slot is the same as updating the bucket through its pointer.
 */
module Aggregation {
  import opened Text
  import opened Pricing
  import opened Ingest

  datatype Bucket = Bucket(
    inputTokens: int,
    outputTokens: int,
    cacheRead: int,
    cacheWrite5m: int,
    cacheWrite1h: int,
    cost: real,
    requests: int)
  {
    function TotalCacheWrite(): int {
      cacheWrite5m + cacheWrite1h
    }

    /** Field-wise sum. */
    function Plus(o: Bucket): Bucket {
      Bucket(inputTokens + o.inputTokens, outputTokens + o.outputTokens, cacheRead + o.cacheRead,
             cacheWrite5m + o.cacheWrite5m, cacheWrite1h + o.cacheWrite1h, cost + o.cost, requests + o.requests)
    }
  }

  const Empty: Bucket := Bucket(0, 0, 0, 0, 0, 0.0, 0)

  /** A two-level view: outer key (a day or a project), then model. */
  type Views = map<string, map<string, Bucket>>

  /** What one record adds to each bucket it lands in. */
  function Contribution(r: Record): (b: Bucket)
    ensures b.requests == 1
    ensures b.cost == CalcCost(r.model, r.usage)
    ensures b.inputTokens == r.usage.inputTokens && b.outputTokens == r.usage.outputTokens
    ensures b.cacheRead == r.usage.cacheReadInputTokens
    ensures b.cacheWrite5m == CacheWriteTokens(r.usage).0 && b.cacheWrite1h == CacheWriteTokens(r.usage).1
    ensures b.TotalCacheWrite() == CacheWriteTokens(r.usage).0 + CacheWriteTokens(r.usage).1
  {
    var cache := CacheWriteTokens(r.usage);
    Bucket(r.usage.inputTokens, r.usage.outputTokens, r.usage.cacheReadInputTokens, cache.0, cache.1,
           CalcCost(r.model, r.usage), 1)
  }

  // ---------------------------------------------------------------------------
  // getOrCreateBucket / getOrCreateNestedBucket

  /**
   * The bucket under `key`, inserting an empty one when there is none: an
   * existing bucket comes back as it is, and the only slot that may change
   * is `key`'s.
   */
  function GetOrCreate(m: map<string, Bucket>, key: string): (r: (map<string, Bucket>, Bucket))
    ensures r.1 == if key in m then m[key] else Empty
    ensures r.0 == m[key := r.1]
  {
    var b := if key in m then m[key] else Empty;
    (m[key := b], b)
  }

  /** The row of a nested view under `outer`, empty when there is none. */
  function Row(m: Views, outer: string): map<string, Bucket> {
    if outer in m then m[outer] else map[]
  }

  /**
   * The bucket under `outer`/`inner`, creating the row and the bucket as
   * needed: an existing bucket comes back as it is, and the only slot of
   * the view that may change is that bucket's.
   */
  function GetOrCreateNested(m: Views, outer: string, inner: string): (r: (Views, Bucket))
    ensures r.1 == if outer in m && inner in m[outer] then m[outer][inner] else Empty
    ensures r.0 == m[outer := Row(m, outer)[inner := r.1]]
  {
    var (row, b) := GetOrCreate(Row(m, outer), inner);
    (m[outer := row], b)
  }

  /** getOrCreateBucket followed by the increments of parseLogs. */
  function Credit(m: map<string, Bucket>, key: string, c: Bucket): map<string, Bucket> {
    var (m', b) := GetOrCreate(m, key);
    m'[key := b.Plus(c)]
  }

  /** getOrCreateNestedBucket followed by the increments of parseLogs. */
  function CreditNested(m: Views, outer: string, inner: string, c: Bucket): Views {
    var (m', b) := GetOrCreateNested(m, outer, inner);
    m'[outer := m'[outer][inner := b.Plus(c)]]
  }

  /** Crediting a flat view adds `c` to one bucket, created if missing, and leaves the others alone. */
  lemma CreditFacts(m: map<string, Bucket>, key: string, c: Bucket)
    ensures var r := Credit(m, key, c);
      && r.Keys == m.Keys + {key}
      && r[key] == (if key in m then m[key] else Empty).Plus(c)
      && (forall k :: k in m && k != key ==> r[k] == m[k])
  {
  }

  /** Crediting a nested view credits one row, created if missing, and leaves the other rows alone. */
  lemma CreditNestedFacts(m: Views, outer: string, inner: string, c: Bucket)
    ensures var r := CreditNested(m, outer, inner, c);
      && r.Keys == m.Keys + {outer}
      && r[outer] == Credit(Row(m, outer), inner, c)
      && (forall o :: o in m && o != outer ==> r[o] == m[o])
  {
  }

  // ---------------------------------------------------------------------------
  // Order-independent sums of buckets

  /** The field-wise sum of all buckets of a map, in no particular order. */
  ghost function Total(m: map<string, Bucket>): Bucket
    decreases |m|
  {
    if |m| == 0 then Empty
    else
      var k :| k in m;
      m[k].Plus(Total(m - {k}))
  }

  /** Any key may be taken out first. */
  lemma {:induction false} TotalRemove(m: map<string, Bucket>, k: string)
    requires k in m
    ensures Total(m) == m[k].Plus(Total(m - {k}))
    decreases |m|
  {
    var j :| j in m && Total(m) == m[j].Plus(Total(m - {j}));
    if j != k {
      TotalRemove(m - {j}, k);
      TotalRemove(m - {k}, j);
      assert m - {j} - {k} == m - {k} - {j};
      PlusSwap(m[j], m[k], Total(m - {j} - {k}));
    }
  }

  lemma PlusSwap(a: Bucket, b: Bucket, x: Bucket)
    ensures a.Plus(b.Plus(x)) == b.Plus(a.Plus(x))
  {
  }

  lemma TotalAddNew(m: map<string, Bucket>, k: string, b: Bucket)
    requires k !in m
    ensures Total(m[k := b]) == Total(m).Plus(b)
  {
    TotalRemove(m[k := b], k);
    assert m[k := b] - {k} == m;
  }

  lemma TotalAddTo(m: map<string, Bucket>, k: string, c: Bucket)
    requires k in m
    ensures Total(m[k := m[k].Plus(c)]) == Total(m).Plus(c)
  {
    TotalRemove(m[k := m[k].Plus(c)], k);
    TotalRemove(m, k);
    assert m[k := m[k].Plus(c)] - {k} == m - {k};
  }

  /** Crediting `c` to one bucket adds `c` to the sum of the map. */
  lemma TotalCredit(m: map<string, Bucket>, key: string, c: Bucket)
    ensures Total(Credit(m, key, c)) == Total(m).Plus(c)
  {
    CreditFacts(m, key, c);
    if key in m {
      assert Credit(m, key, c) == m[key := m[key].Plus(c)];
      TotalAddTo(m, key, c);
    } else {
      assert Credit(m, key, c) == m[key := Empty.Plus(c)];
      TotalAddNew(m, key, c);
    }
  }

  /** When every bucket counts one request, the requests add up to the number of keys. */
  lemma {:induction false} TotalRequestsCountKeys(m: map<string, Bucket>)
    requires forall k :: k in m ==> m[k].requests == 1
    ensures Total(m).requests == |m|
    decreases |m|
  {
    if |m| > 0 {
      var k :| k in m;
      TotalRemove(m, k);
      TotalRequestsCountKeys(m - {k});
    }
  }

  // ---------------------------------------------------------------------------
  // What the three views should hold

  /** The two nested views: by local day and by project. */
  datatype Dim = Daily | PerProject

  function OuterKey(dim: Dim, r: Record): string {
    match dim
    case Daily => r.date
    case PerProject => r.project
  }

  /** The records a row of buckets covers: all of them (ModelUsage), or one day's or one project's. */
  datatype Scope = Everything | Within(dim: Dim, outer: string)

  predicate InScope(scope: Scope, r: Record) {
    match scope
    case Everything => true
    case Within(dim, o) => OuterKey(dim, r) == o
  }

  /** The contributions of the records with IDs in `ids`, keyed by request ID. */
  ghost function AllShare(deduped: map<string, Record>, ids: set<string>): map<string, Bucket> {
    map id | id in ids && id in deduped :: Contribution(deduped[id])
  }

  /** The contributions of the records of `ids` in `scope` with the given model. */
  ghost function Share(deduped: map<string, Record>, ids: set<string>, scope: Scope, model: string): map<string, Bucket> {
    map id | id in ids && id in deduped && InScope(scope, deduped[id]) && deduped[id].model == model
      :: Contribution(deduped[id])
  }

  /** The models of the records of `ids` in `scope`. */
  ghost function ModelsIn(deduped: map<string, Record>, ids: set<string>, scope: Scope): set<string> {
    set id | id in ids && id in deduped && InScope(scope, deduped[id]) :: deduped[id].model
  }

  /** The days, or the projects, of the records of `ids`. */
  ghost function OuterKeys(deduped: map<string, Record>, ids: set<string>, dim: Dim): set<string> {
    set id | id in ids && id in deduped :: OuterKey(dim, deduped[id])
  }

  /** One bucket per model seen in `scope`: the sum of that model's contributions there. */
  ghost function ExpectedBuckets(deduped: map<string, Record>, ids: set<string>, scope: Scope): map<string, Bucket> {
    map m | m in ModelsIn(deduped, ids, scope) :: Total(Share(deduped, ids, scope, m))
  }

  /** One row per day (project) seen, holding that day's (project's) expected buckets. */
  ghost function ExpectedView(deduped: map<string, Record>, ids: set<string>, dim: Dim): Views {
    map o | o in OuterKeys(deduped, ids, dim) :: ExpectedBuckets(deduped, ids, Within(dim, o))
  }

  /** The buckets of one model across the outer keys (days or projects). */
  function Column(view: Views, model: string): (c: map<string, Bucket>)
    ensures forall o :: o in c <==> o in view && model in view[o]
    ensures forall o :: o in c ==> c[o] == view[o][model]
  {
    map o | o in view && model in view[o] :: view[o][model]
  }

  /** Every model-level bucket is the sum of that model's buckets in the nested view, which has no other model. */
  ghost predicate Additive(models: map<string, Bucket>, view: Views) {
    && (forall m :: m in models ==> models[m] == Total(Column(view, m)))
    && (forall o, m :: o in view && m in view[o] ==> m in models)
  }

  // ---------------------------------------------------------------------------
  // One record at a time

  lemma ShareStep(deduped: map<string, Record>, ids: set<string>, id: string, scope: Scope, m: string)
    requires id in deduped && id !in ids
    ensures id !in Share(deduped, ids, scope, m)
    ensures Share(deduped, ids + {id}, scope, m) ==
              if InScope(scope, deduped[id]) && deduped[id].model == m
              then Share(deduped, ids, scope, m)[id := Contribution(deduped[id])]
              else Share(deduped, ids, scope, m)
  {
  }

  /** A share grows by the record's contribution exactly when it covers the record. */
  lemma ShareTotalStep(deduped: map<string, Record>, ids: set<string>, id: string, scope: Scope, m: string)
    requires id in deduped && id !in ids
    ensures Total(Share(deduped, ids + {id}, scope, m)) ==
              if InScope(scope, deduped[id]) && deduped[id].model == m
              then Total(Share(deduped, ids, scope, m)).Plus(Contribution(deduped[id]))
              else Total(Share(deduped, ids, scope, m))
  {
    ShareStep(deduped, ids, id, scope, m);
    if InScope(scope, deduped[id]) && deduped[id].model == m {
      TotalAddNew(Share(deduped, ids, scope, m), id, Contribution(deduped[id]));
    }
  }

  lemma ModelsInStep(deduped: map<string, Record>, ids: set<string>, id: string, scope: Scope)
    requires id in deduped
    ensures ModelsIn(deduped, ids + {id}, scope) ==
              if InScope(scope, deduped[id]) then ModelsIn(deduped, ids, scope) + {deduped[id].model}
              else ModelsIn(deduped, ids, scope)
  {
  }

  lemma OuterKeysStep(deduped: map<string, Record>, ids: set<string>, id: string, dim: Dim)
    requires id in deduped
    ensures OuterKeys(deduped, ids + {id}, dim) == OuterKeys(deduped, ids, dim) + {OuterKey(dim, deduped[id])}
  {
  }

  /** A model no record in scope has: its share is empty. */
  lemma ShareOfUnseenModel(deduped: map<string, Record>, ids: set<string>, scope: Scope, m: string)
    requires m !in ModelsIn(deduped, ids, scope)
    ensures Share(deduped, ids, scope, m) == map[]
  {
    forall id | id in ids && id in deduped && InScope(scope, deduped[id]) ensures deduped[id].model != m {
      assert deduped[id].model in ModelsIn(deduped, ids, scope);
    }
  }

  /** One bucket of a scope after a record in scope: grown by the contribution iff it is the record's model. */
  lemma BucketStepAt(deduped: map<string, Record>, ids: set<string>, id: string, scope: Scope, m: string)
    requires id in deduped && id !in ids && InScope(scope, deduped[id])
    requires m in ExpectedBuckets(deduped, ids + {id}, scope)
    ensures var before := ExpectedBuckets(deduped, ids, scope);
            ExpectedBuckets(deduped, ids + {id}, scope)[m] ==
              if m == deduped[id].model then (if m in before then before[m] else Empty).Plus(Contribution(deduped[id]))
              else before[m]
  {
    var r := deduped[id];
    ModelsInStep(deduped, ids, id, scope);
    ShareTotalStep(deduped, ids, id, scope, m);
    if m == r.model && m !in ModelsIn(deduped, ids, scope) {
      ShareOfUnseenModel(deduped, ids, scope, m);
    }
  }

  /** A record in scope adds its contribution to its model's bucket, creating the bucket if it is the model's first. */
  lemma BucketsStep(deduped: map<string, Record>, ids: set<string>, id: string, scope: Scope)
    requires id in deduped && id !in ids && InScope(scope, deduped[id])
    ensures Credit(ExpectedBuckets(deduped, ids, scope), deduped[id].model, Contribution(deduped[id]))
            == ExpectedBuckets(deduped, ids + {id}, scope)
  {
    var r := deduped[id];
    var before := ExpectedBuckets(deduped, ids, scope);
    var after := ExpectedBuckets(deduped, ids + {id}, scope);
    var credited := Credit(before, r.model, Contribution(r));
    BucketsKeysStep(deduped, ids, id, scope);
    forall m | m in after ensures credited[m] == after[m] {
      BucketStepAt(deduped, ids, id, scope, m);
      CreditFacts(before, r.model, Contribution(r));
    }
  }

  lemma BucketsKeysStep(deduped: map<string, Record>, ids: set<string>, id: string, scope: Scope)
    requires id in deduped && InScope(scope, deduped[id])
    ensures Credit(ExpectedBuckets(deduped, ids, scope), deduped[id].model, Contribution(deduped[id])).Keys
            == ExpectedBuckets(deduped, ids + {id}, scope).Keys
  {
    CreditFacts(ExpectedBuckets(deduped, ids, scope), deduped[id].model, Contribution(deduped[id]));
    ModelsInStep(deduped, ids, id, scope);
  }

  /** A record out of scope leaves the scope's buckets alone. */
  lemma BucketsUnchanged(deduped: map<string, Record>, ids: set<string>, id: string, scope: Scope)
    requires id in deduped && id !in ids && !InScope(scope, deduped[id])
    ensures ExpectedBuckets(deduped, ids + {id}, scope) == ExpectedBuckets(deduped, ids, scope)
  {
    ModelsInStep(deduped, ids, id, scope);
    forall m | m in ModelsIn(deduped, ids, scope)
      ensures Total(Share(deduped, ids + {id}, scope, m)) == Total(Share(deduped, ids, scope, m))
    {
      ShareStep(deduped, ids, id, scope, m);
    }
  }

  /** The row of a day (project) nobody has yet is empty, like a missing row. */
  lemma RowOfExpected(deduped: map<string, Record>, ids: set<string>, dim: Dim, o: string)
    ensures Row(ExpectedView(deduped, ids, dim), o) == ExpectedBuckets(deduped, ids, Within(dim, o))
  {
    if o !in OuterKeys(deduped, ids, dim) {
      forall id | id in ids && id in deduped ensures OuterKey(dim, deduped[id]) != o {
        assert OuterKey(dim, deduped[id]) in OuterKeys(deduped, ids, dim);
      }
      assert ModelsIn(deduped, ids, Within(dim, o)) == {};
    }
  }

  /** One row of a nested view after a record: credited if it is the record's day (project), else unchanged. */
  lemma ViewStepAt(deduped: map<string, Record>, ids: set<string>, id: string, dim: Dim, o: string)
    requires id in deduped && id !in ids
    ensures ExpectedBuckets(deduped, ids + {id}, Within(dim, o)) ==
              if o == OuterKey(dim, deduped[id])
              then Credit(Row(ExpectedView(deduped, ids, dim), o), deduped[id].model, Contribution(deduped[id]))
              else ExpectedBuckets(deduped, ids, Within(dim, o))
  {
    if o == OuterKey(dim, deduped[id]) {
      RowOfExpected(deduped, ids, dim, o);
      BucketsStep(deduped, ids, id, Within(dim, o));
    } else {
      BucketsUnchanged(deduped, ids, id, Within(dim, o));
    }
  }

  /** A record credited to its day's (project's) row keeps the nested view exact. */
  lemma ViewStep(deduped: map<string, Record>, ids: set<string>, id: string, dim: Dim)
    requires id in deduped && id !in ids
    ensures CreditNested(ExpectedView(deduped, ids, dim), OuterKey(dim, deduped[id]), deduped[id].model,
                         Contribution(deduped[id]))
            == ExpectedView(deduped, ids + {id}, dim)
  {
    var r := deduped[id];
    var o0 := OuterKey(dim, r);
    var before := ExpectedView(deduped, ids, dim);
    var after := ExpectedView(deduped, ids + {id}, dim);
    var credited := CreditNested(before, o0, r.model, Contribution(r));
    ViewKeysStep(deduped, ids, id, dim);
    forall o | o in after ensures credited[o] == after[o] {
      ViewStepAt(deduped, ids, id, dim, o);
      CreditNestedFacts(before, o0, r.model, Contribution(r));
    }
  }

  lemma ViewKeysStep(deduped: map<string, Record>, ids: set<string>, id: string, dim: Dim)
    requires id in deduped
    ensures CreditNested(ExpectedView(deduped, ids, dim), OuterKey(dim, deduped[id]), deduped[id].model,
                         Contribution(deduped[id])).Keys
            == ExpectedView(deduped, ids + {id}, dim).Keys
  {
    CreditNestedFacts(ExpectedView(deduped, ids, dim), OuterKey(dim, deduped[id]), deduped[id].model,
                      Contribution(deduped[id]));
    OuterKeysStep(deduped, ids, id, dim);
  }

  lemma AllShareStep(deduped: map<string, Record>, ids: set<string>, id: string)
    requires id in deduped && id !in ids
    ensures Total(AllShare(deduped, ids + {id})) == Total(AllShare(deduped, ids)).Plus(Contribution(deduped[id]))
  {
    assert AllShare(deduped, ids + {id}) == AllShare(deduped, ids)[id := Contribution(deduped[id])];
    TotalAddNew(AllShare(deduped, ids), id, Contribution(deduped[id]));
  }

  /** Crediting a cell leaves the columns of the other models alone. */
  lemma ColumnOfOtherModel(view: Views, outer: string, model: string, c: Bucket, m: string)
    requires m != model
    ensures Column(CreditNested(view, outer, model, c), m) == Column(view, m)
  {
    var view' := CreditNested(view, outer, model, c);
    CreditNestedFacts(view, outer, model, c);
    CreditFacts(Row(view, outer), model, c);
    assert Column(view', m).Keys == Column(view, m).Keys;
  }

  /** One slot of a model's column after crediting that model's cell in row `outer`. */
  lemma ColumnSlot(view: Views, outer: string, model: string, c: Bucket, o: string)
    requires o in Column(CreditNested(view, outer, model, c), model)
    ensures var col := Column(view, model);
            && (o != outer ==> o in col)
            && Column(CreditNested(view, outer, model, c), model)[o] ==
                 if o == outer then (if outer in col then col[outer] else Empty).Plus(c) else col[o]
  {
    CreditNestedFacts(view, outer, model, c);
    CreditFacts(Row(view, outer), model, c);
  }

  lemma ColumnKeys(view: Views, outer: string, model: string, c: Bucket)
    ensures Column(CreditNested(view, outer, model, c), model).Keys == Column(view, model).Keys + {outer}
  {
    var view' := CreditNested(view, outer, model, c);
    CreditNestedFacts(view, outer, model, c);
    CreditFacts(Row(view, outer), model, c);
    forall o ensures o in Column(view', model) <==> o in Column(view, model) || o == outer {
      if o != outer {
        assert o in view' <==> o in view;
      }
    }
  }

  /** Crediting a cell adds to one slot of its model's column, creating it if missing. */
  lemma ColumnOfSameModel(view: Views, outer: string, model: string, c: Bucket)
    ensures var col := Column(view, model);
            Column(CreditNested(view, outer, model, c), model) ==
              col[outer := (if outer in col then col[outer] else Empty).Plus(c)]
  {
    var col := Column(view, model);
    var after := Column(CreditNested(view, outer, model, c), model);
    var expected := col[outer := (if outer in col then col[outer] else Empty).Plus(c)];
    ColumnKeys(view, outer, model, c);
    forall o | o in after ensures after[o] == expected[o] {
      ColumnSlot(view, outer, model, c, o);
    }
  }

  /** One model's bucket after crediting it and one of its cells still sums its column. */
  lemma AdditiveStepAt(models: map<string, Bucket>, view: Views, outer: string, model: string, c: Bucket, m: string)
    requires Additive(models, view)
    requires m in Credit(models, model, c)
    ensures Credit(models, model, c)[m] == Total(Column(CreditNested(view, outer, model, c), m))
  {
    CreditFacts(models, model, c);
    var col := Column(view, m);
    if m != model {
      ColumnOfOtherModel(view, outer, model, c, m);
    } else {
      ColumnOfSameModel(view, outer, model, c);
      if outer in col {
        TotalAddTo(col, outer, c);
      } else {
        TotalAddNew(col, outer, c);
        if m !in models {
          assert col == map[];
        }
      }
    }
  }

  /** Crediting the same contribution to a model bucket and to one of its cells keeps the column sums. */
  lemma AdditiveStep(models: map<string, Bucket>, view: Views, outer: string, model: string, c: Bucket)
    requires Additive(models, view)
    ensures Additive(Credit(models, model, c), CreditNested(view, outer, model, c))
  {
    var models' := Credit(models, model, c);
    var view' := CreditNested(view, outer, model, c);
    forall m | m in models' ensures models'[m] == Total(Column(view', m)) {
      AdditiveStepAt(models, view, outer, model, c, m);
    }
    CreditFacts(models, model, c);
    CreditNestedFacts(view, outer, model, c);
    CreditFacts(Row(view, outer), model, c);
  }

  // ---------------------------------------------------------------------------
  // Properties of the expected views, by induction over the records

  lemma NothingExpected(deduped: map<string, Record>, dim: Dim)
    ensures ExpectedBuckets(deduped, {}, Everything) == map[]
    ensures ExpectedView(deduped, {}, dim) == map[]
    ensures AllShare(deduped, {}) == map[]
  {
    assert ModelsIn(deduped, {}, Everything) == {};
    assert OuterKeys(deduped, {}, dim) == {};
  }

  /** ModelUsage agrees with DailyUsage and with ProjectUsage: each model's bucket is the sum of its column. */
  lemma {:induction false} ExpectedAdditive(deduped: map<string, Record>, ids: set<string>, dim: Dim)
    requires ids <= deduped.Keys
    ensures Additive(ExpectedBuckets(deduped, ids, Everything), ExpectedView(deduped, ids, dim))
    decreases |ids|
  {
    if ids == {} {
      NothingExpected(deduped, dim);
    } else {
      var id :| id in ids;
      var rest := ids - {id};
      assert rest + {id} == ids;
      var r := deduped[id];
      ExpectedAdditive(deduped, rest, dim);
      BucketsStep(deduped, rest, id, Everything);
      ViewStep(deduped, rest, id, dim);
      AdditiveStep(ExpectedBuckets(deduped, rest, Everything), ExpectedView(deduped, rest, dim),
                   OuterKey(dim, r), r.model, Contribution(r));
    }
  }

  /** All the model buckets together add up to all the records. */
  lemma {:induction false} ExpectedGrandTotal(deduped: map<string, Record>, ids: set<string>)
    requires ids <= deduped.Keys
    ensures Total(ExpectedBuckets(deduped, ids, Everything)) == Total(AllShare(deduped, ids))
    decreases |ids|
  {
    if ids == {} {
      NothingExpected(deduped, Daily);
    } else {
      var id :| id in ids;
      var rest := ids - {id};
      assert rest + {id} == ids;
      var r := deduped[id];
      ExpectedGrandTotal(deduped, rest);
      BucketsStep(deduped, rest, id, Everything);
      TotalCredit(ExpectedBuckets(deduped, rest, Everything), r.model, Contribution(r));
      AllShareStep(deduped, rest, id);
    }
  }

  /** One request per record, so the requests add up to the number of distinct IDs. */
  lemma RequestsCountRecords(deduped: map<string, Record>)
    ensures Total(AllShare(deduped, deduped.Keys)).requests == |deduped|
  {
    var s := AllShare(deduped, deduped.Keys);
    assert s.Keys == deduped.Keys;
    TotalRequestsCountKeys(s);
  }

  /** Taking one key out of the keys still to visit adds it to the keys visited. */
  lemma TakeOne(all: set<string>, remaining: set<string>, x: string)
    requires remaining <= all && x in remaining
    ensures x !in all - remaining
    ensures all - (remaining - {x}) == (all - remaining) + {x}
  {
  }

  /**
   * The aggregation loop of parseLogs: every record, in map order, credited
   * to its model, its day and its project.
   */
  method Aggregate(deduped: map<string, Record>) returns (models: map<string, Bucket>, daily: Views, projects: Views)
    ensures models == ExpectedBuckets(deduped, deduped.Keys, Everything)
    ensures daily == ExpectedView(deduped, deduped.Keys, Daily)
    ensures projects == ExpectedView(deduped, deduped.Keys, PerProject)
    ensures Additive(models, daily) && Additive(models, projects)
    ensures Total(models) == Total(AllShare(deduped, deduped.Keys))
    ensures Total(models).requests == |deduped|
  {
    models, daily, projects := map[], map[], map[];
    var remaining := deduped.Keys;
    assert deduped.Keys - remaining == {};
    NothingExpected(deduped, Daily);
    NothingExpected(deduped, PerProject);
    while remaining != {}
      invariant remaining <= deduped.Keys
      invariant models == ExpectedBuckets(deduped, deduped.Keys - remaining, Everything)
      invariant daily == ExpectedView(deduped, deduped.Keys - remaining, Daily)
      invariant projects == ExpectedView(deduped, deduped.Keys - remaining, PerProject)
      decreases remaining
    {
      var id :| id in remaining;
      var r := deduped[id];
      var cost := CalcCost(r.model, r.usage);
      var cache := CacheWriteTokens(r.usage);
      var c := Bucket(r.usage.inputTokens, r.usage.outputTokens, r.usage.cacheReadInputTokens, cache.0, cache.1, cost, 1);
      assert c == Contribution(r);
      ghost var done := deduped.Keys - remaining;
      TakeOne(deduped.Keys, remaining, id);
      BucketsStep(deduped, done, id, Everything);
      ViewStep(deduped, done, id, Daily);
      ViewStep(deduped, done, id, PerProject);
      models := Credit(models, r.model, c);
      daily := CreditNested(daily, r.date, r.model, c);
      projects := CreditNested(projects, r.project, r.model, c);
      remaining := remaining - {id};
    }
    assert deduped.Keys - remaining == deduped.Keys;
    ExpectedAdditive(deduped, deduped.Keys, Daily);
    ExpectedAdditive(deduped, deduped.Keys, PerProject);
    ExpectedGrandTotal(deduped, deduped.Keys);
    RequestsCountRecords(deduped);
  }

  // ---------------------------------------------------------------------------
  // Totals and DateRange

  datatype UsageTotals = UsageTotals(
    cost: real,
    input: int,
    output: int,
    cacheR: int,
    cacheW: int,
    cacheW5m: int,
    cacheW1h: int,
    requests: int)

  /** The buckets of `m` whose keys are not in `rest`. */
  function Without(m: map<string, Bucket>, rest: set<string>): (r: map<string, Bucket>)
    ensures r.Keys == m.Keys - rest
  {
    map k | k in m && k !in rest :: m[k]
  }

  lemma WithoutStep(m: map<string, Bucket>, rest: set<string>, k: string)
    requires k in rest && k in m
    ensures k !in Without(m, rest)
    ensures Without(m, rest - {k}) == Without(m, rest)[k := m[k]]
  {
  }

  lemma WithoutNothing(m: map<string, Bucket>)
    ensures Without(m, m.Keys) == map[]
    ensures Without(m, {}) == m
  {
    assert Without(m, m.Keys).Keys == {};
  }

  /** Totals: the field-wise sum of the model buckets, the cache writes of both tiers added up. */
  method Totals(models: map<string, Bucket>) returns (t: UsageTotals)
    ensures var s := Total(models);
      t == UsageTotals(s.cost, s.inputTokens, s.outputTokens, s.cacheRead, s.TotalCacheWrite(),
                       s.cacheWrite5m, s.cacheWrite1h, s.requests)
  {
    var sum := Empty;
    var remaining := models.Keys;
    WithoutNothing(models);
    while remaining != {}
      invariant remaining <= models.Keys
      invariant sum == Total(Without(models, remaining))
      decreases remaining
    {
      var k :| k in remaining;
      var b := models[k];
      WithoutStep(models, remaining, k);
      TotalAddNew(Without(models, remaining), k, b);
      sum := sum.Plus(b);
      remaining := remaining - {k};
    }
    t := UsageTotals(sum.cost, sum.inputTokens, sum.outputTokens, sum.cacheRead,
                     sum.cacheWrite5m + sum.cacheWrite1h, sum.cacheWrite5m, sum.cacheWrite1h, sum.requests);
  }

  /** The days with a real date. */
  function DatedDays(daily: Views): set<string> {
    set d | d in daily && d != UnknownDate
  }

  /** `from` is the least of `days`, or empty when there are none. */
  ghost predicate IsLow(days: set<string>, from: string) {
    if days == {} then from == "" else from in days && forall d :: d in days ==> LessEq(from, d)
  }

  /** `to` is the greatest of `days`, or empty when there are none. */
  ghost predicate IsHigh(days: set<string>, to: string) {
    if days == {} then to == "" else to in days && forall d :: d in days ==> LessEq(d, to)
  }

  ghost predicate IsRange(days: set<string>, from: string, to: string) {
    IsLow(days, from) && IsHigh(days, to)
  }

  /** One step of DateRange's loop keeps the running minimum exact. */
  lemma LowStep(days: set<string>, from: string, d: string)
    requires "" !in days && d != "" && IsLow(days, from)
    ensures IsLow(days + {d}, if from == "" || Less(d, from) then d else from)
  {
    if days != {} {
      if Less(d, from) {
        forall e | e in days ensures LessEq(d, e) {
          if e != from { LessTransitive(d, from, e); }
        }
      } else {
        LessTotal(d, from);
      }
    }
  }

  /** One step of DateRange's loop keeps the running maximum exact. */
  lemma HighStep(days: set<string>, to: string, d: string)
    requires "" !in days && d != "" && IsHigh(days, to)
    ensures IsHigh(days + {d}, if to == "" || Less(to, d) then d else to)
  {
    if days != {} {
      if Less(to, d) {
        forall e | e in days ensures LessEq(e, d) {
          if e != to { LessTransitive(e, to, d); }
        }
      } else {
        LessTotal(d, to);
      }
    }
  }

  /** Visiting one more day adds it to the dated days seen, unless it is the undated bucket. */
  lemma DatedStep(daily: Views, remaining: set<string>, d: string)
    requires d in remaining
    ensures DatedDays(daily) - (remaining - {d}) ==
              if d in daily && d != UnknownDate then (DatedDays(daily) - remaining) + {d}
              else DatedDays(daily) - remaining
  {
  }

  /**
   * DateRange: the earliest and latest dated day in string order, or two
   * empty strings when every record is undated. Real dates are never empty;
   * an empty key would be taken for "not set yet" by the loop.
   */
  method DateRange(daily: Views) returns (from: string, to: string)
    ensures "" !in daily ==> IsRange(DatedDays(daily), from, to)
  {
    from, to := "", "";
    var remaining := daily.Keys;
    assert DatedDays(daily) - remaining == {};
    while remaining != {}
      invariant remaining <= daily.Keys
      invariant "" !in daily ==> IsRange(DatedDays(daily) - remaining, from, to)
      decreases remaining
    {
      var d :| d in remaining;
      if "" !in daily {
        DatedStep(daily, remaining, d);
        if d != UnknownDate {
          LowStep(DatedDays(daily) - remaining, from, d);
          HighStep(DatedDays(daily) - remaining, to, d);
        }
      }
      remaining := remaining - {d};
      if d == UnknownDate {
        continue;
      }
      if from == "" || Less(d, from) {
        from := d;
      }
      if to == "" || Less(to, d) {
        to := d;
      }
    }
    assert DatedDays(daily) - remaining == DatedDays(daily);
  }
}
