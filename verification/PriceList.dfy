/** Price lists: their meaning as tables of rates, validation, comparison, and the merged list. */
module PriceList {
  import opened Options
  import Sorting
  import Text

  datatype Key = Key(provider: string, model: string)

  /** US dollars per million tokens. */
  datatype Rates = Rates(input: real, output: real, cacheRead: real, cacheWrite: real)

  datatype ModelPrice = ModelPrice(key: Key, rates: Rates, updatedAt: int)

  type RateTable = map<Key, Rates>

  /** The table a list stands for: a later entry replaces an earlier one of its key. */
  function RatesOf(list: seq<ModelPrice>): (t: RateTable)
    ensures t.Keys == KeysOf(list)
  {
    if list == [] then map[]
    else
      var init, last := list[..|list| - 1], list[|list| - 1];
      assert list == init + [last];
      RatesOf(init)[last.key := last.rates]
  }

  function KeysOf(list: seq<ModelPrice>): set<Key> {
    set mp | mp in list :: mp.key
  }

  /** Each key once. */
  predicate Distinct(list: seq<ModelPrice>) {
    forall i, j | 0 <= i < j < |list| :: list[i].key != list[j].key
  }

  lemma {:induction false} RatesAt(list: seq<ModelPrice>, i: nat)
    requires Distinct(list) && i < |list|
    ensures list[i].key in RatesOf(list) && RatesOf(list)[list[i].key] == list[i].rates
  {
    var n := |list| - 1;
    if i < n {
      RatesAt(list[..n], i);
      EarlierRates(list, i);
    }
  }

  /** A last entry of another key leaves the earlier ones' rates as they are. */
  lemma EarlierRates(list: seq<ModelPrice>, i: nat)
    requires i < |list| - 1 && list[i].key != list[|list| - 1].key
    requires list[i].key in RatesOf(list[..|list| - 1])
    ensures list[i].key in RatesOf(list) && RatesOf(list)[list[i].key] == RatesOf(list[..|list| - 1])[list[i].key]
  {
  }

  lemma RatesOfEntry(list: seq<ModelPrice>, mp: ModelPrice)
    requires Distinct(list) && mp in list
    ensures mp.key in RatesOf(list) && RatesOf(list)[mp.key] == mp.rates
  {
    var i :| 0 <= i < |list| && list[i] == mp;
    RatesAt(list, i);
  }

  // ---- Validation ----

  datatype FieldName = Provider | Model | Input | Output | CacheRead | CacheWrite | Duplicate
  datatype Invalid = Invalid(index: int, field: FieldName)

  predicate Blank(s: string) { Text.TrimSpace(s) == "" }

  predicate FieldGood(p: ModelPrice, f: FieldName) {
    match f
    case Provider => !Blank(p.key.provider)
    case Model => !Blank(p.key.model)
    case Input => p.rates.input >= 0.0
    case Output => p.rates.output >= 0.0
    case CacheRead => p.rates.cacheRead >= 0.0
    case CacheWrite => p.rates.cacheWrite >= 0.0
    case Duplicate => true
  }

  predicate GoodPrice(list: seq<ModelPrice>, i: nat)
    requires i < |list|
  {
    (forall f: FieldName :: FieldGood(list[i], f)) && forall j | 0 <= j < i :: list[j].key != list[i].key
  }

  predicate ValidList(list: seq<ModelPrice>) {
    forall i | 0 <= i < |list| :: GoodPrice(list, i)
  }

  /** A valid list in plain terms: named models, no negative rate, each provider and model once. */
  lemma ValidListInPlainTerms(list: seq<ModelPrice>)
    ensures ValidList(list) <==>
            && (forall i | 0 <= i < |list| :: NamedAndPriced(list[i]))
            && (forall i, j | 0 <= i < j < |list| :: list[i].key != list[j].key)
  {
    if ValidList(list) {
      forall i | 0 <= i < |list| ensures NamedAndPriced(list[i]) && forall j | 0 <= j < i ::
          list[j].key != list[i].key {
        assert GoodPrice(list, i);
        assert FieldGood(list[i], Provider) && FieldGood(list[i], Model) && FieldGood(list[i], Input);
        assert FieldGood(list[i], Output) && FieldGood(list[i], CacheRead) && FieldGood(list[i], CacheWrite);
      }
    } else {
      var i :| 0 <= i < |list| && !GoodPrice(list, i);
    }
  }

  predicate NamedAndPriced(p: ModelPrice) {
    && Text.TrimSpace(p.key.provider) != "" && Text.TrimSpace(p.key.model) != ""
    && p.rates.input >= 0.0 && p.rates.output >= 0.0 && p.rates.cacheRead >= 0.0 && p.rates.cacheWrite >= 0.0
  }

  /** The first bad entry, and a field of it that is bad: a duplicate only if nothing else is. */
  ghost predicate NamesFault(list: seq<ModelPrice>, err: Invalid) {
    var Invalid(index, field) := err;
    && 0 <= index < |list| && !GoodPrice(list, index)
    && (forall i | 0 <= i < index :: GoodPrice(list, i))
    && (field.Duplicate? <==> forall f: FieldName :: FieldGood(list[index], f))
    && (!field.Duplicate? ==> !FieldGood(list[index], field))
  }

  /** Accepts exactly the valid lists, and otherwise names the first entry that is not and a field of it that is not. */
  method ValidatePrices(list: seq<ModelPrice>) returns (err: Option<Invalid>)
    ensures err.None? <==> ValidList(list)
    ensures err.None? ==> Distinct(list)
    ensures err.Some? ==> NamesFault(list, err.value)
  {
    var seen: set<Key> := {};
    for index := 0 to |list|
      invariant forall i | 0 <= i < index :: GoodPrice(list, i)
      invariant forall k :: k in seen <==> exists i | 0 <= i < index :: list[i].key == k
    {
      var mp := list[index];
      var bad := FirstBad(mp);
      if bad.Some? {
        assert !GoodPrice(list, index);
        return Some(Invalid(index, bad.value));
      }
      if mp.key in seen {
        assert !GoodPrice(list, index);
        return Some(Invalid(index, Duplicate));
      }
      seen := seen + {mp.key};
      assert GoodPrice(list, index);
    }
    assert forall i, j | 0 <= i < j < |list| :: GoodPrice(list, j) ==> list[i].key != list[j].key;
    return None;
  }

  function FirstBad(p: ModelPrice): (bad: Option<FieldName>)
    ensures bad.None? <==> forall f: FieldName :: FieldGood(p, f)
    ensures bad.Some? ==> !bad.value.Duplicate? && !FieldGood(p, bad.value)
  {
    if Blank(p.key.provider) then assert !FieldGood(p, Provider); Some(Provider)
    else if Blank(p.key.model) then assert !FieldGood(p, Model); Some(Model)
    else if p.rates.input < 0.0 then assert !FieldGood(p, Input); Some(Input)
    else if p.rates.output < 0.0 then assert !FieldGood(p, Output); Some(Output)
    else if p.rates.cacheRead < 0.0 then assert !FieldGood(p, CacheRead); Some(CacheRead)
    else if p.rates.cacheWrite < 0.0 then assert !FieldGood(p, CacheWrite); Some(CacheWrite)
    else None
  }

  /** A fetched list the prices in force may be replaced with. */
  predicate Acceptable(list: seq<ModelPrice>) {
    && list != []
    && (exists i | 0 <= i < |list| :: list[i].rates.input > 0.0 || list[i].rates.output > 0.0)
    && ValidList(list)
  }

  datatype Refusal = Empty | AllZero | InvalidPrice

  method AcceptCatalog(list: seq<ModelPrice>) returns (refused: Option<Refusal>)
    ensures refused.None? <==> Acceptable(list)
    ensures refused == Some(Empty) <==> |list| == 0
    ensures refused == Some(AllZero) <==>
              |list| > 0 && forall i | 0 <= i < |list| :: list[i].rates.input <= 0.0 && list[i].rates.output <= 0.0
    ensures refused == Some(InvalidPrice) ==> !ValidList(list)
    ensures refused.None? ==> ValidList(list) && Distinct(list)
  {
    if |list| == 0 { return Some(Empty); }
    var priced := exists i | 0 <= i < |list| :: list[i].rates.input > 0.0 || list[i].rates.output > 0.0;
    if !priced { return Some(AllZero); }
    var err := ValidatePrices(list);
    return if err.Some? then Some(InvalidPrice) else None;
  }

  // ---- Comparison ----

  /** What the loop checks: as many entries, and each of the right in the left at the same rates. */
  predicate EachMatches(left: seq<ModelPrice>, right: seq<ModelPrice>) {
    |left| == |right| && forall mp | mp in right :: Has(RatesOf(left), mp)
  }

  predicate Has(t: RateTable, mp: ModelPrice) {
    mp.key in t && t[mp.key] == mp.rates
  }

  method SameRates(left: seq<ModelPrice>, right: seq<ModelPrice>) returns (same: bool)
    ensures same <==> EachMatches(left, right)
  {
    if |left| != |right| { return false; }
    var byKey: RateTable := map[];
    for i := 0 to |left|
      invariant byKey == RatesOf(left[..i])
    {
      assert left[..i + 1][..i] == left[..i];
      byKey := byKey[left[i].key := left[i].rates];
    }
    assert left[..|left|] == left;
    for i := 0 to |right|
      invariant forall mp | mp in right[..i] :: Has(byKey, mp)
    {
      if right[i].key !in byKey || byKey[right[i].key] != right[i].rates {
        assert !Has(byKey, right[i]) && right[i] in right;
        return false;
      }
      assert right[..i + 1] == right[..i] + [right[i]];
    }
    assert right[..|right|] == right;
    return true;
  }

  lemma {:induction false} DistinctKeys(list: seq<ModelPrice>)
    requires Distinct(list)
    ensures |KeysOf(list)| == |list|
  {
    if list != [] {
      var init, last := list[..|list| - 1], list[|list| - 1];
      DistinctKeys(init);
      assert list == init + [last];
      assert KeysOf(list) == KeysOf(init) + {last.key};
      assert last.key !in KeysOf(init);
    }
  }

  lemma Included(a: set<Key>, b: set<Key>)
    requires a <= b && |a| == |b|
    ensures a == b
  {
    assert a + (b - a) == b;
    assert |a + (b - a)| == |a| + |b - a|;
    assert b - a == {};
  }

  /** The pigeonhole behind the loop: for lists naming each key once, matching one way is being the same table. */
  lemma MatchingIsEquality(left: seq<ModelPrice>, right: seq<ModelPrice>)
    requires Distinct(left) && Distinct(right)
    ensures EachMatches(left, right) <==> RatesOf(left) == RatesOf(right)
  {
    var l, r := RatesOf(left), RatesOf(right);
    DistinctKeys(left);
    DistinctKeys(right);
    assert |l.Keys| == |left| && |r.Keys| == |right|;
    forall mp | mp in right ensures Has(r, mp) {
      RatesOfEntry(right, mp);
    }
    if EachMatches(left, right) {
      forall k | k in r ensures k in l && l[k] == r[k] {
        var mp :| mp in right && mp.key == k;
        assert Has(l, mp) && Has(r, mp);
      }
      Included(r.Keys, l.Keys);
    }
  }

  // ---- The merged list ----

  datatype Source = Catalog | Manual

  /** One price in force; a manual entry carries the catalogue's price it replaces. */
  datatype Entry = Entry(price: ModelPrice, source: Source, catalog: Option<ModelPrice>)

  /** Manual rates where there are any, else the catalogue's, else none. */
  function Effective(manual: RateTable, catalog: RateTable): RateTable {
    map k | k in manual.Keys + catalog.Keys :: if k in manual then manual[k] else catalog[k]
  }

  predicate KeyLe(a: Key, b: Key) {
    if a.provider == b.provider then Text.StringLe(a.model, b.model) else Text.StringLe(a.provider, b.provider)
  }

  /** Provider first, then model, each in dictionary order. */
  lemma KeyOrder(a: Key, b: Key)
    ensures KeyLe(a, b) <==>
            (a.provider != b.provider && Text.StringLe(a.provider, b.provider))
            || (a.provider == b.provider && Text.StringLe(a.model, b.model))
  {
  }

  predicate EntryLe(a: Entry, b: Entry) { KeyLe(a.price.key, b.price.key) }

  lemma EntriesAreOrdered()
    ensures Sorting.TotalPreorder(EntryLe)
  {
    forall a: Entry, b: Entry ensures EntryLe(a, b) || EntryLe(b, a) {
      Text.StringLeTotal(a.price.key.provider, b.price.key.provider);
      Text.StringLeTotal(a.price.key.model, b.price.key.model);
    }
    forall a: Entry, b: Entry, c: Entry | EntryLe(a, b) && EntryLe(b, c) ensures EntryLe(a, c) {
      var x, y, z := a.price.key, b.price.key, c.price.key;
      if x.provider == y.provider == z.provider {
        Text.StringLeTransitive(x.model, y.model, z.model);
      } else if x.provider != y.provider && y.provider != z.provider {
        Text.StringLeTransitive(x.provider, y.provider, z.provider);
        Text.StringLeTotal(x.provider, y.provider);
      }
    }
  }

  /** Entry e is right for its key: manual over catalogue, with what it replaces. */
  ghost predicate RightEntry(e: Entry, catalog: seq<ModelPrice>, manual: seq<ModelPrice>) {
    match e.source
    case Manual =>
      && e.price in manual
      && (e.catalog.Some? <==> e.price.key in KeysOf(catalog))
      && (e.catalog.Some? ==> e.catalog.value in catalog && e.catalog.value.key == e.price.key)
    case Catalog => e.price in catalog && e.catalog.None? && e.price.key !in KeysOf(manual)
  }

  ghost predicate OneEach(entries: seq<Entry>) {
    forall i, j | 0 <= i < j < |entries| :: entries[i].price.key != entries[j].price.key
  }

  function EntryKeys(entries: seq<Entry>): set<Key> {
    set e | e in entries :: e.price.key
  }

  ghost predicate AllRight(entries: seq<Entry>, catalog: seq<ModelPrice>, manual: seq<ModelPrice>) {
    forall e | e in entries :: RightEntry(e, catalog, manual)
  }

  /** The effective list: sorted by provider then model, each priced key once, each entry right. */
  ghost predicate IsMerged(entries: seq<Entry>, catalog: seq<ModelPrice>, manual: seq<ModelPrice>) {
    && Sorting.SortedBy(entries, EntryLe)
    && OneEach(entries)
    && AllRight(entries, catalog, manual)
    && EntryKeys(entries) == KeysOf(catalog) + KeysOf(manual)
  }

  /** The catalogue price's place once the first n manual prices are merged in. */
  function Placed(c: ModelPrice, manual: seq<ModelPrice>, n: nat): (e: Entry)
    requires n <= |manual|
    ensures e.price.key == c.key
    ensures c.key !in KeysOf(manual[..n]) ==> e == Entry(c, Catalog, None)
    ensures c.key in KeysOf(manual[..n]) ==> e.source.Manual? && e.price in manual && e.catalog == Some(c)
  {
    if n == 0 then Entry(c, Catalog, None)
    else
      assert manual[..n] == manual[..n - 1] + [manual[n - 1]];
      if manual[n - 1].key == c.key then Entry(manual[n - 1], Manual, Some(c)) else Placed(c, manual, n - 1)
  }

  function Heads(catalog: seq<ModelPrice>, manual: seq<ModelPrice>, n: nat): (out: seq<Entry>)
    requires n <= |manual|
    ensures |out| == |catalog| && forall j | 0 <= j < |catalog| :: out[j] == Placed(catalog[j], manual, n)
  {
    seq(|catalog|, j requires 0 <= j < |catalog| => Placed(catalog[j], manual, n))
  }

  /** The manual prices among the first n that the catalogue does not name. */
  function Tails(catalog: seq<ModelPrice>, manual: seq<ModelPrice>, n: nat): (out: seq<Entry>)
    requires n <= |manual|
    ensures forall e | e in out ::
              e.source.Manual? && e.catalog.None? && e.price in manual[..n] && e.price.key !in KeysOf(catalog)
    ensures EntryKeys(out) == KeysOf(manual[..n]) - KeysOf(catalog)
  {
    if n == 0 then []
    else
      assert manual[..n] == manual[..n - 1] + [manual[n - 1]];
      assert KeysOf(manual[..n]) == KeysOf(manual[..n - 1]) + {manual[n - 1].key};
      var out := Tails(catalog, manual, n - 1);
      if manual[n - 1].key in KeysOf(catalog) then out
      else
        var e := Entry(manual[n - 1], Manual, None);
        assert EntryKeys(out + [e]) == EntryKeys(out) + {e.price.key};
        out + [e]
  }

  /** The merged list before it is sorted, with the first n manual prices merged in. */
  function Merged(catalog: seq<ModelPrice>, manual: seq<ModelPrice>, n: nat): seq<Entry>
    requires n <= |manual|
  {
    Heads(catalog, manual, n) + Tails(catalog, manual, n)
  }

  lemma {:induction false} TailsAreDistinct(catalog: seq<ModelPrice>, manual: seq<ModelPrice>, n: nat)
    requires n <= |manual| && Distinct(manual)
    ensures OneEach(Tails(catalog, manual, n))
  {
    if n > 0 {
      TailsAreDistinct(catalog, manual, n - 1);
      var out := Tails(catalog, manual, n - 1);
      assert manual[n - 1].key !in KeysOf(manual[..n - 1]);
      forall i | 0 <= i < |out| ensures out[i].price.key != manual[n - 1].key {
        assert out[i] in out;
      }
    }
  }

  method Entries(catalog: seq<ModelPrice>, manual: seq<ModelPrice>) returns (entries: seq<Entry>)
    requires Distinct(catalog) && Distinct(manual)
    ensures IsMerged(entries, catalog, manual)
  {
    var out := Merge(catalog, manual);
    EntriesAreOrdered();
    entries := Sorting.Sort(out, EntryLe);
    Sorting.PermutationFacts(entries, out);
    MergedInOrder(out, entries, catalog, manual);
  }

  method Merge(catalog: seq<ModelPrice>, manual: seq<ModelPrice>) returns (out: seq<Entry>)
    requires Distinct(catalog) && Distinct(manual)
    ensures out == Merged(catalog, manual, |manual|)
  {
    var at;
    out, at := Catalogued(catalog);
    for n := 0 to |manual|
      invariant out == Merged(catalog, manual, n)
    {
      out := MergeOne(catalog, manual, n, at, out);
    }
  }

  /** One manual price, in the catalogue's place for its key or at the end. */
  method MergeOne(ghost catalog: seq<ModelPrice>, manual: seq<ModelPrice>, n: nat, at: map<Key, nat>, out: seq<Entry>)
    returns (next: seq<Entry>)
    requires Distinct(catalog) && Distinct(manual) && n < |manual| && IsIndex(at, catalog)
    requires out == Merged(catalog, manual, n)
    ensures next == Merged(catalog, manual, n + 1)
  {
    var m := manual[n];
    NextMerge(catalog, manual, n, at);
    if m.key in at {
      var i := at[m.key];
      next := out[i := Entry(m, Manual, Some(out[i].price))];
    } else {
      next := out + [Entry(m, Manual, None)];
    }
  }

  /** Every key's place in the catalogue. */
  ghost predicate IsIndex(at: map<Key, nat>, catalog: seq<ModelPrice>) {
    && at.Keys == KeysOf(catalog)
    && forall k | k in at :: at[k] < |catalog| && catalog[at[k]].key == k
  }

  method Catalogued(catalog: seq<ModelPrice>) returns (out: seq<Entry>, at: map<Key, nat>)
    ensures IsIndex(at, catalog)
    ensures out == Heads(catalog, [], 0) && |out| == |catalog|
    ensures forall j | 0 <= j < |out| :: out[j] == Entry(catalog[j], Catalog, None)
  {
    out, at := [], map[];
    for i := 0 to |catalog|
      invariant |out| == i && forall j | 0 <= j < i :: out[j] == Entry(catalog[j], Catalog, None)
      invariant IsIndex(at, catalog[..i])
    {
      assert catalog[..i + 1] == catalog[..i] + [catalog[i]];
      at := at[catalog[i].key := |out|];
      out := out + [Entry(catalog[i], Catalog, None)];
    }
    assert catalog[..|catalog|] == catalog;
  }

  /** One more manual price replaces the catalogue's place for its key, if there is one. */
  lemma NextHeads(catalog: seq<ModelPrice>, manual: seq<ModelPrice>, n: nat, at: map<Key, nat>)
    requires Distinct(catalog) && n < |manual| && IsIndex(at, catalog)
    ensures var m, heads := manual[n], Heads(catalog, manual, n);
            Heads(catalog, manual, n + 1) ==
            if m.key in at then heads[at[m.key] := Entry(m, Manual, Some(catalog[at[m.key]]))] else heads
  {
    var m := manual[n];
    var heads, next := Heads(catalog, manual, n), Heads(catalog, manual, n + 1);
    forall j | 0 <= j < |catalog| && (m.key !in at || j != at[m.key]) ensures next[j] == heads[j] {
      assert catalog[j] in catalog;
      assert catalog[j].key != m.key;
    }
  }

  /** What one more manual price does to the merged list. */
  lemma NextMerge(catalog: seq<ModelPrice>, manual: seq<ModelPrice>, n: nat, at: map<Key, nat>)
    requires Distinct(catalog) && Distinct(manual) && n < |manual| && IsIndex(at, catalog)
    ensures var out, m := Merged(catalog, manual, n), manual[n];
            && |out| >= |catalog|
            && Merged(catalog, manual, n + 1) ==
            if m.key in at then out[at[m.key] := Entry(m, Manual, Some(out[at[m.key]].price))]
            else out + [Entry(m, Manual, None)]
  {
    var m, heads, tails := manual[n], Heads(catalog, manual, n), Tails(catalog, manual, n);
    NextHeads(catalog, manual, n, at);
    if m.key in at {
      var i := at[m.key];
      assert m.key !in KeysOf(manual[..n]);
      assert heads[i] == Entry(catalog[i], Catalog, None);
      UpdateInFront(heads, tails, i, Entry(m, Manual, Some(catalog[i])));
    } else {
      AppendBehind(heads, tails, Entry(m, Manual, None));
    }
  }

  lemma UpdateInFront<T>(a: seq<T>, b: seq<T>, i: nat, x: T)
    requires i < |a|
    ensures (a + b)[i] == a[i] && (a + b)[i := x] == a[i := x] + b
  {
  }

  lemma AppendBehind<T>(a: seq<T>, b: seq<T>, x: T)
    ensures a + (b + [x]) == (a + b) + [x]
  {
  }

  lemma MergedInOrder(out: seq<Entry>, entries: seq<Entry>, catalog: seq<ModelPrice>, manual: seq<ModelPrice>)
    requires Distinct(catalog) && Distinct(manual)
    requires out == Merged(catalog, manual, |manual|)
    requires multiset(out) == multiset(entries) && Sorting.SortedBy(entries, EntryLe)
    ensures IsMerged(entries, catalog, manual)
  {
    var heads, tails := Heads(catalog, manual, |manual|), Tails(catalog, manual, |manual|);
    assert manual[..|manual|] == manual;
    TailsAreDistinct(catalog, manual, |manual|);
    HeadsAreRight(catalog, manual);
    HeadsThenTails(heads, tails, catalog);
    OneEachPermuted(out, entries);
    Sorting.PermutationFacts(out, entries);
    assert EntryKeys(out) == EntryKeys(heads) + EntryKeys(tails);
    assert EntryKeys(out) == EntryKeys(entries);
  }

  lemma HeadsAreRight(catalog: seq<ModelPrice>, manual: seq<ModelPrice>)
    ensures AllRight(Heads(catalog, manual, |manual|), catalog, manual)
    ensures EntryKeys(Heads(catalog, manual, |manual|)) == KeysOf(catalog)
  {
    var heads := Heads(catalog, manual, |manual|);
    assert manual[..|manual|] == manual;
    forall e | e in heads ensures RightEntry(e, catalog, manual) && e.price.key in KeysOf(catalog) {
      var j :| 0 <= j < |heads| && heads[j] == e;
      assert catalog[j] in catalog;
    }
    forall k | k in KeysOf(catalog) ensures k in EntryKeys(heads) {
      var c :| c in catalog && c.key == k;
      var j :| 0 <= j < |catalog| && catalog[j] == c;
      assert heads[j] in heads;
    }
  }

  lemma HeadsThenTails(heads: seq<Entry>, tails: seq<Entry>, catalog: seq<ModelPrice>)
    requires Distinct(catalog) && |heads| == |catalog|
    requires forall j | 0 <= j < |heads| :: heads[j].price.key == catalog[j].key
    requires OneEach(tails) && forall e | e in tails :: e.price.key !in KeysOf(catalog)
    ensures OneEach(heads + tails)
  {
    forall j | 0 <= j < |heads| ensures heads[j].price.key in KeysOf(catalog) {
      assert catalog[j] in catalog;
    }
    forall j | 0 <= j < |tails| ensures tails[j].price.key !in KeysOf(catalog) {
      assert tails[j] in tails;
    }
  }

  lemma OneEachPermuted(a: seq<Entry>, b: seq<Entry>)
    requires multiset(a) == multiset(b) && OneEach(a)
    ensures OneEach(b)
  {
    Sorting.PermutationFacts(a, b);
    forall i, j | 0 <= i < j < |b| ensures b[i].price.key != b[j].price.key {
      assert b[i] in a && b[j] in a;
      var x :| 0 <= x < |a| && a[x] == b[i];
      var y :| 0 <= y < |a| && a[y] == b[j];
      if x == y {
        assert b == b[..i] + [b[i]] + b[i + 1..j] + [b[j]] + b[j + 1..];
        assert multiset(b)[b[i]] >= 2;
        Sorting.AtMostOnce(a, b[i]);
      }
    }
  }

  function PricesOf(entries: seq<Entry>): (list: seq<ModelPrice>)
    ensures |list| == |entries| && forall i | 0 <= i < |entries| :: list[i] == entries[i].price
    ensures KeysOf(list) == EntryKeys(entries)
  {
    if entries == [] then []
    else
      var rest := PricesOf(entries[1..]);
      assert entries == [entries[0]] + entries[1..];
      assert KeysOf([entries[0].price] + rest) == {entries[0].price.key} + KeysOf(rest);
      [entries[0].price] + rest
  }

  /** The merged list stands for the effective table. */
  lemma MergedIsEffective(entries: seq<Entry>, catalog: seq<ModelPrice>, manual: seq<ModelPrice>)
    requires Distinct(catalog) && Distinct(manual) && IsMerged(entries, catalog, manual)
    ensures Distinct(PricesOf(entries))
    ensures RatesOf(PricesOf(entries)) == Effective(RatesOf(manual), RatesOf(catalog))
  {
    OneEachIsDistinct(entries);
    SameTable(entries, catalog, manual);
  }

  lemma OneEachIsDistinct(entries: seq<Entry>)
    requires OneEach(entries)
    ensures Distinct(PricesOf(entries))
  {
  }

  lemma SameTable(entries: seq<Entry>, catalog: seq<ModelPrice>, manual: seq<ModelPrice>)
    requires Distinct(catalog) && Distinct(manual) && Distinct(PricesOf(entries))
    requires AllRight(entries, catalog, manual) && EntryKeys(entries) == KeysOf(catalog) + KeysOf(manual)
    ensures RatesOf(PricesOf(entries)) == Effective(RatesOf(manual), RatesOf(catalog))
  {
    RatesAgree(entries, catalog, manual);
  }

  lemma RatesAgree(entries: seq<Entry>, catalog: seq<ModelPrice>, manual: seq<ModelPrice>)
    requires Distinct(catalog) && Distinct(manual) && Distinct(PricesOf(entries))
    requires AllRight(entries, catalog, manual)
    ensures forall k | k in EntryKeys(entries) ::
              k in Effective(RatesOf(manual), RatesOf(catalog))
              && RatesOf(PricesOf(entries))[k] == Effective(RatesOf(manual), RatesOf(catalog))[k]
  {
    forall k | k in EntryKeys(entries)
      ensures k in Effective(RatesOf(manual), RatesOf(catalog))
              && RatesOf(PricesOf(entries))[k] == Effective(RatesOf(manual), RatesOf(catalog))[k]
    {
      MergedAt(entries, catalog, manual, k);
    }
  }

  lemma MergedAt(entries: seq<Entry>, catalog: seq<ModelPrice>, manual: seq<ModelPrice>, k: Key)
    requires Distinct(catalog) && Distinct(manual) && Distinct(PricesOf(entries)) && k in EntryKeys(entries)
    requires AllRight(entries, catalog, manual)
    ensures k in Effective(RatesOf(manual), RatesOf(catalog))
    ensures RatesOf(PricesOf(entries))[k] == Effective(RatesOf(manual), RatesOf(catalog))[k]
  {
    var x :| x in entries && x.price.key == k;
    var i :| 0 <= i < |entries| && entries[i] == x;
    RatesOfEntry(PricesOf(entries), PricesOf(entries)[i]);
    RatesInForce(x, catalog, manual);
  }

  lemma RatesInForce(e: Entry, catalog: seq<ModelPrice>, manual: seq<ModelPrice>)
    requires Distinct(catalog) && Distinct(manual) && RightEntry(e, catalog, manual)
    ensures e.price.key in Effective(RatesOf(manual), RatesOf(catalog))
    ensures Effective(RatesOf(manual), RatesOf(catalog))[e.price.key] == e.price.rates
  {
    RatesOfEntry(if e.source.Manual? then manual else catalog, e.price);
  }
}
