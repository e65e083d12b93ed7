/**
 Who must agree on a model: the gate that admits a request naming it, the listing
 filter, and the cabinet's list of a user's models.
 */
module ModelAccess {
  import opened Options
  import opened Text
  import Sorting
  import opened Access
  import opened Catalog
  import opened PriceList
  import Glob
  import Limits
  import SpendLimits

  // ---- Pricing of the routed name ----

  /** The name prices are keyed by for a requested model, with the providers serving it. */
  function PricedName(reg: Registry, requested: string): Option<(string, set<string>)> {
    var (model, providers) := Routed(reg, requested);
    if providers == {} then None
    else
      match KnownModel(reg, model)
      case None => None
      case Some(name) => Some((name, providers))
  }

  /** A price on every provider serving the model: upstream may route to any of them. */
  predicate PricedEverywhere(reg: Registry, prices: RateTable, requested: string) {
    match PricedName(reg, requested)
    case None => false
    case Some((name, providers)) => forall provider | provider in providers :: Key(provider, name) in prices
  }

  // ---- The gate ----

  datatype Verdict = Passed | UnknownModel | ModelNotAllowed | UnpricedModel

  /** Whether the owner's spend limits are in force. */
  predicate Limited(custom: Option<Limits.RuleSet>, defaults: Limits.RuleSet) {
    SpendLimits.EffectiveSet(custom, defaults) != []
  }

  predicate Admits(p: Policy, reg: Registry, requested: string) {
    var (model, providers) := Routed(reg, requested);
    Covers(p, model, providers)
  }

  /** The gate's policy step, then its price step. */
  function GateVerdict(reg: Registry, prices: RateTable, p: Policy, limited: bool, requested: string): Verdict {
    var (model, providers) := Routed(reg, requested);
    if !Covers(p, model, providers) then if providers == {} then UnknownModel else ModelNotAllowed
    else if limited && !PricedEverywhere(reg, prices, requested) then UnpricedModel
    else Passed
  }

  /** What a listing keeps. */
  predicate ListingKeeps(reg: Registry, prices: RateTable, p: Policy, limited: bool, model: string) {
    Admits(p, reg, model) && (limited ==> PricedEverywhere(reg, prices, model))
  }

  // ---- The cabinet ----

  datatype CatalogProvider = CatalogProvider(name: string, models: seq<string>, unpriced: seq<string>)

  datatype Judgement = Denied | Allowed | Unpriced

  function Judge(reg: Registry, prices: RateTable, p: Policy, limited: bool, model: string): Judgement {
    if !Admits(p, reg, model) then Denied
    else if limited && !PricedEverywhere(reg, prices, model) then Unpriced
    else Allowed
  }

  ghost predicate SortedByName(out: seq<CatalogProvider>) {
    forall i, j | 0 <= i < j < |out| :: StringLe(out[i].name, out[j].name) && out[i].name != out[j].name
  }

  predicate ShowsModel(out: seq<CatalogProvider>, provider: string, id: string) {
    exists i | 0 <= i < |out| :: out[i].name == provider && id in out[i].models
  }

  predicate ShowsUnpriced(out: seq<CatalogProvider>, provider: string, id: string) {
    exists i | 0 <= i < |out| :: out[i].name == provider && id in out[i].unpriced
  }

  ghost predicate WellFormedEntry(e: CatalogProvider) {
    StrictlySorted(e.models) && StrictlySorted(e.unpriced) && (e.models != [] || e.unpriced != [])
  }

  /**
   The cabinet lists an available model under a provider serving it exactly as the gate would
   answer a request naming it.
   */
  ghost predicate AgreesWithGate(out: seq<CatalogProvider>, reg: Registry, prices: RateTable, p: Policy,
      limited: bool)
  {
    && (forall name, id :: ShowsModel(out, name, id) <==>
          Serves(reg, name, id) && GateVerdict(reg, prices, p, limited, id) == Passed)
    && (forall name, id :: ShowsUnpriced(out, name, id) <==>
          Serves(reg, name, id) && GateVerdict(reg, prices, p, limited, id) == UnpricedModel)
  }

  method CabinetModels(reg: Registry, prices: RateTable, p: Policy, custom: Option<Limits.RuleSet>,
      defaults: Limits.RuleSet)
    returns (out: seq<CatalogProvider>)
    ensures AgreesWithGate(out, reg, prices, p, Limited(custom, defaults))
    ensures SortedByName(out)
    ensures forall e | e in out :: WellFormedEntry(e)
  {
    var limited := Limited(custom, defaults);
    if |p| == 0 {
      forall id ensures GateVerdict(reg, prices, p, limited, id) in {UnknownModel, ModelNotAllowed} {
        NoRulesAdmitNothing(reg, p, id);
      }
      return [];
    }
    var judge := m => Judge(reg, prices, p, limited, m);
    var listing := Models(reg);
    var built := BuildEntries(judge, listing);
    out := SortProviders(built);
    forall id ensures JudgesAsGate(judge(id), GateVerdict(reg, prices, p, limited, id)) {
      JudgementIsVerdict(reg, prices, p, limited, id);
    }
    SameEntriesAgree(built, out, listing, judge, reg, prices, p, limited);
  }

  lemma JudgementIsVerdict(reg: Registry, prices: RateTable, p: Policy, limited: bool, id: string)
    ensures JudgesAsGate(Judge(reg, prices, p, limited, id), GateVerdict(reg, prices, p, limited, id))
  {
  }

  /** An entry for every provider with a model to show, in whatever order the listing is visited. */
  method BuildEntries(judge: string -> Judgement, listing: map<string, seq<string>>)
    returns (built: seq<CatalogProvider>)
    requires forall name | name in listing :: StrictlySorted(listing[name])
    ensures Built(built, listing, {}, judge)
  {
    var verdicts: map<string, Judgement> := map[];
    built := [];
    var left := listing.Keys;
    while left != {}
      invariant left <= listing.Keys
      invariant Memo(verdicts, judge)
      invariant Built(built, listing, left, judge)
      decreases |left|
    {
      var name := Sorting.Take(left);
      var shown, blocked;
      shown, blocked, verdicts := JudgeModels(judge, listing[name], verdicts);
      if shown == [] && blocked == [] {
        SkipProvider(built, listing, left, name, judge);
      } else {
        AddProvider(built, listing, left, CatalogProvider(name, shown, blocked), judge);
        built := built + [CatalogProvider(name, shown, blocked)];
      }
      left := left - {name};
    }
  }

  ghost predicate Memo(verdicts: map<string, Judgement>, judge: string -> Judgement) {
    forall m | m in verdicts :: verdicts[m] == judge(m)
  }

  /** The models of one provider judged, each at most once thanks to the memo. */
  method JudgeModels(judge: string -> Judgement, models: seq<string>, memo: map<string, Judgement>)
    returns (shown: seq<string>, blocked: seq<string>, verdicts: map<string, Judgement>)
    requires StrictlySorted(models) && Memo(memo, judge)
    ensures Memo(verdicts, judge)
    ensures IsJudged(models, shown, blocked, judge)
  {
    verdicts := memo;
    shown, blocked := [], [];
    for i := 0 to |models|
      invariant Memo(verdicts, judge)
      invariant shown == Judged(judge, models, i, Allowed)
      invariant blocked == Judged(judge, models, i, Unpriced)
    {
      var m := models[i];
      if m !in verdicts {
        verdicts := verdicts[m := judge(m)];
      }
      match verdicts[m]
      case Allowed => shown := shown + [m];
      case Unpriced => blocked := blocked + [m];
      case Denied =>
    }
    JudgedMembers(judge, models, |models|, Allowed);
    JudgedMembers(judge, models, |models|, Unpriced);
    assert models[..|models|] == models;
    shown := SortedNames(shown);
    blocked := SortedNames(blocked);
  }

  /** The models among the first n with that judgement. */
  function Judged(judge: string -> Judgement, models: seq<string>, n: nat, wanted: Judgement): seq<string>
    requires n <= |models|
  {
    if n == 0 then []
    else
      var judged := Judged(judge, models, n - 1, wanted);
      if judge(models[n - 1]) == wanted then judged + [models[n - 1]] else judged
  }

  lemma {:induction false} JudgedMembers(judge: string -> Judgement, models: seq<string>, n: nat, wanted: Judgement)
    requires StrictlySorted(models) && n <= |models|
    ensures var judged := Judged(judge, models, n, wanted);
            Once(judged) && forall m :: m in judged <==> m in models[..n] && judge(m) == wanted
  {
    if n > 0 {
      JudgedMembers(judge, models, n - 1, wanted);
      assert models[..n] == models[..n - 1] + [models[n - 1]];
      assert models[n - 1] !in models[..n - 1];
    }
  }

  ghost predicate IsJudged(models: seq<string>, shown: seq<string>, blocked: seq<string>,
                           judge: string -> Judgement) {
    && StrictlySorted(shown) && StrictlySorted(blocked)
    && (forall m :: m in shown <==> m in models && judge(m) == Allowed)
    && (forall m :: m in blocked <==> m in models && judge(m) == Unpriced)
  }

  /** The entries built so far, for every provider of the listing not left to visit. */
  ghost predicate Built(built: seq<CatalogProvider>, listing: map<string, seq<string>>, left: set<string>,
                        judge: string -> Judgement) {
    && (forall i, j | 0 <= i < j < |built| :: built[i].name != built[j].name)
    && (forall e | e in built :: IsEntry(e, listing, judge) && e.name !in left)
    && (forall name | name in listing && name !in left ::
          HasEntry(built, name) || IsJudged(listing[name], [], [], judge))
  }

  ghost predicate IsEntry(e: CatalogProvider, listing: map<string, seq<string>>,
                          judge: string -> Judgement) {
    && e.name in listing && (e.models != [] || e.unpriced != [])
    && IsJudged(listing[e.name], e.models, e.unpriced, judge)
  }

  predicate HasEntry(built: seq<CatalogProvider>, name: string) {
    exists e :: e in built && e.name == name
  }

  lemma SkipProvider(built: seq<CatalogProvider>, listing: map<string, seq<string>>, left: set<string>, name: string,
                     judge: string -> Judgement)
    requires Built(built, listing, left, judge) && name in left && left <= listing.Keys
    requires IsJudged(listing[name], [], [], judge)
    ensures Built(built, listing, left - {name}, judge)
  {
  }

  lemma AddProvider(built: seq<CatalogProvider>, listing: map<string, seq<string>>, left: set<string>,
      e: CatalogProvider,
                    judge: string -> Judgement)
    requires Built(built, listing, left, judge) && e.name in left && left <= listing.Keys
    requires IsEntry(e, listing, judge)
    ensures Built(built + [e], listing, left - {e.name}, judge)
  {
    var next := built + [e];
    forall i | 0 <= i < |built| ensures built[i].name != e.name { assert built[i] in built; }
    assert forall x :: x in next <==> x in built || x == e;
    forall name | name in listing && name !in left - {e.name}
      ensures HasEntry(next, name) || IsJudged(listing[name], [], [], judge)
    {
      if name == e.name {
        assert e in next;
      } else if HasEntry(built, name) {
        var x :| x in built && x.name == name;
        assert x in next;
      }
    }
  }

  predicate NameLe(a: CatalogProvider, b: CatalogProvider) { StringLe(a.name, b.name) }

  method SortProviders(built: seq<CatalogProvider>) returns (out: seq<CatalogProvider>)
    requires forall i, j | 0 <= i < j < |built| :: built[i].name != built[j].name
    ensures SortedByName(out) && forall e :: e in out <==> e in built
  {
    forall a: CatalogProvider, b: CatalogProvider ensures NameLe(a, b) || NameLe(b, a) {
      StringLeTotal(a.name, b.name);
    }
    forall a: CatalogProvider, b: CatalogProvider, c: CatalogProvider | NameLe(a, b) && NameLe(b, c)
      ensures NameLe(a, c)
    {
      StringLeTransitive(a.name, b.name, c.name);
    }
    out := Sorting.Sort(built, NameLe);
    Sorting.PermutationFacts(out, built);
    Sorting.DistinctPermutation(built, out);
    forall i, j | 0 <= i < j < |out| ensures out[i].name != out[j].name {
      assert out[i] in built && out[j] in built;
      var x :| 0 <= x < |built| && built[x] == out[i];
      var y :| 0 <= y < |built| && built[y] == out[j];
      assert x != y;
    }
  }

  lemma SameEntriesAgree(built: seq<CatalogProvider>, out: seq<CatalogProvider>, listing: map<string, seq<string>>,
                         judge: string -> Judgement, reg: Registry, prices: RateTable, p: Policy, limited: bool)
    requires Built(built, listing, {}, judge) && IsListing(reg, listing)
    requires forall e :: e in out <==> e in built
    requires forall id :: JudgesAsGate(judge(id), GateVerdict(reg, prices, p, limited, id))
    ensures AgreesWithGate(out, reg, prices, p, limited)
    ensures forall e | e in out :: WellFormedEntry(e)
  {
    forall name, id
      ensures ShowsModel(out, name, id) <==> Serves(reg, name, id) && GateVerdict(reg, prices, p, limited, id) == Passed
      ensures ShowsUnpriced(out, name, id) <==>
              Serves(reg, name, id) && GateVerdict(reg, prices, p, limited, id) == UnpricedModel
    {
      assert Lists(listing, name, id) <==> Serves(reg, name, id);
      assert JudgesAsGate(judge(id), GateVerdict(reg, prices, p, limited, id));
      OneProviderAgrees(built, out, listing, judge, name, id);
    }
  }

  /** The cabinet's judgement of a model stands for the gate's verdict. */
  predicate JudgesAsGate(j: Judgement, v: Verdict) {
    (j.Allowed? <==> v.Passed?) && (j.Unpriced? <==> v.UnpricedModel?)
  }

  lemma OneProviderAgrees(built: seq<CatalogProvider>, out: seq<CatalogProvider>, listing: map<string, seq<string>>,
                          judge: string -> Judgement, name: string, id: string)
    requires Built(built, listing, {}, judge)
    requires forall e :: e in out <==> e in built
    ensures ShowsModel(out, name, id) <==> Lists(listing, name, id) && judge(id) == Allowed
    ensures ShowsUnpriced(out, name, id) <==> Lists(listing, name, id) && judge(id) == Unpriced
  {
    forall i | 0 <= i < |out| ensures IsEntry(out[i], listing, judge) {
      assert out[i] in out;
    }
    if name in listing && HasEntry(built, name) {
      var e :| e in built && e.name == name;
      var i :| 0 <= i < |out| && out[i] == e;
      assert IsEntry(e, listing, judge);
    }
  }

  lemma NoRulesAdmitNothing(reg: Registry, p: Policy, id: string)
    requires p == []
    ensures !Admits(p, reg, id)
  {
    var (model, providers) := Routed(reg, id);
    if providers != {} {
      var provider :| provider in providers;
      assert !Allows(p, provider, model);
    }
  }

  // ---- Main results ----

  /**
   One answer everywhere: the gate passes an available model exactly when the
   listing keeps it, exactly when the cabinet shows it under some provider serving
   it, and exactly when it shows it under every one; and what the cabinet shows as
   unpriced is exactly what would pass without limits and does not under them.
   */
  lemma GateListingCabinetAgree(out: seq<CatalogProvider>, reg: Registry, prices: RateTable, p: Policy,
      limited: bool, id: string)
    requires AgreesWithGate(out, reg, prices, p, limited)
    requires id != "" && id in reg.available && ProvidersOf(reg, id) != {}
    ensures var passed := GateVerdict(reg, prices, p, limited, id) == Passed;
            && (ListingKeeps(reg, prices, p, limited, id) <==> passed)
            && (passed <==> exists name :: name in ProvidersOf(reg, id) && ShowsModel(out, name, id))
            && (passed <==> forall name | name in ProvidersOf(reg, id) :: ShowsModel(out, name, id))
    ensures forall name | name in ProvidersOf(reg, id) ::
              ShowsUnpriced(out, name, id) <==>
              GateVerdict(reg, prices, p, false, id) == Passed && GateVerdict(reg, prices, p, limited, id) != Passed
  {
    assert forall name | name in ProvidersOf(reg, id) :: Serves(reg, name, id);
    var name :| name in ProvidersOf(reg, id);
    assert ShowsModel(out, name, id) <==> GateVerdict(reg, prices, p, limited, id) == Passed;
  }

  /**
   A refusal for price alone means a real missing price, never a name that could
   not be resolved: the model is covered and some provider serving it has no price
   under the name the registry serves it by. A passed model of a limited owner has
   one on every provider.
   */
  lemma UnpricedMeansMissingPrice(reg: Registry, prices: RateTable, p: Policy, requested: string)
    ensures var (model, providers) := Routed(reg, requested);
            && (providers != {} ==>
                  KnownModel(reg, model).Some? && ProvidersOf(reg, KnownModel(reg, model).value) == providers)
            && (GateVerdict(reg, prices, p, true, requested) == Passed <==>
                  Covers(p, model, providers)
                  && forall provider | provider in providers :: Key(provider, KnownModel(reg, model).value) in prices)
            && (GateVerdict(reg, prices, p, true, requested) == UnpricedModel <==>
                  Covers(p, model, providers)
                  && exists provider :: provider in providers && Key(provider, KnownModel(reg, model).value) !in prices)
  {
    var (model, providers) := Routed(reg, requested);
    RoutedIsServed(reg, requested);
    LookupsAgree(reg, model);
  }

  /** A rule of the policy grants the model on the provider that has that key. */
  ghost predicate Granted(p: Policy, key: string, model: string) {
    exists r ::
      && r in p
      && (r.provider == "*" || r.provider == ToLower(PolicyProvider(key)))
      && (r.pattern == "*" || Glob.Denotes(r.pattern, ToLower(model)))
  }

  /** Every provider serving the model is granted: upstream may route to any of them. */
  ghost predicate GrantedEverywhere(reg: Registry, p: Policy, model: string) {
    forall key | key in KeysFor(reg, model) && key != "" :: Granted(p, key, model)
  }

  /** Every provider serving the model has a price under the name the registry serves it by. */
  predicate PriceMissing(reg: Registry, prices: RateTable, model: string) {
    exists key | key in KeysFor(reg, model) ::
      key != "" && KnownModel(reg, model).Some? && Key(PolicyProvider(key), KnownModel(reg, model).value) !in prices
  }

  /**
   The gate's four answers in plain terms: unknown when nothing serves the model,
   not allowed when some provider serving it is granted by no rule, unpriced when a
   limited owner's model has no price on one of them, and passed otherwise.
   */
  lemma VerdictInPlainTerms(reg: Registry, prices: RateTable, p: Policy, limited: bool, requested: string)
    ensures var (model, providers) := Routed(reg, requested);
            GateVerdict(reg, prices, p, limited, requested) ==
            if providers == {} then UnknownModel
            else if !GrantedEverywhere(reg, p, model) then ModelNotAllowed
            else if limited && PriceMissing(reg, prices, model) then UnpricedModel
            else Passed
  {
    var (model, providers) := Routed(reg, requested);
    RoutedIsServed(reg, requested);
    if providers != {} {
      CoversInPlainTerms(reg, p, model);
      PricedInPlainTerms(reg, prices, requested);
    }
  }

  lemma CoversInPlainTerms(reg: Registry, p: Policy, model: string)
    requires ProvidersOf(reg, model) != {}
    ensures Covers(p, model, ProvidersOf(reg, model)) <==> GrantedEverywhere(reg, p, model)
  {
    forall key | key in KeysFor(reg, model) && key != ""
      ensures PolicyProvider(key) in ProvidersOf(reg, model)
      ensures Allows(p, PolicyProvider(key), model) <==> Granted(p, key, model)
    {
      AllowsInPlainTerms(p, key, model);
    }
  }

  lemma AllowsInPlainTerms(p: Policy, key: string, model: string)
    ensures Allows(p, PolicyProvider(key), model) <==> Granted(p, key, model)
  {
    if Allows(p, PolicyProvider(key), model) {
      var i :| 0 <= i < |p| && RuleMatches(p[i], PolicyProvider(key), model);
      RuleMeansGlob(p[i], PolicyProvider(key), model);
      assert p[i] in p;
    }
    if Granted(p, key, model) {
      var r :| r in p && (r.provider == "*" || r.provider == ToLower(PolicyProvider(key)))
               && (r.pattern == "*" || Glob.Denotes(r.pattern, ToLower(model)));
      RuleMeansGlob(r, PolicyProvider(key), model);
      Glob.StarDenotes(ToLower(model));
      var i :| 0 <= i < |p| && p[i] == r;
    }
  }

  lemma PricedInPlainTerms(reg: Registry, prices: RateTable, requested: string)
    requires Routed(reg, requested).1 != {}
    ensures PricedEverywhere(reg, prices, requested) <==> !PriceMissing(reg, prices, Routed(reg, requested).0)
  {
    var (model, providers) := Routed(reg, requested);
    RoutedIsServed(reg, requested);
    LookupsAgree(reg, model);
    var name := KnownModel(reg, model).value;
    if PricedEverywhere(reg, prices, requested) {
      forall key | key in KeysFor(reg, model) && key != "" ensures Key(PolicyProvider(key), name) in prices {
        assert PolicyProvider(key) in providers;
      }
    }
  }

  /** An owner is limited by their own set when they have one, even an empty one, else by the defaults. */
  lemma LimitedInPlainTerms(own: Limits.RuleSet, defaults: Limits.RuleSet)
    ensures Limited(Some(own), defaults) <==> |own| > 0
    ensures Limited(None, defaults) <==> |defaults| > 0
  {
  }

  /** Limits only ever take models away, and more rules never do. */
  lemma GateIsMonotone(reg: Registry, prices: RateTable, p: Policy, q: Policy, limited: bool, requested: string)
    requires forall r | r in p :: r in q
    requires GateVerdict(reg, prices, p, limited, requested) == Passed
    ensures GateVerdict(reg, prices, q, limited, requested) == Passed
    ensures GateVerdict(reg, prices, q, false, requested) == Passed
  {
    var (model, providers) := Routed(reg, requested);
    MoreRulesAllowMore(p, q, model, providers);
  }
}
