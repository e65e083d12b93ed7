/** The model catalogue over the upstream registry: which providers serve a model, under the names policies use. */
module Catalog {
  import opened Options
  import opened Text
  import Sorting
  import opened Access

  /** The registry: the provider keys registered for exactly a model, and the models available now. */
  datatype Registry = Registry(keys: map<string, seq<string>>, available: seq<string>)

  function ModelKeys(reg: Registry, model: string): seq<string> {
    if model in reg.keys then reg.keys[model] else []
  }

  /** The exact name's keys, else the lower-cased name's. */
  function KeysFor(reg: Registry, model: string): seq<string> {
    if ModelKeys(reg, model) != [] then ModelKeys(reg, model) else ModelKeys(reg, ToLower(model))
  }

  const COMPATIBLE_PREFIX := "openai-compatible-"

  predicate HasPrefix(s: string, prefix: string) { prefix <= s }

  /** strings.TrimPrefix. */
  function TrimPrefix(s: string, prefix: string): string {
    if prefix <= s then s[|prefix|..] else s
  }

  /** The policy name of an upstream provider key. */
  function PolicyProvider(key: string): (name: string)
    ensures name == "" <==> key == ""
  {
    if key == "codex" then "chatgpt"
    else
      var name := TrimPrefix(key, COMPATIBLE_PREFIX);
      if name != "" then name else key
  }

  /** ChatGPT accounts are "chatgpt", a named compatible provider is its name, and every other key is its own. */
  lemma PolicyNames(name: string)
    ensures PolicyProvider("codex") == "chatgpt"
    ensures PolicyProvider("openai-compatible-" + name) == if name != "" then name else "openai-compatible-"
    ensures name != "codex" && !("openai-compatible-" <= name) ==> PolicyProvider(name) == name
  {
    var key := "openai-compatible-" + name;
    assert key[0] == 'o';
    assert key[|COMPATIBLE_PREFIX|..] == name;
  }

  /** The providers serving a model, by policy name. */
  function ProvidersOf(reg: Registry, model: string): set<string> {
    set key | key in KeysFor(reg, model) && key != "" :: PolicyProvider(key)
  }

  ghost predicate StrictlySorted(s: seq<string>) {
    forall i, j | 0 <= i < j < |s| :: StringLe(s[i], s[j]) && s[i] != s[j]
  }

  method ProvidersFor(reg: Registry, model: string) returns (names: seq<string>)
    ensures StrictlySorted(names)
    ensures forall name :: name in names <==> name in ProvidersOf(reg, model)
  {
    var keys := ModelKeys(reg, model);
    if |keys| == 0 {
      var lower := ToLower(model);
      if lower != model { keys := ModelKeys(reg, lower); }
    }
    assert keys == KeysFor(reg, model);
    names := [];
    for i := 0 to |keys|
      invariant forall name :: name in names <==> exists j | 0 <= j < i ::
          keys[j] != "" && PolicyProvider(keys[j]) == name
      invariant forall j, k | 0 <= j < k < |names| :: names[j] != names[k]
    {
      var name := PolicyProvider(keys[i]);
      if name != "" && name !in names { names := names + [name]; }
    }
    ghost var collected := names;
    names := SortedNames(names);
    forall name ensures name in names <==> name in ProvidersOf(reg, model) {
      if name in collected {
        var j :| 0 <= j < |keys| && keys[j] != "" && PolicyProvider(keys[j]) == name;
        assert keys[j] in keys;
      }
    }
  }

  lemma StringsAreOrdered()
    ensures Sorting.TotalPreorder(StringLe)
  {
    forall a, b ensures StringLe(a, b) || StringLe(b, a) { StringLeTotal(a, b); }
    forall a, b, c | StringLe(a, b) && StringLe(b, c) ensures StringLe(a, c) { StringLeTransitive(a, b, c); }
  }

  /** slices.Sort of distinct names. */
  method SortedNames(names: seq<string>) returns (sorted: seq<string>)
    requires forall i, j | 0 <= i < j < |names| :: names[i] != names[j]
    ensures StrictlySorted(sorted) && forall name :: name in sorted <==> name in names
  {
    StringsAreOrdered();
    sorted := Sorting.Sort(names, StringLe);
    Sorting.PermutationFacts(sorted, names);
    Sorting.DistinctPermutation(names, sorted);
  }

  /** The name the registry serves a model under, when any provider serves it. */
  function KnownModel(reg: Registry, model: string): Option<string> {
    if ModelKeys(reg, model) != [] then Some(model)
    else if ToLower(model) != model && ModelKeys(reg, ToLower(model)) != [] then Some(ToLower(model))
    else None
  }

  /**
   Lookups agree: some provider is named exactly when the model is known and not all its keys
   are empty, and the known name is served by the same providers and known as itself.
   */
  lemma LookupsAgree(reg: Registry, model: string)
    ensures ProvidersOf(reg, model) != {} <==>
            KnownModel(reg, model).Some? && exists key :: key in KeysFor(reg, model) && key != ""
    ensures KnownModel(reg, model).Some? ==>
              var known := KnownModel(reg, model).value;
              && ProvidersOf(reg, known) == ProvidersOf(reg, model)
              && KnownModel(reg, known) == Some(known)
  {
    if key :| key in KeysFor(reg, model) && key != "" {
      assert PolicyProvider(key) in ProvidersOf(reg, model);
    }
  }

  /** Every provider by policy name, with the available models it serves, sorted. */
  ghost predicate IsListing(reg: Registry, out: map<string, seq<string>>) {
    && (forall p | p in out :: StrictlySorted(out[p]))
    && (forall p, id :: Lists(out, p, id) <==> Serves(reg, p, id))
    && (forall p | p in out :: out[p] != [])
  }

  /** An available model, under one of its providers. */
  predicate Serves(reg: Registry, provider: string, id: string) {
    id != "" && id in reg.available && provider in ProvidersOf(reg, id)
  }

  method Models(reg: Registry) returns (out: map<string, seq<string>>)
    ensures IsListing(reg, out)
  {
    out := map[];
    for i := 0 to |reg.available|
      invariant Collected(reg, out, reg.available[..i])
    {
      var id := reg.available[i];
      assert reg.available[..i + 1] == reg.available[..i] + [id];
      if id != "" {
        var providers := ProvidersFor(reg, id);
        out := AddModel(reg, out, reg.available[..i], id, providers);
      }
    }
    assert reg.available[..|reg.available|] == reg.available;
    ghost var collected := out;
    var left := out.Keys;
    while left != {}
      invariant left <= out.Keys == collected.Keys
      invariant forall p | p in left :: out[p] == collected[p]
      invariant forall p | p in out && p !in left :: StrictlySorted(out[p])
      invariant forall p, id | p in out :: id in out[p] <==> id in collected[p]
      decreases |left|
    {
      var p := Sorting.Take(left);
      var sorted := SortedNames(out[p]);
      out := out[p := sorted];
      left := left - {p};
    }
    SortedListing(reg, collected, out);
  }

  lemma SortedListing(reg: Registry, collected: map<string, seq<string>>, out: map<string, seq<string>>)
    requires Collected(reg, collected, reg.available) && out.Keys == collected.Keys
    requires forall p | p in out :: StrictlySorted(out[p]) && forall id :: id in out[p] <==> id in collected[p]
    ensures IsListing(reg, out)
  {
    forall p, id ensures Lists(out, p, id) <==> Serves(reg, p, id) {
      assert Lists(out, p, id) <==> Lists(collected, p, id);
    }
    forall p | p in out ensures out[p] != [] {
      assert collected[p][0] in out[p];
    }
  }

  /** The ids of a prefix of the available models, once each under each of their providers. */
  ghost predicate Collected(reg: Registry, out: map<string, seq<string>>, ids: seq<string>) {
    && (forall p | p in out :: out[p] != [] && Once(out[p]))
    && (forall p, id :: Lists(out, p, id) <==> id != "" && id in ids && p in ProvidersOf(reg, id))
  }

  predicate Lists(out: map<string, seq<string>>, provider: string, id: string) {
    provider in out && id in out[provider]
  }

  ghost predicate Once(s: seq<string>) {
    forall i, j | 0 <= i < j < |s| :: s[i] != s[j]
  }

  method AddModel(reg: Registry, before: map<string, seq<string>>, ghost ids: seq<string>, id: string,
      providers: seq<string>)
    returns (out: map<string, seq<string>>)
    requires Collected(reg, before, ids) && id != ""
    requires forall name :: name in providers <==> name in ProvidersOf(reg, id)
    ensures Collected(reg, out, ids + [id])
  {
    out := before;
    for i := 0 to |providers|
      invariant forall p | p in out :: out[p] != [] && Once(out[p])
      invariant forall p, m :: Lists(out, p, m) <==> Lists(before, p, m) || (m == id && p in providers[..i])
    {
      var p := providers[i];
      assert providers[..i + 1] == providers[..i] + [p];
      var listed := if p in out then out[p] else [];
      if id !in listed {
        ListOneMore(out, p, listed, id);
        out := out[p := listed + [id]];
      }
    }
    assert providers[..|providers|] == providers;
  }

  lemma ListOneMore(out: map<string, seq<string>>, provider: string, listed: seq<string>, id: string)
    requires listed == if provider in out then out[provider] else []
    ensures forall p, m :: Lists(out[provider := listed + [id]], p, m) <==>
        Lists(out, p, m) || (p == provider && m == id)
  {
    forall p, m
      ensures Lists(out[provider := listed + [id]], p, m) <==> Lists(out, p, m) || (p == provider && m == id)
    {
      assert m in listed + [id] <==> m in listed || m == id;
    }
  }

  // ---- Routing and naming ----

  /** The registered model a requested name resolves to, and its providers; "auto" is never resolved. */
  function Routed(reg: Registry, requested: string): (string, set<string>) {
    var base := ThinkingBase(requested);
    if requested == "auto" || base == "auto" then ("", {})
    else
      var trimmed := TrimSpace(base);
      if ProvidersOf(reg, trimmed) != {} then (trimmed, ProvidersOf(reg, trimmed))
      else if trimmed != requested then (requested, ProvidersOf(reg, requested))
      else (trimmed, {})
  }

  /**
   Routing finds providers exactly when the base or the full name has them, and reports the
   base's first; never for "auto".
   */
  lemma RoutedIsServed(reg: Registry, requested: string)
    ensures var (model, providers) := Routed(reg, requested);
            var base := TrimSpace(ThinkingBase(requested));
            && (providers != {} <==>
                  requested != "auto" && ThinkingBase(requested) != "auto"
                  && (ProvidersOf(reg, base) != {} || ProvidersOf(reg, requested) != {}))
            && (providers != {} ==>
                  providers == ProvidersOf(reg, model)
                  && model == if ProvidersOf(reg, base) != {} then base else requested)
  {
  }

  // ---- Reserved names ----

  const BUILTIN_PROVIDERS: seq<string> := [
    "codex", "claude", "gemini", "gemini-interactions", "vertex", "aistudio",
    "antigravity", "kimi", "kimi-ai", "kimi.ai", "kimi.com", "xai", "devin",
    "meta", "home", "openai-compatibility"]

  /** The upstream key of the openai-compatibility entry called name. */
  function CompatProviderKey(name: string): string {
    var key := ToLower(TrimSpace(name));
    if key == "" then "openai-compatibility"
    else if key == "openai-compatibility" || HasPrefix(key, COMPATIBLE_PREFIX) then key
    else COMPATIBLE_PREFIX + key
  }

  predicate Reserved(name: string) {
    exists i | 0 <= i < |BUILTIN_PROVIDERS| ::
      name == BUILTIN_PROVIDERS[i] || name == PolicyProvider(BUILTIN_PROVIDERS[i])
  }

  predicate CompatNameRefused(name: string) {
    TrimPrefix(CompatProviderKey(name), COMPATIBLE_PREFIX) == "" || Reserved(PolicyProvider(CompatProviderKey(name)))
  }

  /**
   An accepted openai-compatibility entry shares its policy name with no built-in provider,
   and two accepted entries share one only if they share the key.
   */
  lemma AcceptedNamesAreTheirOwn(a: string, b: string, i: nat)
    requires !CompatNameRefused(a) && !CompatNameRefused(b) && i < |BUILTIN_PROVIDERS|
    ensures PolicyProvider(CompatProviderKey(a)) != PolicyProvider(BUILTIN_PROVIDERS[i])
    ensures PolicyProvider(CompatProviderKey(a)) == PolicyProvider(CompatProviderKey(b)) ==>
        CompatProviderKey(a) == CompatProviderKey(b)
  {
    AcceptedKey(a);
    AcceptedKey(b);
  }

  /**
   A compatible entry is refused exactly when its name, without the prefix, is blank or one a
   built-in provider goes by.
   */
  lemma RefusedExactly(name: string)
    ensures var own := OwnPart(ToLower(TrimSpace(name)));
            CompatNameRefused(name) <==> own == "" || own == "chatgpt" || own in BUILTIN_PROVIDERS
  {
    var lower := ToLower(TrimSpace(name));
    BuiltinNames();
    if OwnPart(lower) == "" {
      PrefixAlone(name);
    } else if lower == "openai-compatibility" {
      Unnamed();
    } else {
      OwnName(name, OwnPart(lower));
    }
  }

  /** What is left of a name without the prefix of compatible providers. */
  function OwnPart(lower: string): string {
    if "openai-compatible-" <= lower then lower[18..] else lower
  }

  lemma PrefixAlone(name: string)
    requires OwnPart(ToLower(TrimSpace(name))) == ""
    ensures CompatNameRefused(name)
  {
    Unnamed();
    BuiltinNames();
  }

  lemma Unnamed()
    ensures "openai-compatibility" in BUILTIN_PROVIDERS
    ensures PolicyProvider("openai-compatibility") == "openai-compatibility"
    ensures OwnPart("openai-compatibility") == "openai-compatibility"
  {
    assert BUILTIN_PROVIDERS[15] == "openai-compatibility";
    BuiltinKeepsName(15);
  }

  lemma OwnName(name: string, own: string)
    requires ToLower(TrimSpace(name)) != "openai-compatibility"
    requires own != "" && own == OwnPart(ToLower(TrimSpace(name)))
    ensures var key := CompatProviderKey(name);
            TrimPrefix(key, COMPATIBLE_PREFIX) == own && PolicyProvider(key) == own
  {
    var key := CompatProviderKey(name);
    assert key == "openai-compatible-" + own;
    PolicyNames(own);
    assert key[|COMPATIBLE_PREFIX|..] == own;
  }

  lemma BuiltinList(own: string)
    ensures own in BUILTIN_PROVIDERS <==>
            own in ["codex", "claude", "gemini", "gemini-interactions", "vertex", "aistudio", "antigravity",
                    "kimi", "kimi-ai", "kimi.ai", "kimi.com", "xai", "devin", "meta", "home", "openai-compatibility"]
  {
  }

  lemma BuiltinNames()
    ensures forall n :: Reserved(n) <==> n == "chatgpt" || n in BUILTIN_PROVIDERS
  {
    forall i | 0 < i < |BUILTIN_PROVIDERS| ensures PolicyProvider(BUILTIN_PROVIDERS[i]) == BUILTIN_PROVIDERS[i] {
      BuiltinKeepsName(i);
    }
    assert PolicyProvider(BUILTIN_PROVIDERS[0]) == "chatgpt";
    forall n ensures Reserved(n) <==> n == "chatgpt" || n in BUILTIN_PROVIDERS {
      if n in BUILTIN_PROVIDERS {
        var i :| 0 <= i < |BUILTIN_PROVIDERS| && BUILTIN_PROVIDERS[i] == n;
      }
    }
  }

  lemma BuiltinKeepsName(i: nat)
    requires 0 < i < |BUILTIN_PROVIDERS|
    ensures PolicyProvider(BUILTIN_PROVIDERS[i]) == BUILTIN_PROVIDERS[i]
  {
    var key := BUILTIN_PROVIDERS[i];
    assert key != "codex";
    assert COMPATIBLE_PREFIX[0] == 'o' && COMPATIBLE_PREFIX[15] == 'l';
    assert !(COMPATIBLE_PREFIX <= key);
  }

  lemma AcceptedKey(a: string)
    requires !CompatNameRefused(a)
    ensures CompatProviderKey(a) == COMPATIBLE_PREFIX + PolicyProvider(CompatProviderKey(a))
  {
    var key := CompatProviderKey(a);
    assert BUILTIN_PROVIDERS[15] == "openai-compatibility";
    assert COMPATIBLE_PREFIX <= key;
    assert COMPATIBLE_PREFIX[0] == 'o';
    assert key == COMPATIBLE_PREFIX + key[|COMPATIBLE_PREFIX|..];
  }
}
