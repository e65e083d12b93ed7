/** Access rules and the one admission rule: which models a policy covers, and how a requested name is routed. */
module Access {
  import opened Options
  import opened Text
  import Glob

  datatype Rule = Rule(provider: string, pattern: string)

  /** An allow-list. */
  type Policy = seq<Rule>

  // ---- Parsing ----

  /** strings.Cut at the first colon. */
  function Cut(s: string): (r: Option<(string, string)>)
    ensures r.None? <==> ':' !in s
    ensures r.Some? ==> r.value.0 + ":" + r.value.1 == s && ':' !in r.value.0
  {
    if s == "" then None
    else if s[0] == ':' then Some(("", s[1..]))
    else
      match Cut(s[1..])
      case None => None
      case Some((before, after)) => Some(([s[0]] + before, after))
  }

  lemma {:induction false} CutAtFirst(before: string, after: string)
    requires ':' !in before
    ensures Cut(before + ":" + after) == Some((before, after))
  {
    var s := before + ":" + after;
    if before == "" {
      assert s[1..] == after;
    } else {
      assert s[1..] == before[1..] + ":" + after;
      CutAtFirst(before[1..], after);
      assert [s[0]] + before[1..] == before;
    }
  }

  /** A rule as written: provider, the first colon, and a pattern, neither blank. */
  function ParseRule(raw: string): Option<Rule> {
    match Cut(TrimSpace(raw))
    case None => None
    case Some((before, after)) =>
      var provider, pattern := TrimSpace(before), TrimSpace(after);
      if provider == "" || pattern == "" then None else Some(Rule(ToLower(provider), ToLower(pattern)))
  }

  /**
   Space around a rule does not matter, nor around its halves, nor capitals: it is
   read as the halves on the two sides of its first colon, and is none when one of
   them is blank.
   */
  lemma RulesAreReadAsWritten(left: string, before: string, after: string, right: string)
    requires AllSpace(left) && AllSpace(right) && ':' !in before
    requires (before == "" || !IsSpace(before[0])) && (after == "" || !IsSpace(after[|after| - 1]))
    ensures ParseRule(left + (before + ":" + after) + right) ==
            if TrimSpace(before) == "" || TrimSpace(after) == "" then None
            else Some(Rule(ToLower(TrimSpace(before)), ToLower(TrimSpace(after))))
  {
    var middle := before + ":" + after;
    assert !IsSpace(':');
    assert middle[0] == if before == "" then ':' else before[0];
    assert middle[|middle| - 1] == if after == "" then ':' else after[|after| - 1];
    TrimmedMiddle(left, middle, right);
    CutAtFirst(before, after);
  }

  /** A text without a colon is no rule. */
  lemma NoColonNoRule(raw: string)
    requires ':' !in raw
    ensures ParseRule(raw).None?
  {
    assert ':' !in TrimSpace(raw);
  }

  function Print(r: Rule): string { r.provider + ":" + r.pattern }

  /** What parsing leaves: lower-case halves without space around them, and no colon in the provider. */
  predicate Canonical(r: Rule) {
    && r.provider != "" && r.pattern != ""
    && Trimmed(r.provider) && Trimmed(r.pattern)
    && ToLower(r.provider) == r.provider && ToLower(r.pattern) == r.pattern
    && ':' !in r.provider
  }

  lemma LowerKeepsTrimmed(s: string)
    requires Trimmed(s)
    ensures Trimmed(ToLower(s))
  {
    if s != "" {
      LowerIsNoSpace(s[0]);
      LowerIsNoSpace(s[|s| - 1]);
    }
  }

  lemma LowerIsNoSpace(c: char)
    requires !IsSpace(c)
    ensures !IsSpace(LowerChar(c))
  {
  }

  lemma LowerKeepsColon(s: string)
    ensures ':' in ToLower(s) <==> ':' in s
  {
    assert forall c :: LowerChar(c) == ':' <==> c == ':';
    if ':' in s {
      var i :| 0 <= i < |s| && s[i] == ':';
      assert ToLower(s)[i] == ':';
    }
  }

  /** The canonical rules are exactly the ones parsing yields, and each is read back from its printed form. */
  lemma CanonicalRoundTrip(r: Rule)
    ensures Canonical(r) <==> ParseRule(Print(r)) == Some(r)
  {
    if Canonical(r) {
      CutAtFirst(r.provider, r.pattern);
      assert Trimmed(Print(r));
    }
    if ParseRule(Print(r)) == Some(r) {
      ParsedIsCanonical(Print(r), r);
    }
  }

  lemma ParsedIsCanonical(raw: string, r: Rule)
    requires ParseRule(raw) == Some(r)
    ensures Canonical(r)
  {
    var (before, after) := Cut(TrimSpace(raw)).value;
    LowerKeepsTrimmed(TrimSpace(before));
    LowerKeepsTrimmed(TrimSpace(after));
    LowerKeepsColon(TrimSpace(before));
    LowerTwice(TrimSpace(before));
    LowerTwice(TrimSpace(after));
  }

  /** Parsing what a parsed rule prints gives the rule back. */
  lemma PrintedRuleParses(raw: string)
    requires ParseRule(raw).Some?
    ensures ParseRule(Print(ParseRule(raw).value)) == ParseRule(raw)
  {
    ParsedIsCanonical(raw, ParseRule(raw).value);
    CanonicalRoundTrip(ParseRule(raw).value);
  }

  // ---- Matching ----

  /** A rule matches its provider, or any with "*"; a pattern of "*" alone skips the expression. */
  predicate RuleMatches(r: Rule, provider: string, model: string) {
    && (r.provider == "*" || r.provider == ToLower(provider))
    && (r.pattern == "*" || Glob.Matches(Glob.Expression(r.pattern), ToLower(model)))
  }

  /** A rule is its glob on the lower-cased model; only a pattern of "*" alone also admits names with a newline. */
  lemma RuleMeansGlob(r: Rule, provider: string, model: string)
    ensures RuleMatches(r, provider, model) <==>
            && (r.provider == "*" || r.provider == ToLower(provider))
            && (Glob.Denotes(r.pattern, ToLower(model)) || (r.pattern == "*" && '\n' in ToLower(model)))
  {
    Glob.CompiledMeansGlob(r.pattern, ToLower(model));
    Glob.StarDenotes(ToLower(model));
  }

  predicate Allows(p: Policy, provider: string, model: string) {
    exists i | 0 <= i < |p| :: RuleMatches(p[i], provider, model)
  }

  /** Allowed on every provider serving the model; one that no provider serves is not covered. */
  predicate Covers(p: Policy, model: string, providers: set<string>) {
    providers != {} && forall provider | provider in providers :: Allows(p, provider, model)
  }

  /** Order and repetition do not matter, and adding rules only adds permissions. */
  lemma MoreRulesAllowMore(p: Policy, q: Policy, model: string, providers: set<string>)
    requires forall r | r in p :: r in q
    ensures forall provider :: Allows(p, provider, model) ==> Allows(q, provider, model)
    ensures Covers(p, model, providers) ==> Covers(q, model, providers)
  {
    forall provider | Allows(p, provider, model) ensures Allows(q, provider, model) {
      var i :| 0 <= i < |p| && RuleMatches(p[i], provider, model);
      assert p[i] in q;
      var j :| 0 <= j < |q| && q[j] == p[i];
    }
  }

  // ---- Routing names ----

  function LastIndex(s: string, c: char): (i: int)
    ensures -1 <= i < |s|
    ensures i >= 0 ==> s[i] == c
    ensures forall j | i < j < |s| :: s[j] != c
  {
    if s == "" then -1 else if s[|s| - 1] == c then |s| - 1 else LastIndex(s[..|s| - 1], c)
  }

  /** The name without a trailing "(suffix)". */
  function ThinkingBase(model: string): string {
    var open := LastIndex(model, '(');
    if open == -1 || model[|model| - 1] != ')' then model else model[..open]
  }

  /** A suffix without a parenthesis is taken off whole, and a name that ends otherwise is kept. */
  lemma SuffixIsRemoved(name: string, suffix: string)
    requires '(' !in suffix
    ensures ThinkingBase(name + "(" + suffix + ")") == name
    ensures (name == "" || name[|name| - 1] != ')' || '(' !in name) ==> ThinkingBase(name) == name
  {
    var s := name + "(" + suffix + ")";
    assert s[|name|] == '(';
    forall j | |name| < j < |s| ensures s[j] != '(' {
      if j < |s| - 1 { assert s[j] == suffix[j - |name| - 1]; }
    }
    assert LastIndex(s, '(') == |name|;
    assert s[..|name|] == name;
  }
}
