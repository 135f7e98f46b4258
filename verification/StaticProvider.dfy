/** Evaluating one flag rule, and the in-memory provider that holds the rules. */
module StaticProvider {
  import opened Basics
  import opened FeatureHash

  datatype Rollout = Rollout(percent: real, attr: Option<string>)

  datatype Rule = Rule(default: Option<bool>, deny: Option<seq<string>>, denyBy: Option<string>,
                       allow: Option<seq<string>>, allowBy: Option<string>,
                       percent: Option<Rollout>, variant: Option<string>)

  datatype EvalContext = EvalContext(userId: Option<string>, workspaceId: Option<string>,
                                     attributes: Option<map<string, string>>)

  datatype Reason = Static | Percent

  datatype Decision = Decision(key: string, enabled: bool, variant: string, reason: Reason)

  function NonEmpty(v: Option<string>): Option<string> {
    if v.Some? && v.value != "" then v else None
  }

  function LookupAttr(ctx: EvalContext, name: string): Option<string> {
    if name == "user_id" then NonEmpty(ctx.userId)
    else if name == "workspace_id" then NonEmpty(ctx.workspaceId)
    else if ctx.attributes.Some? && name in ctx.attributes.value then NonEmpty(Some(ctx.attributes.value[name]))
    else None
  }

  /** Whether a list names the context's attribute; a missing attribute matches nothing. */
  predicate Matches(list: Option<seq<string>>, attr: Option<string>, ctx: EvalContext) {
    var v := LookupAttr(ctx, attr.GetOr("user_id"));
    list.Some? && v.Some? && v.value in list.value
  }

  function DecisionFromRule(key: string, rule: Rule, enabled: bool, reason: Reason): Decision {
    var variant := if enabled && rule.variant.Some? && rule.variant.value != "" then rule.variant.value
                   else if enabled then "on" else "off";
    Decision(key, enabled, variant, reason)
  }

  function EvaluateRule(key: string, rule: Rule, ctx: EvalContext): Decision {
    if Matches(rule.deny, rule.denyBy, ctx) then DecisionFromRule(key, rule, false, Static)
    else if Matches(rule.allow, rule.allowBy, ctx) then DecisionFromRule(key, rule, true, Static)
    else if rule.percent.Some? then
      var ident := LookupAttr(ctx, rule.percent.value.attr.GetOr("user_id")).GetOr("");
      DecisionFromRule(key, rule, InPercent(key, ident, rule.percent.value.percent), Percent)
    else DecisionFromRule(key, rule, rule.default.GetOr(false), Static)
  }

  class Provider {
    var rules: map<string, Rule>

    constructor (initial: map<string, Rule>)
      ensures rules == initial
    {
      rules := initial;
    }

    method Set(key: string, rule: Rule)
      modifies this
      ensures rules == old(rules)[key := rule]
    {
      rules := rules[key := rule];
    }

    method LoadRules(next: map<string, Rule>)
      modifies this
      ensures rules == next
    {
      rules := next;
    }

    method Lookup(key: string, ctx: EvalContext) returns (d: Option<Decision>)
      ensures d == if key in rules then Some(EvaluateRule(key, rules[key], ctx)) else None
    {
      if key !in rules {
        return None;
      }
      d := Some(EvaluateRule(key, rules[key], ctx));
    }
  }

  /** The bucket a percent rule compares against its percentage. */
  function RuleBucket(key: string, attr: Option<string>, ctx: EvalContext): nat {
    Bucket(key, LookupAttr(ctx, attr.GetOr("user_id")).GetOr(""))
  }

  /** When a percent rule is on, for every percentage in range or not: never for a denied context, always for an
      allowed one that is not denied, and otherwise exactly from the context's own threshold upwards. */
  lemma RolloutThreshold(key: string, rule: Rule, attr: Option<string>, p: real, ctx: EvalContext)
    ensures EvaluateRule(key, rule.(percent := Some(Rollout(p, attr))), ctx).enabled <==>
            !Matches(rule.deny, rule.denyBy, ctx)
            && (Matches(rule.allow, rule.allowBy, ctx) || RuleBucket(key, attr, ctx) as real < p)
  {
    PercentIsThreshold(key, LookupAttr(ctx, attr.GetOr("user_id")).GetOr(""), p);
  }

  /** Raising a rule's percentage never turns anybody off, and never moves anybody to another variant. */
  lemma RaisingPercentKeepsEnabled(key: string, rule: Rule, attr: Option<string>, p: real, q: real, ctx: EvalContext)
    requires p <= q
    requires EvaluateRule(key, rule.(percent := Some(Rollout(p, attr))), ctx).enabled
    ensures EvaluateRule(key, rule.(percent := Some(Rollout(q, attr))), ctx).enabled
    ensures EvaluateRule(key, rule.(percent := Some(Rollout(q, attr))), ctx).variant
         == EvaluateRule(key, rule.(percent := Some(Rollout(p, attr))), ctx).variant
  {
    RolloutThreshold(key, rule, attr, p, ctx);
    RolloutThreshold(key, rule, attr, q, ctx);
  }

  /** The variant two contexts see tells whether the rule treats them alike: they see the same one exactly when both
      are on or both are off, unless the rule calls its own variant "off". */
  lemma VariantTellsEnabled(key: string, rule: Rule, c: EvalContext, d: EvalContext)
    ensures EvaluateRule(key, rule, c).variant == EvaluateRule(key, rule, d).variant
            <==> EvaluateRule(key, rule, c).enabled == EvaluateRule(key, rule, d).enabled || rule.variant == Some("off")
  {
  }

  /** The context has this value for this name. An empty one counts as missing. */
  ghost predicate Has(ctx: EvalContext, name: string, value: string) {
    value != ""
    && if name == "user_id" then ctx.userId == Some(value)
       else if name == "workspace_id" then ctx.workspaceId == Some(value)
       else ctx.attributes.Some? && name in ctx.attributes.value && ctx.attributes.value[name] == value
  }

  /** A list names a context exactly when it has some value for the list's attribute, the user by default, and the list
      holds it. */
  lemma MatchesExactly(list: Option<seq<string>>, attr: Option<string>, ctx: EvalContext)
    ensures Matches(list, attr, ctx) <==>
            list.Some? && exists v :: v in list.value && Has(ctx, if attr.Some? then attr.value else "user_id", v)
  {
    var name := if attr.Some? then attr.value else "user_id";
    if Matches(list, attr, ctx) {
      assert Has(ctx, name, LookupAttr(ctx, name).value);
    }
  }

  /** A rule without a rollout: its default, off if it names none, unless a list decides; a denial comes first. */
  lemma DefaultExactly(key: string, rule: Rule, ctx: EvalContext)
    requires rule.percent.None?
    ensures EvaluateRule(key, rule, ctx).enabled <==>
            !Matches(rule.deny, rule.denyBy, ctx)
            && (Matches(rule.allow, rule.allowBy, ctx) || rule.default == Some(true))
    ensures EvaluateRule(key, rule, ctx).reason == Static && EvaluateRule(key, rule, ctx).key == key
  {
  }
}
