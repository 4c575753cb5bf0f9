/** The choice of the one policy rule that decides a call. */
module PolicyMatcher {
  import opened Options
  import opened PolicyPatterns

  datatype Decision = Allow | Ask | Deny

  datatype Rule = Rule(id: string, priority: int, server: string, tools: seq<string>, decision: Decision)

  datatype Ranked = Ranked(rule: Rule, specificity: nat)

  /** The rule that decided, or the default, which is to ask. */
  datatype PolicyMatch = DefaultAsk | MatchedRule(rule: Rule)

  /** The platform's string comparison. */
  type Collate = (string, string) -> int

  function DecisionRank(d: Decision): nat {
    match d case Allow => 0 case Ask => 1 case Deny => 2
  }

  /** The best specificity any of the tool patterns reaches. */
  function BestTool(tools: seq<string>, toolName: string): Option<nat> {
    if tools == [] then None
    else
      match (MatchSpecificity(tools[0], toolName), BestTool(tools[1..], toolName))
      case (Some(a), Some(b)) => Some(if a > b then a else b)
      case (Some(a), None) => Some(a)
      case (None, best) => best
  }

  function Rank(rule: Rule, serverId: string, toolName: string): Option<Ranked> {
    match (MatchSpecificity(rule.server, serverId), BestTool(rule.tools, toolName))
    case (Some(a), Some(b)) => Some(Ranked(rule, a + b))
    case _ => None
  }

  function Ranks(rules: seq<Rule>, serverId: string, toolName: string): seq<Ranked> {
    if rules == [] then []
    else
      (match Rank(rules[0], serverId, toolName) case Some(r) => [r] case None => [])
      + Ranks(rules[1..], serverId, toolName)
  }

  /** Negative when the left rule goes first. */
  function Compare(left: Ranked, right: Ranked, collate: Collate): int {
    var byPriority := right.rule.priority - left.rule.priority;
    var bySpecificity := right.specificity - left.specificity;
    var byDecision := DecisionRank(right.rule.decision) - DecisionRank(left.rule.decision);
    if byPriority != 0 then byPriority
    else if bySpecificity != 0 then bySpecificity
    else if byDecision != 0 then byDecision
    else collate(left.rule.id, right.rule.id)
  }

  function Insert(x: Ranked, rs: seq<Ranked>, collate: Collate): seq<Ranked> {
    if rs == [] || Compare(x, rs[0], collate) <= 0 then [x] + rs else [rs[0]] + Insert(x, rs[1..], collate)
  }

  function SortRanked(rs: seq<Ranked>, collate: Collate): seq<Ranked> {
    if rs == [] then [] else Insert(rs[0], SortRanked(rs[1..], collate), collate)
  }

  function MatchPolicy(rules: seq<Rule>, serverId: string, toolName: string, collate: Collate): PolicyMatch {
    var sorted := SortRanked(Ranks(rules, serverId, toolName), collate);
    if sorted == [] then DefaultAsk else MatchedRule(sorted[0].rule)
  }

  // ----- The order of precedence, said declaratively -----

  /** The rule's patterns fit the call. */
  ghost predicate Applies(rule: Rule, serverId: string, toolName: string) {
    Fits(rule.server, serverId) && exists i :: 0 <= i < |rule.tools| && Fits(rule.tools[i], toolName)
  }

  function Closeness(rule: Rule, serverId: string, toolName: string): nat {
    (if rule.server == serverId then 2 else 1) + (if toolName in rule.tools then 2 else 1)
  }

  /** Priority first, then the exactness of the match, then the stricter decision, then the identifier. */
  ghost predicate Outranks(a: Rule, b: Rule, serverId: string, toolName: string, collate: Collate) {
    var near, far := Closeness(a, serverId, toolName), Closeness(b, serverId, toolName);
    || a.priority > b.priority
    || (a.priority == b.priority && near > far)
    || (a.priority == b.priority && near == far && DecisionRank(a.decision) > DecisionRank(b.decision))
    || (a.priority == b.priority && near == far && a.decision == b.decision && collate(a.id, b.id) < 0)
  }

  /** A rule that applies and outranks every other rule that does. */
  ghost predicate Best(w: Rule, rules: seq<Rule>, serverId: string, toolName: string, collate: Collate) {
    && w in rules && Applies(w, serverId, toolName)
    && forall r :: r in rules && r != w && Applies(r, serverId, toolName) ==>
       Outranks(w, r, serverId, toolName, collate)
  }

  predicate IdStart(c: char) {
    'a' <= c <= 'z' || '0' <= c <= '9'
  }

  /** The identifiers a policy document may give its rules. */
  ghost predicate IsRuleId(id: string) {
    && id != "" && IdStart(id[0])
    && forall i :: 0 <= i < |id| ==> IdStart(id[i]) || id[i] in "._-"
  }

  /** What the document's schema guarantees: identifiers of the right form, no two alike. */
  ghost predicate ValidRules(rules: seq<Rule>) {
    && (forall i :: 0 <= i < |rules| ==> IsRuleId(rules[i].id))
    && (forall i, j :: 0 <= i < j < |rules| ==> rules[i].id != rules[j].id)
  }

  /** On identifiers the comparison is a strict total order. */
  ghost predicate Collates(collate: Collate) {
    && (forall a, b :: IsRuleId(a) && IsRuleId(b) ==> (collate(a, b) == 0 <==> a == b))
    && (forall a, b :: IsRuleId(a) && IsRuleId(b) ==> (collate(a, b) < 0 <==> collate(b, a) > 0))
    && (forall a, b, c :: IsRuleId(a) && IsRuleId(b) && IsRuleId(c) && collate(a, b) < 0 && collate(b, c) < 0
          ==> collate(a, c) < 0)
  }

  // ----- Ranking is applicability and closeness -----

  lemma {:induction false} BestToolMeans(tools: seq<string>, toolName: string)
    ensures BestTool(tools, toolName).Some? <==> exists i :: 0 <= i < |tools| && Fits(tools[i], toolName)
    ensures BestTool(tools, toolName).Some? ==> BestTool(tools, toolName).value == if toolName in tools then 2 else 1
  {
    if tools != [] {
      var rest := tools[1..];
      BestToolMeans(rest, toolName);
      SpecificityMeans(tools[0], toolName);
      assert forall i :: 0 <= i < |rest| ==> rest[i] == tools[i + 1];
      assert toolName in tools <==> tools[0] == toolName || toolName in rest;
      if toolName in rest { MemberFits(rest, toolName); }
    }
  }

  lemma MemberFits(tools: seq<string>, toolName: string)
    requires toolName in tools
    ensures exists i :: 0 <= i < |tools| && Fits(tools[i], toolName)
  {
    FitsItself(toolName);
    var i :| 0 <= i < |tools| && tools[i] == toolName;
  }

  /** A rule is ranked exactly when it applies, by its closeness: 2 per exact part, 1 per wildcard part. */
  lemma RankMeans(rule: Rule, serverId: string, toolName: string)
    ensures Rank(rule, serverId, toolName)
         == if Applies(rule, serverId, toolName) then Some(Ranked(rule, Closeness(rule, serverId, toolName))) else None
  {
    SpecificityMeans(rule.server, serverId);
    BestToolMeans(rule.tools, toolName);
  }

  /** The rule is one of the applicable ones, ranked by its closeness. */
  ghost predicate Listed(r: Ranked, rules: seq<Rule>, serverId: string, toolName: string) {
    r.rule in rules && Applies(r.rule, serverId, toolName) && r.specificity == Closeness(r.rule, serverId, toolName)
  }

  lemma {:induction false} RanksMean(rules: seq<Rule>, serverId: string, toolName: string)
    ensures forall r :: r in Ranks(rules, serverId, toolName) <==> Listed(r, rules, serverId, toolName)
  {
    if rules != [] {
      RankMeans(rules[0], serverId, toolName);
      RanksMean(rules[1..], serverId, toolName);
      assert forall x :: x in rules <==> x == rules[0] || x in rules[1..];
    }
  }

  // ----- The sort puts the best rule first -----

  lemma CompareTransitive(a: Ranked, b: Ranked, c: Ranked, collate: Collate)
    requires Collates(collate) && IsRuleId(a.rule.id) && IsRuleId(b.rule.id) && IsRuleId(c.rule.id)
    requires Compare(a, b, collate) <= 0 && Compare(b, c, collate) <= 0
    ensures Compare(a, c, collate) <= 0
  {
  }

  lemma CompareReverses(a: Ranked, b: Ranked, collate: Collate)
    requires Collates(collate) && IsRuleId(a.rule.id) && IsRuleId(b.rule.id)
    ensures Compare(a, b, collate) > 0 <==> Compare(b, a, collate) < 0
  {
  }

  ghost predicate First(x: Ranked, rs: seq<Ranked>, collate: Collate) {
    x in rs && forall y :: y in rs ==> Compare(x, y, collate) <= 0
  }

  lemma {:induction false} SortPutsFirst(rs: seq<Ranked>, collate: Collate)
    requires Collates(collate) && rs != [] && forall r :: r in rs ==> IsRuleId(r.rule.id)
    ensures SortRanked(rs, collate) != [] && First(SortRanked(rs, collate)[0], rs, collate)
  {
    var x, rest := rs[0], rs[1..];
    assert forall r :: r in rs <==> r == x || r in rest;
    CompareReverses(x, x, collate);
    if rest != [] {
      SortPutsFirst(rest, collate);
      var first := SortRanked(rest, collate)[0];
      CompareReverses(x, first, collate);
      if Compare(x, first, collate) <= 0 {
        forall y | y in rest ensures Compare(x, y, collate) <= 0 {
          CompareTransitive(x, first, y, collate);
        }
      }
    }
  }

  lemma FirstOutranks(x: Ranked, y: Ranked, rules: seq<Rule>, serverId: string, toolName: string, collate: Collate)
    requires Collates(collate) && ValidRules(rules)
    requires Listed(x, rules, serverId, toolName) && Listed(y, rules, serverId, toolName) && x.rule != y.rule
    requires Compare(x, y, collate) <= 0
    ensures Outranks(x.rule, y.rule, serverId, toolName, collate)
  {
    assert x.rule.id != y.rule.id && IsRuleId(x.rule.id) && IsRuleId(y.rule.id);
  }

  // ----- Main results -----

  /** At most one rule can be best. */
  lemma BestIsUnique(v: Rule, w: Rule, rules: seq<Rule>, serverId: string, toolName: string, collate: Collate)
    requires Collates(collate) && ValidRules(rules)
    requires Best(v, rules, serverId, toolName, collate) && Best(w, rules, serverId, toolName, collate)
    ensures v == w
  {
    assert IsRuleId(v.id) && IsRuleId(w.id);
  }

  ghost predicate NoneApplies(rules: seq<Rule>, serverId: string, toolName: string) {
    forall r :: r in rules ==> !Applies(r, serverId, toolName)
  }

  /** The policy asks by default exactly when no rule applies; otherwise it answers with the one best rule. */
  lemma MatchIsBest(rules: seq<Rule>, serverId: string, toolName: string, collate: Collate)
    requires Collates(collate) && ValidRules(rules)
    ensures MatchPolicy(rules, serverId, toolName, collate) == DefaultAsk <==> NoneApplies(rules, serverId, toolName)
    ensures forall w :: MatchPolicy(rules, serverId, toolName, collate) == MatchedRule(w)
                   <==> Best(w, rules, serverId, toolName, collate)
  {
    var ranks := Ranks(rules, serverId, toolName);
    RanksMean(rules, serverId, toolName);
    if ranks == [] {
      forall r | r in rules ensures !Applies(r, serverId, toolName) {
        assert Ranked(r, Closeness(r, serverId, toolName)) !in ranks;
      }
    } else {
      SortPutsFirst(ranks, collate);
      var x := SortRanked(ranks, collate)[0];
      FirstIsBest(x, rules, serverId, toolName, collate);
      forall w | Best(w, rules, serverId, toolName, collate) ensures w == x.rule {
        BestIsUnique(w, x.rule, rules, serverId, toolName, collate);
      }
    }
  }

  lemma FirstIsBest(x: Ranked, rules: seq<Rule>, serverId: string, toolName: string, collate: Collate)
    requires Collates(collate) && ValidRules(rules)
    requires First(x, Ranks(rules, serverId, toolName), collate)
    ensures Best(x.rule, rules, serverId, toolName, collate)
  {
    RanksMean(rules, serverId, toolName);
    forall r | r in rules && r != x.rule && Applies(r, serverId, toolName)
      ensures Outranks(x.rule, r, serverId, toolName, collate)
    {
      var y := Ranked(r, Closeness(r, serverId, toolName));
      assert y in Ranks(rules, serverId, toolName);
      FirstOutranks(x, y, rules, serverId, toolName, collate);
    }
  }

  /** The order of the rules in the document does not matter. */
  lemma RuleOrderIrrelevant(rules: seq<Rule>, reordered: seq<Rule>, serverId: string, toolName: string,
                            collate: Collate)
    requires Collates(collate) && ValidRules(rules) && ValidRules(reordered)
    requires forall r :: r in rules <==> r in reordered
    ensures MatchPolicy(rules, serverId, toolName, collate) == MatchPolicy(reordered, serverId, toolName, collate)
  {
    MatchIsBest(rules, serverId, toolName, collate);
    MatchIsBest(reordered, serverId, toolName, collate);
    var m := MatchPolicy(rules, serverId, toolName, collate);
    if m.MatchedRule? {
      assert Best(m.rule, reordered, serverId, toolName, collate);
    }
  }

  /** One more rule changes the answer exactly when it applies and outranks the rule that decided before. */
  lemma OneMoreRule(rules: seq<Rule>, extra: Rule, serverId: string, toolName: string, collate: Collate)
    requires Collates(collate) && ValidRules(rules + [extra])
    ensures ValidRules(rules)
    ensures var before := MatchPolicy(rules, serverId, toolName, collate);
      MatchPolicy(rules + [extra], serverId, toolName, collate)
      == if Applies(extra, serverId, toolName)
        && (before.DefaultAsk? || Outranks(extra, before.rule, serverId, toolName, collate))
         then MatchedRule(extra) else before
  {
    var more := rules + [extra];
    assert forall i :: 0 <= i < |rules| ==> more[i] == rules[i];
    assert more[|rules|] == extra;
    assert forall r :: r in more <==> r in rules || r == extra;
    MatchIsBest(rules, serverId, toolName, collate);
    MatchIsBest(more, serverId, toolName, collate);
    var before := MatchPolicy(rules, serverId, toolName, collate);
    if Applies(extra, serverId, toolName)
      && (before.DefaultAsk? || Outranks(extra, before.rule, serverId, toolName, collate)) {
      forall r | r in rules && Applies(r, serverId, toolName) ensures Outranks(extra, r, serverId, toolName, collate) {
        if r != before.rule { OutranksTransitive(extra, before.rule, r, more, serverId, toolName, collate); }
      }
      assert Best(extra, more, serverId, toolName, collate);
    } else if before.MatchedRule? {
      if Applies(extra, serverId, toolName) { OutranksTotal(extra, before.rule, more, serverId, toolName, collate); }
      assert Best(before.rule, more, serverId, toolName, collate);
    } else {
      assert NoneApplies(more, serverId, toolName);
    }
  }

  lemma OutranksTransitive(a: Rule, b: Rule, c: Rule, rules: seq<Rule>, serverId: string, toolName: string,
                           collate: Collate)
    requires Collates(collate) && ValidRules(rules) && a in rules && b in rules && c in rules
    requires Outranks(a, b, serverId, toolName, collate) && Outranks(b, c, serverId, toolName, collate)
    ensures Outranks(a, c, serverId, toolName, collate)
  {
    assert IsRuleId(a.id) && IsRuleId(b.id) && IsRuleId(c.id);
  }

  lemma OutranksTotal(a: Rule, b: Rule, rules: seq<Rule>, serverId: string, toolName: string, collate: Collate)
    requires Collates(collate) && ValidRules(rules) && a in rules && b in rules
    ensures a == b || Outranks(a, b, serverId, toolName, collate) || Outranks(b, a, serverId, toolName, collate)
  {
    if a != b {
      var i, j :| 0 <= i < |rules| && 0 <= j < |rules| && rules[i] == a && rules[j] == b;
      assert IsRuleId(a.id) && IsRuleId(b.id) && a.id != b.id;
    }
  }

  /**
    * A call is let through unasked only if every applicable rule that denies it is of lower precedence than an
    * allowing one.
    */
  lemma DenialsAreOverruled(rules: seq<Rule>, serverId: string, toolName: string, collate: Collate, w: Rule, d: Rule)
    requires Collates(collate) && ValidRules(rules)
    requires MatchPolicy(rules, serverId, toolName, collate) == MatchedRule(w) && w.decision != Deny
    requires d in rules && Applies(d, serverId, toolName) && d.decision == Deny
    ensures d.priority < w.priority
         || (d.priority == w.priority && Closeness(d, serverId, toolName) < Closeness(w, serverId, toolName))
  {
    MatchIsBest(rules, serverId, toolName, collate);
    assert Outranks(w, d, serverId, toolName, collate);
  }

  /** The same of any stricter rule: asking is stricter than allowing, and denying than both. */
  lemma StricterIsOverruled(rules: seq<Rule>, serverId: string, toolName: string, collate: Collate, w: Rule, d: Rule)
    requires Collates(collate) && ValidRules(rules)
    requires MatchPolicy(rules, serverId, toolName, collate) == MatchedRule(w)
    requires d in rules && Applies(d, serverId, toolName)
    requires (w.decision == Allow && d.decision != Allow) || (w.decision == Ask && d.decision == Deny)
    ensures d.priority < w.priority
         || (d.priority == w.priority && Closeness(d, serverId, toolName) < Closeness(w, serverId, toolName))
  {
    MatchIsBest(rules, serverId, toolName, collate);
    assert Outranks(w, d, serverId, toolName, collate);
  }
}
