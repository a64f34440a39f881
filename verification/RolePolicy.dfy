/** Which roles may call a path: longest-prefix rules, narrowed by a method overlay. */
module RolePolicy {
  import opened Wrappers
  import opened Text

  /** `methods` restricts an overlay rule; a path rule has none. */
  datatype Rule = Rule(prefix: string, methods: Option<set<string>>, roles: set<string>)

  predicate StartsWith(path: string, prefix: string) {
    prefix <= path
  }

  predicate Applies(r: Rule, path: string, verb: string) {
    (r.methods.Some? ==> Upper(verb) in r.methods.value) && StartsWith(path, r.prefix)
  }

  /** A rule applies when the path begins with its prefix and, for an overlay rule, the verb is one of its methods. */
  lemma AppliesExactly(r: Rule, path: string, verb: string)
    ensures Applies(r, path, verb)
            <==> && (r.methods == None || Upper(verb) in r.methods.value)
                 && |r.prefix| <= |path| && forall i | 0 <= i < |r.prefix| :: path[i] == r.prefix[i]
  {
    hide Upper;
    if Applies(r, path, verb) {
      assert r.prefix == path[..|r.prefix|];
    }
  }

  /** The first applicable rule of the greatest prefix length. */
  function Best(rules: seq<Rule>, path: string, verb: string): Option<Rule> {
    if |rules| == 0 then None
    else
      var before, last := Best(rules[..|rules| - 1], path, verb), rules[|rules| - 1];
      if Applies(last, path, verb) && (before.None? || |last.prefix| > |before.value.prefix|)
      then Some(last) else before
  }

  method FindBest(rules: seq<Rule>, path: string, verb: string) returns (best: Option<Rule>)
    ensures best == Best(rules, path, verb)
  {
    best := None;
    var bestLen := -1;
    for i := 0 to |rules|
      invariant best == Best(rules[..i], path, verb)
      invariant bestLen == if best.Some? then |best.value.prefix| else -1
    {
      assert rules[..i + 1][..i] == rules[..i];
      if Applies(rules[i], path, verb) && |rules[i].prefix| > bestLen {
        best, bestLen := Some(rules[i]), |rules[i].prefix|;
      }
    }
    assert rules[..|rules|] == rules;
  }

  function RolesForPath(policy: seq<Rule>, all: set<string>, path: string): set<string> {
    var best := Best(policy, path, "");
    if best.Some? then best.value.roles else all
  }

  function RolesFor(policy: seq<Rule>, overlay: seq<Rule>, all: set<string>, path: string, verb: string): set<string> {
    var best := Best(overlay, path, verb);
    if best.Some? then RolesForPath(policy, all, path) * best.value.roles else RolesForPath(policy, all, path)
  }

  // --- The longest prefix decides --------------------------------------------

  ghost predicate Distinct(rules: seq<Rule>) {
    forall i, j | 0 <= i < j < |rules| :: rules[i].prefix != rules[j].prefix
  }

  /** `r` applies and no applicable rule has a longer prefix. */
  ghost predicate IsLongest(rules: seq<Rule>, path: string, verb: string, r: Rule) {
    && r in rules && Applies(r, path, verb)
    && forall s | s in rules && Applies(s, path, verb) :: |s.prefix| <= |r.prefix|
  }

  lemma {:induction false} BestIsLongest(rules: seq<Rule>, path: string, verb: string)
    ensures var best := Best(rules, path, verb);
            if best.Some? then IsLongest(rules, path, verb, best.value)
            else forall r | r in rules :: !Applies(r, path, verb)
  {
    if |rules| != 0 {
      BestIsLongest(rules[..|rules| - 1], path, verb);
      assert rules == rules[..|rules| - 1] + [rules[|rules| - 1]];
    }
  }

  /** Applicable prefixes of one length are the same text, so with distinct prefixes the longest rule is unique. */
  lemma LongestIsUnique(rules: seq<Rule>, path: string, verb: string, r: Rule, s: Rule)
    requires Distinct(rules) && IsLongest(rules, path, verb, r) && IsLongest(rules, path, verb, s)
    ensures r == s
  {
    assert r.prefix == path[..|r.prefix|] && s.prefix == path[..|s.prefix|];
    var i :| 0 <= i < |rules| && rules[i] == r;
    var j :| 0 <= j < |rules| && rules[j] == s;
    assert rules[i].prefix == rules[j].prefix;
  }

  /** With distinct prefixes the order of the rules does not matter. */
  lemma RuleOrderIsIrrelevant(a: seq<Rule>, b: seq<Rule>, path: string, verb: string)
    requires Distinct(a) && (forall r :: r in a <==> r in b)
    ensures Best(a, path, verb) == Best(b, path, verb)
  {
    BestIsLongest(a, path, verb);
    BestIsLongest(b, path, verb);
    var x, y := Best(a, path, verb), Best(b, path, verb);
    if x.Some? {
      assert x.value in b;
      assert IsLongest(a, path, verb, y.value);
      LongestIsUnique(a, path, verb, x.value, y.value);
    }
  }

  /** Rule `i` applies, no applicable rule has a longer prefix, and none before it has one as long. */
  ghost predicate Decides(rules: seq<Rule>, path: string, verb: string, i: int) {
    && 0 <= i < |rules| && Applies(rules[i], path, verb)
    && (forall j | 0 <= j < |rules| && Applies(rules[j], path, verb) :: |rules[j].prefix| <= |rules[i].prefix|)
    && (forall j | 0 <= j < i && Applies(rules[j], path, verb) :: |rules[j].prefix| < |rules[i].prefix|)
  }

  ghost predicate SomeApplies(rules: seq<Rule>, path: string, verb: string) {
    exists i :: 0 <= i < |rules| && Applies(rules[i], path, verb)
  }

  lemma OneRuleDecides(rules: seq<Rule>, path: string, verb: string, i: int, j: int)
    requires Decides(rules, path, verb, i) && Decides(rules, path, verb, j)
    ensures i == j
  {
    hide Applies;
  }

  /** An earlier decision stands unless the last rule applies with a longer prefix. */
  lemma DecidesFromFront(rules: seq<Rule>, path: string, verb: string, i: int)
    requires |rules| > 0 && Decides(rules[..|rules| - 1], path, verb, i)
    ensures var last := |rules| - 1;
            if Applies(rules[last], path, verb) && |rules[last].prefix| > |rules[i].prefix|
            then Decides(rules, path, verb, last) else Decides(rules, path, verb, i)
  {
    hide Applies;
    var front := rules[..|rules| - 1];
    assert forall j | 0 <= j < |front| :: front[j] == rules[j];
  }

  /** The index of the rule found, or -1 when no rule applies. */
  lemma {:induction false} BestDecides(rules: seq<Rule>, path: string, verb: string) returns (i: int)
    ensures Best(rules, path, verb).None? ==> !SomeApplies(rules, path, verb)
    ensures Best(rules, path, verb).Some? ==> Decides(rules, path, verb, i) && Best(rules, path, verb) == Some(rules[i])
  {
    i := -1;
    if |rules| != 0 {
      hide Applies;
      var n := |rules| - 1;
      var front := rules[..n];
      i := BestDecides(front, path, verb);
      assert forall j | 0 <= j < n :: front[j] == rules[j];
      if Best(front, path, verb).Some? {
        DecidesFromFront(rules, path, verb, i);
      }
      if Best(rules, path, verb) != Best(front, path, verb) {
        i := n;
      }
    }
  }

  /**
   * `role` is held by the path rule that decides, or by everyone's set when no rule applies, and by the deciding
   * overlay rule.
   */
  ghost predicate MayCall(policy: seq<Rule>, overlay: seq<Rule>, all: set<string>, path: string, verb: string,
                          role: string)
  {
    && (forall i | Decides(policy, path, "", i) :: role in policy[i].roles)
    && (!SomeApplies(policy, path, "") ==> role in all)
    && (forall i | Decides(overlay, path, verb, i) :: role in overlay[i].roles)
  }

  lemma DecidingApplies(rules: seq<Rule>, path: string, verb: string, i: int)
    requires Decides(rules, path, verb, i)
    ensures 0 <= i < |rules| && SomeApplies(rules, path, verb)
  {
  }

  /** A role may call exactly when both deciding rules allow it, whatever the tables. */
  lemma AllowedExactlyWhenBothRulesAllow(policy: seq<Rule>, overlay: seq<Rule>, all: set<string>, path: string,
                                         verb: string, role: string)
    ensures role in RolesFor(policy, overlay, all, path, verb) <==> MayCall(policy, overlay, all, path, verb, role)
  {
    hide Best, Applies;
    var p := BestDecides(policy, path, "");
    var o := BestDecides(overlay, path, verb);
    hide Decides;
    forall i | Decides(policy, path, "", i) ensures i == p && Best(policy, path, "").Some? {
      DecidingApplies(policy, path, "", i);
      OneRuleDecides(policy, path, "", i, p);
    }
    forall i | Decides(overlay, path, verb, i) ensures i == o && Best(overlay, path, verb).Some? {
      DecidingApplies(overlay, path, verb, i);
      OneRuleDecides(overlay, path, verb, i, o);
    }
    if Best(policy, path, "").Some? {
      DecidingApplies(policy, path, "", p);
    }
  }

  /** The roles that may call: those both deciding rules hold. */
  method Authorise(policy: seq<Rule>, overlay: seq<Rule>, all: set<string>, path: string, verb: string)
    returns (roles: set<string>)
    ensures forall role :: role in roles <==> MayCall(policy, overlay, all, path, verb, role)
  {
    var rule := FindBest(policy, path, "");
    roles := if rule.Some? then rule.value.roles else all;
    var narrowed := FindBest(overlay, path, verb);
    if narrowed.Some? {
      roles := roles * narrowed.value.roles;
    }
    assert roles == RolesFor(policy, overlay, all, path, verb);
    hide MayCall;
    forall role ensures role in roles <==> MayCall(policy, overlay, all, path, verb, role) {
      AllowedExactlyWhenBothRulesAllow(policy, overlay, all, path, verb, role);
    }
  }
}
