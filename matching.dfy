/** Filter matching (autbot.go:303-317). A rule is tested by substring
    search on the raw payload text `s`; the victim-side condition is kept
    exactly as Go's operator precedence groups it. */
module Matching {
  import opened Text
  import opened Channels

  const PersonKey: string := "\"character_id\":"
  const CorpKey: string := "\"corporation_id\":"
  const AllianceKey: string := "\"alliance_id\":"
  const SystemKey: string := "\"solar_system_id\":"
  const AttackersKey: string := "attackers"

  /** One sub-predicate: the wildcard, or `key + id` occurs in the text. */
  predicate FieldMatches(text: string, key: string, id: string)
  {
    id == Wildcard || Contains(text, key + id)
  }

  /** Person, corporation and alliance sub-predicates together (P && C && A). */
  predicate IdentityMatches(text: string, rule: FilterRule)
  {
    && FieldMatches(text, PersonKey, rule.personId)
    && FieldMatches(text, CorpKey, rule.corpId)
    && FieldMatches(text, AllianceKey, rule.allianceId)
  }

  /** The condition as written at autbot.go:304-307, where `&&` binds
      tighter than `||`: (P && C && A && SystemID == "-") || contains(system). */
  predicate RuleMatches(s: string, rule: FilterRule)
  {
    (IdentityMatches(s, rule) && rule.systemId == Wildcard) || Contains(s, SystemKey + rule.systemId)
  }

  /** The four-way conjunction the parentheses suggest was meant. */
  predicate StrictRuleMatches(s: string, rule: FilterRule)
  {
    IdentityMatches(s, rule) && FieldMatches(s, SystemKey, rule.systemId)
  }

  /** The text from the first "attackers" on (autbot.go:309). */
  function AttackersPart(s: string): (t: string)
    requires Contains(s, AttackersKey)
    ensures |t| >= |AttackersKey| && t[..|AttackersKey|] == AttackersKey
    ensures exists k :: 0 <= k <= |s| && t == s[k..]
    ensures forall j :: 0 <= j < |s| - |t| ==> !OccursAt(s, AttackersKey, j)
  {
    var k := IndexOf(s, AttackersKey);
    assert s[k..][..|AttackersKey|] == s[k..k + |AttackersKey|];
    s[k..]
  }

  /** The highlight test (autbot.go:311-313): the rule's identity fields
      all occur in the attackers part. */
  predicate Highlights(s: string, rule: FilterRule)
    requires Contains(s, AttackersKey)
  {
    IdentityMatches(AttackersPart(s), rule)
  }

  /** Index of the first matching rule (the loop ends at the `break`), or -1. */
  function FirstMatch(s: string, rules: seq<FilterRule>): (k: int)
    ensures -1 <= k < |rules|
    ensures k >= 0 ==> RuleMatches(s, rules[k])
    ensures forall j :: 0 <= j < |rules| && (k < 0 || j < k) ==> !RuleMatches(s, rules[j])
    decreases |rules|
  {
    if rules == [] then -1
    else if RuleMatches(s, rules[0]) then 0
    else
      var k := FirstMatch(s, rules[1..]);
      if k < 0 then -1 else k + 1
  }

  // ---------------------------------------------------------------------
  // Consequences of the precedence as written

  /** A rule naming a system matches whenever that system's key occurs,
      whatever its person, corporation and alliance fields say. */
  lemma SystemBypassesIdentity(s: string, rule: FilterRule)
    requires rule.systemId != Wildcard
    ensures RuleMatches(s, rule) <==> Contains(s, SystemKey + rule.systemId)
  {
  }

  /** With a wildcard system, and no `"solar_system_id":-` in the payload,
      the condition is the identity conjunction alone. */
  lemma WildcardSystemIsIdentity(s: string, rule: FilterRule)
    requires rule.systemId == Wildcard
    requires !Contains(s, SystemKey + Wildcard)
    ensures RuleMatches(s, rule) <==> IdentityMatches(s, rule)
  {
  }

  /** The written condition accepts everything the strict conjunction
      accepts, and more exactly when the system key occurs but the
      identity fields fail. */
  lemma WrittenVersusStrict(s: string, rule: FilterRule)
    ensures StrictRuleMatches(s, rule) ==> RuleMatches(s, rule)
    ensures RuleMatches(s, rule) && !StrictRuleMatches(s, rule)
            <==> Contains(s, SystemKey + rule.systemId) && !IdentityMatches(s, rule)
  {
  }

  /** A concrete payload on which the two differ: the rule names a person
      who is absent, yet the system matches. */
  lemma PrecedenceExample()
    ensures var s := SystemKey + "30000142";
            var rule := FilterRule("Nobody", "-", "-", "Jita", "99999999999999", "-", "-", "30000142");
            RuleMatches(s, rule) && !StrictRuleMatches(s, rule)
  {
    var s := SystemKey + "30000142";
    var t := PersonKey + "99999999999999";
    assert s[..|s|] == s;
    assert IndexOf(s, SystemKey + "30000142") == 0;
    assert |t| > |s|;
    assert IndexOf(s, t) == -1;
  }

  /** A rule that is all wildcards matches every payload. */
  lemma WildcardRuleMatches(s: string, rule: FilterRule)
    requires rule.personId == Wildcard && rule.corpId == Wildcard
    requires rule.allianceId == Wildcard && rule.systemId == Wildcard
    ensures RuleMatches(s, rule) && StrictRuleMatches(s, rule)
  {
  }

  /** What the attackers part contains, the whole payload contains, so a
      highlighting rule also satisfies its identity fields on the payload. */
  lemma HighlightImpliesIdentity(s: string, rule: FilterRule)
    requires Contains(s, AttackersKey)
    requires Highlights(s, rule)
    ensures IdentityMatches(s, rule)
  {
    var t := AttackersPart(s);
    var k :| 0 <= k <= |s| && t == s[k..];
    if rule.personId != Wildcard { ContainsInSuffix(s, k, PersonKey + rule.personId); }
    if rule.corpId != Wildcard { ContainsInSuffix(s, k, CorpKey + rule.corpId); }
    if rule.allianceId != Wildcard { ContainsInSuffix(s, k, AllianceKey + rule.allianceId); }
  }

  /** Identities are searched in the whole payload, attackers included:
      with a wildcard system, a rule that highlights also matches, so a
      rule naming a pilot fires on that pilot's kills as well as losses. */
  lemma HighlightWithWildcardSystemMatches(s: string, rule: FilterRule)
    requires Contains(s, AttackersKey)
    requires Highlights(s, rule) && rule.systemId == Wildcard
    ensures RuleMatches(s, rule)
  {
    HighlightImpliesIdentity(s, rule);
  }

  /** The contract of FirstMatch determines it. */
  lemma FirstMatchIs(s: string, rules: seq<FilterRule>, k: int)
    requires -1 <= k < |rules|
    requires k >= 0 ==> RuleMatches(s, rules[k])
    requires forall j :: 0 <= j < |rules| && (k < 0 || j < k) ==> !RuleMatches(s, rules[j])
    ensures FirstMatch(s, rules) == k
  {
  }

  /** First match wins: rules appended after a matching rule never change
      which rule is used, and a list without a match defers to the rest. */
  lemma FirstMatchAppend(s: string, rules: seq<FilterRule>, more: seq<FilterRule>)
    ensures FirstMatch(s, rules) >= 0 ==> FirstMatch(s, rules + more) == FirstMatch(s, rules)
    ensures FirstMatch(s, rules) < 0 ==>
      FirstMatch(s, rules + more) == (if FirstMatch(s, more) < 0 then -1 else |rules| + FirstMatch(s, more))
  {
    var all := rules + more;
    var k, m := FirstMatch(s, rules), FirstMatch(s, more);
    if k >= 0 {
      assert all[k] == rules[k];
      forall j | 0 <= j < k
        ensures !RuleMatches(s, all[j])
      {
        assert all[j] == rules[j];
      }
      FirstMatchIs(s, all, k);
    } else {
      var a := if m < 0 then -1 else |rules| + m;
      if m >= 0 {
        assert all[a] == more[m];
      }
      forall j | 0 <= j < |all| && (a < 0 || j < a)
        ensures !RuleMatches(s, all[j])
      {
        if j < |rules| {
          assert all[j] == rules[j];
        } else {
          assert all[j] == more[j - |rules|];
        }
      }
      FirstMatchIs(s, all, a);
    }
  }
}
