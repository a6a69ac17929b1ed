/** `SortingManager`: a player's tablist priority (a custom override, else
    the group weights of the sorting rules) and the order of the player
    list built from it. */
module TabSorting {
  import opened Wrappers
  import opened Strings
  import opened Sort
  import opened Host

  /** One entry of the `rules` section: its type and, for a `GROUP` rule
      with a `groups` section, the weight of each group (`None` when the
      section is missing, which leaves the field `null`). */
  datatype SortingRule = SortingRule(ruleType: string, priority: int, groupWeights: Option<map<string, int>>)

  /** The share of one rule, `weight * 1000` in `int` arithmetic. A `GROUP`
      rule dereferences the player's LuckPerms user (`group` is `None` when
      there is none) and the weight map: either missing throws a
      `NullPointerException`. */
  function RuleWeight(rule: SortingRule, group: Option<string>): (r: Result<int, JavaException>)
    ensures r.Failure? <==> Throws(rule, group)
    ensures r.Success? ==> r.value == Wrap32(Contribution(rule, group))
  {
    if rule.ruleType != "GROUP" then Success(0)
    else if group.None? || rule.groupWeights.None? then Failure(NullPointer)
    else if group.value in rule.groupWeights.value then Success(Wrap32(rule.groupWeights.value[group.value] * 1000))
    else Success(0)
  }

  /** The loop over the rules: the running total in `int` arithmetic, or
      the exception of the first rule that throws. */
  function RulesTotal(rules: seq<SortingRule>, group: Option<string>): Result<int, JavaException> {
    if rules == [] then Success(0)
    else match RulesTotal(rules[..|rules| - 1], group)
      case Failure(e) => Failure(e)
      case Success(t) =>
        match RuleWeight(rules[|rules| - 1], group)
        case Failure(e) => Failure(e)
        case Success(w) => Success(Wrap32(t + w))
  }

  /** `getSortingPriority(player)`: the custom priority when one is set,
      else the rule total. */
  function Priority(custom: map<string, int>, rules: seq<SortingRule>, groupOf: string -> Option<string>, p: Player): (r: Result<int, JavaException>)
    ensures p.uuid !in custom ==>
      (r.Failure? <==> exists i :: 0 <= i < |rules| && Throws(rules[i], groupOf(p.uuid)))
    ensures p.uuid !in custom && r.Success? ==> r.value == Wrap32(ContributionSum(rules, groupOf(p.uuid)))
  {
    RulePriorityIsSum(rules, groupOf(p.uuid));
    if p.uuid in custom then Success(custom[p.uuid]) else RulesTotal(rules, groupOf(p.uuid))
  }

  /** A custom priority is returned unchanged and the rules are not consulted. */
  lemma CustomPriorityWins(custom: map<string, int>, rules: seq<SortingRule>, groupOf: string -> Option<string>, p: Player)
    requires p.uuid in custom
    ensures forall other :: Priority(custom, other, groupOf, p) == Success(custom[p.uuid])
    ensures Priority(custom, rules, groupOf, p) == Success(custom[p.uuid])
  {
  }

  /** The exact contribution of a rule: the weight of the group times 1000,
      0 for other rules and absent groups. */
  function Contribution(rule: SortingRule, group: Option<string>): int {
    if rule.ruleType == "GROUP" && group.Some? && rule.groupWeights.Some? && group.value in rule.groupWeights.value
    then rule.groupWeights.value[group.value] * 1000
    else 0
  }

  function ContributionSum(rules: seq<SortingRule>, group: Option<string>): int {
    if rules == [] then 0 else ContributionSum(rules[..|rules| - 1], group) + Contribution(rules[|rules| - 1], group)
  }

  /** A rule that throws: a `GROUP` rule without a user or without weights. */
  predicate Throws(rule: SortingRule, group: Option<string>) {
    rule.ruleType == "GROUP" && (group.None? || rule.groupWeights.None?)
  }

  /** The total fails exactly when some rule throws, and otherwise is the sum
      of the contributions, wrapped to 32 bits. */
  lemma {:induction false} RulePriorityIsSum(rules: seq<SortingRule>, group: Option<string>)
    ensures RulesTotal(rules, group).Failure? <==> exists i :: 0 <= i < |rules| && Throws(rules[i], group)
    ensures RulesTotal(rules, group).Success? ==> RulesTotal(rules, group).value == Wrap32(ContributionSum(rules, group))
  {
    if rules != [] {
      var init := rules[..|rules| - 1];
      RulePriorityIsSum(init, group);
      assert forall i :: 0 <= i < |init| ==> init[i] == rules[i];
      if RulesTotal(init, group).Success? && !Throws(rules[|rules| - 1], group) {
        WrapAddLeft(ContributionSum(init, group), Contribution(rules[|rules| - 1], group));
        WrapAddLeft(Contribution(rules[|rules| - 1], group), Wrap32(ContributionSum(init, group)));
      }
    }
  }

  /** Rules other than `GROUP` never add anything. */
  lemma {:induction false} NoGroupRulesGiveZero(rules: seq<SortingRule>, group: Option<string>)
    requires forall i :: 0 <= i < |rules| ==> rules[i].ruleType != "GROUP"
    ensures RulesTotal(rules, group) == Success(0)
  {
    if rules != [] {
      NoGroupRulesGiveZero(rules[..|rules| - 1], group);
    }
  }

  /** Once a prefix of the rules has thrown, the whole loop has. */
  lemma {:induction false} FailureStops(rules: seq<SortingRule>, group: Option<string>, i: nat)
    requires i <= |rules| && RulesTotal(rules[..i], group).Failure?
    ensures RulesTotal(rules, group) == RulesTotal(rules[..i], group)
    decreases |rules| - i
  {
    if i < |rules| {
      assert rules[..i + 1][..i] == rules[..i];
      FailureStops(rules, group, i + 1);
    } else {
      assert rules[..i] == rules;
    }
  }

  /** `compare(p1, p2)` once both priorities are known: higher priority
      first, equal priorities by case-insensitive name. */
  function ComparePlayers(p1: Player, p2: Player, q1: int, q2: int): (r: int)
    ensures q1 > q2 ==> r < 0
    ensures q1 < q2 ==> r > 0
    ensures q1 == q2 ==> r == CompareIgnoreCase(p1.name, p2.name)
  {
    if q1 != q2 then (if q2 < q1 then -1 else 1)
    else CompareIgnoreCase(p1.name, p2.name)
  }

  /** "Sorts no later than" under `compare`, with resolved priorities `pr`. */
  function SortsBefore(pr: Player -> int): (Player, Player) -> bool {
    (a: Player, b: Player) => ComparePlayers(a, b, pr(a), pr(b)) <= 0
  }

  /** `compare` is a valid comparator: total, and transitive as a
      lexicographic order of (priority descending, name ignoring case). */
  lemma SortsBeforeIsPreorder(pr: Player -> int)
    ensures TotalPreorder(SortsBefore(pr))
  {
    var le := SortsBefore(pr);
    forall a, b ensures le(a, b) || le(b, a) {
      CompareCharsAntisymmetric(ToLower(a.name), ToLower(b.name));
    }
    forall a, b, c | le(a, b) && le(b, c) ensures le(a, c) {
      assert ComparePlayers(a, b, pr(a), pr(b)) <= 0 && ComparePlayers(b, c, pr(b), pr(c)) <= 0;
      assert pr(a) >= pr(b) >= pr(c);
      if pr(a) == pr(c) {
        CompareCharsTransitive(ToLower(a.name), ToLower(b.name), ToLower(c.name));
      }
      assert ComparePlayers(a, c, pr(a), pr(c)) <= 0;
    }
  }

  /** The priority of a player whose priority resolves, 0 otherwise (the
      sort never gets that far). */
  function ResolvedPriority(custom: map<string, int>, rules: seq<SortingRule>, groupOf: string -> Option<string>): Player -> int {
    (p: Player) => var q := Priority(custom, rules, groupOf, p); if q.Success? then q.value else 0
  }

  /** Tablist sorting state: the priorities set by command, keyed by UUID. */
  class SortingManager {
    var customPriorities: map<string, int>

    constructor ()
      ensures customPriorities == map[]
    {
      customPriorities := map[];
    }

    /** `getSortingPriority`: the custom priority, else the rule loop. */
    method GetSortingPriority(p: Player, rules: seq<SortingRule>, groupOf: string -> Option<string>) returns (r: Result<int, JavaException>)
      ensures r == Priority(customPriorities, rules, groupOf, p)
    {
      if p.uuid in customPriorities {
        return Success(customPriorities[p.uuid]);
      }
      var group := groupOf(p.uuid);
      var total := 0;
      var i := 0;
      while i < |rules|
        invariant 0 <= i <= |rules|
        invariant RulesTotal(rules[..i], group) == Success(total)
      {
        assert rules[..i + 1][..i] == rules[..i];
        var w := RuleWeight(rules[i], group);
        if w.Failure? {
          FailureStops(rules, group, i + 1);
          return Failure(w.error);
        }
        total := Wrap32(total + w.value);
        i := i + 1;
      }
      assert rules[..i] == rules;
      r := Success(total);
    }

    /** `setSortingPriority`: the player's entry is overwritten. */
    method SetSortingPriority(p: Player, priority: int)
      modifies this`customPriorities
      ensures customPriorities == old(customPriorities)[p.uuid := priority]
    {
      customPriorities := customPriorities[p.uuid := priority];
    }

    /** `compare(p1, p2)`: both priorities first (either may throw), then
      `ComparePlayers`. */
    method Compare(p1: Player, p2: Player, rules: seq<SortingRule>, groupOf: string -> Option<string>) returns (r: Result<int, JavaException>)
      ensures var q1, q2 := Priority(customPriorities, rules, groupOf, p1), Priority(customPriorities, rules, groupOf, p2);
        (r.Success? <==> q1.Success? && q2.Success?) &&
        (r.Success? ==> r.value == ComparePlayers(p1, p2, q1.value, q2.value))
    {
      var q1 := GetSortingPriority(p1, rules, groupOf);
      if q1.Failure? {
        return Failure(q1.error);
      }
      var q2 := GetSortingPriority(p2, rules, groupOf);
      if q2.Failure? {
        return Failure(q2.error);
      }
      r := Success(ComparePlayers(p1, p2, q1.value, q2.value));
    }

    /** `getSortedPlayers`: the online players sorted by `compare`. A sort of
      two or more players compares every one of them, so it throws if any
      priority does; a single player is never compared. */
    method GetSortedPlayers(online: seq<Player>, rules: seq<SortingRule>, groupOf: string -> Option<string>) returns (r: Result<seq<Player>, JavaException>)
      ensures r.Failure? <==> |online| >= 2 && exists i :: 0 <= i < |online| && Priority(customPriorities, rules, groupOf, online[i]).Failure?
      ensures r.Success? ==> multiset(r.value) == multiset(online)
      ensures r.Success? ==> SortedBy(r.value, SortsBefore(ResolvedPriority(customPriorities, rules, groupOf)))
      ensures r.Success? ==>
        var pr := ResolvedPriority(customPriorities, rules, groupOf);
        forall i, j :: 0 <= i < j < |r.value| ==>
          pr(r.value[i]) >= pr(r.value[j]) &&
          (pr(r.value[i]) == pr(r.value[j]) ==> CompareIgnoreCase(r.value[i].name, r.value[j].name) <= 0)
    {
      var custom := customPriorities;
      if |online| >= 2 && exists i :: 0 <= i < |online| && Priority(custom, rules, groupOf, online[i]).Failure? {
        return Failure(NullPointer);
      }
      var pr := ResolvedPriority(custom, rules, groupOf);
      SortsBeforeIsPreorder(pr);
      SortBySorted(online, SortsBefore(pr));
      r := Success(SortBy(online, SortsBefore(pr)));
    }

    /** `reload` and `shutdown`: every custom priority is dropped. */
    method Reload()
      modifies this`customPriorities
      ensures customPriorities == map[]
    {
      customPriorities := map[];
    }
  }
}
