/** Manila access rules and the resource names the driver derives from ids. */
module Rules {
  import opened Text

  /** One access rule: access_id, access_type, access_to, access_level. */
  datatype Rule = Rule(id: string, kind: string, to: string, level: string)

  /** A share and the name of its filesystem. */
  datatype Share = Share(id: string, fsName: string)

  datatype Level = RW | RO
  {
    function Other(): Level
    {
      if RW? then RO else RW
    }

    function Text(): string
    {
      if RW? then "rw" else "ro"
    }
  }

  /** _is_ipv6; which strings are IPv6 networks is a parameter of the model. */
  type Ipv6Test = string -> bool

  /** _rule_level: everything that is not 'rw' is read-only. */
  function LevelOf(rule: Rule): Level
  {
    if rule.level == "rw" then RW else RO
  }

  /** An ip rule the driver does not skip as IPv6. */
  predicate Ipv4(rule: Rule, v6: Ipv6Test)
  {
    rule.kind == "ip" && !v6(rule.to)
  }

  /** What a call reports of a rule, by access_id. */
  datatype RuleState = Active | Errored

  type States = map<string, RuleState>

  /** An IPv6 rule, which no state is reported for. */
  predicate Skipped(rule: Rule, v6: Ipv6Test)
  {
    rule.kind == "ip" && v6(rule.to)
  }

  /** Rule k is the last of its id that is not skipped. */
  ghost predicate Reports(rules: seq<Rule>, k: int, v6: Ipv6Test)
  {
    0 <= k < |rules| && !Skipped(rules[k], v6) && forall j | k < j < |rules| && rules[j].id == rules[k].id :: Skipped(rules[j], v6)
  }

  /** A state for the ids of the rules not skipped: an error exactly if the last of them with that
      id is a wrong one. */
  ghost predicate StatesFollow(states: States, rules: seq<Rule>, wrong: Rule -> bool, v6: Ipv6Test)
  {
    && (forall id :: id in states <==> exists k :: 0 <= k < |rules| && rules[k].id == id && !Skipped(rules[k], v6))
    && (forall k | Reports(rules, k, v6) :: rules[k].id in states && (states[rules[k].id].Errored? <==> wrong(rules[k])))
  }

  lemma NoStates(wrong: Rule -> bool, v6: Ipv6Test)
    ensures StatesFollow(map[], [], wrong, v6)
  {
  }

  lemma StatesOneMore(before: States, rules: seq<Rule>, wrong: Rule -> bool, v6: Ipv6Test)
    requires rules != [] && StatesFollow(before, rules[..|rules| - 1], wrong, v6)
    ensures var rule := rules[|rules| - 1];
      StatesFollow(if Skipped(rule, v6) then before else before[rule.id := if wrong(rule) then Errored else Active], rules, wrong, v6)
  {
    hide Skipped;
    var n := |rules| - 1;
    var rule := rules[n];
    var after := if Skipped(rule, v6) then before else before[rule.id := if wrong(rule) then Errored else Active];
    forall id
      ensures id in after <==> exists k :: 0 <= k < |rules| && rules[k].id == id && !Skipped(rules[k], v6)
    {
      IdsOneMore(rules, id, v6);
    }
    hide StatesFollow;
    forall k | Reports(rules, k, v6)
      ensures rules[k].id in after && (after[rules[k].id].Errored? <==> wrong(rules[k]))
    {
      StateOneMore(before, rules, k, wrong, v6);
    }
    FollowIs(after, rules, wrong, v6);
  }

  lemma FollowIs(states: States, rules: seq<Rule>, wrong: Rule -> bool, v6: Ipv6Test)
    requires forall id :: id in states <==> exists k :: 0 <= k < |rules| && rules[k].id == id && !Skipped(rules[k], v6)
    requires forall k | Reports(rules, k, v6) :: rules[k].id in states && (states[rules[k].id].Errored? <==> wrong(rules[k]))
    ensures StatesFollow(states, rules, wrong, v6)
  {
    hide Skipped, Reports;
  }

  lemma StateOneMore(before: States, rules: seq<Rule>, k: int, wrong: Rule -> bool, v6: Ipv6Test)
    requires rules != [] && StatesFollow(before, rules[..|rules| - 1], wrong, v6) && Reports(rules, k, v6)
    ensures var rule := rules[|rules| - 1];
      var after := if Skipped(rule, v6) then before else before[rule.id := if wrong(rule) then Errored else Active];
      rules[k].id in after && (after[rules[k].id].Errored? <==> wrong(rules[k]))
  {
    hide Skipped;
    var n := |rules| - 1;
    if k < n {
      var front := rules[..n];
      assert front[k] == rules[k] && forall j | k < j < n :: front[j] == rules[j];
      assert Reports(front, k, v6);
    }
  }

  lemma IdsOneMore(rules: seq<Rule>, id: string, v6: Ipv6Test)
    requires rules != []
    ensures var n := |rules| - 1;
      (exists k :: 0 <= k < |rules| && rules[k].id == id && !Skipped(rules[k], v6)) <==>
        (rules[n].id == id && !Skipped(rules[n], v6)) || exists k :: 0 <= k < n && rules[..n][k].id == id && !Skipped(rules[..n][k], v6)
  {
    hide Skipped;
    var n := |rules| - 1;
    if k :| 0 <= k < |rules| && rules[k].id == id && !Skipped(rules[k], v6) {
      assert k == n || rules[..n][k] == rules[k];
    }
    if k :| 0 <= k < n && rules[..n][k].id == id && !Skipped(rules[..n][k], v6) {
      assert rules[k].id == id && !Skipped(rules[k], v6);
    }
  }

  // ---- names ----

  predicate Prefix8(p: string)
  {
    |p| == 8 && '-' !in p
  }

  /** _wekafs_policy_name */
  function PolicyName(shareId: string, level: Level): string
  {
    "manila-" + Take(shareId, 8) + "-" + level.Text()
  }

  /** _group_policy_name */
  function GroupPolicyName(group: string, level: Level): string
  {
    "manila-grp-" + group + "-" + level.Text()
  }

  /** _nfs_cg_name without a rule: the prefix of all group names of a share. */
  function GroupPrefix(shareId: string): string
  {
    "manila-" + Take(shareId, 8) + "-"
  }

  /** _nfs_cg_name of one rule. An empty access_id yields the bare prefix, as in the source. */
  function GroupName(shareId: string, accessId: string): string
  {
    GroupPrefix(shareId) + Take(accessId, 8)
  }

  /** Policy names are injective on share prefix and level. */
  lemma PolicyNameInjective(s: string, k: Level, t: string, l: Level)
    requires Prefix8(Take(s, 8)) && Prefix8(Take(t, 8))
    ensures PolicyName(s, k) == PolicyName(t, l) <==> Take(s, 8) == Take(t, 8) && k == l
  {
    var a, b := PolicyName(s, k), PolicyName(t, l);
    assert a[7..15] == Take(s, 8) && b[7..15] == Take(t, 8);
    assert a[17] == k.Text()[1] && b[17] == l.Text()[1];
  }

  /** A share's policy never has the name of a shared group policy. */
  lemma PolicyNameNotGroup(s: string, k: Level, group: string, l: Level)
    requires Prefix8(Take(s, 8))
    ensures PolicyName(s, k) != GroupPolicyName(group, l)
  {
    var a, b := PolicyName(s, k), GroupPolicyName(group, l);
    assert a[10] == Take(s, 8)[3];
    assert a[10] in Take(s, 8);
    assert b[10] == '-';
  }

  lemma GroupNameInjective(s: string, a: string, b: string)
    ensures GroupName(s, a) == GroupName(s, b) <==> Take(a, 8) == Take(b, 8)
  {
    var n := |GroupPrefix(s)|;
    assert GroupName(s, a)[n..] == Take(a, 8);
    assert GroupName(s, b)[n..] == Take(b, 8);
  }

  /** `access_id[:8] in cg_name` picks out the rule's own group, and every group of the
      share when the access prefix happens to be the share's. */
  lemma SubstringOfGroupName(share: string, rule: string, probe: string)
    requires Prefix8(Take(share, 8)) && Prefix8(Take(rule, 8)) && Prefix8(Take(probe, 8))
    ensures Contains(GroupName(share, rule), Take(probe, 8)) <==>
            Take(probe, 8) == Take(rule, 8) || Take(probe, 8) == Take(share, 8)
  {
    var name, p := GroupName(share, rule), Take(probe, 8);
    assert |name| == 24;
    assert name[7..15] == Take(share, 8) && name[16..24] == Take(rule, 8);
    assert name[6] == '-' && name[15] == '-';
    if Contains(name, p) {
      var i: nat :| i <= |name| && At(name, i, p);
      DashFree(name, i, p);
      assert i == 7 || i == 16;
    }
    assert p == Take(rule, 8) ==> At(name, 16, p);
    assert p == Take(share, 8) ==> At(name, 7, p);
  }

  lemma DashFree(s: string, i: nat, p: string)
    requires At(s, i, p) && '-' !in p
    ensures forall k | i <= k < i + |p| :: s[k] != '-'
  {
    forall k | i <= k < i + |p|
      ensures s[k] != '-'
    {
      assert s[k] == p[k - i];
    }
  }
}
