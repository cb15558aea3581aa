/** Rule sets and what they denote: a map with one binding for each rule that has one.
    Generic in how a rule is read, so that it serves addresses and client groups alike. */
module RuleMaps {
  import opened Results
  import opened Rules

  datatype Binding<+V> = Binding(key: string, value: V)

  type Reading<!V> = Rule -> Option<Binding<V>>

  predicate Names<V>(read: Reading<V>, rule: Rule, key: string)
  {
    read(rule).Some? && read(rule).value.key == key
  }

  function Keys<V>(read: Reading<V>, rules: seq<Rule>): set<string>
  {
    set r | r in rules && read(r).Some? :: read(r).value.key
  }

  /** The map after the rules have been applied in order: the last one naming a key wins. */
  function Overlay<V>(m: map<string, V>, rules: seq<Rule>, read: Reading<V>): map<string, V>
  {
    if rules == [] then m
    else
      var m' := Overlay(m, rules[..|rules| - 1], read);
      match read(rules[|rules| - 1])
      case None => m'
      case Some(b) => m'[b.key := b.value]
  }

  function Withdrawn<V>(m: map<string, V>, rules: seq<Rule>, read: Reading<V>): map<string, V>
  {
    m - Keys(read, rules)
  }

  /** Withdrawing one rule more. */
  lemma WithdrawnLast<V>(m: map<string, V>, rules: seq<Rule>, read: Reading<V>)
    requires rules != []
    ensures var before, b := Withdrawn(m, rules[..|rules| - 1], read), read(rules[|rules| - 1]);
      Withdrawn(m, rules, read) == if b.None? then before else before - {b.value.key}
  {
    var front, last := rules[..|rules| - 1], rules[|rules| - 1];
    assert forall r :: r in rules <==> r in front || r == last;
    assert Keys(read, rules) == Keys(read, front) + (if read(last).None? then {} else {read(last).value.key});
  }

  lemma {:induction false} OverlayNames<V>(m: map<string, V>, rules: seq<Rule>, read: Reading<V>)
    ensures forall a :: a in Overlay(m, rules, read) <==> a in m || exists r | r in rules :: Names(read, r, a)
  {
    if rules == [] {
    } else {
      var front, last := rules[..|rules| - 1], rules[|rules| - 1];
      OverlayNames(m, front, read);
      forall a
        ensures a in Overlay(m, rules, read) <==> a in m || exists r | r in rules :: Names(read, r, a)
      {
        assert Names(read, last, a) ==> last in rules;
        assert forall r | r in front :: r in rules;
        assert forall r | r in rules :: r in front || r == last;
      }
    }
  }

  /** Each overlaid key has the value some rule gives it, or its old one if no rule names it. */
  lemma {:induction false} OverlayValue<V>(m: map<string, V>, rules: seq<Rule>, a: string, read: Reading<V>)
    requires a in Overlay(m, rules, read)
    ensures (a in m && Overlay(m, rules, read)[a] == m[a] && forall r | r in rules :: !Names(read, r, a))
         || exists r | r in rules :: read(r) == Some(Binding(a, Overlay(m, rules, read)[a]))
  {
    if rules == [] {
    } else {
      var front, last := rules[..|rules| - 1], rules[|rules| - 1];
      assert forall r :: r in rules <==> r in front || r == last;
      if !Names(read, last, a) {
        OverlayValue(m, front, a, read);
      } else {
        assert read(last) == Some(Binding(a, Overlay(m, rules, read)[a]));
      }
    }
  }

  // ---- rule sets ----

  /** The rules of a share, by access_id. */
  type RuleSet = map<string, Rule>

  /** One incremental call. */
  datatype Delta = Delta(add: seq<Rule>, update: seq<Rule>, delete: seq<Rule>)

  function Upserted(rs: RuleSet, rules: seq<Rule>): RuleSet
  {
    if rules == [] then rs
    else Upserted(rs, rules[..|rules| - 1])[rules[|rules| - 1].id := rules[|rules| - 1]]
  }

  function Ids(rules: seq<Rule>): set<string>
  {
    set r | r in rules :: r.id
  }

  function After(rs: RuleSet, d: Delta): RuleSet
  {
    Upserted(rs, d.add + d.update) - Ids(d.delete)
  }

  function Stepped<V>(m: map<string, V>, d: Delta, read: Reading<V>): map<string, V>
  {
    Withdrawn(Overlay(m, d.add + d.update, read), d.delete, read)
  }

  /** Rules are filed under their own ids. */
  ghost predicate Filed(rs: RuleSet)
  {
    forall i | i in rs :: rs[i].id == i
  }

  /** No two rules of the set name the same key. */
  ghost predicate Distinct<V>(rs: RuleSet, read: Reading<V>)
  {
    forall i, j | i in rs && j in rs && i != j ::
      read(rs[i]).Some? && read(rs[j]).Some? ==> read(rs[i]).value.key != read(rs[j]).value.key
  }

  /** A call Manila makes: new ids added, existing rules updated in place or deleted, and
      no key named twice among the rules before and after it. */
  ghost predicate Legal<V>(rs: RuleSet, d: Delta, read: Reading<V>)
  {
    && (forall r | r in d.add :: r.id !in rs)
    && (forall r | r in d.update :: r.id in rs && rs[r.id].kind == r.kind && rs[r.id].to == r.to)
    && (forall r | r in d.delete :: r.id in rs && rs[r.id] == r && r.id !in Ids(d.add + d.update))
    && (forall r, s | r in d.add + d.update && s in d.add + d.update && r.id == s.id :: r == s)
    && Distinct(Upserted(rs, d.add + d.update), read)
  }

  /** An update changes only the level, which never changes the key a rule names. */
  ghost predicate KeyIgnoresLevel<V>(read: Reading<V>)
  {
    forall r: Rule, s: Rule, a | r.id == s.id && r.kind == s.kind && r.to == s.to :: Names(read, r, a) <==> Names(read, s, a)
  }

  /** The map binds what the rules bind. */
  ghost predicate Denotes<V>(rs: RuleSet, m: map<string, V>, read: Reading<V>)
  {
    && (forall i | i in rs && read(rs[i]).Some? ::
          var b := read(rs[i]).value; b.key in m && m[b.key] == b.value)
    && (forall a | a in m :: exists i | i in rs :: read(rs[i]) == Some(Binding(a, m[a])))
  }

  lemma {:induction false} UpsertedSpec(rs: RuleSet, rules: seq<Rule>)
    requires forall r, s | r in rules && s in rules && r.id == s.id :: r == s
    ensures var u := Upserted(rs, rules);
      && u.Keys == rs.Keys + Ids(rules)
      && (forall r | r in rules :: u[r.id] == r)
      && (forall i | i in rs && i !in Ids(rules) :: u[i] == rs[i])
  {
    if rules == [] {
    } else {
      var front, last := rules[..|rules| - 1], rules[|rules| - 1];
      assert forall r :: r in rules <==> r in front || r == last;
      UpsertedSpec(rs, front);
    }
  }

  /** A legal call does to the denoted map what it does to the rules. */
  lemma StepKeepsDenotes<V>(rs: RuleSet, m: map<string, V>, d: Delta, read: Reading<V>)
    requires Filed(rs) && KeyIgnoresLevel(read) && Legal(rs, d, read) && Denotes(rs, m, read)
    ensures Denotes(After(rs, d), Stepped(m, d, read), read)
  {
    var rs', m' := After(rs, d), Stepped(m, d, read);
    forall i | i in rs' && read(rs'[i]).Some?
      ensures var b := read(rs'[i]).value; b.key in m' && m'[b.key] == b.value
    {
      RuleStaysDenoted(rs, m, d, i, read);
    }
    forall a | a in m'
      ensures exists i | i in rs' :: read(rs'[i]) == Some(Binding(a, m'[a]))
    {
      KeyStaysBacked(rs, m, d, a, read);
    }
  }

  lemma KeyStaysBacked<V>(rs: RuleSet, m: map<string, V>, d: Delta, a: string, read: Reading<V>)
    requires Filed(rs) && KeyIgnoresLevel(read) && Legal(rs, d, read) && Denotes(rs, m, read) && a in Stepped(m, d, read)
    ensures exists i | i in After(rs, d) :: read(After(rs, d)[i]) == Some(Binding(a, Stepped(m, d, read)[a]))
  {
    hide Distinct;
    var au := d.add + d.update;
    var o := Overlay(m, au, read);
    OverlayValue(m, au, a, read);
    UpsertedSpec(rs, au);
    if r :| r in au && read(r) == Some(Binding(a, o[a])) {
      assert r.id in Ids(au);
      assert After(rs, d)[r.id] == r;
    } else {
      var i :| i in rs && read(rs[i]) == Some(Binding(a, m[a]));
      UnnamedStays(rs, d, i, a, read);
    }
  }

  /** A rule whose key no added or updated rule names and no deleted rule withdraws stays. */
  lemma UnnamedStays<V>(rs: RuleSet, d: Delta, i: string, a: string, read: Reading<V>)
    requires Filed(rs) && KeyIgnoresLevel(read) && Legal(rs, d, read) && i in rs && Names(read, rs[i], a)
    requires forall r | r in d.add + d.update :: !Names(read, r, a)
    requires forall r | r in d.delete :: !Names(read, r, a)
    ensures i in After(rs, d) && After(rs, d)[i] == rs[i]
  {
    hide Distinct;
    var au := d.add + d.update;
    UpsertedSpec(rs, au);
    assert i !in Ids(au) by {
      forall r | r in au
        ensures r.id != i
      {
        if r in d.update {
          assert rs[r.id].id == r.id;
          assert Names(read, r, a) <==> Names(read, rs[r.id], a);
        }
      }
    }
    assert i !in Ids(d.delete) by {
      forall r | r in d.delete
        ensures r.id != i
      {
      }
    }
  }

  lemma WithdrawnSpares<V>(rs: RuleSet, d: Delta, i: string, read: Reading<V>)
    requires Legal(rs, d, read) && i in After(rs, d) && read(After(rs, d)[i]).Some?
    ensures forall r | r in d.delete && read(r).Some? :: read(r).value.key != read(After(rs, d)[i]).value.key
  {
    var u := Upserted(rs, d.add + d.update);
    UpsertedSpec(rs, d.add + d.update);
    hide Upserted;
    forall r | r in d.delete && read(r).Some?
      ensures read(r).value.key != read(u[i]).value.key
    {
      assert u[r.id] == r && r.id != i;
    }
  }

  lemma RuleStaysDenoted<V>(rs: RuleSet, m: map<string, V>, d: Delta, i: string, read: Reading<V>)
    requires Legal(rs, d, read) && Denotes(rs, m, read)
    requires i in After(rs, d) && read(After(rs, d)[i]).Some?
    ensures var b := read(After(rs, d)[i]).value;
            b.key in Stepped(m, d, read) && Stepped(m, d, read)[b.key] == b.value
  {
    hide Upserted, Overlay;
    var au := d.add + d.update;
    var u, o := Upserted(rs, au), Overlay(m, au, read);
    UpsertedSpec(rs, au);
    OverlayNames(m, au, read);
    var b := read(u[i]).value;
    WithdrawnSpares(rs, d, i, read);
    hide Distinct, Legal;
    if i in Ids(au) {
      assert Names(read, u[i], b.key);
    }
    OverlayValue(m, au, b.key, read);
    if r :| r in au && read(r) == Some(Binding(b.key, o[b.key])) {
      assert u[r.id] == r;
    }
  }

  /** A rule set without shared keys denotes one map. */
  lemma DenotesUnique<V>(rs: RuleSet, m: map<string, V>, n: map<string, V>, read: Reading<V>)
    requires Denotes(rs, m, read) && Denotes(rs, n, read)
    ensures m == n
  {
    forall a | a in m
      ensures a in n && n[a] == m[a]
    {
      var i :| i in rs && read(rs[i]) == Some(Binding(a, m[a]));
    }
    forall a | a in n
      ensures a in m
    {
      var i :| i in rs && read(rs[i]) == Some(Binding(a, n[a]));
    }
  }

  /** A listing of a rule set: every rule, no other. */
  ghost predicate Lists(rules: seq<Rule>, rs: RuleSet)
  {
    && (forall r | r in rules :: r.id in rs && rs[r.id] == r)
    && (forall i | i in rs :: rs[i] in rules && rs[i].id == i)
  }

  /** Listed in any order, the rules overlay to the map they denote. */
  lemma ListingDenotes<V>(rules: seq<Rule>, rs: RuleSet, read: Reading<V>)
    requires Lists(rules, rs) && Distinct(rs, read)
    ensures Denotes(rs, Overlay(map[], rules, read), read)
  {
    var m := Overlay(map[], rules, read);
    OverlayNames(map[], rules, read);
    forall i | i in rs && read(rs[i]).Some?
      ensures var b := read(rs[i]).value; b.key in m && m[b.key] == b.value
    {
      var b := read(rs[i]).value;
      assert Names(read, rs[i], b.key);
      OverlayValue(map[], rules, b.key, read);
      var r :| r in rules && read(r) == Some(Binding(b.key, m[b.key]));
      assert rs[r.id] == r;
    }
    forall a | a in m
      ensures exists i | i in rs :: read(rs[i]) == Some(Binding(a, m[a]))
    {
      OverlayValue(map[], rules, a, read);
      var r :| r in rules && read(r) == Some(Binding(a, m[a]));
      assert rs[r.id] == r;
    }
  }

  // ---- runs of calls ----

  /** The calls of a history in which others act too. */
  function Calls(events: seq<Option<Delta>>): seq<Delta>
  {
    if events == [] then []
    else (if events[0].Some? then [events[0].value] else []) + Calls(events[1..])
  }

  function FinalRules(rs: RuleSet, deltas: seq<Delta>): RuleSet
    decreases |deltas|
  {
    if deltas == [] then rs else FinalRules(After(rs, deltas[0]), deltas[1..])
  }

  ghost predicate LegalRun<V>(rs: RuleSet, deltas: seq<Delta>, read: Reading<V>)
    decreases |deltas|
  {
    deltas != [] ==> Legal(rs, deltas[0], read) && LegalRun(After(rs, deltas[0]), deltas[1..], read)
  }

  lemma StepKeepsShape<V>(rs: RuleSet, d: Delta, read: Reading<V>)
    requires Filed(rs) && Legal(rs, d, read)
    ensures Filed(After(rs, d)) && Distinct(After(rs, d), read)
  {
    UpsertedSpec(rs, d.add + d.update);
    var u := Upserted(rs, d.add + d.update);
    forall i | i in u
      ensures u[i].id == i
    {
      if i in Ids(d.add + d.update) {
        var r :| r in d.add + d.update && r.id == i;
        assert u[r.id] == r;
      }
    }
  }
}
