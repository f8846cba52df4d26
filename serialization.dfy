/** Conversion of records to trees under the per-class exclusion rules.

    Each class lists rules `-rel.key`: when one of its records is serialised, the
    records reached through relationship `rel` leave out their own `key`. A nested
    record still applies its own class's rules to what it nests, so each rule acts
    on the one edge it names, and the recursion stops where a relationship is
    left out. The termination measure of the functions below is that argument. */
module Serialization {
  import opened Wrappers
  import opened Models
  import opened Json

  datatype Kind = HeroKind | PowerKind | HeroPowerKind

  /** The `serialize_rules` tuples, as the keys that the target of `rel` omits. */
  function RuleExclusions(owner: Kind, rel: string): (keys: set<string>)
  {
    match owner
    case HeroKind => if rel == "hero_powers" then {"hero"} else {}
    case PowerKind => if rel == "hero_powers" then {"power"} else {}
    case HeroPowerKind => if rel == "hero" || rel == "power" then {"hero_powers"} else {}
  }

  function OptionalId(id: Option<int>): Value
  {
    match id
    case Some(k) => JInt(k)
    case None => JNull
  }

  /** The column names of a hero and of a power: the fields the listing handlers
      keep with `only=`. */
  const HeroSummaryKeys := {"id", "name", "super_name"}
  const PowerSummaryKeys := {"id", "name", "description"}

  /** The column values of each record kind. */
  function HeroColumns(h: Hero): map<string, Value>
  {
    map["id" := JInt(h.id), "name" := JStr(h.name), "super_name" := JStr(h.superName)]
  }

  function PowerColumns(p: Power): map<string, Value>
  {
    map["id" := JInt(p.id), "name" := JStr(p.name), "description" := JStr(p.description)]
  }

  function HeroPowerColumns(hp: HeroPower): map<string, Value>
  {
    map["id" := JInt(hp.id), "strength" := JStr(hp.strength),
        "hero_id" := OptionalId(hp.heroId), "power_id" := OptionalId(hp.powerId)]
  }

  /** A hero with every key of `excluded` left out. */
  function HeroTree(t: Tables, h: Hero, excluded: set<string>): Value
    decreases if "hero_powers" in excluded then 0 else 2, 0
  {
    var related :=
      if "hero_powers" in excluded then map[]
      else
        var ids := SortedIds(HeroPowerIdsOfHero(t, h.id));
        map["hero_powers" := JList(HeroPowerTrees(t, ids, RuleExclusions(HeroKind, "hero_powers")))];
    JObj((HeroColumns(h) + related) - excluded)
  }

  /** A power with every key of `excluded` left out. */
  function PowerTree(t: Tables, p: Power, excluded: set<string>): Value
    decreases if "hero_powers" in excluded then 0 else 2, 0
  {
    var related :=
      if "hero_powers" in excluded then map[]
      else
        var ids := SortedIds(HeroPowerIdsOfPower(t, p.id));
        map["hero_powers" := JList(HeroPowerTrees(t, ids, RuleExclusions(PowerKind, "hero_powers")))];
    JObj((PowerColumns(p) + related) - excluded)
  }

  /** A join record with every key of `excluded` left out. */
  function HeroPowerTree(t: Tables, hp: HeroPower, excluded: set<string>): Value
    decreases 1, 1
  {
    JObj((HeroPowerColumns(hp) + HeroEdge(t, hp, excluded) + PowerEdge(t, hp, excluded)) - excluded)
  }

  /** The `hero` entry of a join record, under the join record's own rule for that
      edge; a `hero_id` that is absent or names no stored hero gives null. */
  function HeroEdge(t: Tables, hp: HeroPower, excluded: set<string>): map<string, Value>
    decreases 1, 0
  {
    if "hero" in excluded then map[]
    else if hp.heroId.Some? && hp.heroId.value in t.heroes then
      map["hero" := HeroTree(t, t.heroes[hp.heroId.value], RuleExclusions(HeroPowerKind, "hero"))]
    else map["hero" := JNull]
  }

  /** The `power` entry of a join record, likewise. */
  function PowerEdge(t: Tables, hp: HeroPower, excluded: set<string>): map<string, Value>
    decreases 1, 0
  {
    if "power" in excluded then map[]
    else if hp.powerId.Some? && hp.powerId.value in t.powers then
      map["power" := PowerTree(t, t.powers[hp.powerId.value], RuleExclusions(HeroPowerKind, "power"))]
    else map["power" := JNull]
  }

  /** The join records with the given ids, in that order. */
  function HeroPowerTrees(t: Tables, ids: seq<int>, excluded: set<string>): (r: seq<Value>)
    requires forall i | 0 <= i < |ids| :: ids[i] in t.heroPowers
    ensures |r| == |ids|
    decreases 1, |ids| + 1
  {
    if ids == [] then []
    else [HeroPowerTree(t, t.heroPowers[ids[0]], excluded)] + HeroPowerTrees(t, ids[1..], excluded)
  }

  /** `to_dict()` of each kind: the record's own rules, nothing inherited. */
  function SerializeHero(t: Tables, h: Hero): Value
  {
    HeroTree(t, h, {})
  }

  function SerializePower(t: Tables, p: Power): Value
  {
    PowerTree(t, p, {})
  }

  function SerializeHeroPower(t: Tables, hp: HeroPower): Value
  {
    HeroPowerTree(t, hp, {})
  }

  lemma {:induction false} HeroPowerTreesAt(t: Tables, ids: seq<int>, excluded: set<string>, i: int)
    requires forall j | 0 <= j < |ids| :: ids[j] in t.heroPowers
    requires 0 <= i < |ids|
    ensures HeroPowerTrees(t, ids, excluded)[i] == HeroPowerTree(t, t.heroPowers[ids[i]], excluded)
    decreases |ids|
  {
    if i > 0 {
      HeroPowerTreesAt(t, ids[1..], excluded, i - 1);
    }
  }

  /** The value under `hero` in a serialised join record: the referenced hero's
      columns, with no `hero_powers`, or null. */
  function NestedHero(t: Tables, hp: HeroPower): Value
  {
    if hp.heroId.Some? && hp.heroId.value in t.heroes then JObj(HeroColumns(t.heroes[hp.heroId.value])) else JNull
  }

  /** The value under `power` in a serialised join record, likewise. */
  function NestedPower(t: Tables, hp: HeroPower): Value
  {
    if hp.powerId.Some? && hp.powerId.value in t.powers then JObj(PowerColumns(t.powers[hp.powerId.value])) else JNull
  }

  /** Map facts behind the shape lemmas below, for any keys. */
  lemma AddTwo(fields: map<string, Value>, k1: string, v1: Value, k2: string, v2: Value)
    ensures (fields + map[k1 := v1] + map[k2 := v2]) - {} == fields[k1 := v1][k2 := v2]
  {
  }

  lemma AddSecondDropFirst(fields: map<string, Value>, k1: string, k2: string, v2: Value)
    requires k1 !in fields && k1 != k2
    ensures (fields + map[] + map[k2 := v2]) - {k1} == fields[k2 := v2]
  {
  }

  lemma AddFirstDropSecond(fields: map<string, Value>, k1: string, v1: Value, k2: string)
    requires k2 !in fields && k1 != k2
    ensures (fields + map[k1 := v1] + map[]) - {k2} == fields[k1 := v1]
  {
  }

  lemma DropAbsent(fields: map<string, Value>, k: string)
    requires k !in fields
    ensures (fields + map[]) - {k} == fields
  {
  }

  lemma WithEntry(fields: map<string, Value>, key: string, v: Value)
    ensures (fields + map[key := v]) - {} == fields[key := v]
  {
  }

  /** The join record's rule `-hero.hero_powers` stops the recursion at the hero. */
  lemma HeroEdgeIsNestedHero(t: Tables, hp: HeroPower, excluded: set<string>)
    ensures HeroEdge(t, hp, excluded) == if "hero" in excluded then map[] else map["hero" := NestedHero(t, hp)]
  {
    if "hero" !in excluded && hp.heroId.Some? && hp.heroId.value in t.heroes {
      var h := t.heroes[hp.heroId.value];
      assert HeroTree(t, h, {"hero_powers"}) == JObj((HeroColumns(h) + map[]) - {"hero_powers"});
      DropAbsent(HeroColumns(h), "hero_powers");
    }
  }

  /** The join record's rule `-power.hero_powers` stops the recursion at the power. */
  lemma PowerEdgeIsNestedPower(t: Tables, hp: HeroPower, excluded: set<string>)
    ensures PowerEdge(t, hp, excluded) == if "power" in excluded then map[] else map["power" := NestedPower(t, hp)]
  {
    if "power" !in excluded && hp.powerId.Some? && hp.powerId.value in t.powers {
      var p := t.powers[hp.powerId.value];
      assert PowerTree(t, p, {"hero_powers"}) == JObj((PowerColumns(p) + map[]) - {"hero_powers"});
      DropAbsent(PowerColumns(p), "hero_powers");
    }
  }

  /** A serialised join record is its four columns plus its nested hero and power,
      neither of which has a `hero_powers` key. */
  lemma SerializeHeroPowerShape(t: Tables, hp: HeroPower)
    ensures SerializeHeroPower(t, hp)
         == JObj(HeroPowerColumns(hp)["hero" := NestedHero(t, hp)]["power" := NestedPower(t, hp)])
  {
    assert SerializeHeroPower(t, hp) == JObj((HeroPowerColumns(hp) + HeroEdge(t, hp, {}) + PowerEdge(t, hp, {})) - {});
    HeroEdgeIsNestedHero(t, hp, {});
    PowerEdgeIsNestedPower(t, hp, {});
    AddTwo(HeroPowerColumns(hp), "hero", NestedHero(t, hp), "power", NestedPower(t, hp));
  }

  /** A join record as listed under its hero: no `hero` back-reference, and its
      power without `hero_powers`. */
  function EntryUnderHero(t: Tables, hp: HeroPower): Value
  {
    JObj(HeroPowerColumns(hp)["power" := NestedPower(t, hp)])
  }

  /** A join record as listed under its power: no `power` back-reference, and its
      hero without `hero_powers`. */
  function EntryUnderPower(t: Tables, hp: HeroPower): Value
  {
    JObj(HeroPowerColumns(hp)["hero" := NestedHero(t, hp)])
  }

  /** The hero's rule `-hero_powers.hero` and the join record's `-power.hero_powers`
      together give the entry listed under a hero. */
  lemma HeroPowerUnderHeroShape(t: Tables, hp: HeroPower)
    ensures HeroPowerTree(t, hp, RuleExclusions(HeroKind, "hero_powers")) == EntryUnderHero(t, hp)
  {
    assert RuleExclusions(HeroKind, "hero_powers") == {"hero"};
    assert HeroPowerTree(t, hp, {"hero"}) == JObj((HeroPowerColumns(hp) + HeroEdge(t, hp, {"hero"}) + PowerEdge(t, hp, {"hero"})) - {"hero"});
    HeroEdgeIsNestedHero(t, hp, {"hero"});
    PowerEdgeIsNestedPower(t, hp, {"hero"});
    AddSecondDropFirst(HeroPowerColumns(hp), "hero", "power", NestedPower(t, hp));
  }

  /** The power's rule `-hero_powers.power` and the join record's `-hero.hero_powers`
      together give the entry listed under a power. */
  lemma HeroPowerUnderPowerShape(t: Tables, hp: HeroPower)
    ensures HeroPowerTree(t, hp, RuleExclusions(PowerKind, "hero_powers")) == EntryUnderPower(t, hp)
  {
    assert RuleExclusions(PowerKind, "hero_powers") == {"power"};
    assert HeroPowerTree(t, hp, {"power"}) == JObj((HeroPowerColumns(hp) + HeroEdge(t, hp, {"power"}) + PowerEdge(t, hp, {"power"})) - {"power"});
    HeroEdgeIsNestedHero(t, hp, {"power"});
    PowerEdgeIsNestedPower(t, hp, {"power"});
    AddFirstDropSecond(HeroPowerColumns(hp), "hero", NestedHero(t, hp), "power");
  }

  /** A hero serialised at the top: the rule `-hero_powers.hero` governs its entries. */
  lemma SerializeHeroUnfold(t: Tables, h: Hero)
    ensures SerializeHero(t, h)
         == JObj(HeroColumns(h)["hero_powers" := JList(HeroPowerTrees(t, SortedIds(HeroPowerIdsOfHero(t, h.id)), RuleExclusions(HeroKind, "hero_powers")))])
  {
    var entries := HeroPowerTrees(t, SortedIds(HeroPowerIdsOfHero(t, h.id)), RuleExclusions(HeroKind, "hero_powers"));
    assert SerializeHero(t, h) == JObj((HeroColumns(h) + map["hero_powers" := JList(entries)]) - {});
    WithEntry(HeroColumns(h), "hero_powers", JList(entries));
  }

  /** A power serialised at the top: the rule `-hero_powers.power` governs its entries. */
  lemma SerializePowerUnfold(t: Tables, p: Power)
    ensures SerializePower(t, p)
         == JObj(PowerColumns(p)["hero_powers" := JList(HeroPowerTrees(t, SortedIds(HeroPowerIdsOfPower(t, p.id)), RuleExclusions(PowerKind, "hero_powers")))])
  {
    var entries := HeroPowerTrees(t, SortedIds(HeroPowerIdsOfPower(t, p.id)), RuleExclusions(PowerKind, "hero_powers"));
    assert SerializePower(t, p) == JObj((PowerColumns(p) + map["hero_powers" := JList(entries)]) - {});
    WithEntry(PowerColumns(p), "hero_powers", JList(entries));
  }

  /** An entry under a hero keeps the join record's `hero_id` and has no `hero`
      key, and the power inside it has no `hero_powers` key. */
  lemma EntryUnderHeroFacts(t: Tables, hp: HeroPower)
    ensures EntryUnderHero(t, hp).fields.Keys == {"id", "strength", "hero_id", "power_id", "power"}
    ensures EntryUnderHero(t, hp).fields["hero_id"] == OptionalId(hp.heroId)
    ensures "hero" !in EntryUnderHero(t, hp).fields
    ensures EntryUnderHero(t, hp).fields["power"] == NestedPower(t, hp)
    ensures NestedPower(t, hp).JObj? ==> "hero_powers" !in NestedPower(t, hp).fields
  {
  }

  /** An entry under a power keeps the join record's `power_id` and has no `power`
      key, and the hero inside it has no `hero_powers` key. */
  lemma EntryUnderPowerFacts(t: Tables, hp: HeroPower)
    ensures EntryUnderPower(t, hp).fields.Keys == {"id", "strength", "hero_id", "power_id", "hero"}
    ensures EntryUnderPower(t, hp).fields["power_id"] == OptionalId(hp.powerId)
    ensures "power" !in EntryUnderPower(t, hp).fields
    ensures EntryUnderPower(t, hp).fields["hero"] == NestedHero(t, hp)
    ensures NestedHero(t, hp).JObj? ==> "hero_powers" !in NestedHero(t, hp).fields
  {
  }

  /** The `hero_powers` list of a serialised hero, written out: the join records
      naming the hero, in id order, each as listed under a hero. */
  function HeroEntries(t: Tables, h: Hero): seq<Value>
  {
    var ids := SortedIds(HeroPowerIdsOfHero(t, h.id));
    seq(|ids|, i requires 0 <= i < |ids| => EntryUnderHero(t, t.heroPowers[ids[i]]))
  }

  /** The `hero_powers` list of a serialised power, likewise. */
  function PowerEntries(t: Tables, p: Power): seq<Value>
  {
    var ids := SortedIds(HeroPowerIdsOfPower(t, p.id));
    seq(|ids|, i requires 0 <= i < |ids| => EntryUnderPower(t, t.heroPowers[ids[i]]))
  }

  /** A serialised hero is its columns plus `hero_powers` holding `HeroEntries`. */
  lemma SerializeHeroShape(t: Tables, h: Hero)
    ensures SerializeHero(t, h) == JObj(HeroColumns(h)["hero_powers" := JList(HeroEntries(t, h))])
  {
    var ids := SortedIds(HeroPowerIdsOfHero(t, h.id));
    var entries := HeroPowerTrees(t, ids, RuleExclusions(HeroKind, "hero_powers"));
    SerializeHeroUnfold(t, h);
    forall i | 0 <= i < |ids|
      ensures entries[i] == HeroEntries(t, h)[i]
    {
      HeroPowerTreesAt(t, ids, RuleExclusions(HeroKind, "hero_powers"), i);
      HeroPowerUnderHeroShape(t, t.heroPowers[ids[i]]);
    }
    assert entries == HeroEntries(t, h);
  }

  /** A serialised power is its columns plus `hero_powers` holding `PowerEntries`. */
  lemma SerializePowerShape(t: Tables, p: Power)
    ensures SerializePower(t, p) == JObj(PowerColumns(p)["hero_powers" := JList(PowerEntries(t, p))])
  {
    var ids := SortedIds(HeroPowerIdsOfPower(t, p.id));
    var entries := HeroPowerTrees(t, ids, RuleExclusions(PowerKind, "hero_powers"));
    SerializePowerUnfold(t, p);
    forall i | 0 <= i < |ids|
      ensures entries[i] == PowerEntries(t, p)[i]
    {
      HeroPowerTreesAt(t, ids, RuleExclusions(PowerKind, "hero_powers"), i);
      HeroPowerUnderPowerShape(t, t.heroPowers[ids[i]]);
    }
    assert entries == PowerEntries(t, p);
  }

  /** A hero's `hero_powers` has one entry per join record naming the hero, in id
      order; each carries the hero's id as `hero_id`, has no `hero` key, and the
      power inside it has no `hero_powers` key, so the tree ends two levels down. */
  lemma HeroEntriesShape(t: Tables, h: Hero)
    ensures |HeroEntries(t, h)| == |HeroPowerIdsOfHero(t, h.id)|
    ensures forall e | e in HeroEntries(t, h) ::
      && e.JObj?
      && "hero_id" in e.fields && e.fields["hero_id"] == JInt(h.id)
      && "hero" !in e.fields
      && "power" in e.fields
      && (e.fields["power"].JObj? ==> "hero_powers" !in e.fields["power"].fields)
  {
    var ids := SortedIds(HeroPowerIdsOfHero(t, h.id));
    var entries := HeroEntries(t, h);
    forall e | e in entries
      ensures && e.JObj?
              && "hero_id" in e.fields && e.fields["hero_id"] == JInt(h.id)
              && "hero" !in e.fields
              && "power" in e.fields
              && (e.fields["power"].JObj? ==> "hero_powers" !in e.fields["power"].fields)
    {
      var i :| 0 <= i < |entries| && entries[i] == e;
      assert ids[i] in HeroPowerIdsOfHero(t, h.id);
      EntryUnderHeroFacts(t, t.heroPowers[ids[i]]);
    }
  }

  /** A power's `hero_powers` has one entry per join record naming the power, in id
      order; each carries the power's id as `power_id`, has no `power` key, and the
      hero inside it has no `hero_powers` key. */
  lemma PowerEntriesShape(t: Tables, p: Power)
    ensures |PowerEntries(t, p)| == |HeroPowerIdsOfPower(t, p.id)|
    ensures forall e | e in PowerEntries(t, p) ::
      && e.JObj?
      && "power_id" in e.fields && e.fields["power_id"] == JInt(p.id)
      && "power" !in e.fields
      && "hero" in e.fields
      && (e.fields["hero"].JObj? ==> "hero_powers" !in e.fields["hero"].fields)
  {
    var ids := SortedIds(HeroPowerIdsOfPower(t, p.id));
    var entries := PowerEntries(t, p);
    forall e | e in entries
      ensures && e.JObj?
              && "power_id" in e.fields && e.fields["power_id"] == JInt(p.id)
              && "power" !in e.fields
              && "hero" in e.fields
              && (e.fields["hero"].JObj? ==> "hero_powers" !in e.fields["hero"].fields)
    {
      var i :| 0 <= i < |entries| && entries[i] == e;
      assert ids[i] in HeroPowerIdsOfPower(t, p.id);
      EntryUnderPowerFacts(t, t.heroPowers[ids[i]]);
    }
  }


  /** Keeping just an object's columns drops the relationship entry added to them. */
  lemma OnlyColumns(fields: map<string, Value>, key: string, v: Value, keys: set<string>)
    requires fields.Keys == keys && key !in keys
    ensures Only(JObj(fields[key := v]), keys) == JObj(fields)
  {
    assert Only(JObj(fields[key := v]), keys).fields == fields;
  }

  /** `to_dict(only=(id, name, super_name))` of a hero is exactly its columns. */
  lemma HeroSummary(t: Tables, h: Hero)
    ensures Only(SerializeHero(t, h), HeroSummaryKeys) == JObj(HeroColumns(h))
  {
    SerializeHeroShape(t, h);
    OnlyColumns(HeroColumns(h), "hero_powers", JList(HeroEntries(t, h)), HeroSummaryKeys);
  }

  /** `to_dict(only=(id, name, description))` of a power is exactly its columns. */
  lemma PowerSummary(t: Tables, p: Power)
    ensures Only(SerializePower(t, p), PowerSummaryKeys) == JObj(PowerColumns(p))
  {
    SerializePowerShape(t, p);
    OnlyColumns(PowerColumns(p), "hero_powers", JList(PowerEntries(t, p)), PowerSummaryKeys);
  }
}
