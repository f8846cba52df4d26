/** The store behind the request handlers, and the handlers themselves. Each
    handler is one atomic step on the store and returns a status code with the body
    it would encode as JSON. */
module Api {
  import opened Wrappers
  import opened Json
  import opened Validation
  import opened Models
  import opened Serialization

  datatype Response = Response(status: int, body: Value)

  class Store {
    var heroes: map<int, Hero>
    var powers: map<int, Power>
    var heroPowers: map<int, HeroPower>
    /** The id each table hands to its next new row. */
    var nextHeroId: int
    var nextPowerId: int
    var nextHeroPowerId: int

    function Db(): Tables
      reads this
    {
      Tables(heroes, powers, heroPowers)
    }

    /** Records sit under their own ids, ids below the next one to hand out, and
        every stored description and strength passed its validator. Nothing ties a
        join record's references to stored records. */
    ghost predicate Valid()
      reads this
    {
      && WellKeyed(Db())
      && 1 <= nextHeroId && 1 <= nextPowerId && 1 <= nextHeroPowerId
      && (forall k | k in heroes :: 1 <= k < nextHeroId)
      && (forall k | k in powers :: 1 <= k < nextPowerId)
      && (forall k | k in heroPowers :: 1 <= k < nextHeroPowerId)
      && (forall k | k in powers :: ValidateDescription(Some(powers[k].description)).Ok?)
      && (forall k | k in heroPowers :: ValidateStrength(Some(heroPowers[k].strength)).Ok?)
    }

    constructor ()
      ensures Valid()
      ensures heroes == map[] && powers == map[] && heroPowers == map[]
    {
      heroes, powers, heroPowers := map[], map[], map[];
      nextHeroId, nextPowerId, nextHeroPowerId := 1, 1, 1;
    }

    /** Inserting a hero row. */
    method AddHero(name: string, superName: string) returns (id: int)
      requires Valid()
      modifies this
      ensures Valid()
      ensures id !in old(heroes) && heroes == old(heroes)[id := Hero(id, name, superName)]
      ensures powers == old(powers) && heroPowers == old(heroPowers)
      ensures nextPowerId == old(nextPowerId) && nextHeroPowerId == old(nextHeroPowerId)
    {
      id := nextHeroId;
      heroes := heroes[id := Hero(id, name, superName)];
      nextHeroId := nextHeroId + 1;
    }

    /** Inserting a power row: the description validator runs on construction, and
        a refused description inserts nothing. */
    method AddPower(name: string, description: Option<string>) returns (r: Result<int>)
      requires Valid()
      modifies this
      ensures Valid()
      ensures heroes == old(heroes) && heroPowers == old(heroPowers)
      ensures nextHeroId == old(nextHeroId) && nextHeroPowerId == old(nextHeroPowerId)
      ensures ValidateDescription(description).Err? ==> r == Err(DescriptionMessage) && powers == old(powers)
      ensures ValidateDescription(description).Ok? ==>
        && r.Ok? && r.value !in old(powers)
        && powers == old(powers)[r.value := Power(r.value, name, description.value)]
    {
      var checked := ValidateDescription(description);
      match checked
      case Err(message) =>
        r := Err(message);
      case Ok(d) =>
        var id := nextPowerId;
        powers := powers[id := Power(id, name, d)];
        nextPowerId := nextPowerId + 1;
        r := Ok(id);
    }

    /** Deleting a hero, and by the `delete-orphan` cascade of `Hero.hero_powers`
        every join record whose `hero_id` is that hero; other join records stay. */
    method DeleteHero(id: int)
      requires Valid()
      modifies this
      ensures Valid()
      ensures heroes == old(heroes) - {id} && powers == old(powers)
      ensures id in old(heroes) ==>
        forall k :: k in heroPowers <==> k in old(heroPowers) && old(heroPowers)[k].heroId != Some(id)
      ensures id in old(heroes) ==> heroPowers.Keys == old(heroPowers).Keys - HeroPowerIdsOfHero(old(Db()), id)
      ensures id !in old(heroes) ==> heroPowers == old(heroPowers)
      ensures forall k | k in heroPowers :: heroPowers[k] == old(heroPowers)[k]
      ensures nextHeroId == old(nextHeroId) && nextPowerId == old(nextPowerId) && nextHeroPowerId == old(nextHeroPowerId)
    {
      if id in heroes {
        var children := HeroPowerIdsOfHero(Db(), id);
        while children != {}
          invariant heroes == old(heroes) && powers == old(powers)
          invariant nextHeroId == old(nextHeroId) && nextPowerId == old(nextPowerId) && nextHeroPowerId == old(nextHeroPowerId)
          invariant forall k | k in children :: k in old(heroPowers) && old(heroPowers)[k].heroId == Some(id)
          invariant forall k :: k in heroPowers <==>
            k in old(heroPowers) && (k in children || old(heroPowers)[k].heroId != Some(id))
          invariant forall k | k in heroPowers :: heroPowers[k] == old(heroPowers)[k]
          decreases children
        {
          NonEmptyHasMember(children);
          var k :| k in children;
          heroPowers := heroPowers - {k};
          children := children - {k};
        }
        heroes := heroes - {id};
      }
    }

    /** Deleting a power, and by the `delete-orphan` cascade of `Power.hero_powers`
        every join record whose `power_id` is that power; other join records stay. */
    method DeletePower(id: int)
      requires Valid()
      modifies this
      ensures Valid()
      ensures powers == old(powers) - {id} && heroes == old(heroes)
      ensures id in old(powers) ==>
        forall k :: k in heroPowers <==> k in old(heroPowers) && old(heroPowers)[k].powerId != Some(id)
      ensures id in old(powers) ==> heroPowers.Keys == old(heroPowers).Keys - HeroPowerIdsOfPower(old(Db()), id)
      ensures id !in old(powers) ==> heroPowers == old(heroPowers)
      ensures forall k | k in heroPowers :: heroPowers[k] == old(heroPowers)[k]
      ensures nextHeroId == old(nextHeroId) && nextPowerId == old(nextPowerId) && nextHeroPowerId == old(nextHeroPowerId)
    {
      if id in powers {
        var children := HeroPowerIdsOfPower(Db(), id);
        while children != {}
          invariant heroes == old(heroes) && powers == old(powers)
          invariant nextHeroId == old(nextHeroId) && nextPowerId == old(nextPowerId) && nextHeroPowerId == old(nextHeroPowerId)
          invariant forall k | k in children :: k in old(heroPowers) && old(heroPowers)[k].powerId == Some(id)
          invariant forall k :: k in heroPowers <==>
            k in old(heroPowers) && (k in children || old(heroPowers)[k].powerId != Some(id))
          invariant forall k | k in heroPowers :: heroPowers[k] == old(heroPowers)[k]
          decreases children
        {
          NonEmptyHasMember(children);
          var k :| k in children;
          heroPowers := heroPowers - {k};
          children := children - {k};
        }
        powers := powers - {id};
      }
    }

    /** GET /heroes: every stored hero in id order, each with exactly its id, name
        and super name. */
    function GetHeroes(): (r: Response)
      reads this
      ensures r.status == 200 && r.body.JList?
      ensures var ids := SortedIds(heroes.Keys);
        && |r.body.items| == |heroes|
        && forall i | 0 <= i < |ids| ::
             && r.body.items[i] == JObj(HeroColumns(heroes[ids[i]]))
             && r.body.items[i].fields.Keys == HeroSummaryKeys
    {
      var t := Db();
      var ids := SortedIds(t.heroes.Keys);
      HeroSummaries(t, ids);
      Response(200, JList(seq(|ids|, i requires 0 <= i < |ids| => Only(SerializeHero(t, t.heroes[ids[i]]), HeroSummaryKeys))))
    }

    /** GET /heroes/<id>: the fully serialised hero, or 404. */
    function GetHero(id: nat): (r: Response)
      reads this
      ensures id !in heroes ==> r == Response(404, ErrorBody("Hero not found"))
      ensures id in heroes ==>
        && r.status == 200
        && r.body == SerializeHero(Db(), heroes[id])
        && r.body == JObj(HeroColumns(heroes[id])["hero_powers" := JList(HeroEntries(Db(), heroes[id]))])
        && r.body.fields.Keys == {"id", "name", "super_name", "hero_powers"}
    {
      if id !in heroes then Response(404, ErrorBody("Hero not found"))
      else
        SerializeHeroShape(Db(), heroes[id]);
        Response(200, SerializeHero(Db(), heroes[id]))
    }

    /** GET /powers: every stored power in id order, each with exactly its id, name
        and description. */
    function GetPowers(): (r: Response)
      reads this
      ensures r.status == 200 && r.body.JList?
      ensures var ids := SortedIds(powers.Keys);
        && |r.body.items| == |powers|
        && forall i | 0 <= i < |ids| ::
             && r.body.items[i] == JObj(PowerColumns(powers[ids[i]]))
             && r.body.items[i].fields.Keys == PowerSummaryKeys
    {
      var t := Db();
      var ids := SortedIds(t.powers.Keys);
      PowerSummaries(t, ids);
      Response(200, JList(seq(|ids|, i requires 0 <= i < |ids| => Only(SerializePower(t, t.powers[ids[i]]), PowerSummaryKeys))))
    }

    /** GET /powers/<id>: the power's id, name and description, or 404. */
    function GetPower(id: nat): (r: Response)
      reads this
      ensures id !in powers ==> r == Response(404, ErrorBody("Power not found"))
      ensures id in powers ==> r == Response(200, JObj(PowerColumns(powers[id])))
    {
      if id !in powers then Response(404, ErrorBody("Power not found"))
      else
        PowerSummary(Db(), powers[id]);
        Response(200, Only(SerializePower(Db(), powers[id]), PowerSummaryKeys))
    }

    /** PATCH /powers/<id>: the validator runs before the assignment, so a refused
        description changes nothing; an accepted one replaces only that power's
        description. */
    method UpdatePower(id: nat, description: Option<string>) returns (r: Response)
      requires Valid()
      modifies this
      ensures Valid()
      ensures heroes == old(heroes) && heroPowers == old(heroPowers)
      ensures nextHeroId == old(nextHeroId) && nextPowerId == old(nextPowerId) && nextHeroPowerId == old(nextHeroPowerId)
      ensures id !in old(powers) ==> r == Response(404, ErrorBody("Power not found")) && powers == old(powers)
      ensures id in old(powers) && ValidateDescription(description).Err? ==>
        r == Response(400, ErrorsBody(DescriptionMessage)) && powers == old(powers)
      ensures id in old(powers) && ValidateDescription(description).Ok? ==>
        && powers == old(powers)[id := old(powers)[id].(description := description.value)]
        && r == Response(200, JObj(PowerColumns(powers[id])))
    {
      if id !in powers {
        return Response(404, ErrorBody("Power not found"));
      }
      var checked := ValidateDescription(description);
      match checked
      case Err(message) =>
        r := Response(400, ErrorsBody(message));
      case Ok(d) =>
        powers := powers[id := powers[id].(description := d)];
        PowerSummary(Db(), powers[id]);
        r := Response(200, Only(SerializePower(Db(), powers[id]), PowerSummaryKeys));
    }

    /** POST /hero_powers: the strength validator runs on construction; an accepted
        strength adds exactly one join record under a fresh id, with the references
        as given (they are not checked), and answers 201 with it serialised. */
    method CreateHeroPower(strength: Option<string>, heroId: Option<int>, powerId: Option<int>) returns (r: Response)
      requires Valid()
      modifies this
      ensures Valid()
      ensures heroes == old(heroes) && powers == old(powers)
      ensures nextHeroId == old(nextHeroId) && nextPowerId == old(nextPowerId)
      ensures ValidateStrength(strength).Err? ==>
        r == Response(400, ErrorsBody(StrengthMessage)) && heroPowers == old(heroPowers)
        && nextHeroPowerId == old(nextHeroPowerId)
      ensures ValidateStrength(strength).Ok? ==>
        var hp := HeroPower(old(nextHeroPowerId), strength.value, heroId, powerId);
        && hp.id !in old(heroPowers)
        && heroPowers == old(heroPowers)[hp.id := hp]
        && nextHeroPowerId == old(nextHeroPowerId) + 1
        && r == Response(201, JObj(HeroPowerColumns(hp)["hero" := NestedHero(Db(), hp)]["power" := NestedPower(Db(), hp)]))
    {
      var checked := ValidateStrength(strength);
      match checked
      case Err(message) =>
        r := Response(400, ErrorsBody(message));
      case Ok(s) =>
        var hp := HeroPower(nextHeroPowerId, s, heroId, powerId);
        heroPowers := heroPowers[hp.id := hp];
        nextHeroPowerId := nextHeroPowerId + 1;
        SerializeHeroPowerShape(Db(), hp);
        r := Response(201, SerializeHeroPower(Db(), hp));
    }
  }

  lemma HeroSummaries(t: Tables, ids: seq<int>)
    requires forall i | 0 <= i < |ids| :: ids[i] in t.heroes
    ensures forall i | 0 <= i < |ids| ::
      && Only(SerializeHero(t, t.heroes[ids[i]]), HeroSummaryKeys) == JObj(HeroColumns(t.heroes[ids[i]]))
      && HeroColumns(t.heroes[ids[i]]).Keys == HeroSummaryKeys
  {
    forall i | 0 <= i < |ids|
      ensures Only(SerializeHero(t, t.heroes[ids[i]]), HeroSummaryKeys) == JObj(HeroColumns(t.heroes[ids[i]]))
      ensures HeroColumns(t.heroes[ids[i]]).Keys == HeroSummaryKeys
    {
      HeroSummary(t, t.heroes[ids[i]]);
    }
  }

  lemma PowerSummaries(t: Tables, ids: seq<int>)
    requires forall i | 0 <= i < |ids| :: ids[i] in t.powers
    ensures forall i | 0 <= i < |ids| ::
      && Only(SerializePower(t, t.powers[ids[i]]), PowerSummaryKeys) == JObj(PowerColumns(t.powers[ids[i]]))
      && PowerColumns(t.powers[ids[i]]).Keys == PowerSummaryKeys
  {
    forall i | 0 <= i < |ids|
      ensures Only(SerializePower(t, t.powers[ids[i]]), PowerSummaryKeys) == JObj(PowerColumns(t.powers[ids[i]]))
      ensures PowerColumns(t.powers[ids[i]]).Keys == PowerSummaryKeys
    {
      PowerSummary(t, t.powers[ids[i]]);
    }
  }
}
