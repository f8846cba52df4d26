/** The three record kinds, the tables holding them and the relationships between them. */
module Models {
  import opened Wrappers

  datatype Hero = Hero(id: int, name: string, superName: string)

  datatype Power = Power(id: int, name: string, description: string)

  /** The join record. Its references are whatever the request supplied: a missing
      key leaves them absent, and nothing checks that they name a stored record. */
  datatype HeroPower = HeroPower(id: int, strength: string, heroId: Option<int>, powerId: Option<int>)

  /** The three tables, each keyed by primary key. */
  datatype Tables = Tables(heroes: map<int, Hero>, powers: map<int, Power>, heroPowers: map<int, HeroPower>)

  /** Every record is stored under its own id. */
  ghost predicate WellKeyed(t: Tables)
  {
    && (forall k | k in t.heroes :: t.heroes[k].id == k)
    && (forall k | k in t.powers :: t.powers[k].id == k)
    && (forall k | k in t.heroPowers :: t.heroPowers[k].id == k)
  }

  /** Ids of the join records in `Hero.hero_powers`: those whose `hero_id` is the hero's. */
  function HeroPowerIdsOfHero(t: Tables, heroId: int): (ids: set<int>)
    ensures ids <= t.heroPowers.Keys
  {
    set k | k in t.heroPowers && t.heroPowers[k].heroId == Some(heroId)
  }

  /** Ids of the join records in `Power.hero_powers`: those whose `power_id` is the power's. */
  function HeroPowerIdsOfPower(t: Tables, powerId: int): (ids: set<int>)
    ensures ids <= t.heroPowers.Keys
  {
    set k | k in t.heroPowers && t.heroPowers[k].powerId == Some(powerId)
  }

  lemma NonEmptyHasMember(s: set<int>)
    requires s != {}
    ensures exists k :: k in s
  {
    if forall k :: k !in s {
      assert false;
    }
  }

  predicate IsLeast(s: set<int>, m: int)
  {
    m in s && forall k | k in s :: m <= k
  }

  lemma {:induction false} LeastExists(s: set<int>)
    requires s != {}
    ensures exists m :: IsLeast(s, m)
    decreases |s|
  {
    NonEmptyHasMember(s);
    var x :| x in s;
    var rest := s - {x};
    forall k | k in s
      ensures k == x || k in rest
    {
      if k != x {
        assert k in rest;
      }
    }
    if rest == {} {
      forall k | k in s
        ensures x <= k
      {
        if k != x {
          assert false;
        }
      }
      assert IsLeast(s, x);
    } else {
      LeastExists(rest);
      var m :| IsLeast(rest, m);
      if x < m {
        assert IsLeast(s, x);
      } else {
        assert IsLeast(s, m);
      }
    }
  }

  /** The smallest id of a non-empty set of ids. */
  function Least(s: set<int>): (m: int)
    requires s != {}
    ensures m in s && forall k | k in s :: m <= k
  {
    LeastExists(s);
    var m :| IsLeast(s, m); m
  }

  /** The ids of a table in ascending order: the order in which a rowid table is
      scanned when a query lists its rows. */
  function SortedIds(s: set<int>): (r: seq<int>)
    ensures |r| == |s|
    ensures forall i | 0 <= i < |r| :: r[i] in s
    ensures forall k | k in s :: k in r
    ensures forall i, j | 0 <= i < j < |r| :: r[i] < r[j]
    decreases |s|
  {
    if s == {} then []
    else
      var m := Least(s);
      var tail := SortedIds(s - {m});
      PrependLeast(s, m, tail);
      [m] + tail
  }

  /** Ascending ids of `s` are its least id followed by the ascending rest. */
  lemma PrependLeast(s: set<int>, m: int, tail: seq<int>)
    requires IsLeast(s, m)
    requires |tail| == |s - {m}|
    requires forall i | 0 <= i < |tail| :: tail[i] in s - {m}
    requires forall k | k in s - {m} :: k in tail
    requires forall i, j | 0 <= i < j < |tail| :: tail[i] < tail[j]
    ensures |[m] + tail| == |s|
    ensures forall i | 0 <= i < |[m] + tail| :: ([m] + tail)[i] in s
    ensures forall k | k in s :: k in [m] + tail
    ensures forall i, j | 0 <= i < j < |[m] + tail| :: ([m] + tail)[i] < ([m] + tail)[j]
  {
    var r := [m] + tail;
    assert |s - {m}| == |s| - 1;
    forall k | k in s
      ensures k in r
    {
      if k != m {
        assert k in s - {m};
        var i :| 0 <= i < |tail| && tail[i] == k;
        assert r[i + 1] == k;
      } else {
        assert r[0] == k;
      }
    }
    forall i, j | 0 <= i < j < |r|
      ensures r[i] < r[j]
    {
      assert r[j] == tail[j - 1];
      if i > 0 {
        assert r[i] == tail[i - 1];
      } else {
        assert tail[j - 1] in s - {m};
      }
    }
  }
}
