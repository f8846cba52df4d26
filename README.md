# Hero–power store

A model of the small hero–power API: three kinds of record (Hero, Power and the
join record HeroPower carrying a `strength`), an in-memory store of them keyed by
id, the two field validators, the serialisation of records to nested key/value
trees under the classes' `serialize_rules`, the cascade deletes, and the six
request handlers as store operations that return a status code and a body.

- `wrappers.dfy` (`Wrappers`): `Option` for a key that may be missing from a
  request body, `Result` for a validated value or the validator's message.
- `json.dfy` (`Json`): the output tree, `to_dict(only=…)` as `Only`, and the
  `{"error": …}` / `{"errors": [...]}` bodies.
- `validation.dfy` (`Validation`): `validate_description` and `validate_strength`.
- `models.dfy` (`Models`): the records, the three tables, the `hero_powers`
  relationships as id sets, and the ascending id order in which a table is listed.
- `serialization.dfy` (`Serialization`): `to_dict()` of each kind. Each class's rules
  `-rel.key` become `RuleExclusions`: the record reached through `rel` omits `key`.
  A nested record also applies its own class's rules, so every rule acts on the
  one edge it names. The mutually recursive tree builders terminate because
  a join record always cuts `hero_powers` from the hero and the power it nests.
  That termination proof is the statement that the output is finite. The shape
  lemmas show where the recursion stops.
- `api.dfy` (`Api`): the `Store` class with its maps and id counters, the inserts
  and cascade deletes, and the handlers. Read handlers are functions of the store.
  `UpdatePower` and `CreateHeroPower` are methods that change it in place.

## Model

| member | source | states |
|---|---|---|
| `Validation.ValidateDescription` | server/models.py:61-65 | accepted exactly when the description is present and has at least 20 characters; an accepted description comes back unchanged; otherwise the error is "Description must be at least 20 characters long" |
| `Validation.ValidateStrength` | server/models.py:98-103 | accepted exactly when the strength is "Strong", "Weak" or "Average"; an accepted strength comes back unchanged; otherwise the error is "Strength must be 'Strong', 'Weak', or 'Average'" |
| `Json.Only` | server/app.py:21 | `only=` keeps precisely the listed keys that the object has, each with its value unchanged |
| `Models.SortedIds` | server/app.py:17 | a table is listed once per stored id, every listed id is stored, and ids come in strictly ascending order |
| `Serialization.HeroEdgeIsNestedHero` | server/models.py:90 | the `hero` of a serialised join record is the referenced hero's columns without `hero_powers`, or null when `hero_id` is absent or dangling |
| `Serialization.PowerEdgeIsNestedPower` | server/models.py:91 | the `power` of a serialised join record is the referenced power's columns without `hero_powers`, or null when `power_id` is absent or dangling |
| `Serialization.SerializeHeroPowerShape` | server/models.py:89-92 | a serialised join record is its id, strength, hero_id and power_id plus a nested hero and power, neither of which has `hero_powers` |
| `Serialization.HeroPowerUnderHeroShape` | server/models.py:39 | a join record nested in a hero, under the rules `-hero_powers.hero` and `-power.hero_powers`, is `EntryUnderHero`: its four columns and its power's bare columns, with no `hero` key |
| `Serialization.HeroPowerUnderPowerShape` | server/models.py:55 | a join record nested in a power, under the rules `-hero_powers.power` and `-hero.hero_powers`, is `EntryUnderPower`: its four columns and its hero's bare columns, with no `power` key |
| `Serialization.SerializeHeroShape` | server/models.py:24-39 | `to_dict()` of a hero is its id, name and super_name plus `hero_powers`, the list `HeroEntries`: one `EntryUnderHero` per join record whose `hero_id` is the hero's id, in ascending id order |
| `Serialization.HeroEntriesShape` | server/models.py:24-39 | a hero's `hero_powers` has as many entries as there are join records naming it; every entry carries the hero's id as `hero_id`, has no `hero` key, and the power inside it has no `hero_powers` key |
| `Serialization.SerializePowerShape` | server/models.py:51-55 | `to_dict()` of a power is its id, name and description plus `hero_powers`, the list `PowerEntries`: one `EntryUnderPower` per join record whose `power_id` is the power's id, in ascending id order |
| `Serialization.PowerEntriesShape` | server/models.py:51-55 | a power's `hero_powers` has as many entries as there are join records naming it; every entry carries the power's id as `power_id`, has no `power` key, and the hero inside it has no `hero_powers` key |
| `Serialization.HeroSummary` | server/app.py:21 | `to_dict(only=("id", "name", "super_name"))` of a hero is exactly those three columns |
| `Serialization.PowerSummary` | server/app.py:38 | `to_dict(only=("id", "name", "description"))` of a power is exactly those three columns |
| `Api.Store.AddHero` | server/models.py:15-20 | inserting a hero adds one hero under a fresh id and changes no other table |
| `Api.Store.AddPower` | server/models.py:61-65 | inserting a power runs the description validator: a refusal inserts nothing and returns the message; an acceptance adds exactly one power under a fresh id |
| `Api.Store.DeleteHero` | server/models.py:24-26 | deleting a hero removes it and precisely its `hero_powers`, the join records whose `hero_id` is that hero: the remaining join-record ids are the old ones minus `HeroPowerIdsOfHero`, and every remaining join record is unchanged |
| `Api.Store.DeletePower` | server/models.py:51-53 | deleting a power removes it and precisely its `hero_powers`, the join records whose `power_id` is that power: the remaining join-record ids are the old ones minus `HeroPowerIdsOfPower`, and every remaining join record is unchanged |
| `Api.Store.GetHeroes` | server/app.py:15-22 | 200 with one entry per stored hero, in id order, each with exactly the keys id, name and super_name and that hero's values |
| `Api.Store.GetHero` | server/app.py:25-31 | 404 with `{"error": "Hero not found"}` for a missing id; otherwise 200 with the hero's `to_dict()`, which is its columns plus `hero_powers` holding `HeroEntries` (keys id, name, super_name, hero_powers) |
| `Api.Store.GetPowers` | server/app.py:34-39 | 200 with one entry per stored power, in id order, each with exactly the keys id, name and description and that power's values |
| `Api.Store.GetPower` | server/app.py:43-50 | 404 with `{"error": "Power not found"}` for a missing id; otherwise 200 with exactly the power's id, name and description |
| `Api.Store.UpdatePower` | server/app.py:53-69 | 404 and no change for a missing id; 400 with `{"errors": [message]}` and no change for a refused description; otherwise only that power's description changes and the answer is 200 with its id, name and description |
| `Api.Store.CreateHeroPower` | server/app.py:72-92 | 400 with `{"errors": [message]}` and no insert for a refused strength; otherwise exactly one join record with a fresh id and the given strength and references is added, nothing else changes, and the answer is 201 with it serialised |

## Left out

- HTTP plumbing is not modelled: routing, `request.get_json`, `jsonify` encoding and key order, and `app.run`. A request body arrives as optional values, and a response is a status code with a tree.
- A request body that is not a JSON object is not modelled. A body without a JSON content type or with malformed JSON is refused where the handler calls `request.get_json` (415 or 400). In `update_power` that call comes only after the lookup, so a missing power still answers 404, as `UpdatePower` does. A body that is valid JSON but not an object (`null`, a list, a string) makes `data.get` raise an error that `except ValueError` does not catch, so the answer is a 500. The model takes the body as the optional values of its keys.
- The database is replaced by three maps. SQLite, the migrations and the session's commit and rollback are not modelled, and each handler is one atomic step.
- New ids come from the model's own per-table counters, so a new record's id is the counter's value and is never reused. SQLite hands out the largest rowid plus one instead, which can reuse the id of a deleted last row. What carries over to the program is only that a new id is not in use.
- Api.Store.CreateHeroPower: like the code, it checks no foreign key. A `hero_id` or `power_id` that is absent or names no record is stored as given and serialises as null. Nothing answers 400 for a dangling reference: the code has no such check, and the model follows it.
- The general rule language of `sqlalchemy_serializer` and its type coercions are not modelled. Only the exclusion behaviour of the three `serialize_rules` tuples and `only=` is.
- Listings come in ascending id order: the table listings of `GetHeroes` and `GetPowers` (`query.all()`) and the items of each `hero_powers` relationship. That is the order SQLite's rowid scan gives, but the code does not request an order anywhere.
- Non-string JSON values are not modelled, such as a numeric description or a string `hero_id`. Null `name`, `super_name` and `description` columns are not modelled either. `@validates("description")` runs only on assignment, so a power built without a description could store NULL. No code path builds one, and `AddPower` always runs the validator.
- No handler deletes records and none inserts a hero or a power. `DeleteHero` and `DeletePower` model the cascade rules, and `AddHero` and `AddPower` model inserting a row with its validator, as store operations that no request reaches.
- `delete-orphan` also deletes a join record that is removed from a collection. No code path does that, so it is not modelled.
- Route ids are natural numbers, since Flask's `int` converter matches only digits. Ids and references are unbounded, and strings hold only Unicode scalar values.
- Api.Store.GetHero, Api.Store.GetPower, Api.Store.UpdatePower: an id of 2^63 or more cannot be bound by the database driver, so the program answers 500, where the model answers 404.
- Api.Store.CreateHeroPower: a `hero_id` or `power_id` outside the signed 64-bit range fails at the commit, outside the `except ValueError`. The program answers 500 and stores nothing, where the model answers 201 and stores the record.
- Api.Store.UpdatePower: a description holding a lone surrogate passes the validator. Binding it at the commit raises `UnicodeEncodeError`, which is a `ValueError`. So the program answers 400 with the encoder's message and stores nothing. The model's strings cannot hold a lone surrogate.

