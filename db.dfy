/** The store of crates/db/src/lib.rs: foods, serving sizes and log entries.
    The SQL engine is replaced by three id-indexed tables; each method does to
    them what its SQL statement does. Columns the Rust code writes as text (the
    serving unit token and the entry date) are kept as text, so the codecs on the
    write and read paths are part of the model. */
module Db {
  import opened Wrappers
  import opened Errors
  import opened Nutrition
  import Dates
  import opened Ordering

  type FoodId = int
  type ServingId = int
  type EntryId = int

  /** A `DateTime<Utc>`, as a count of microseconds since the epoch. */
  type Timestamp = int

  /** The base unit a food's nutrition facts refer to (per 100 of it). */
  datatype ServingUnit = Grams | Milliliters

  /** `ServingUnit::as_str`. */
  function UnitAsStr(u: ServingUnit): (s: string)
    ensures s == "g" || s == "ml"
    ensures UnitTryFrom(s) == Ok(u)
  {
    match u
    case Grams => "g"
    case Milliliters => "ml"
  }

  const InvalidServingUnit: AppError := AppError("Invalid value for serving unit.")

  /** `impl TryFrom<&str> for ServingUnit`: exactly the two tokens are accepted. */
  function UnitTryFrom(s: string): (r: Fallible<ServingUnit>)
    ensures r.Ok? <==> s == "g" || s == "ml"
    ensures r.Err? ==> r.error == InvalidServingUnit
  {
    match s
    case "g" => Ok(Grams)
    case "ml" => Ok(Milliliters)
    case _ => Err(InvalidServingUnit)
  }

  /** Parsing inverts printing, so the printed tokens of the two units differ. */
  lemma UnitTokensDistinct(u: ServingUnit, v: ServingUnit)
    ensures UnitAsStr(u) == UnitAsStr(v) <==> u == v
  {
    if UnitAsStr(u) == UnitAsStr(v) {
      assert UnitTryFrom(UnitAsStr(u)) == Ok(u) && UnitTryFrom(UnitAsStr(v)) == Ok(v);
    }
  }

  datatype CreateFoodInput = CreateFoodInput(
    name: string, brand: string, servingUnit: ServingUnit, facts: Nutrition, createdAt: Timestamp)

  datatype FoodListEntry = FoodListEntry(foodId: FoodId, name: string, brand: string)

  datatype FoodEntry = FoodEntry(
    foodId: FoodId, name: string, brand: string, servingUnit: ServingUnit,
    facts: Nutrition, createdAt: Timestamp)

  datatype EditFoodInput = EditFoodInput(
    foodId: FoodId, name: string, brand: string, servingUnit: ServingUnit, facts: Nutrition)

  datatype ServingInput = ServingInput(
    foodId: FoodId, servingName: string, servingAmount: real, createdAt: Timestamp)

  datatype Serving = Serving(
    servingId: ServingId, foodId: FoodId, servingName: string, servingAmount: real,
    createdAt: Timestamp)

  datatype CreateEntryInput = CreateEntryInput(
    date: Dates.NaiveDate, foodId: FoodId, servingId: Option<ServingId>, amount: real,
    createdAt: Timestamp)

  datatype Entry = Entry(
    entryId: EntryId, date: Dates.NaiveDate, foodId: FoodId, servingId: Option<ServingId>,
    amount: real, createdAt: Timestamp)

  /** A row of `foods` without its key; `servingUnit` is the stored token. */
  datatype FoodRow = FoodRow(
    name: string, brand: string, servingUnit: string, facts: Nutrition, createdAt: Timestamp)

  /** A row of `serving_sizes` without its key. */
  datatype ServingRow = ServingRow(
    foodId: FoodId, servingName: string, servingAmount: real, createdAt: Timestamp)

  /** A row of `entries` without its key; `date` is the stored `%Y-%m-%d` text. */
  datatype EntryRow = EntryRow(
    date: string, foodId: FoodId, servingId: Option<ServingId>, amount: real,
    createdAt: Timestamp)

  function FoodIds(r: seq<FoodListEntry>): seq<FoodId> {
    seq(|r|, k requires 0 <= k < |r| => r[k].foodId)
  }

  function ServingIds(r: seq<Serving>): seq<ServingId> {
    seq(|r|, k requires 0 <= k < |r| => r[k].servingId)
  }

  function EntryIds(r: seq<Entry>): seq<EntryId> {
    seq(|r|, k requires 0 <= k < |r| => r[k].entryId)
  }

  const NoRows: AppError := Sqlite(QueryReturnedNoRows)

  class Db {
    var foods: map<FoodId, FoodRow>
    var servings: map<ServingId, ServingRow>
    var entries: map<EntryId, EntryRow>
    // rowids stay below these bounds; they are the next ids handed out
    var nextFoodId: int
    var nextServingId: int
    var nextEntryId: int

    ghost predicate Valid()
      reads this
    {
      && 1 <= nextFoodId && 1 <= nextServingId && 1 <= nextEntryId
      && (forall id :: id in foods ==> 1 <= id < nextFoodId)
      && (forall id :: id in servings ==> 1 <= id < nextServingId)
      && (forall id :: id in entries ==> 1 <= id < nextEntryId)
      && (forall id :: id in foods ==> UnitTryFrom(foods[id].servingUnit).Ok?)
    }

    /** `Db::new`: a fresh, empty store. */
    constructor ()
      ensures Valid()
      ensures foods == map[] && servings == map[] && entries == map[]
    {
      foods, servings, entries := map[], map[], map[];
      nextFoodId, nextServingId, nextEntryId := 1, 1, 1;
    }

    /** `count_foods`: `select count(*) from foods`. */
    function CountFoods(): (n: nat)
      reads this
      ensures n == |foods.Keys|
    {
      |foods|
    }

    /** `get_food`: the row with that id, its unit token parsed back; no row is
        `QueryReturnedNoRows`, an unreadable token a conversion failure. */
    function GetFood(id: FoodId): (r: Fallible<FoodEntry>)
      reads this
      ensures id !in foods ==> r == Err(NoRows)
      ensures Valid() && id in foods ==> r.Ok?
      ensures r.Ok? ==> (
        && id in foods && r.value.foodId == id
        && r.value.name == foods[id].name && r.value.brand == foods[id].brand
        && UnitAsStr(r.value.servingUnit) == foods[id].servingUnit
        && r.value.facts == foods[id].facts && r.value.createdAt == foods[id].createdAt)
    {
      if id !in foods then Err(NoRows)
      else
        var row := foods[id];
        match UnitTryFrom(row.servingUnit)
        case Err(e) => Err(Sqlite(ConversionFailure(e)))
        case Ok(unit) => Ok(FoodEntry(id, row.name, row.brand, unit, row.facts, row.createdAt))
    }

    /** `create_food`: inserts one row and returns its fresh id; reading that id
        back gives every field that was written. */
    method CreateFood(input: CreateFoodInput) returns (id: FoodId)
      requires Valid()
      modifies this
      ensures Valid()
      ensures id !in old(foods) && 1 <= id
      ensures foods == old(foods)[id := FoodRow(input.name, input.brand,
        UnitAsStr(input.servingUnit), input.facts, input.createdAt)]
      ensures servings == old(servings) && entries == old(entries)
      ensures CountFoods() == old(CountFoods()) + 1
      ensures GetFood(id) == Ok(FoodEntry(id, input.name, input.brand, input.servingUnit,
        input.facts, input.createdAt))
    {
      id := nextFoodId;
      foods := foods[id := FoodRow(input.name, input.brand, UnitAsStr(input.servingUnit),
        input.facts, input.createdAt)];
      nextFoodId := nextFoodId + 1;
    }

    /** `list_foods`: `select food_id, name, brand from foods order by name`. */
    method ListFoods() returns (r: seq<FoodListEntry>)
      requires Valid()
      ensures IsFoodListing(r)
    {
      var keys := map id | id in foods :: Text(foods[id].name);
      var ids := SelectOrdered(keys, nextFoodId, foods.Keys);
      r := [];
      for k := 0 to |ids|
        invariant |r| == k
        invariant forall i :: 0 <= i < k ==> r[i] == FoodListEntry(ids[i], foods[ids[i]].name, foods[ids[i]].brand)
      {
        r := r + [FoodListEntry(ids[k], foods[ids[k]].name, foods[ids[k]].brand)];
      }
      assert FoodIds(r) == ids;
      forall i, j | 0 <= i < j < |r| ensures TextLe(r[i].name, r[j].name) {
        assert KeyLe(keys[ids[i]], keys[ids[j]]);
      }
    }

    /** `r` lists every food once, with its name and brand, in name order. */
    ghost predicate IsFoodListing(r: seq<FoodListEntry>)
      reads this
    {
      && Distinct(FoodIds(r))
      && (forall id :: id in FoodIds(r) <==> id in foods)
      && (forall k :: 0 <= k < |r| ==>
            && r[k].foodId in foods
            && r[k].name == foods[r[k].foodId].name && r[k].brand == foods[r[k].foodId].brand)
      && (forall i, j :: 0 <= i < j < |r| ==> TextLe(r[i].name, r[j].name))
    }

    /** `edit_food`: `update foods set ... where food_id = ?`. Every column but the
        id and `created_at` is overwritten; an unknown id matches no row, so
        nothing changes and the call still succeeds. */
    method EditFood(input: EditFoodInput)
      requires Valid()
      modifies this
      ensures Valid()
      ensures input.foodId in old(foods) ==> foods == old(foods)[input.foodId :=
        FoodRow(input.name, input.brand, UnitAsStr(input.servingUnit), input.facts,
          old(foods)[input.foodId].createdAt)]
      ensures input.foodId !in old(foods) ==> foods == old(foods)
      ensures servings == old(servings) && entries == old(entries)
      ensures input.foodId in old(foods) ==> GetFood(input.foodId) == Ok(FoodEntry(input.foodId,
        input.name, input.brand, input.servingUnit, input.facts, old(foods)[input.foodId].createdAt))
    {
      if input.foodId in foods {
        var old_row := foods[input.foodId];
        foods := foods[input.foodId := FoodRow(input.name, input.brand,
          UnitAsStr(input.servingUnit), input.facts, old_row.createdAt)];
      }
    }

    /** `create_serving`: inserts one row and returns its fresh id. */
    method CreateServing(input: ServingInput) returns (id: ServingId)
      requires Valid()
      modifies this
      ensures Valid()
      ensures id !in old(servings) && 1 <= id
      ensures servings == old(servings)[id := ServingRow(input.foodId, input.servingName,
        input.servingAmount, input.createdAt)]
      ensures foods == old(foods) && entries == old(entries)
    {
      id := nextServingId;
      servings := servings[id := ServingRow(input.foodId, input.servingName,
        input.servingAmount, input.createdAt)];
      nextServingId := nextServingId + 1;
    }

    /** `delete_serving`: removes the row with that id, if there is one. */
    method DeleteServing(id: ServingId)
      requires Valid()
      modifies this
      ensures Valid()
      ensures servings == old(servings) - {id}
      ensures foods == old(foods) && entries == old(entries)
    {
      servings := servings - {id};
    }

    /** `list_servings`: the food's servings, `order by serving_name`. */
    method ListServings(foodId: FoodId) returns (r: seq<Serving>)
      requires Valid()
      ensures IsServingListing(foodId, r)
    {
      var keys := map id | id in servings :: Text(servings[id].servingName);
      var keep := set id | id in servings && servings[id].foodId == foodId;
      var ids := SelectOrdered(keys, nextServingId, keep);
      r := [];
      for k := 0 to |ids|
        invariant |r| == k
        invariant forall i :: 0 <= i < k ==> r[i] == ServingOf(ids[i])
      {
        r := r + [ServingOf(ids[k])];
      }
      assert ServingIds(r) == ids;
      forall i, j | 0 <= i < j < |r| ensures TextLe(r[i].servingName, r[j].servingName) {
        assert KeyLe(keys[ids[i]], keys[ids[j]]);
      }
    }

    /** `r` lists each serving of the food once, as stored, in name order. */
    ghost predicate IsServingListing(foodId: FoodId, r: seq<Serving>)
      reads this
    {
      && Distinct(ServingIds(r))
      && (forall id :: id in ServingIds(r) <==> id in servings && servings[id].foodId == foodId)
      && (forall k :: 0 <= k < |r| ==> r[k].servingId in servings && r[k] == ServingOf(r[k].servingId))
      && (forall i, j :: 0 <= i < j < |r| ==> TextLe(r[i].servingName, r[j].servingName))
    }

    function ServingOf(id: ServingId): Serving
      reads this
      requires id in servings
    {
      var row := servings[id];
      Serving(id, row.foodId, row.servingName, row.servingAmount, row.createdAt)
    }

    /** `create_entry`: inserts one row, its date written as `%Y-%m-%d` text. */
    method CreateEntry(input: CreateEntryInput) returns (id: EntryId)
      requires Valid()
      modifies this
      ensures Valid()
      ensures id !in old(entries) && 1 <= id
      ensures entries == old(entries)[id := EntryRow(Dates.Format(input.date), input.foodId,
        input.servingId, input.amount, input.createdAt)]
      ensures foods == old(foods) && servings == old(servings)
    {
      id := nextEntryId;
      entries := entries[id := EntryRow(Dates.Format(input.date), input.foodId,
        input.servingId, input.amount, input.createdAt)];
      nextEntryId := nextEntryId + 1;
    }

    /** `delete_entry`: removes the row with that id, if there is one. */
    method DeleteEntry(id: EntryId)
      requires Valid()
      modifies this
      ensures Valid()
      ensures entries == old(entries) - {id}
      ensures foods == old(foods) && servings == old(servings)
    {
      entries := entries - {id};
    }

    /** `list_entries`: the rows whose date text equals the `%Y-%m-%d` text of
        `date`, `order by created_at`, each date column parsed back. Because the
        stored text is the printed date and printing is injective, these are
        exactly the entries created for `date`, and the parse back cannot fail. */
    method ListEntries(date: Dates.NaiveDate) returns (r: seq<Entry>)
      requires Valid()
      ensures IsDayListing(date, r)
    {
      var text := Dates.Format(date);
      var keys := map id | id in entries :: Number(entries[id].createdAt);
      var keep := set id | id in entries && entries[id].date == text;
      var ids := SelectOrdered(keys, nextEntryId, keep);
      Dates.ParseFormat(date);
      r := [];
      for k := 0 to |ids|
        invariant |r| == k
        invariant forall i :: 0 <= i < k ==> r[i] == EntryOf(ids[i], date)
      {
        assert ids[k] in ids && ids[k] in keep && entries[ids[k]].date == text;
        var row := entries[ids[k]];
        var parsed := Dates.ParseNaive(row.date);
        r := r + [Entry(ids[k], parsed.value, row.foodId, row.servingId, row.amount, row.createdAt)];
      }
      assert EntryIds(r) == ids;
      forall i, j | 0 <= i < j < |r| ensures r[i].createdAt <= r[j].createdAt {
        assert KeyLe(keys[ids[i]], keys[ids[j]]);
      }
    }

    /** `r` lists each entry stored under `date` once, as stored, oldest first. */
    ghost predicate IsDayListing(date: Dates.NaiveDate, r: seq<Entry>)
      reads this
    {
      && Distinct(EntryIds(r))
      && (forall id :: id in EntryIds(r) <==> id in entries && entries[id].date == Dates.Format(date))
      && (forall k :: 0 <= k < |r| ==> r[k].entryId in entries && r[k] == EntryOf(r[k].entryId, date))
      && (forall i, j :: 0 <= i < j < |r| ==> r[i].createdAt <= r[j].createdAt)
    }

    function EntryOf(id: EntryId, date: Dates.NaiveDate): Entry
      reads this
      requires id in entries
    {
      var row := entries[id];
      Entry(id, date, row.foodId, row.servingId, row.amount, row.createdAt)
    }
  }

  /** A created entry is listed under its own date and under no other. */
  method CreatedEntryListedOnItsDate(db: Db, input: CreateEntryInput, other: Dates.NaiveDate)
    returns (id: EntryId, same: seq<Entry>, different: seq<Entry>)
    requires db.Valid()
    requires other != input.date
    modifies db
    ensures db.IsDayListing(input.date, same) && db.IsDayListing(other, different)
    ensures id in EntryIds(same) && id !in EntryIds(different)
  {
    id := db.CreateEntry(input);
    same := db.ListEntries(input.date);
    different := db.ListEntries(other);
    Dates.FormatInjective(input.date, other);
  }
}
