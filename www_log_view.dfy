/** The day page of crates/www/src/routes/log_view.rs. Each entry whose food can be
    read becomes a row; its unit and multiplier come from the food's own servings,
    with the base unit and 1.0 as the fallback, and four nutrients are shown
    multiplied by the entry's amount and that multiplier. */
module WwwLogView {
  import opened Wrappers
  import opened Errors
  import opened Nutrition
  import Dates
  import opened Db

  /** `servings.iter().find(|s| s.serving_id == id)`: the first serving with that id. */
  function Find(servings: seq<Serving>, id: ServingId): (r: Option<Serving>)
    ensures r.None? <==> id !in ServingIds(servings)
    ensures r.Some? ==> r.value in servings && r.value.servingId == id
  {
    if |servings| == 0 then None
    else
      assert ServingIds(servings) == [servings[0].servingId] + ServingIds(servings[1..]);
      if servings[0].servingId == id then Some(servings[0])
      else Find(servings[1..], id)
  }

  /** The unit label of a row and the factor its nutrients are multiplied by. */
  datatype UnitChoice = UnitChoice(unit: string, multiplier: real)

  /** The fallback: the food's base-unit token and a multiplier of one. */
  function BaseChoice(food: FoodEntry): (c: UnitChoice)
    ensures c.multiplier == 1.0 && (c.unit == "g" || c.unit == "ml")
    ensures UnitTryFrom(c.unit) == Ok(food.servingUnit)
  {
    UnitChoice(UnitAsStr(food.servingUnit), 1.0)
  }

  /** The `(unit, multiplier)` of an entry: the serving's name and amount when the
      entry's serving is among `listing`, the servings read for the entry's food;
      the base choice when the entry has no serving, when it is not found, and
      when the listing failed. */
  function Resolve(entry: Entry, food: FoodEntry, listing: Fallible<seq<Serving>>): (c: UnitChoice)
    ensures entry.servingId.None? || listing.Err? ==> c == BaseChoice(food)
    ensures entry.servingId.Some? && listing.Ok? && entry.servingId.value !in ServingIds(listing.value)
      ==> c == BaseChoice(food)
    ensures c != BaseChoice(food) ==>
      && entry.servingId.Some? && listing.Ok?
      && exists s :: s in listing.value && s.servingId == entry.servingId.value
           && c == UnitChoice(s.servingName, s.servingAmount)
  {
    match entry.servingId
    case None => BaseChoice(food)
    case Some(sid) =>
      match listing
      case Err(_) => BaseChoice(food)
      case Ok(servings) =>
        match Find(servings, sid)
        case Some(s) => UnitChoice(s.servingName, s.servingAmount)
        case None => BaseChoice(food)
  }

  /** The choice read straight off the store: the entry's serving counts only
      when it exists and belongs to the entry's food. */
  ghost function StoreChoice(db: Db, entry: Entry, food: FoodEntry): UnitChoice
    reads db
  {
    match entry.servingId
    case Some(sid) =>
      if sid in db.servings && db.servings[sid].foodId == food.foodId then
        UnitChoice(db.servings[sid].servingName, db.servings[sid].servingAmount)
      else BaseChoice(food)
    case None => BaseChoice(food)
  }

  /** Resolving against the food's own serving listing is the same as looking the
      serving up in the store restricted to that food. */
  lemma ResolveAgainstStore(db: Db, entry: Entry, food: FoodEntry, listing: seq<Serving>)
    requires db.IsServingListing(food.foodId, listing)
    ensures Resolve(entry, food, Ok(listing)) == StoreChoice(db, entry, food)
  {
    if entry.servingId.Some? {
      var sid := entry.servingId.value;
      var found := Find(listing, sid);
      if found.Some? {
        var k :| 0 <= k < |listing| && listing[k] == found.value;
        assert listing[k].servingId in ServingIds(listing);
      }
    }
  }

  /** A serving of another food is never used, even when the entry names it. */
  lemma OtherFoodsServingIgnored(db: Db, entry: Entry, food: FoodEntry, listing: seq<Serving>)
    requires db.IsServingListing(food.foodId, listing)
    requires entry.servingId.Some? && entry.servingId.value in db.servings
    requires db.servings[entry.servingId.value].foodId != food.foodId
    ensures Resolve(entry, food, Ok(listing)) == BaseChoice(food)
  {
    ResolveAgainstStore(db, entry, food, listing);
  }

  /** A table row before number formatting. */
  datatype Row = Row(
    name: string, brand: string, amount: real, unit: string,
    energy: real, protein: real, fat: real, carbs: real)

  /** The cells of a row: the food's name and brand, the entry's amount, the
      chosen unit, and four nutrients of the food's facts scaled by the entry's
      amount times the multiplier, with no division by 100. */
  function Cells(entry: Entry, food: FoodEntry, c: UnitChoice): (row: Row)
    ensures row.name == food.name && row.brand == food.brand
    ensures row.amount == entry.amount && row.unit == c.unit
    ensures var n := Scale(food.facts, entry.amount * c.multiplier);
      && row.energy == n.energy && row.protein == n.protein
      && row.fat == n.fat && row.carbs == n.carbs
  {
    var f := entry.amount * c.multiplier;
    assert food.facts.energy * entry.amount * c.multiplier == food.facts.energy * f;
    assert food.facts.protein * entry.amount * c.multiplier == food.facts.protein * f;
    assert food.facts.fat * entry.amount * c.multiplier == food.facts.fat * f;
    assert food.facts.carbs * entry.amount * c.multiplier == food.facts.carbs * f;
    Row(food.name, food.brand, entry.amount, c.unit,
      food.facts.energy * entry.amount * c.multiplier,
      food.facts.protein * entry.amount * c.multiplier,
      food.facts.fat * entry.amount * c.multiplier,
      food.facts.carbs * entry.amount * c.multiplier)
  }

  /** The rows of a day, in entry order: entries whose food cannot be read are
      left out, and every other entry shows its food with the store's choice. */
  ghost function DayRows(db: Db, es: seq<Entry>): seq<Row>
    reads db
  {
    if |es| == 0 then []
    else
      var last := es[|es| - 1];
      match db.GetFood(last.foodId)
      case Err(_) => DayRows(db, es[..|es| - 1])
      case Ok(food) => DayRows(db, es[..|es| - 1]) + [Cells(last, food, StoreChoice(db, last, food))]
  }

  /** The rows of consecutive stretches of entries are consecutive. */
  lemma {:induction false} DayRowsAppend(db: Db, a: seq<Entry>, b: seq<Entry>)
    ensures DayRows(db, a + b) == DayRows(db, a) + DayRows(db, b)
    decreases |b|
  {
    if |b| == 0 {
      assert a + b == a;
    } else {
      assert (a + b)[..|a + b| - 1] == a + b[..|b| - 1];
      DayRowsAppend(db, a, b[..|b| - 1]);
    }
  }

  /** An entry whose food is missing contributes no row; any other contributes
      exactly its own. */
  lemma DayRowsSingle(db: Db, e: Entry)
    ensures db.GetFood(e.foodId).Err? ==> DayRows(db, [e]) == []
    ensures db.GetFood(e.foodId).Ok? ==>
      DayRows(db, [e]) == [Cells(e, db.GetFood(e.foodId).value, StoreChoice(db, e, db.GetFood(e.foodId).value))]
  {
    assert [e][..0] == [];
  }

  /** Dropping an entry whose food is missing leaves the other rows as they were. */
  lemma SkippedEntryInvisible(db: Db, a: seq<Entry>, e: Entry, b: seq<Entry>)
    requires db.GetFood(e.foodId).Err?
    ensures DayRows(db, a + [e] + b) == DayRows(db, a + b)
  {
    DayRowsAppend(db, a + [e], b);
    DayRowsAppend(db, a, [e]);
    DayRowsSingle(db, e);
    DayRowsAppend(db, a, b);
  }

  datatype Table = NoFoodLogged | Rows(rows: seq<Row>)

  /** What the page shows besides its links. */
  datatype Page = Page(date: Dates.NaiveDate, table: Table)

  function ParseDateError(text: string): AppError {
    AppError("Failed to parse date: '" + text + "'.")
  }

  /** `handler`: the date is parsed before the store is locked; a day without
      entries shows the "No food logged" message, any other its rows. Reading a
      food and listing its servings do not fail the page. */
  method Handler(db: Db, path: string, lockFree: bool) returns (r: Fallible<Page>)
    requires db.Valid()
    ensures Dates.ParseNaive(path).None? ==> r == Err(ParseDateError(path))
    ensures Dates.ParseNaive(path).Some? && !lockFree ==> r == Err(LockError)
    ensures Dates.ParseNaive(path).Some? && lockFree ==>
      && r.Ok? && r.value.date == Dates.ParseNaive(path).value
      && exists es :: db.IsDayListing(Dates.ParseNaive(path).value, es)
           && r.value.table == (if |es| == 0 then NoFoodLogged else Rows(DayRows(db, es)))
  {
    var parsed := Dates.ParseNaive(path);
    if parsed.None? {
      return Err(ParseDateError(path));
    }
    var date := parsed.value;
    if !lockFree {
      return Err(LockError);
    }
    var entries := db.ListEntries(date);
    if |entries| == 0 {
      return Ok(Page(date, NoFoodLogged));
    }
    var rows := [];
    for i := 0 to |entries|
      invariant rows == DayRows(db, entries[..i])
    {
      var entry := entries[i];
      assert entries[..i + 1][..i] == entries[..i];
      var food := db.GetFood(entry.foodId);
      if food.Ok? {
        var choice := BaseChoice(food.value);
        if entry.servingId.Some? {
          var servings := db.ListServings(food.value.foodId);
          ResolveAgainstStore(db, entry, food.value, servings);
          choice := Resolve(entry, food.value, Ok(servings));
        }
        rows := rows + [Cells(entry, food.value, choice)];
      }
    }
    assert entries[..|entries|] == entries;
    r := Ok(Page(date, Rows(rows)));
    assert db.IsDayListing(date, entries);
  }

  /** The serving multiplier as written: 100 g of a food with 200 kcal per 100 g,
      logged as two 50 g servings, shows 20000 kcal, while the same 100 g logged
      as one base serving of 100 g shows 200 kcal. */
  lemma ServingMultiplierHundredfold()
    ensures var facts := Nutrition(200.0, 0.0, 0.0, 0.0, 0.0, 0.0, 0.0, 0.0);
      var food := FoodEntry(1, "oats", "", Grams, facts, 0);
      var asServings := Entry(1, Dates.Ymd(2025, 1, 1), 1, Some(7), 2.0, 0);
      var asBase := Entry(2, Dates.Ymd(2025, 1, 1), 1, None, 1.0, 0);
      var listing := [Serving(7, 1, "half", 50.0, 0)];
      && Cells(asServings, food, Resolve(asServings, food, Ok(listing))).energy == 20000.0
      && Cells(asBase, food, Resolve(asBase, food, Ok(listing))).energy == 200.0
  {
    var facts := Nutrition(200.0, 0.0, 0.0, 0.0, 0.0, 0.0, 0.0, 0.0);
    var food := FoodEntry(1, "oats", "", Grams, facts, 0);
    var asServings := Entry(1, Dates.Ymd(2025, 1, 1), 1, Some(7), 2.0, 0);
    var asBase := Entry(2, Dates.Ymd(2025, 1, 1), 1, None, 1.0, 0);
    var half := Serving(7, 1, "half", 50.0, 0);
    var listing := [half];
    assert Find(listing, 7) == Some(half);
    assert Resolve(asServings, food, Ok(listing)).multiplier == 50.0;
    assert Resolve(asBase, food, Ok(listing)).multiplier == 1.0;
  }

  /** The entry names a serving and the listing holds it. */
  predicate UsesServing(entry: Entry, listing: Fallible<seq<Serving>>) {
    entry.servingId.Some? && listing.Ok? && entry.servingId.value in ServingIds(listing.value)
  }

  /** The multiplier the per-100 facts call for: a serving of `a` base units is
      `a / 100` of the base serving. Decided by case, as `Resolve` is, so a
      serving that happens to look like the base choice is still divided. */
  function CorrectedResolve(entry: Entry, food: FoodEntry, listing: Fallible<seq<Serving>>): (c: UnitChoice)
    ensures c.unit == Resolve(entry, food, listing).unit
    ensures c.multiplier ==
      if UsesServing(entry, listing) then Resolve(entry, food, listing).multiplier / 100.0 else 1.0
  {
    match entry.servingId
    case None => BaseChoice(food)
    case Some(sid) =>
      match listing
      case Err(_) => BaseChoice(food)
      case Ok(servings) =>
        match Find(servings, sid)
        case Some(s) => UnitChoice(s.servingName, s.servingAmount / 100.0)
        case None => BaseChoice(food)
  }

  /** With the corrected multiplier, `n` servings of `a` base units show the same
      nutrients as `n * a / 100` base servings of the same food. */
  lemma CorrectedServingMatchesBase(entry: Entry, food: FoodEntry, listing: seq<Serving>, s: Serving)
    requires s in listing && entry.servingId == Some(s.servingId)
    requires forall t :: t in listing && t.servingId == s.servingId ==> t == s
    ensures var base := entry.(servingId := None, amount := entry.amount * s.servingAmount / 100.0);
      Scale(food.facts, entry.amount * CorrectedResolve(entry, food, Ok(listing)).multiplier)
        == Scale(food.facts, base.amount * CorrectedResolve(base, food, Ok(listing)).multiplier)
  {
    var found := Find(listing, s.servingId);
    assert s.servingId in ServingIds(listing) by {
      var k :| 0 <= k < |listing| && listing[k] == s;
      assert ServingIds(listing)[k] == s.servingId;
    }
    assert found == Some(s);
    var c := CorrectedResolve(entry, food, Ok(listing));
    assert c.multiplier == s.servingAmount / 100.0;
  }
}
