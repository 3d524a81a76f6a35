/** The day page of src/routes/log_view.rs: the entries of one day as table rows,
    and the day's nutrition totals. The nutrition of an entry and the lookup of a
    serving by id are called there but defined elsewhere, so they are parameters. */
module LogView {
  import opened Wrappers
  import opened Errors
  import opened Nutrition
  import Dates
  import opened Db

  /** `Entry::nutrition(db)`. */
  type NutritionOf = Entry -> Fallible<Nutrition>
  /** `Db::get_serving_by_id`. */
  type ServingById = ServingId -> Fallible<Serving>

  /** The left fold of `+` over the entries' nutrition, in list order and from
      zero; the first failing entry ends it with its error. */
  function Totals(es: seq<Entry>, nutritionOf: NutritionOf): Fallible<Nutrition>
    decreases |es|
  {
    if |es| == 0 then Ok(Zero)
    else
      match Totals(es[..|es| - 1], nutritionOf)
      case Err(e) => Err(e)
      case Ok(n) =>
        match nutritionOf(es[|es| - 1])
        case Err(e) => Err(e)
        case Ok(x) => Ok(Add(n, x))
  }

  /** `calculate_totals`: an accumulator that starts at zero and has each entry's
      nutrition added to it, returning early on the first error. */
  method CalculateTotals(entries: seq<Entry>, nutritionOf: NutritionOf) returns (r: Fallible<Nutrition>)
    ensures r == Totals(entries, nutritionOf)
    ensures |entries| == 0 ==> r == Ok(Zero)
  {
    var n := Zero;
    for i := 0 to |entries|
      invariant Totals(entries[..i], nutritionOf) == Ok(n)
    {
      var en := nutritionOf(entries[i]);
      assert entries[..i + 1][..i] == entries[..i];
      if en.Err? {
        TotalsErrorSticks(entries, nutritionOf, i + 1);
        return Err(en.error);
      }
      n := Add(n, en.value);
    }
    assert entries[..|entries|] == entries;
    return Ok(n);
  }

  /** Once a prefix has failed, the whole list fails with the same error. */
  lemma {:induction false} TotalsErrorSticks(es: seq<Entry>, nutritionOf: NutritionOf, k: nat)
    requires k <= |es|
    requires Totals(es[..k], nutritionOf).Err?
    ensures Totals(es, nutritionOf) == Totals(es[..k], nutritionOf)
    decreases |es| - k
  {
    if k == |es| {
      assert es[..k] == es;
    } else {
      var init := es[..|es| - 1];
      assert init[..k] == es[..k];
      TotalsErrorSticks(init, nutritionOf, k);
    }
  }

  /** The reference sum, grouped from the right. */
  function Sum(ns: seq<Nutrition>): Nutrition {
    if |ns| == 0 then Zero else Add(ns[0], Sum(ns[1..]))
  }

  lemma {:induction false} SumSnoc(ns: seq<Nutrition>, x: Nutrition)
    ensures Sum(ns + [x]) == Add(Sum(ns), x)
  {
    if |ns| == 0 {
      ZeroIdentity(x);
    } else {
      assert (ns + [x])[1..] == ns[1..] + [x];
      SumSnoc(ns[1..], x);
      AddAssociative(ns[0], Sum(ns[1..]), x);
    }
  }

  /** The nutrition of each entry, once every entry has one. */
  function Values(es: seq<Entry>, nutritionOf: NutritionOf): (ns: seq<Nutrition>)
    requires forall i :: 0 <= i < |es| ==> nutritionOf(es[i]).Ok?
    ensures |ns| == |es|
    ensures forall i :: 0 <= i < |es| ==> ns[i] == nutritionOf(es[i]).value
  {
    seq(|es|, i requires 0 <= i < |es| => nutritionOf(es[i]).value)
  }

  /** The total succeeds exactly when every entry's nutrition does, and is then
      their sum. */
  lemma {:induction false} TotalsOk(es: seq<Entry>, nutritionOf: NutritionOf)
    ensures Totals(es, nutritionOf).Ok? <==> forall i :: 0 <= i < |es| ==> nutritionOf(es[i]).Ok?
    ensures Totals(es, nutritionOf).Ok? ==> Totals(es, nutritionOf).value == Sum(Values(es, nutritionOf))
    decreases |es|
  {
    if |es| > 0 {
      var init := es[..|es| - 1];
      var last := es[|es| - 1];
      TotalsOk(init, nutritionOf);
      if Totals(es, nutritionOf).Ok? {
        assert Values(es, nutritionOf) == Values(init, nutritionOf) + [nutritionOf(last).value];
        SumSnoc(Values(init, nutritionOf), nutritionOf(last).value);
      } else if Totals(init, nutritionOf).Err? {
        var i :| 0 <= i < |init| && nutritionOf(init[i]).Err?;
        assert es[i] == init[i];
      }
    }
  }

  /** When entry `i` is the first whose nutrition fails, the total fails with its
      error: no partial total is ever returned. */
  lemma {:induction false} TotalsFirstFailure(es: seq<Entry>, nutritionOf: NutritionOf, i: nat)
    requires i < |es| && nutritionOf(es[i]).Err?
    requires forall j :: 0 <= j < i ==> nutritionOf(es[j]).Ok?
    ensures Totals(es, nutritionOf) == Err(nutritionOf(es[i]).error)
  {
    var prefix := es[..i + 1];
    assert prefix[..i] == es[..i];
    TotalsOk(es[..i], nutritionOf);
    TotalsErrorSticks(es, nutritionOf, i + 1);
  }

  /** The unit shown in a row: the serving's name when the entry names a serving,
      which must then be found; otherwise the food's base-unit token. */
  function UnitName(entry: Entry, food: FoodEntry, servingById: ServingById): (r: Fallible<string>)
    ensures entry.servingId.None? ==> r == Ok(UnitAsStr(food.servingUnit))
    ensures entry.servingId.Some? ==> r.Ok? == servingById(entry.servingId.value).Ok?
    ensures entry.servingId.Some? && r.Ok? ==> r.value == servingById(entry.servingId.value).value.servingName
    ensures entry.servingId.Some? && r.Err? ==> r.error == servingById(entry.servingId.value).error
  {
    match entry.servingId
    case None => Ok(UnitAsStr(food.servingUnit))
    case Some(sid) =>
      match servingById(sid)
      case Err(e) => Err(e)
      case Ok(serving) => Ok(serving.servingName)
  }

  /** What a table row shows, before number formatting. */
  datatype Row = Row(
    entryId: EntryId, createdAt: Timestamp, foodId: FoodId, name: string, brand: string,
    amount: real, unit: string, nutrition: Nutrition)

  /** `render_log_entry_row`: the food first, then the entry's nutrition, then the
      unit name; the first of these to fail fails the row. */
  function RenderRow(db: Db, entry: Entry, nutritionOf: NutritionOf, servingById: ServingById): (r: Fallible<Row>)
    reads db
    ensures db.GetFood(entry.foodId).Err? ==> r == Err(db.GetFood(entry.foodId).error)
    ensures db.GetFood(entry.foodId).Ok? && nutritionOf(entry).Err? ==> r == Err(nutritionOf(entry).error)
    ensures r.Ok? <==> && db.GetFood(entry.foodId).Ok? && nutritionOf(entry).Ok?
                       && UnitName(entry, db.GetFood(entry.foodId).value, servingById).Ok?
  {
    match db.GetFood(entry.foodId)
    case Err(e) => Err(e)
    case Ok(food) =>
      match nutritionOf(entry)
      case Err(e) => Err(e)
      case Ok(n) =>
        match UnitName(entry, food, servingById)
        case Err(e) => Err(e)
        case Ok(unit) => Ok(Row(entry.entryId, entry.createdAt, food.foodId, food.name, food.brand, entry.amount, unit, n))
  }

  /** A rendered row shows the entry's food, its nutrition and its unit. */
  lemma RowContents(db: Db, entry: Entry, nutritionOf: NutritionOf, servingById: ServingById)
    requires RenderRow(db, entry, nutritionOf, servingById).Ok?
    ensures var row := RenderRow(db, entry, nutritionOf, servingById).value;
      && db.GetFood(entry.foodId).Ok? && nutritionOf(entry).Ok?
      && row.foodId == entry.foodId && row.entryId == entry.entryId && row.amount == entry.amount
      && row.name == db.GetFood(entry.foodId).value.name
      && row.nutrition == nutritionOf(entry).value
      && row.unit == (if entry.servingId.Some? then servingById(entry.servingId.value).value.servingName
                      else UnitAsStr(db.GetFood(entry.foodId).value.servingUnit))
  {
  }

  /** A serving id that cannot be looked up fails its row, even when everything
      else about the entry is fine: there is no fallback. */
  lemma MissingServingFailsRow(db: Db, entry: Entry, nutritionOf: NutritionOf, servingById: ServingById)
    requires entry.servingId.Some? && servingById(entry.servingId.value).Err?
    ensures RenderRow(db, entry, nutritionOf, servingById).Err?
  {
  }

  /** The `@for` over the entries, each row with `?`: every row in list order, or
      the error of the first row that fails. */
  function RenderRows(db: Db, es: seq<Entry>, nutritionOf: NutritionOf, servingById: ServingById): (r: Fallible<seq<Row>>)
    reads db
    ensures r.Ok? <==> forall i :: 0 <= i < |es| ==> RenderRow(db, es[i], nutritionOf, servingById).Ok?
    ensures r.Ok? ==> |r.value| == |es|
    ensures r.Ok? ==> forall i :: 0 <= i < |es| ==> RenderRow(db, es[i], nutritionOf, servingById) == Ok(r.value[i])
    decreases |es|
  {
    if |es| == 0 then Ok([])
    else
      match RenderRow(db, es[0], nutritionOf, servingById)
      case Err(e) => Err(e)
      case Ok(row) =>
        match RenderRows(db, es[1..], nutritionOf, servingById)
        case Err(e) => Err(e)
        case Ok(rows) =>
          assert forall i :: 1 <= i < |es| ==> es[i] == es[1..][i - 1];
          Ok([row] + rows)
  }

  /** When row `i` is the first that fails, the rows fail with its error. */
  lemma {:induction false} RowsFirstFailure(db: Db, es: seq<Entry>, nutritionOf: NutritionOf, servingById: ServingById, i: nat)
    requires i < |es| && RenderRow(db, es[i], nutritionOf, servingById).Err?
    requires forall j :: 0 <= j < i ==> RenderRow(db, es[j], nutritionOf, servingById).Ok?
    ensures RenderRows(db, es, nutritionOf, servingById) == Err(RenderRow(db, es[i], nutritionOf, servingById).error)
    decreases i
  {
    if i > 0 {
      assert es[1..][i - 1] == es[i];
      assert forall j :: 0 <= j < i - 1 ==> es[1..][j] == es[j + 1];
      RowsFirstFailure(db, es[1..], nutritionOf, servingById, i - 1);
    }
  }

  datatype LogTable = NoFoodLogged | Table(rows: seq<Row>)

  /** `render_log_table`: the "No food logged for this date." message for an empty
      day, otherwise the rows. */
  function RenderTable(db: Db, es: seq<Entry>, nutritionOf: NutritionOf, servingById: ServingById): (r: Fallible<LogTable>)
    reads db
    ensures |es| == 0 <==> r == Ok(NoFoodLogged)
    ensures |es| > 0 ==> r.Ok? == RenderRows(db, es, nutritionOf, servingById).Ok?
    ensures |es| > 0 && r.Ok? ==> r.value == Table(RenderRows(db, es, nutritionOf, servingById).value)
  {
    if |es| == 0 then Ok(NoFoodLogged)
    else
      match RenderRows(db, es, nutritionOf, servingById)
      case Err(e) => Err(e)
      case Ok(rows) => Ok(Table(rows))
  }

  function Nutritions(rows: seq<Row>): (ns: seq<Nutrition>)
    ensures |ns| == |rows|
    ensures forall i :: 0 <= i < |rows| ==> ns[i] == rows[i].nutrition
  {
    seq(|rows|, i requires 0 <= i < |rows| => rows[i].nutrition)
  }

  /** Rows and totals both use `Entry::nutrition`, so once the table has rendered
      the totals cannot fail, and they are the sum of the rows' nutrition. */
  lemma TableThenTotals(db: Db, es: seq<Entry>, nutritionOf: NutritionOf, servingById: ServingById)
    requires RenderTable(db, es, nutritionOf, servingById).Ok?
    ensures Totals(es, nutritionOf).Ok?
    ensures RenderTable(db, es, nutritionOf, servingById).value.Table? ==>
      Totals(es, nutritionOf).value == Sum(Nutritions(RenderTable(db, es, nutritionOf, servingById).value.rows))
  {
    if |es| > 0 {
      var rows := RenderRows(db, es, nutritionOf, servingById).value;
      forall i | 0 <= i < |es| ensures nutritionOf(es[i]).Ok? && rows[i].nutrition == nutritionOf(es[i]).value {
        RowContents(db, es[i], nutritionOf, servingById);
      }
      TotalsOk(es, nutritionOf);
      assert Nutritions(rows) == Values(es, nutritionOf);
    } else {
      TotalsOk(es, nutritionOf);
    }
  }

  /** What the page shows besides navigation. */
  datatype LogPage = LogPage(date: Dates.Date, table: LogTable, totals: Nutrition)

  /** `handler`: the date is parsed first, so a bad date fails before the store's
      lock is tried; then the day's entries are listed, the table rendered and the
      totals computed. */
  method Handler(db: Db, path: string, lockFree: bool, nutritionOf: NutritionOf, servingById: ServingById)
    returns (r: Fallible<LogPage>)
    requires db.Valid()
    ensures Dates.TryFrom(path).Err? ==> r == Err(Dates.InvalidDate(path))
    ensures Dates.TryFrom(path).Ok? && !lockFree ==> r == Err(LockError)
    ensures Dates.TryFrom(path).Ok? && lockFree ==>
      exists es :: db.IsDayListing(Dates.TryFrom(path).value.inner, es)
        && (r.Ok? <==> RenderTable(db, es, nutritionOf, servingById).Ok?)
        && (r.Err? ==> r.error == RenderTable(db, es, nutritionOf, servingById).error)
        && (r.Ok? ==> && r.value.date == Dates.TryFrom(path).value
                      && RenderTable(db, es, nutritionOf, servingById) == Ok(r.value.table)
                      && Totals(es, nutritionOf) == Ok(r.value.totals))
  {
    var parsed := Dates.TryFrom(path);
    if parsed.Err? {
      return Err(parsed.error);
    }
    var date := parsed.value;
    if !lockFree {
      return Err(LockError);
    }
    var entries := db.ListEntries(date.inner);
    var table := RenderTable(db, entries, nutritionOf, servingById);
    if table.Err? {
      return Err(table.error);
    }
    TableThenTotals(db, entries, nutritionOf, servingById);
    var totals := CalculateTotals(entries, nutritionOf);
    r := Ok(LogPage(date, table.value, totals.value));
    assert db.IsDayListing(date.inner, entries);
  }

  /** `LogViewHandler::url`: the page's path, from which the date reads back. */
  function Url(date: Dates.Date): (u: string)
    ensures |u| == 15 && u[..5] == "/log/"
    ensures Dates.TryFrom(u[5..]) == Ok(date)
  {
    var u := "/log/" + Dates.ToString(date);
    assert u[5..] == Dates.ToString(date);
    Dates.TryFromToString(date);
    u
  }
}
