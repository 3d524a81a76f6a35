/** The entry form of src/routes/log_new.rs for one chosen food: its URL and the
    route that matches it, the serving options offered, and the handling of the
    posted form. */
module LogNew {
  import opened Wrappers
  import opened Errors
  import opened Decimal
  import Dates
  import opened Db
  import LogView

  /** `LogNewHandler::url`: the page for choosing a food. */
  function Url(date: Dates.Date): (u: string)
    ensures u == LogView.Url(date) + "/new"
  {
    "/log/" + Dates.ToString(date) + "/new"
  }

  /** `LogNewHandler::url_with_food_id`. */
  function UrlWithFoodId(date: Dates.Date, foodId: FoodId): (u: string)
    ensures u == Url(date) + "/food/" + IntToString(foodId)
  {
    "/log/" + Dates.ToString(date) + "/new/food/" + IntToString(foodId)
  }

  /** The position of the first `c` in `s`. */
  function IndexOf(s: string, c: char): (i: nat)
    requires c in s
    ensures i < |s| && s[i] == c && c !in s[..i]
  {
    if s[0] == c then 0
    else
      var i := 1 + IndexOf(s[1..], c);
      assert s[..i] == [s[0]] + s[1..][..i - 1];
      i
  }

  /** A path cut at every `/`. */
  function Split(s: string): (parts: seq<string>)
    ensures |parts| >= 1
    decreases |s|
  {
    if '/' !in s then [s]
    else
      var i := IndexOf(s, '/');
      [s[..i]] + Split(s[i + 1..])
  }

  /** Segments put back together with `/` between them. */
  function Join(parts: seq<string>): string
    requires |parts| >= 1
  {
    if |parts| == 1 then parts[0] else parts[0] + "/" + Join(parts[1..])
  }

  /** The first `/` after a segment without one is the one that follows it. */
  lemma FirstSlash(head: string, rest: string)
    requires '/' !in head
    ensures var s := head + "/" + rest;
      '/' in s && IndexOf(s, '/') == |head| && s[..|head|] == head && s[|head| + 1..] == rest
  {
    var s := head + "/" + rest;
    assert s[|head|] == '/';
    var i := IndexOf(s, '/');
    assert forall k :: 0 <= k < |head| ==> s[k] == head[k];
    assert forall k :: 0 <= k < i ==> s[..i][k] == s[k];
    assert s[..|head|] == head && s[|head| + 1..] == rest;
  }

  /** Cutting a joined path gives back its segments, when none holds a `/`. */
  lemma {:induction false} SplitJoin(parts: seq<string>)
    requires |parts| >= 1
    requires forall k :: 0 <= k < |parts| ==> '/' !in parts[k]
    ensures Split(Join(parts)) == parts
  {
    if |parts| > 1 {
      var head, rest := parts[0], Join(parts[1..]);
      FirstSlash(head, rest);
      SplitJoin(parts[1..]);
    }
  }

  /** Putting the pieces of a cut path back together gives the path. */
  lemma {:induction false} JoinSplit(s: string)
    ensures Join(Split(s)) == s
    decreases |s|
  {
    var parts := Split(s);
    if '/' in s {
      var i := IndexOf(s, '/');
      var tail := Split(s[i + 1..]);
      assert parts == [s[..i]] + tail;
      assert parts[1..] == tail && |parts| > 1;
      JoinSplit(s[i + 1..]);
      assert Join(parts) == s[..i] + "/" + Join(tail);
      assert s == s[..i] + "/" + s[i + 1..];
    } else {
      assert parts == [s];
    }
  }

  /** The route `/log/{date}/new/food/{food_id}`: the two captured segments of a
      path that has the route's shape. */
  function MatchFoodRoute(path: string): (r: Option<(string, string)>)
    ensures r.Some? ==> '/' !in r.value.0 && '/' !in r.value.1 && r.value.0 != "" && r.value.1 != ""
    ensures r.Some? ==> path == "/log/" + r.value.0 + "/new/food/" + r.value.1
  {
    var segs := Split(path);
    if && |segs| == 6 && segs[0] == "" && segs[1] == "log" && segs[3] == "new" && segs[4] == "food"
       && segs[2] != "" && segs[5] != "" && '/' !in segs[2] && '/' !in segs[5]
    then
      JoinSplit(path);
      assert segs == ["", "log", segs[2], "new", "food", segs[5]];
      JoinRoute(segs[2], segs[5]);
      Some((segs[2], segs[5]))
    else None
  }

  lemma NoSlashInNumber(n: int)
    ensures '/' !in IntToString(n)
  {
    var s := IntToString(n);
    assert forall k :: 0 <= k < |s| ==> IsDigit(s[k]) || s[k] == '-';
  }

  /** The six segments of the route joined by slashes. */
  lemma JoinRoute(d: string, f: string)
    ensures Join(["", "log", d, "new", "food", f]) == "/log/" + d + "/new/food/" + f
  {
    var parts := ["", "log", d, "new", "food", f];
    assert parts[5..] == [f];
    assert parts[4..] == ["food"] + parts[5..];
    assert Join(parts[4..]) == "food/" + f;
    assert parts[3..] == ["new"] + parts[4..];
    assert Join(parts[3..]) == "new/food/" + f;
    assert parts[2..] == [d] + parts[3..];
    assert Join(parts[2..]) == d + "/new/food/" + f;
    assert Join(parts[1..]) == "log/" + d + "/new/food/" + f;
  }

  /** Every path of the route's shape is matched, with its own two segments as
      the captures. */
  lemma RouteMatchesPath(d: string, f: string)
    requires d != "" && f != "" && '/' !in d && '/' !in f
    ensures MatchFoodRoute("/log/" + d + "/new/food/" + f) == Some((d, f))
  {
    var parts := ["", "log", d, "new", "food", f];
    JoinRoute(d, f);
    SplitJoin(parts);
  }

  /** The URL built for a date and a food is matched by the route, and its two
      captures decode to that date and that food id. */
  lemma UrlMatchesRoute(date: Dates.Date, foodId: FoodId)
    requires IsI64(foodId)
    ensures MatchFoodRoute(UrlWithFoodId(date, foodId)) == Some((Dates.ToString(date), IntToString(foodId)))
    ensures Dates.TryFrom(Dates.ToString(date)) == Ok(date)
    ensures ParseI64(IntToString(foodId)) == Ok(foodId)
  {
    var d, f := Dates.ToString(date), IntToString(foodId);
    Dates.TryFromToString(date);
    assert '/' !in d by {
      assert Dates.Format(date.inner) == d;
    }
    NoSlashInNumber(foodId);
    RouteMatchesPath(d, f);
    ParseIntToString(foodId);
  }

  /** The `serving_id` field: empty means no serving, anything else must parse as
      a 64-bit integer, and a failure is the integer-parse error. */
  function ParseServingField(s: string): (r: Fallible<Option<ServingId>>)
    ensures r == Ok(None) <==> s == ""
    ensures s != "" ==> (r.Ok? <==> ParseI64(s).Ok?)
    ensures s != "" && r.Ok? ==> r.value == Some(ParseI64(s).value) && IsI64(r.value.value)
    ensures r.Err? ==> r.error == ParseIntError
  {
    if |s| == 0 then Ok(None)
    else
      match ParseI64(s)
      case Ok(v) => Ok(Some(v))
      case Err(e) => Err(e)
  }

  /** The value of a serving's option reads back as that serving's id. */
  lemma ParseServingFieldRoundTrip(id: ServingId)
    requires IsI64(id)
    ensures ParseServingField(IntToString(id)) == Ok(Some(id))
  {
    ParseIntToString(id);
  }

  /** An `<option>` of the serving select: the submitted value and the shown text. */
  datatype SelectOption = SelectOption(value: string, text: string)

  /** The base serving's option. */
  function BaseOption(unit: ServingUnit): SelectOption {
    SelectOption("", "Base serving (100" + UnitAsStr(unit) + ")")
  }

  /** A serving's option; `formatAmount` is the `{}` formatting of a float. */
  function ServingOption(s: Serving, unit: ServingUnit, formatAmount: real -> string): SelectOption {
    SelectOption(IntToString(s.servingId),
      s.servingName + " (" + formatAmount(s.servingAmount) + " " + UnitAsStr(unit) + ")")
  }

  /** Posting a serving's option back selects that serving, and the option's
      text starts with the serving's name. */
  lemma ServingOptionPostsBack(s: Serving, unit: ServingUnit, formatAmount: real -> string)
    requires IsI64(s.servingId)
    ensures ParseServingField(ServingOption(s, unit, formatAmount).value) == Ok(Some(s.servingId))
    ensures var text := ServingOption(s, unit, formatAmount).text;
      |text| > |s.servingName| && text[..|s.servingName|] == s.servingName
  {
    ParseServingFieldRoundTrip(s.servingId);
    var text := ServingOption(s, unit, formatAmount).text;
    assert text[..|s.servingName|] == s.servingName;
  }

  /** The `options` vector: the base serving first, then one option per serving
      in list order. Posting an option back selects what it shows. */
  method ServingOptions(unit: ServingUnit, servings: seq<Serving>, formatAmount: real -> string)
    returns (options: seq<SelectOption>)
    ensures |options| == |servings| + 1
    ensures options[0] == BaseOption(unit)
    ensures forall i :: 0 <= i < |servings| ==> options[i + 1] == ServingOption(servings[i], unit, formatAmount)
  {
    options := [BaseOption(unit)];
    for i := 0 to |servings|
      invariant |options| == i + 1 && options[0] == BaseOption(unit)
      invariant forall k :: 0 <= k < i ==> options[k + 1] == ServingOption(servings[k], unit, formatAmount)
    {
      options := options + [ServingOption(servings[i], unit, formatAmount)];
    }
  }

  /** Posting back any option of the list selects what the option shows: the
      base serving for the first, and the listed serving for every other. */
  lemma OptionsPostBack(unit: ServingUnit, servings: seq<Serving>, formatAmount: real -> string,
                        options: seq<SelectOption>)
    requires |options| == |servings| + 1 && options[0] == BaseOption(unit)
    requires forall i :: 0 <= i < |servings| ==> options[i + 1] == ServingOption(servings[i], unit, formatAmount)
    ensures ParseServingField(options[0].value) == Ok(None)
    ensures forall i :: 1 <= i < |options| && IsI64(servings[i - 1].servingId) ==>
      ParseServingField(options[i].value) == Ok(Some(servings[i - 1].servingId))
  {
    forall i | 1 <= i < |options| && IsI64(servings[i - 1].servingId)
      ensures ParseServingField(options[i].value) == Ok(Some(servings[i - 1].servingId))
    {
      assert options[(i - 1) + 1] == ServingOption(servings[i - 1], unit, formatAmount);
      ServingOptionPostsBack(servings[i - 1], unit, formatAmount);
    }
  }

  /** The page title: the name, and the brand after a dash when there is one. */
  function Title(food: FoodEntry): (t: string)
    ensures |t| >= |food.name| && t[..|food.name|] == food.name
    ensures t == food.name <==> food.brand == ""
    ensures food.brand != "" ==> |t| >= |food.brand| && t[|t| - |food.brand|..] == food.brand
  {
    if food.brand == "" then food.name
    else
      var t := food.name + " — " + food.brand;
      assert t[..|food.name|] == food.name;
      assert t[|t| - |food.brand|..] == food.brand;
      t
  }

  /** A branded title cuts back into the name, the dash and the brand. */
  lemma TitleParts(food: FoodEntry)
    requires food.brand != ""
    ensures var t := Title(food);
      |t| == |food.name| + 3 + |food.brand| && t[|food.name|..|food.name| + 3] == " — "
  {
    var t := Title(food);
    assert t == food.name + " — " + food.brand;
  }

  /** The form page for one food, without its markup. */
  datatype FoodForm = FoodForm(title: string, action: string, foodIdValue: string, options: seq<SelectOption>)

  /** `get_handler_with_food_id`: the lock, the food and its servings come before
      the date, so an unknown food is reported even when the date is bad too. */
  method GetHandlerWithFoodId(db: Db, pathDate: string, foodId: FoodId, lockFree: bool, formatAmount: real -> string)
    returns (r: Fallible<FoodForm>)
    requires db.Valid()
    ensures !lockFree ==> r == Err(LockError)
    ensures lockFree && foodId !in db.foods ==> r == Err(NoRows)
    ensures lockFree && foodId in db.foods && Dates.TryFrom(pathDate).Err? ==> r == Err(Dates.InvalidDate(pathDate))
    ensures lockFree && foodId in db.foods && Dates.TryFrom(pathDate).Ok? ==>
      && r.Ok?
      && r.value.title == Title(db.GetFood(foodId).value)
      && r.value.action == UrlWithFoodId(Dates.TryFrom(pathDate).value, foodId)
      && r.value.foodIdValue == IntToString(foodId)
      && exists servings :: db.IsServingListing(foodId, servings)
           && |r.value.options| == |servings| + 1
           && r.value.options[0] == BaseOption(db.GetFood(foodId).value.servingUnit)
           && forall i :: 0 <= i < |servings| ==>
                r.value.options[i + 1] == ServingOption(servings[i], db.GetFood(foodId).value.servingUnit, formatAmount)
  {
    if !lockFree {
      return Err(LockError);
    }
    var food := db.GetFood(foodId);
    if food.Err? {
      return Err(food.error);
    }
    var servings := db.ListServings(foodId);
    var date := Dates.TryFrom(pathDate);
    if date.Err? {
      return Err(date.error);
    }
    var options := ServingOptions(food.value.servingUnit, servings, formatAmount);
    r := Ok(FoodForm(Title(food.value), UrlWithFoodId(date.value, foodId), IntToString(foodId), options));
    assert db.IsServingListing(foodId, servings);
  }

  /** The posted form. */
  datatype LogFoodForm = LogFoodForm(foodId: FoodId, servingId: string, amount: real)

  /** The entry a post creates: the food id comes from the form, never from the path. */
  function EntryInput(date: Dates.Date, form: LogFoodForm, servingId: Option<ServingId>, now: Timestamp): (input: CreateEntryInput)
    ensures input.foodId == form.foodId && input.date == date.inner
  {
    CreateEntryInput(date.inner, form.foodId, servingId, form.amount, now)
  }

  /** `post_handler`: the date, then the serving field, then the lock; any of
      them failing leaves the store as it was. Otherwise one entry is added and
      the answer is a redirect to the day's page. `now` is `Utc::now()`. */
  method PostHandler(db: Db, pathDate: string, pathFoodId: FoodId, form: LogFoodForm, now: Timestamp, lockFree: bool)
    returns (r: Fallible<string>)
    requires db.Valid()
    modifies db
    ensures db.Valid()
    ensures Dates.TryFrom(pathDate).Err? ==> r == Err(Dates.InvalidDate(pathDate)) && unchanged(db)
    ensures Dates.TryFrom(pathDate).Ok? && ParseServingField(form.servingId).Err? ==>
      r == Err(ParseIntError) && unchanged(db)
    ensures Dates.TryFrom(pathDate).Ok? && ParseServingField(form.servingId).Ok? && !lockFree ==>
      r == Err(LockError) && unchanged(db)
    ensures Dates.TryFrom(pathDate).Ok? && ParseServingField(form.servingId).Ok? && lockFree ==>
      var input := EntryInput(Dates.TryFrom(pathDate).value, form, ParseServingField(form.servingId).value, now);
      && r == Ok(LogView.Url(Dates.TryFrom(pathDate).value))
      && db.foods == old(db.foods) && db.servings == old(db.servings)
      && exists id :: id !in old(db.entries) && 1 <= id
           && db.entries == old(db.entries)[id := EntryRow(Dates.Format(input.date), input.foodId,
                input.servingId, input.amount, input.createdAt)]
  {
    var date := Dates.TryFrom(pathDate);
    if date.Err? {
      return Err(date.error);
    }
    var servingId := ParseServingField(form.servingId);
    if servingId.Err? {
      return Err(servingId.error);
    }
    var input := EntryInput(date.value, form, servingId.value, now);
    if !lockFree {
      return Err(LockError);
    }
    var id := db.CreateEntry(input);
    r := Ok(LogView.Url(date.value));
  }
}
