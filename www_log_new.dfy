/** `String.prototype.trim` of the entry page's script: the white space it cuts
    from both ends of the search box's text. */
module JsTrim {
  /** The characters `String.prototype.trim` removes: white space and line
      terminators. */
  predicate IsJsSpace(c: char) {
    || c == '\t' || c == '\n' || c == '\U{0B}' || c == '\U{0C}' || c == '\r' || c == ' '
    || c == '\U{A0}' || c == '\U{1680}' || ('\U{2000}' <= c <= '\U{200A}')
    || c == '\U{2028}' || c == '\U{2029}' || c == '\U{202F}' || c == '\U{205F}'
    || c == '\U{3000}' || c == '\U{FEFF}'
  }

  /** Nothing but white space. */
  predicate AllSpace(s: string) {
    forall k :: 0 <= k < |s| ==> IsJsSpace(s[k])
  }

  /** `s[i..j]` is what is left of `s` once only white space is cut from its ends. */
  predicate IsTrimmedSlice(s: string, i: int, j: int) {
    0 <= i <= j <= |s| && AllSpace(s[..i]) && AllSpace(s[j..])
  }

  /** `trimStart`: leading white space removed. */
  function TrimStart(s: string): (r: string)
    ensures |r| <= |s| && r == s[|s| - |r|..]
    ensures AllSpace(s[..|s| - |r|])
    ensures |r| > 0 ==> !IsJsSpace(r[0])
  {
    if |s| > 0 && IsJsSpace(s[0]) then
      var r := TrimStart(s[1..]);
      var cut, rest := s[..|s| - |r|], s[1..][..|s| - 1 - |r|];
      assert forall k :: 1 <= k < |cut| ==> cut[k] == rest[k - 1];
      r
    else s
  }

  /** `trimEnd`: trailing white space removed. */
  function TrimEnd(s: string): (r: string)
    ensures |r| <= |s| && r == s[..|r|]
    ensures AllSpace(s[|r|..])
    ensures |r| > 0 ==> !IsJsSpace(r[|r| - 1])
  {
    if |s| > 0 && IsJsSpace(s[|s| - 1]) then
      var r := TrimEnd(s[..|s| - 1]);
      assert s[|r|..] == s[..|s| - 1][|r|..] + [s[|s| - 1]];
      r
    else s
  }

  /** `trim`: white space removed from both ends. */
  function Trim(s: string): (r: string)
    ensures |r| == 0 <==> AllSpace(s)
    ensures |r| > 0 ==> !IsJsSpace(r[0]) && !IsJsSpace(r[|r| - 1])
    ensures exists i, j :: IsTrimmedSlice(s, i, j) && r == s[i..j]
  {
    var t := TrimStart(s);
    var r := TrimEnd(t);
    TrimmedSlice(s, t, r);
    r
  }

  /** Cutting white space from the front and then from the back leaves a slice
      of the text with only white space around it. */
  lemma TrimmedSlice(s: string, t: string, r: string)
    requires |t| <= |s| && t == s[|s| - |t|..] && AllSpace(s[..|s| - |t|])
    requires |r| <= |t| && r == t[..|r|] && AllSpace(t[|r|..])
    requires |r| > 0 ==> !IsJsSpace(r[0])
    ensures IsTrimmedSlice(s, |s| - |t|, |s| - |t| + |r|) && r == s[|s| - |t|..|s| - |t| + |r|]
    ensures |r| == 0 <==> AllSpace(s)
  {
    var i := |s| - |t|;
    var j := i + |r|;
    assert r == s[i..j];
    assert s[j..] == t[|r|..];
    if |r| == 0 {
      assert s == s[..i] + s[j..];
    } else {
      assert s[i] == r[0];
    }
  }
}

/** The entry form of crates/www/src/routes/log_new.rs: the food list handed to the
    page's script as a JavaScript array literal, the script's fuzzy search over
    it, and the handling of the posted form. */
module WwwLogNew {
  import opened Wrappers
  import opened Errors
  import opened Decimal
  import Dates
  import opened Db
  import LogNew
  import WwwLogView
  import opened JsTrim

  // ---------------------------------------------------------------------------
  // fuzzyMatch

  /** `toLowerCase`, one character at a time; `lower` stands for the per-character
      mapping. */
  function LowerAll(s: string, lower: char -> char): (r: string)
    ensures |r| == |s| && forall i :: 0 <= i < |s| ==> r[i] == lower(s[i])
  {
    seq(|s|, i requires 0 <= i < |s| => lower(s[i]))
  }

  /** The greedy scan: each pattern character is matched by the first equal
      character not yet passed. */
  predicate Greedy(p: string, s: string)
    decreases |s|
  {
    if |p| == 0 then true
    else if |s| == 0 then false
    else if p[0] == s[0] then Greedy(p[1..], s[1..])
    else Greedy(p, s[1..])
  }

  /** `idx` picks, in increasing positions of `s`, the characters of `p`. */
  ghost predicate IsEmbedding(idx: seq<int>, p: string, s: string) {
    && |idx| == |p|
    && (forall k :: 0 <= k < |idx| ==> 0 <= idx[k] < |s| && s[idx[k]] == p[k])
    && (forall j, k :: 0 <= j < k < |idx| ==> idx[j] < idx[k])
  }

  /** `p` is a subsequence of `s`. */
  ghost predicate IsSubsequence(p: string, s: string) {
    exists idx :: IsEmbedding(idx, p, s)
  }

  function Shift(idx: seq<int>, d: int): (r: seq<int>)
    ensures |r| == |idx| && forall k :: 0 <= k < |idx| ==> r[k] == idx[k] + d
  {
    seq(|idx|, k requires 0 <= k < |idx| => idx[k] + d)
  }

  lemma {:induction false} GreedyGivesEmbedding(p: string, s: string) returns (idx: seq<int>)
    requires Greedy(p, s)
    ensures IsEmbedding(idx, p, s)
    decreases |s|
  {
    if |p| == 0 {
      idx := [];
    } else if p[0] == s[0] {
      var tail := GreedyGivesEmbedding(p[1..], s[1..]);
      idx := [0] + Shift(tail, 1);
      forall k | 0 < k < |idx| ensures 0 <= idx[k] < |s| && s[idx[k]] == p[k] {
        assert s[idx[k]] == s[1..][tail[k - 1]];
      }
    } else {
      var tail := GreedyGivesEmbedding(p, s[1..]);
      idx := Shift(tail, 1);
      forall k | 0 <= k < |idx| ensures s[idx[k]] == p[k] {
        assert s[idx[k]] == s[1..][tail[k]];
      }
    }
  }

  lemma {:induction false} EmbeddingGivesGreedy(idx: seq<int>, p: string, s: string)
    requires IsEmbedding(idx, p, s)
    ensures Greedy(p, s)
    decreases |s|
  {
    if |p| > 0 {
      assert 0 <= idx[0] < |s|;
      if p[0] == s[0] {
        var tail := Shift(idx[1..], -1);
        forall k | 0 <= k < |tail| ensures 0 <= tail[k] < |s| - 1 && s[1..][tail[k]] == p[1..][k] {
          assert idx[0] < idx[k + 1];
        }
        EmbeddingGivesGreedy(tail, p[1..], s[1..]);
      } else {
        assert idx[0] != 0;
        var tail := Shift(idx, -1);
        forall k | 0 <= k < |tail| ensures 0 <= tail[k] < |s| - 1 && s[1..][tail[k]] == p[k] {
          if k > 0 {
            assert idx[0] < idx[k];
          }
        }
        EmbeddingGivesGreedy(tail, p, s[1..]);
      }
    }
  }

  /** The greedy scan succeeds exactly when the pattern is a subsequence. */
  lemma GreedyIffSubsequence(p: string, s: string)
    ensures Greedy(p, s) <==> IsSubsequence(p, s)
  {
    if Greedy(p, s) {
      var idx := GreedyGivesEmbedding(p, s);
    }
    if IsSubsequence(p, s) {
      var idx :| IsEmbedding(idx, p, s);
      EmbeddingGivesGreedy(idx, p, s);
    }
  }

  /** What `fuzzyMatch(pattern, str)` returns. */
  predicate FuzzyMatches(pattern: string, str: string, lower: char -> char) {
    Greedy(LowerAll(pattern, lower), LowerAll(str, lower))
  }

  /** `fuzzyMatch`: both strings lowered, then the two indices advance until one
      runs out; the result says whether the whole pattern was matched. */
  method FuzzyMatch(pattern: string, str: string, lower: char -> char) returns (r: bool)
    ensures r == FuzzyMatches(pattern, str, lower)
    ensures r <==> IsSubsequence(LowerAll(pattern, lower), LowerAll(str, lower))
    ensures |pattern| == 0 ==> r
  {
    var p := LowerAll(pattern, lower);
    var s := LowerAll(str, lower);
    var patternIdx, strIdx := 0, 0;
    while patternIdx < |p| && strIdx < |s|
      invariant 0 <= patternIdx <= |p| && 0 <= strIdx <= |s|
      invariant Greedy(p, s) == Greedy(p[patternIdx..], s[strIdx..])
      decreases |s| - strIdx
    {
      assert p[patternIdx..][1..] == p[patternIdx + 1..];
      assert s[strIdx..][1..] == s[strIdx + 1..];
      if p[patternIdx] == s[strIdx] {
        patternIdx := patternIdx + 1;
      }
      strIdx := strIdx + 1;
    }
    r := patternIdx == |p|;
    GreedyIffSubsequence(p, s);
  }

  // ---------------------------------------------------------------------------
  // the search box

  /** The filter's test: the query matches the name or the brand. */
  predicate Matches(query: string, food: FoodListEntry, lower: char -> char) {
    FuzzyMatches(query, food.name, lower) || FuzzyMatches(query, food.brand, lower)
  }

  /** `foods.filter(...)`: the matching foods, in library order. */
  function Filter(foods: seq<FoodListEntry>, query: string, lower: char -> char): (r: seq<FoodListEntry>)
    ensures |r| <= |foods|
    ensures forall f :: f in r <==> f in foods && Matches(query, f, lower)
  {
    if |foods| == 0 then []
    else
      var rest := Filter(foods[1..], query, lower);
      assert forall f :: f in foods <==> f == foods[0] || f in foods[1..];
      if Matches(query, foods[0], lower) then [foods[0]] + rest else rest
  }

  /** Filtering keeps the library order: a list cut in two filters to the two
      filtered halves, one after the other. */
  lemma {:induction false} FilterAppend(a: seq<FoodListEntry>, b: seq<FoodListEntry>, query: string, lower: char -> char)
    ensures Filter(a + b, query, lower) == Filter(a, query, lower) + Filter(b, query, lower)
  {
    if |a| > 0 {
      assert (a + b)[1..] == a[1..] + b;
      FilterAppend(a[1..], b, query, lower);
    } else {
      assert a + b == b;
    }
  }

  /** What the results box shows. */
  datatype SearchView = Hidden | NoMatches | Shown(results: seq<FoodListEntry>)

  /** The `input` listener: a blank query hides the box; otherwise the first ten
      matching foods are shown, or "No matches found". */
  function Search(input: string, foods: seq<FoodListEntry>, lower: char -> char): (v: SearchView)
    ensures v == Hidden <==> forall k :: 0 <= k < |input| ==> IsJsSpace(input[k])
    ensures v == NoMatches <==> Trim(input) != "" && forall f :: f in foods ==> !Matches(Trim(input), f, lower)
    ensures v.Shown? ==> 1 <= |v.results| <= 10
    ensures v.Shown? ==> var all := Filter(foods, Trim(input), lower);
      |v.results| <= |all| && v.results == all[..|v.results|] && (|v.results| < 10 ==> v.results == all)
  {
    var query := Trim(input);
    if query == "" then Hidden
    else
      var all := Filter(foods, query, lower);
      var matches := if |all| <= 10 then all else all[..10];
      if |matches| == 0 then
        assert forall f :: f in foods ==> !Matches(query, f, lower) by {
          forall f | f in foods ensures !Matches(query, f, lower) {
            assert f in all <==> Matches(query, f, lower);
          }
        }
        NoMatches
      else
        assert matches == all[..|matches|];
        assert matches[0] in all;
        Shown(matches)
  }

  // ---------------------------------------------------------------------------
  // foods_json

  /** The number of double quotes in `t`. */
  function QuoteCount(t: string): nat {
    if |t| == 0 then 0 else (if t[0] == '"' then 1 else 0) + QuoteCount(t[1..])
  }

  /** `str.replace('"', "\\\"")`: each double quote preceded by a backslash, and
      nothing else escaped. */
  function QuoteEscape(t: string): (r: string)
    ensures |r| == |t| + QuoteCount(t)
    ensures '"' !in t ==> r == t
    ensures forall k :: 0 <= k < |r| && r[k] == '"' ==> 0 < k && r[k - 1] == '\\'
  {
    if |t| == 0 then ""
    else
      var rest := QuoteEscape(t[1..]);
      if t[0] == '"' then
        var r := ['\\', '"'] + rest;
        assert forall k :: 2 <= k < |r| ==> r[k] == rest[k - 2];
        r
      else
        var r := [t[0]] + rest;
        assert '"' !in t ==> '"' !in t[1..] && t == [t[0]] + t[1..];
        assert forall k :: 1 <= k < |r| ==> r[k] == rest[k - 1];
        r
  }

  /** Undoes `QuoteEscape`: reading left to right, a backslash right before a
      double quote is dropped and everything else is kept. */
  function DropQuoteEscapes(r: string): (t: string)
    ensures |t| <= |r|
  {
    if |r| == 0 then ""
    else if |r| >= 2 && r[0] == '\\' && r[1] == '"' then ['"'] + DropQuoteEscapes(r[2..])
    else [r[0]] + DropQuoteEscapes(r[1..])
  }

  /** Quote escaping loses nothing: dropping the added backslashes gives the
      text back, for every text, backslashes and all. */
  lemma {:induction false} DropQuoteEscapesInverts(t: string)
    ensures DropQuoteEscapes(QuoteEscape(t)) == t
  {
    if |t| > 0 {
      var r, rest := QuoteEscape(t), QuoteEscape(t[1..]);
      DropQuoteEscapesInverts(t[1..]);
      if t[0] == '"' {
        assert r == ['\\', '"'] + rest && r[2..] == rest;
      } else {
        assert r == [t[0]] + rest && r[1..] == rest;
        assert |rest| > 0 ==> rest[0] != '"';
      }
      assert t == [t[0]] + t[1..];
    }
  }

  /** A character as it must appear inside a double-quoted JavaScript string. */
  function EscapeChar(c: char): string {
    if c == '"' then "\\\""
    else if c == '\\' then "\\\\"
    else if c == '\n' then "\\n"
    else if c == '\r' then "\\r"
    else [c]
  }

  /** The escaping a string literal needs: backslashes, quotes and line breaks. */
  function JsEscape(t: string): (r: string)
    ensures |r| >= |t|
  {
    if |t| == 0 then "" else EscapeChar(t[0]) + JsEscape(t[1..])
  }

  /** The character an escape `\c` stands for; escapes this model does not read
      are `None`. */
  function Unescape(c: char): Option<char> {
    if c == '"' || c == '\\' || c == '\'' then Some(c)
    else if c == 'n' then Some('\n')
    else if c == 'r' then Some('\r')
    else if c == 't' then Some('\t')
    else None
  }

  /** Reads the body of a double-quoted string literal up to its closing quote:
      the string it denotes and the text after the quote. A raw line break or
      the end of the text is a syntax error. */
  function ReadBody(s: string): (r: Option<(string, string)>)
    ensures r.Some? ==> |r.value.1| < |s|
    decreases |s|
  {
    if |s| == 0 || s[0] == '\n' || s[0] == '\r' then None
    else if s[0] == '"' then Some(("", s[1..]))
    else if s[0] == '\\' then
      if |s| < 2 then None
      else
        match Unescape(s[1])
        case None => None
        case Some(c) =>
          match ReadBody(s[2..])
          case None => None
          case Some((t, rest)) => Some(([c] + t, rest))
    else
      match ReadBody(s[1..])
      case None => None
      case Some((t, rest)) => Some(([s[0]] + t, rest))
  }

  lemma Assoc(a: string, b: string, c: string)
    ensures (a + b) + c == a + (b + c)
  {
  }

  /** Reading an escaped character, then the rest. */
  lemma ReadEscapeChar(c: char, tail: string)
    ensures ReadBody(EscapeChar(c) + tail) ==
      match ReadBody(tail)
      case None => None
      case Some((t, rest)) => Some(([c] + t, rest))
  {
    var s := EscapeChar(c) + tail;
    if c == '"' || c == '\\' || c == '\n' || c == '\r' {
      assert s[2..] == tail;
    } else {
      assert s[1..] == tail;
    }
  }

  /** Every string escaped with `JsEscape` reads back as itself. */
  lemma {:induction false} ReadJsEscape(t: string, rest: string)
    ensures ReadBody(JsEscape(t) + ("\"" + rest)) == Some((t, rest))
  {
    if |t| == 0 {
      assert JsEscape(t) + ("\"" + rest) == "\"" + rest;
      assert ("\"" + rest)[1..] == rest;
    } else {
      var tail := JsEscape(t[1..]) + ("\"" + rest);
      Assoc(EscapeChar(t[0]), JsEscape(t[1..]), "\"" + rest);
      ReadJsEscape(t[1..], rest);
      ReadEscapeChar(t[0], tail);
      assert [t[0]] + t[1..] == t;
    }
  }

  /** A text the quote-only escaping leaves readable. */
  predicate Plain(t: string) {
    forall k :: 0 <= k < |t| ==> t[k] != '\\' && t[k] != '\n' && t[k] != '\r'
  }

  /** A text with no backslash and no line break is escaped alike both ways. */
  lemma {:induction false} QuoteEscapeAgrees(t: string)
    requires Plain(t)
    ensures QuoteEscape(t) == JsEscape(t)
  {
    if |t| > 0 {
      QuoteEscapeAgrees(t[1..]);
    }
  }

  const IdKey := "{\"id\":"
  const NameKey := ",\"name\":\""
  const BrandKey := ",\"brand\":\""

  /** The object literal of a food, then `rest`. */
  function ObjectThen(f: FoodListEntry, escape: string -> string, rest: string): string {
    IdKey + (IntToString(f.foodId) + (NameKey + (escape(f.name) + ("\"" +
      (BrandKey + (escape(f.brand) + ("\"" + ("}" + rest))))))))
  }

  /** One food as an object literal, its texts escaped by `escape`:
      `{"id":<id>,"name":"<name>","brand":"<brand>"}`. */
  function FoodObject(f: FoodListEntry, escape: string -> string): string {
    ObjectThen(f, escape, "")
  }

  lemma ObjectThenAppend(f: FoodListEntry, escape: string -> string, rest: string)
    ensures FoodObject(f, escape) + rest == ObjectThen(f, escape, rest)
  {
    var c0 := "}" + "";
    assert c0 + rest == "}" + rest;
    var c1 := "\"" + c0;
    Assoc("\"", c0, rest);
    var c2 := escape(f.brand) + c1;
    Assoc(escape(f.brand), c1, rest);
    var c3 := BrandKey + c2;
    Assoc(BrandKey, c2, rest);
    var c4 := "\"" + c3;
    Assoc("\"", c3, rest);
    var c5 := escape(f.name) + c4;
    Assoc(escape(f.name), c4, rest);
    var c6 := NameKey + c5;
    Assoc(NameKey, c5, rest);
    var c7 := IntToString(f.foodId) + c6;
    Assoc(IntToString(f.foodId), c6, rest);
    Assoc(IdKey, c7, rest);
  }

  /** `foods_json`: the objects joined by commas, in list order. */
  function FoodsJson(foods: seq<FoodListEntry>, escape: string -> string): (r: string)
    ensures r == "" <==> |foods| == 0
    ensures |foods| > 0 ==> r[0] == '{'
  {
    if |foods| == 0 then ""
    else if |foods| == 1 then FoodObject(foods[0], escape)
    else FoodObject(foods[0], escape) + ("," + FoodsJson(foods[1..], escape))
  }

  /** The text after `prefix`, when `s` starts with it. */
  function Expect(prefix: string, s: string): (r: Option<string>)
    ensures r.Some? ==> |r.value| <= |s| - |prefix|
  {
    if |prefix| <= |s| && s[..|prefix|] == prefix then Some(s[|prefix|..]) else None
  }

  lemma ExpectPrefix(prefix: string, rest: string)
    ensures Expect(prefix, prefix + rest) == Some(rest)
  {
    assert (prefix + rest)[..|prefix|] == prefix;
    assert (prefix + rest)[|prefix|..] == rest;
  }

  /** An integer up to the next comma. */
  function ReadInt(s: string): (r: Option<(int, string)>)
    ensures r.Some? ==> |r.value.1| < |s|
  {
    if ',' !in s then None
    else
      var i := LogNew.IndexOf(s, ',');
      match ParseI64(s[..i])
      case Err(_) => None
      case Ok(n) => Some((n, s[i..]))
  }

  lemma ReadIntToString(n: int, more: string)
    requires IsI64(n)
    requires |more| > 0 && more[0] == ','
    ensures ReadInt(IntToString(n) + more) == Some((n, more))
  {
    var d := IntToString(n);
    var s := d + more;
    assert ',' !in d by {
      assert forall k :: 0 <= k < |d| ==> IsDigit(d[k]) || d[k] == '-';
    }
    assert s[|d|] == ',';
    var i := LogNew.IndexOf(s, ',');
    assert s[..i] == d && s[i..] == more;
    ParseIntToString(n);
  }

  /** A key, then a string literal: the string and the text after it. */
  function ReadField(key: string, s: string): (r: Option<(string, string)>)
    ensures r.Some? ==> |r.value.1| < |s|
  {
    match Expect(key, s)
    case None => None
    case Some(u) => ReadBody(u)
  }

  lemma ReadFieldEscape(key: string, t: string, rest: string)
    ensures ReadField(key, key + (JsEscape(t) + ("\"" + rest))) == Some((t, rest))
  {
    ExpectPrefix(key, JsEscape(t) + ("\"" + rest));
    ReadJsEscape(t, rest);
  }

  /** Reads `{"id":<integer>,"name":"<string>","brand":"<string>"}`. */
  function ReadFood(s: string): (r: Option<(FoodListEntry, string)>)
    ensures r.Some? ==> |r.value.1| < |s|
  {
    match Expect(IdKey, s)
    case None => None
    case Some(t) =>
      match ReadInt(t)
      case None => None
      case Some((id, u)) =>
        match ReadField(NameKey, u)
        case None => None
        case Some((name, v)) =>
          match ReadField(BrandKey, v)
          case None => None
          case Some((brand, w)) =>
            match Expect("}", w)
            case None => None
            case Some(rest) => Some((FoodListEntry(id, name, brand), rest))
  }

  /** Reads one or more objects separated by commas, then the closing `]`. */
  function ReadElements(s: string): Option<(seq<FoodListEntry>, string)>
    decreases |s|
  {
    match ReadFood(s)
    case None => None
    case Some((f, rest)) =>
      if |rest| >= 1 && rest[0] == ']' then Some(([f], rest[1..]))
      else if |rest| >= 1 && rest[0] == ',' then
        match ReadElements(rest[1..])
        case None => None
        case Some((fs, tail)) => Some(([f] + fs, tail))
      else None
  }

  /** Reads the array literal `[...]` of the page script. */
  function ReadArray(s: string): Option<(seq<FoodListEntry>, string)> {
    if |s| >= 2 && s[..2] == "[]" then Some(([], s[2..]))
    else if |s| >= 1 && s[0] == '[' then ReadElements(s[1..])
    else None
  }

  lemma ReadFoodObject(f: FoodListEntry, rest: string)
    requires IsI64(f.foodId)
    ensures ReadFood(ObjectThen(f, JsEscape, rest)) == Some((f, rest))
  {
    var v := BrandKey + (JsEscape(f.brand) + ("\"" + ("}" + rest)));
    var u := NameKey + (JsEscape(f.name) + ("\"" + v));
    ExpectPrefix(IdKey, IntToString(f.foodId) + u);
    ReadIntToString(f.foodId, u);
    ReadFieldEscape(NameKey, f.name, v);
    ReadFieldEscape(BrandKey, f.brand, "}" + rest);
    ExpectPrefix("}", rest);
  }

  /** The last object of the array, then the closing bracket. */
  lemma ReadLastElement(f: FoodListEntry, rest: string)
    requires IsI64(f.foodId)
    ensures ReadElements(ObjectThen(f, JsEscape, "]" + rest)) == Some(([f], rest))
  {
    ReadFoodObject(f, "]" + rest);
    assert ("]" + rest)[1..] == rest;
  }

  /** An object followed by a comma, then the remaining elements. */
  lemma ReadNextElement(f: FoodListEntry, more: string)
    requires IsI64(f.foodId)
    ensures ReadElements(ObjectThen(f, JsEscape, "," + more)) ==
      match ReadElements(more)
      case None => None
      case Some((fs, tail)) => Some(([f] + fs, tail))
  {
    ReadFoodObject(f, "," + more);
    assert ("," + more)[1..] == more;
  }

  /** The text of a list of two or more foods, then `tail`, is the first
      object followed by a comma and the text of the others. */
  lemma FoodsJsonCons(foods: seq<FoodListEntry>, escape: string -> string, tail: string)
    requires |foods| > 1
    ensures FoodsJson(foods, escape) + tail ==
      ObjectThen(foods[0], escape, "," + (FoodsJson(foods[1..], escape) + tail))
  {
    var j := FoodsJson(foods[1..], escape);
    Assoc(FoodObject(foods[0], escape), "," + j, tail);
    Assoc(",", j, tail);
    ObjectThenAppend(foods[0], escape, "," + (j + tail));
  }

  lemma ReadSingleElement(foods: seq<FoodListEntry>, rest: string)
    requires |foods| == 1 && IsI64(foods[0].foodId)
    ensures ReadElements(FoodsJson(foods, JsEscape) + ("]" + rest)) == Some((foods, rest))
  {
    ObjectThenAppend(foods[0], JsEscape, "]" + rest);
    ReadLastElement(foods[0], rest);
    assert [foods[0]] == foods;
  }

  lemma ReadConsElements(foods: seq<FoodListEntry>, rest: string)
    requires |foods| > 1 && IsI64(foods[0].foodId)
    requires ReadElements(FoodsJson(foods[1..], JsEscape) + ("]" + rest)) == Some((foods[1..], rest))
    ensures ReadElements(FoodsJson(foods, JsEscape) + ("]" + rest)) == Some((foods, rest))
  {
    var more := FoodsJson(foods[1..], JsEscape) + ("]" + rest);
    FoodsJsonCons(foods, JsEscape, "]" + rest);
    ReadNextElement(foods[0], more);
    ReadAsWholeList(FoodsJson(foods, JsEscape) + ("]" + rest), foods, rest);
  }

  /** Whatever reads as the first food put ahead of the others reads as the list. */
  lemma ReadAsWholeList(s: string, foods: seq<FoodListEntry>, rest: string)
    requires |foods| > 0 && ReadElements(s) == Some(([foods[0]] + foods[1..], rest))
    ensures ReadElements(s) == Some((foods, rest))
  {
    assert [foods[0]] + foods[1..] == foods;
  }

  lemma {:induction false} ReadElementsJson(foods: seq<FoodListEntry>, rest: string)
    requires |foods| > 0
    requires forall k :: 0 <= k < |foods| ==> IsI64(foods[k].foodId)
    ensures ReadElements(FoodsJson(foods, JsEscape) + ("]" + rest)) == Some((foods, rest))
    decreases |foods|
  {
    if |foods| == 1 {
      ReadSingleElement(foods, rest);
    } else {
      ReadElementsJson(foods[1..], rest);
      ReadConsElements(foods, rest);
    }
  }

  lemma ReadEmptyArray(rest: string)
    ensures ReadArray("[" + ("]" + rest)) == Some(([], rest))
  {
    var s := "[" + ("]" + rest);
    assert s[..2] == "[]" && s[2..] == rest;
  }

  lemma ReadArrayOpen(body: string)
    requires |body| > 0 && body[0] == '{'
    ensures ReadArray("[" + body) == ReadElements(body)
  {
    var s := "[" + body;
    assert s[1..] == body;
    assert s[..2] != "[]" by {
      assert s[..2][1] == '{';
    }
    assert |s| >= 1 && s[0] == '[';
  }

  /** With escaping that covers backslashes and line breaks, the script reads
      the array back as the food list it was built from. */
  lemma ReadFoodsJson(foods: seq<FoodListEntry>, rest: string)
    requires forall k :: 0 <= k < |foods| ==> IsI64(foods[k].foodId)
    ensures ReadArray("[" + (FoodsJson(foods, JsEscape) + ("]" + rest))) == Some((foods, rest))
  {
    if |foods| == 0 {
      assert FoodsJson(foods, JsEscape) + ("]" + rest) == "]" + rest;
      ReadEmptyArray(rest);
    } else {
      ReadArrayOpen(FoodsJson(foods, JsEscape) + ("]" + rest));
      ReadElementsJson(foods, rest);
    }
  }

  lemma {:induction false} FoodsJsonAgrees(foods: seq<FoodListEntry>)
    requires forall k :: 0 <= k < |foods| ==> Plain(foods[k].name) && Plain(foods[k].brand)
    ensures FoodsJson(foods, QuoteEscape) == FoodsJson(foods, JsEscape)
  {
    if |foods| > 0 {
      QuoteEscapeAgrees(foods[0].name);
      QuoteEscapeAgrees(foods[0].brand);
      FoodsJsonAgrees(foods[1..]);
    }
  }

  /** As written, the script still reads back the food list as long as no name
      or brand holds a backslash or a line break. */
  lemma ScriptReadsPlainFoods(foods: seq<FoodListEntry>, rest: string)
    requires forall k :: 0 <= k < |foods| ==> IsI64(foods[k].foodId)
    requires forall k :: 0 <= k < |foods| ==> Plain(foods[k].name) && Plain(foods[k].brand)
    ensures ReadArray("[" + (FoodsJson(foods, QuoteEscape) + ("]" + rest))) == Some((foods, rest))
  {
    FoodsJsonAgrees(foods);
    ReadFoodsJson(foods, rest);
  }

  /** An escaped quote, then a comma and a quote: the quote meant to close
      the literal is read as part of it, and the literal ends one quote later. */
  lemma EscapedQuoteReadsOn(w: string)
    ensures ReadBody("\\" + ("\"" + ("," + ("\"" + w)))) == Some(("\",", w))
  {
    var v := "," + ("\"" + w);
    var u := "\\" + ("\"" + v);
    assert u[2..] == v;
    assert v[1..] == "\"" + w;
    assert ("\"" + w)[1..] == w;
    assert ReadBody("\"" + w) == Some(("", w));
    assert ReadBody(v) == Some(([','] + "", w));
    assert [','] + "" == ",";
    assert u[0] == '\\' && u[1] == '"';
    assert ReadBody(u[2..]) == Some((",", w));
    assert ['"'] + "," == "\",";
  }

  lemma BrandKeySplit(tail: string)
    ensures BrandKey + tail == "," + ("\"" + ("brand\":\"" + tail))
  {
  }

  lemma BrandKeyMissing(w: string)
    requires |w| > 0 && w[0] == 'b'
    ensures ReadField(BrandKey, w) == None
  {
  }

  /** As written, a name that is a single backslash escapes the quote meant to
      close it; the quote that opens the brand key closes it instead, and the
      object no longer reads as a food. */
  lemma TrailingBackslashBreaksObject(rest: string)
    ensures ReadFood(ObjectThen(FoodListEntry(1, "\\", "x"), QuoteEscape, rest)) == None
  {
    var tail := "x" + ("\"" + ("}" + rest));
    var w := "brand\":\"" + tail;
    var v := BrandKey + tail;
    BrandKeySplit(tail);
    var u2 := "\\" + ("\"" + v);
    var u := NameKey + u2;
    assert QuoteEscape("\\") == "\\" && QuoteEscape("x") == "x";
    var s := ObjectThen(FoodListEntry(1, "\\", "x"), QuoteEscape, rest);
    assert s == IdKey + (IntToString(1) + u);
    ExpectPrefix(IdKey, IntToString(1) + u);
    ReadIntToString(1, u);
    ExpectPrefix(NameKey, u2);
    EscapedQuoteReadsOn(w);
    assert ReadField(NameKey, u) == Some(("\",", w));
    BrandKeyMissing(w);
  }

  // ---------------------------------------------------------------------------
  // handlers

  /** The form page without its markup: the post target and the script's array. */
  datatype NewPage = NewPage(date: Dates.NaiveDate, action: string, foodsJson: string)

  /** `get_handler`: the date is parsed before the lock is taken; the script gets
      every food of the library, in name order. */
  method GetHandler(db: Db, path: string, lockFree: bool) returns (r: Fallible<NewPage>)
    requires db.Valid()
    ensures Dates.ParseNaive(path).None? ==> r == Err(WwwLogView.ParseDateError(path))
    ensures Dates.ParseNaive(path).Some? && !lockFree ==> r == Err(LockError)
    ensures Dates.ParseNaive(path).Some? && lockFree ==>
      && r.Ok? && r.value.date == Dates.ParseNaive(path).value
      && r.value.action == "/log/" + path + "/new"
      && exists foods :: db.IsFoodListing(foods) && r.value.foodsJson == FoodsJson(foods, QuoteEscape)
  {
    var parsed := Dates.ParseNaive(path);
    if parsed.None? {
      return Err(WwwLogView.ParseDateError(path));
    }
    var date := parsed.value;
    if !lockFree {
      return Err(LockError);
    }
    var foods := db.ListFoods();
    r := Ok(NewPage(date, "/log/" + Dates.Format(date) + "/new", FoodsJson(foods, QuoteEscape)));
    assert db.IsFoodListing(foods);
  }

  /** The posted form. */
  datatype LogFoodForm = LogFoodForm(foodId: FoodId, servingId: string, amount: real)

  /** `post_handler`: the date, then the serving field, then the lock; a failure
      of any leaves the store as it was. Otherwise one entry is added and the
      answer redirects to the day's page. `now` is `Utc::now()`. */
  method PostHandler(db: Db, path: string, form: LogFoodForm, now: Timestamp, lockFree: bool)
    returns (r: Fallible<string>)
    requires db.Valid()
    modifies db
    ensures db.Valid()
    ensures Dates.ParseNaive(path).None? ==> r == Err(WwwLogView.ParseDateError(path)) && unchanged(db)
    ensures Dates.ParseNaive(path).Some? && LogNew.ParseServingField(form.servingId).Err? ==>
      r == Err(ParseIntError) && unchanged(db)
    ensures Dates.ParseNaive(path).Some? && LogNew.ParseServingField(form.servingId).Ok? && !lockFree ==>
      r == Err(LockError) && unchanged(db)
    ensures Dates.ParseNaive(path).Some? && LogNew.ParseServingField(form.servingId).Ok? && lockFree ==>
      && r == Ok("/log/" + path)
      && db.foods == old(db.foods) && db.servings == old(db.servings)
      && exists id :: id !in old(db.entries) && 1 <= id
           && db.entries == old(db.entries)[id := EntryRow(path, form.foodId,
                LogNew.ParseServingField(form.servingId).value, form.amount, now)]
  {
    var parsed := Dates.ParseNaive(path);
    if parsed.None? {
      return Err(WwwLogView.ParseDateError(path));
    }
    var date := parsed.value;
    var servingId := LogNew.ParseServingField(form.servingId);
    if servingId.Err? {
      return Err(servingId.error);
    }
    var input := CreateEntryInput(date, form.foodId, servingId.value, form.amount, now);
    if !lockFree {
      return Err(LockError);
    }
    var id := db.CreateEntry(input);
    r := Ok("/log/" + Dates.Format(date));
  }
}
