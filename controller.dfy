/** ExpenseController: the request-parameter handling of the expense
    endpoints that carries logic of its own, namely the "field,direction"
    sort string of the list endpoint and the defaults of the filter
    endpoint. */
module ExpenseController {
  import opened Wrappers
  import opened Text
  import opened Sorting
  import ExpenseService

  /** The Sort of getAllExpenses when no sort parameter is sent. */
  const DefaultSort: Order := Order(Desc, "createdAt")

  /** getAllExpenses: no parameter sorts newest first; a string that
      splits on ',' into exactly two pieces is a field and a direction
      (the direction is parsed first); any other string is a field sorted
      ascending. So a successful parse either sorts by the whole parameter,
      ascending, or by the comma-free text before its first comma. */
  function ParseSort(sort: Option<string>): (r: Result<Order>)
    ensures sort.None? ==> r == Ok(DefaultSort)
    ensures r.Err? ==> r.error == InvalidDirection || r.error == EmptySortProperty
    ensures r.Ok? && sort.Some? ==> HasText(r.value.property)
    ensures r.Ok? && sort.Some? ==>
              || (r.value.property == sort.value && r.value.direction == Asc)
              || (&& ',' !in r.value.property && |r.value.property| < |sort.value|
                  && r.value.property == sort.value[..|r.value.property|]
                  && sort.value[|r.value.property|] == ',')
  {
    if sort.None? then Ok(DefaultSort)
    else
      var parts := Split(sort.value, ',');
      if |parts| == 2 then
        match DirectionFromString(parts[1])
        case Err(e) => Err(e)
        case Ok(direction) =>
          SplitFirstPiece(sort.value, ',');
          SortBy(direction, parts[0])
      else SortBy(Asc, sort.value)
  }

  /** The four lemmas below cover every sort string. Strip the run of
      commas at its end: what remains holds no comma (a bare field, or a
      field followed by commas), exactly one (a field and a direction,
      possibly followed by commas), or two or more (many pieces). */

  /** "field,direction" followed by any run of commas: the field sorted in
      the given direction, which is "asc" or "desc" in any letter case; any
      other direction token fails, and so does a field without text. */
  lemma ParseSortFieldAndDirection(field: string, direction: string, commas: string)
    requires ',' !in field && ',' !in direction && direction != ""
    requires OnlySeparators(commas, ',')
    ensures ParseSort(Some(field + "," + direction + commas))
            == if EqualsIgnoreCase(direction, "asc") then SortBy(Asc, field)
               else if EqualsIgnoreCase(direction, "desc") then SortBy(Desc, field)
               else Err(InvalidDirection)
  {
    var body := field + "," + direction;
    assert body[|body| - 1] == direction[|direction| - 1];
    SplitIgnoresTrailingSeparators(body, ',', commas);
    assert body == field + [','] + direction;
    SplitAllConcat(field, ',', direction);
    SplitAllWithoutSeparator(field, ',');
    SplitAllWithoutSeparator(direction, ',');
  }

  /** A direction followed by a trailing comma is still read. */
  lemma ParseSortDirectionBeforeTrailingComma()
    ensures ParseSort(Some("value,desc,")) == Ok(Order(Desc, "value"))
  {
    ParseSortFieldAndDirection("value", "desc", ",");
    assert "value" + "," + "desc" + "," == "value,desc,";
    assert EqualsIgnoreCase("desc", "desc") by { EqualsIgnoreCaseByUpper("desc", "desc"); }
    assert HasText("value") by { assert !IsWhitespace("value"[0]); }
  }

  /** A string without a comma is a field sorted ascending. */
  lemma ParseSortBareField(field: string)
    requires ',' !in field
    ensures ParseSort(Some(field)) == SortBy(Asc, field)
  {
  }

  /** A field followed by a run of commas is one piece (or none): the whole
      string, commas included, becomes the field, sorted ascending. */
  lemma ParseSortTrailingCommas(field: string, commas: string)
    requires ',' !in field && commas != "" && OnlySeparators(commas, ',')
    ensures ParseSort(Some(field + commas)) == SortBy(Asc, field + commas)
    ensures HasText(field) ==> ParseSort(Some(field + commas)) == Ok(Order(Asc, field + commas))
  {
    if field == "" {
      assert field + commas == commas;
      SplitOnlySeparators(commas, ',');
    } else {
      assert field[|field| - 1] in field;
      SplitIgnoresTrailingSeparators(field, ',', commas);
      SplitAllWithoutSeparator(field, ',');
    }
    if HasText(field) {
      var k :| 0 <= k < |field| && !IsWhitespace(field[k]);
      assert (field + commas)[k] == field[k];
    }
  }

  /** Two commas or more before the trailing run give three pieces or more,
      so the whole string is the field, sorted ascending; no direction is
      read. */
  lemma ParseSortManyPieces(a: string, b: string, c: string, commas: string)
    requires c != "" && c[|c| - 1] != ',' && OnlySeparators(commas, ',')
    ensures ParseSort(Some(a + "," + b + "," + c + commas))
            == SortBy(Asc, a + "," + b + "," + c + commas)
  {
    var body := a + "," + b + "," + c;
    assert body[|body| - 1] == c[|c| - 1];
    SplitIgnoresTrailingSeparators(body, ',', commas);
    assert body == a + [','] + (b + [','] + c);
    SplitAllConcat(a, ',', b + [','] + c);
    SplitAllConcat(b, ',', c);
  }

  /** @RequestParam(defaultValue = ...): the default stands in for a
      parameter that is missing or sent empty. */
  function ParamOrDefault(raw: Option<string>, default: string): (value: string)
    ensures raw.None? || raw.value == "" ==> value == default
    ensures raw.Some? && raw.value != "" ==> value == raw.value
  {
    if raw.None? || raw.value == "" then default else raw.value
  }

  /** filterExpenses called without sortBy and direction sorts by
      createdAt, newest first. */
  lemma FilterDefaults(sortBy: Option<string>, direction: Option<string>)
    requires sortBy.None? || sortBy == Some("")
    requires direction.None? || direction == Some("")
    ensures ExpenseService.ResolveSort(ParamOrDefault(sortBy, "createdAt"),
                                       ParamOrDefault(direction, "desc"))
            == Ok(DefaultSort)
  {
    assert HasText("createdAt") by { assert !IsWhitespace("createdAt"[0]); }
    assert EqualsIgnoreCase("desc", "desc") by {
      EqualsIgnoreCaseByUpper("desc", "desc");
    }
  }
}
