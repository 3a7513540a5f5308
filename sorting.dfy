/** Spring Data's Sort as the expense endpoints use it: one property with
    one direction. Executing the order is the database's business. */
module Sorting {
  import opened Wrappers
  import opened Text

  datatype Direction = Asc | Desc

  /** A Sort holding the single Sort.Order(direction, property). */
  datatype Order = Order(direction: Direction, property: string)

  /** Sort.by(direction, property): the Order constructor throws
      IllegalArgumentException unless the property has text. */
  function SortBy(direction: Direction, property: string): (r: Result<Order>)
    ensures r.Ok? <==> HasText(property)
    ensures r.Ok? ==> r.value.direction == direction && r.value.property == property
  {
    if HasText(property) then Ok(Order(direction, property)) else Err(EmptySortProperty)
  }

  /** Sort.Direction.fromString: Direction.valueOf(token.toUpperCase(Locale.US)),
      throwing IllegalArgumentException for anything but ASC and DESC. It
      accepts exactly the case-insensitive spellings of "asc" and "desc". */
  function DirectionFromString(token: string): (r: Result<Direction>)
    ensures r == Ok(Asc) <==> EqualsIgnoreCase(token, "asc")
    ensures r == Ok(Desc) <==> EqualsIgnoreCase(token, "desc")
    ensures r.Err? <==> !EqualsIgnoreCase(token, "asc") && !EqualsIgnoreCase(token, "desc")
    ensures r.Err? ==> r.error == InvalidDirection
  {
    EqualsIgnoreCaseByUpper(token, "asc");
    EqualsIgnoreCaseByUpper(token, "desc");
    assert UpperCase("asc") == "ASC";
    assert UpperCase("desc") == "DESC";
    var upper := UpperCase(token);
    if upper == "ASC" then Ok(Asc)
    else if upper == "DESC" then Ok(Desc)
    else Err(InvalidDirection)
  }
}
