/**
 * Reading the current route's path parameters and query values safely:
 * a value counts only when it is a single string; a repeated value (an
 * array) or a missing one reads as the empty string.
 */
module Route {
  import opened Wrappers

  /** A router value: one string, a list of them, or, in a query, `null`. */
  datatype RouteValue = Text(s: string) | Many(items: seq<Option<string>>) | Null

  /** The parts of a route location that these helpers read. */
  datatype Location = Location(params: map<string, RouteValue>, query: map<string, RouteValue>)

  /** `typeof v === 'string' ? v : ''` on a possibly missing entry. */
  function StringOrEmpty(values: map<string, RouteValue>, name: string): (r: string)
    ensures r != "" <==> name in values && values[name].Text? && values[name].s != ""
    ensures name in values && values[name].Text? ==> r == values[name].s
  {
    if name in values && values[name].Text? then values[name].s else ""
  }

  /** `getRouteParam`. */
  function GetRouteParam(route: Location, paramName: string): (r: string)
    ensures paramName in route.params && route.params[paramName].Text? ==> r == route.params[paramName].s
    ensures !(paramName in route.params && route.params[paramName].Text?) ==> r == ""
  {
    StringOrEmpty(route.params, paramName)
  }

  /** `getRouteQuery`. */
  function GetRouteQuery(route: Location, queryName: string): (r: string)
    ensures queryName in route.query && route.query[queryName].Text? ==> r == route.query[queryName].s
    ensures !(queryName in route.query && route.query[queryName].Text?) ==> r == ""
  {
    StringOrEmpty(route.query, queryName)
  }

  /**
   * `getRouteQueryBoolean`: `query === 'true'`. The flag is set exactly
   * when the value read as a string is `true`; any other spelling, a list
   * or a missing value is false.
   */
  function GetRouteQueryBoolean(route: Location, queryName: string): (b: bool)
    ensures b <==> GetRouteQuery(route, queryName) == "true"
  {
    queryName in route.query && route.query[queryName] == Text("true")
  }

  datatype ParamCheck = ParamCheck(valid: bool, value: string, error: Option<string>)

  /**
   * `validateRouteParam`: valid exactly when the parameter is a non-empty
   * string; the value read is always returned, and a failure names the
   * parameter.
   */
  function ValidateRouteParam(route: Location, paramName: string): (r: ParamCheck)
    ensures r.value == GetRouteParam(route, paramName)
    ensures r.valid <==> paramName in route.params && route.params[paramName].Text? && route.params[paramName].s != ""
    ensures r.valid ==> r.error == None
    ensures !r.valid ==> r.error == Some("Missing required route parameter: " + paramName)
  {
    var value := GetRouteParam(route, paramName);
    if value == "" then ParamCheck(false, value, Some("Missing required route parameter: " + paramName))
    else ParamCheck(true, value, None)
  }
}
