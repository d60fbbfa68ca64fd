/** Values the agent handles: optional results and the JSON data the portal returns. */
module Values {

  datatype Option<+T> = None | Some(value: T)

  /** A JSON value as `response.json()` produces it. Numbers are kept exact. */
  datatype Json =
    | Null
    | Bool(b: bool)
    | Num(n: real)
    | Str(s: string)
    | Arr(items: seq<Json>)
    | Obj(fields: map<string, Json>)

  /** JavaScript truthiness: null, false, 0 and the empty string are falsy, everything else is truthy. */
  function Truthy(j: Json): (b: bool)
    ensures j.Obj? || j.Arr? ==> b
    ensures j.Null? ==> !b
    ensures j.Str? ==> (b <==> j.s != [])
  {
    match j
    case Null => false
    case Bool(b) => b
    case Num(n) => n != 0.0
    case Str(s) => s != []
    case Arr(_) => true
    case Obj(_) => true
  }
}
