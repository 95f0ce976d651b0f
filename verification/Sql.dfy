// The fragment of PostgreSQL that the queries rely on: NULL, three-valued
// logic, COALESCE/NULLIF and the JSONB arrow operators.
module Sql {
  // A nullable column, or a Go pointer that may be nil.
  datatype Option<+T> = None | Some(value: T)

  // A call that either yields a value or fails with a database error.
  datatype Result<+T> = Ok(value: T) | Err

  // The largest value a BIGINT column or parameter can hold.
  const MAX_BIGINT: nat := 0x7fff_ffff_ffff_ffff

  // The largest value an INTEGER column can hold.
  const MAX_INTEGER: nat := 0x7fff_ffff

  // The result of a SQL condition.
  datatype Tri = Yes | No | Unknown

  function FromBool(b: bool): Tri {
    if b then Yes else No
  }

  function Or3(a: Tri, b: Tri): Tri {
    if a == Yes || b == Yes then Yes
    else if a == No && b == No then No
    else Unknown
  }

  function And3(a: Tri, b: Tri): Tri {
    if a == No || b == No then No
    else if a == Yes && b == Yes then Yes
    else Unknown
  }

  // `a = b` and `a != b` for a nullable left-hand side.
  function Eq3<T(==)>(a: Option<T>, b: T): Tri {
    if a.None? then Unknown else FromBool(a.value == b)
  }

  function Ne3<T(==)>(a: Option<T>, b: T): Tri {
    if a.None? then Unknown else FromBool(a.value != b)
  }

  function Coalesce<T>(a: Option<T>, b: Option<T>): Option<T> {
    if a.Some? then a else b
  }

  function CoalesceTo<T>(a: Option<T>, default: T): T {
    if a.Some? then a.value else default
  }

  // NULLIF(s, '')
  function NullIfEmpty(s: Option<string>): Option<string> {
    if s == Some("") then None else s
  }

  // JSONB values.  Numbers and arrays are carried as opaque text.
  datatype Json =
    | JNull
    | JBool(b: bool)
    | JText(s: string)
    | JOther(text: string)
    | JObject(fields: map<string, Json>)

  // `json -> key`: NULL unless json is an object that has the key.
  function Arrow(j: Option<Json>, key: string): Option<Json> {
    if j.Some? && j.value.JObject? && key in j.value.fields then Some(j.value.fields[key]) else None
  }

  // `json ->> key`: the field as text; a JSON null becomes SQL NULL.  The text
  // of a nested object is not needed by any query and is left as the brace
  // pair.
  function ArrowText(j: Option<Json>, key: string): Option<string> {
    match Arrow(j, key)
    case None => None
    case Some(JNull) => None
    case Some(JBool(b)) => Some(if b then "true" else "false")
    case Some(JText(s)) => Some(s)
    case Some(JOther(text)) => Some(text)
    case Some(JObject(_)) => Some("{}")
  }
}
