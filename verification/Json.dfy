/** JSON values as the proxy sees them, and dotted paths into them. */
module Json {
  import opened Prelude

  datatype Json =
    | Null
    | Bool(b: bool)
    | Int(n: int)
    | Float(r: real)
    | Str(s: string)
    | Arr(items: seq<Json>)
    | Obj(fields: seq<Field>)

  datatype Field = Field(key: string, value: Json)

  /** Position of the entry for `key`, or the length. */
  function Find(fields: seq<Field>, key: string): (i: nat)
    ensures i <= |fields|
    ensures i < |fields| ==> fields[i].key == key
  {
    if fields == [] || fields[0].key == key then 0 else 1 + Find(fields[1..], key)
  }

  predicate Has(fields: seq<Field>, key: string) {
    Find(fields, key) < |fields|
  }

  function Get(fields: seq<Field>, key: string): Json
    requires Has(fields, key)
  {
    fields[Find(fields, key)].value
  }

  /** Where the first step of a dotted path ends. */
  function Dot(path: string): (i: nat)
    ensures i <= |path|
  {
    if path == "" || path[0] == '.' then 0 else 1 + Dot(path[1..])
  }

  function Head(path: string): string {
    path[..Dot(path)]
  }

  predicate IsLast(path: string) {
    Dot(path) == |path|
  }

  function Tail(path: string): string
    requires !IsLast(path)
  {
    path[Dot(path) + 1..]
  }

  function Navigate(cur: Json, path: string): Option<Json>
    decreases |path|
  {
    if !cur.Obj? || !Has(cur.fields, Head(path)) then None
    else
      var next := Get(cur.fields, Head(path));
      if IsLast(path) then Some(next) else Navigate(next, Tail(path))
  }

  /** The input document under assembly: the top level of `Navigate`, keyed by field. */
  type Doc = map<string, Json>

  function NavigateDoc(doc: Doc, path: string): Option<Json> {
    if Head(path) !in doc then None
    else if IsLast(path) then Some(doc[Head(path)])
    else Navigate(doc[Head(path)], Tail(path))
  }
}
