/** The derive-plan language as `fetchplan.json` spells it, and the load-time check. */
module DerivePlan {
  import opened Prelude
  import opened Json

  const KEY_CONSUMING: set<string> :=
    {"verify_eddsa", "verify_es256", "verify_rs256", "verify_ed25519_raw", "verify_webauthn"}
  const KEY_PRODUCING: set<string> := {"key_from_did_key"}
  const SOURCE_KEYS: set<string> := {"fn", "args", "over", "project"}
  const APPLY_KEYS: set<string> := {"fn", "args"}
  const FORMAT_INT_BASES: set<int> := {2, 8, 10, 16}

  const INPUT := "$input"
  const ITEM := "$item"
  const APPLY := "$apply"

  /** A parameter of a fetched source: a literal, or a path into the document so far. */
  datatype Param = Literal(value: Json) | Input(path: string)

  datatype Kind = CallKind | ConfigKind | ClockKind | WalletKind | UnknownKind(name: string)

  /** A source: fetched by kind with parameters, or derived, with its keys other than `kind`. */
  datatype Source =
    | Fetch(kind: Kind, params: seq<(string, Param)>)
    | Derive(keys: seq<Field>)

  /** A plan entry. `optional` is a guard that says the field is not always required. */
  datatype Entry = Entry(field: string, source: Source, optional: bool)

  predicate IsMarker(key: string) {
    |key| > 0 && key[0] == '$'
  }

  predicate HasMarker(fields: seq<Field>) {
    exists i :: 0 <= i < |fields| && IsMarker(fields[i].key)
  }

  predicate NonEmptyString(j: Json) {
    j.Str? && j.s != ""
  }

  /** `source.get("args", [])` */
  function ArgsOf(keys: seq<Field>): Json {
    if Has(keys, "args") then Get(keys, "args") else Arr([])
  }

  predicate OnlyKeys(fields: seq<Field>, allowed: set<string>) {
    forall i :: 0 <= i < |fields| ==> fields[i].key in allowed
  }

  /** The signature of `concat` and `format_int`. */
  predicate ValidPrimitiveShape(fn: string, args: seq<Json>) {
    if fn == "concat" then
      && |args| == 2
      && !args[0].Arr?
      && (args[0].Obj? ==> HasMarker(args[0].fields))
      && args[1].Arr?
    else if fn == "format_int" then
      && |args| == 2
      && args[1].Int?
      && args[1].n in FORMAT_INT_BASES
    else true
  }

  predicate ValidArg(arg: Json, declared: set<string>, folded: bool, nested: bool)
    decreases arg
  {
    match arg
    case Arr(items) => forall i :: 0 <= i < |items| ==> ValidArg(items[i], declared, folded, nested)
    case Obj(fields) =>
      if !HasMarker(fields) then true
      else
        && |fields| == 1
        && (var marker, value := fields[0].key, fields[0].value;
            if marker == INPUT then NonEmptyString(value)
            else if marker == ITEM then folded && value.Str?
            else marker == APPLY && !nested && ValidApply(value, declared, folded))
    case _ => true
  }

  predicate ValidApply(inner: Json, declared: set<string>, folded: bool)
    decreases inner
  {
    && inner.Obj?
    && OnlyKeys(inner.fields, APPLY_KEYS)
    && Has(inner.fields, "fn")
    && NonEmptyString(Get(inner.fields, "fn"))
    && Get(inner.fields, "fn").s in declared
    && Get(inner.fields, "fn").s !in KEY_CONSUMING
    && ArgsOf(inner.fields).Arr?
    && ValidPrimitiveShape(Get(inner.fields, "fn").s, ArgsOf(inner.fields).items)
    && (Has(inner.fields, "args") ==>
          forall i :: 0 <= i < |Get(inner.fields, "args").items| ==>
            ValidArg(Get(inner.fields, "args").items[i], declared, folded, true))
  }

  /** A literal `over` element: `$input` leaves at any depth and no other marker. */
  predicate ValidCandidate(node: Json)
    decreases node
  {
    match node
    case Arr(items) => forall i :: 0 <= i < |items| ==> ValidCandidate(items[i])
    case Obj(fields) =>
      if HasMarker(fields) then |fields| == 1 && fields[0].key == INPUT && NonEmptyString(fields[0].value)
      else forall i :: 0 <= i < |fields| ==> ValidCandidate(fields[i].value)
    case _ => true
  }

  predicate ValidOver(over: Json) {
    || (over.Obj? && |over.fields| == 1 && over.fields[0].key == INPUT)
    || (over.Arr? && forall i :: 0 <= i < |over.items| ==> ValidCandidate(over.items[i]))
  }

  predicate ValidDerive(keys: seq<Field>, declared: set<string>) {
    && OnlyKeys(keys, SOURCE_KEYS)
    && Has(keys, "fn")
    && NonEmptyString(Get(keys, "fn"))
    && Get(keys, "fn").s in declared
    && ArgsOf(keys).Arr?
    && Get(keys, "fn").s !in KEY_PRODUCING
    && (Get(keys, "fn").s in KEY_CONSUMING ==> Has(keys, "over"))
    && (if Has(keys, "over")
        then Has(keys, "project") && NonEmptyString(Get(keys, "project")) && ValidOver(Get(keys, "over"))
        else !Has(keys, "project"))
    && ValidPrimitiveShape(Get(keys, "fn").s, ArgsOf(keys).items)
    && forall i :: 0 <= i < |ArgsOf(keys).items| ==> ValidArg(ArgsOf(keys).items[i], declared, Has(keys, "over"), false)
  }

  // ---- Referenced primitives ----

  function NameOf(j: Json): set<string> {
    if NonEmptyString(j) then {j.s} else {}
  }

  /** The `$apply.fn` names among an argument list, at any nesting; tolerant of any shape. */
  function AppliedInList(args: seq<Json>): set<string>
    decreases args
  {
    if args == [] then {} else AppliedIn(args[0]) + AppliedInList(args[1..])
  }

  function AppliedIn(arg: Json): set<string>
    decreases arg
  {
    match arg
    case Arr(items) => AppliedInList(items)
    case Obj(fields) =>
      if Has(fields, APPLY) && Get(fields, APPLY).Obj? then
        var inner := Get(fields, APPLY).fields;
        (if Has(inner, "fn") then NameOf(Get(inner, "fn")) else {})
        + (if Has(inner, "args") && Get(inner, "args").Arr? then AppliedInList(Get(inner, "args").items) else {})
      else {}
    case _ => {}
  }

  function ReferencedBy(source: Source): set<string> {
    if source.Fetch? then {}
    else
      (if Has(source.keys, "fn") then NameOf(Get(source.keys, "fn")) else {})
      + (if Has(source.keys, "args") && Get(source.keys, "args").Arr? then AppliedInList(Get(source.keys, "args").items) else {})
  }

  function Referenced(entries: seq<Entry>): (r: set<string>)
    ensures forall e :: e in entries ==> ReferencedBy(e.source) <= r
  {
    if entries == [] then {} else ReferencedBy(entries[0].source) + Referenced(entries[1..])
  }

  // ---- The whole plan ----

  /** `primitives` is the declaration block: absent, a list of names, or an object. */
  datatype Plan = Plan(primitives: Option<Json>, entries: seq<Entry>)

  function Declared(block: Option<Json>): Option<set<string>> {
    match block
    case None => Some({})
    case Some(Null) => Some({})
    case Some(Arr(items)) =>
      if forall i :: 0 <= i < |items| ==> items[i].Str? then Some(set j | j in items && j.Str? :: j.s) else None
    case Some(Obj(fields)) => Some(set f | f in fields :: f.key)
    case _ => None
  }

  predicate UniqueFields(entries: seq<Entry>) {
    forall i, j :: 0 <= i < j < |entries| ==> entries[i].field != entries[j].field
  }

  /** `validate_derive_plan` accepts: it raises nothing. */
  predicate Accepts(plan: Plan, available: set<string>) {
    && UniqueFields(plan.entries)
    && Declared(plan.primitives).Some?
    && (forall e :: e in plan.entries && e.source.Derive? ==> ValidDerive(e.source.keys, Declared(plan.primitives).value))
    && Referenced(plan.entries) <= available
  }

  /** The load-time check for repeated field names, as the loop that fills `seen`. */
  method ValidateUniqueFields(entries: seq<Entry>) returns (ok: bool)
    ensures ok <==> UniqueFields(entries)
  {
    var seen: set<string> := {};
    for n := 0 to |entries|
      invariant UniqueFields(entries[..n])
      invariant forall k :: k in seen <==> exists i :: 0 <= i < n && entries[i].field == k
    {
      if entries[n].field in seen {
        return false;
      }
      seen := seen + {entries[n].field};
    }
    return true;
  }
}
