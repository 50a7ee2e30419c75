/**
 JSON values. An object is a map, so two values are equal exactly when their canonical text (sorted
 keys) is; a digest of canonical JSON is modelled as any function of the value.
 */
module JsonValues {
  import opened Common

  datatype Json =
    | Null
    | Bool(b: bool)
    | Num(n: int)
    | Str(s: string)
    | Arr(items: seq<Json>)
    | Obj(fields: map<string, Json>)

  type Digest = Json -> string

  /** Python's truth value. */
  predicate Truthy(j: Json) {
    match j
    case Null => false
    case Bool(b) => b
    case Num(n) => n != 0
    case Str(s) => s != ""
    case Arr(items) => items != []
    case Obj(fields) => fields != map[]
  }

  /** Python's `str`; `text` is how it shows the values that are not strings. */
  function Shown(text: Json -> string, j: Json): string {
    if j.Str? then j.s else text(j)
  }

  /** `str(m.get(key) or "")`. */
  function ShownOrEmpty(text: Json -> string, m: map<string, Json>, key: string): string {
    if key in m && Truthy(m[key]) then Shown(text, m[key]) else ""
  }

  /** `str(m.get(key, ""))`. */
  function ShownOrMissing(text: Json -> string, m: map<string, Json>, key: string): string {
    if key in m then Shown(text, m[key]) else ""
  }

  /** `record.get(key)`; a missing key reads as null. */
  function Raw(record: Json, key: string): Json {
    if record.Obj? && key in record.fields then record.fields[key] else Null
  }

  /** `str(record.get(key, ""))`. */
  function Text(text: Json -> string, record: Json, key: string): string {
    if record.Obj? then ShownOrMissing(text, record.fields, key) else ""
  }

  /** `str(record.get(key) or "")`. */
  function TextOr(text: Json -> string, record: Json, key: string): string {
    if record.Obj? then ShownOrEmpty(text, record.fields, key) else ""
  }

  /** `value or ""`: every false value reads as the empty string, any other as it is shown. */
  lemma FalseReadsAsEmpty(text: Json -> string, m: map<string, Json>, key: string)
    requires key in m
    ensures var empty := m[key] in {Null, Bool(false), Num(0), Str(""), Arr([]), Obj(map[])};
      TextOr(text, Obj(m), key) == if empty then "" else Shown(text, m[key])
  {
  }

  /** A step into a value. */
  datatype Place = Key(key: string) | Index(i: nat)

  /** The value that a path leads to. */
  function At(j: Json, path: seq<Place>): Option<Json>
    decreases |path|
  {
    if path == [] then Some(j)
    else
      match (j, path[0])
      case (Obj(m), Key(k)) => if k in m then At(m[k], path[1..]) else None
      case (Arr(items), Index(i)) => if i < |items| then At(items[i], path[1..]) else None
      case _ => None
  }

  ghost predicate Injective(h: Digest) {
    forall a, b :: h(a) == h(b) ==> a == b
  }
}
