/** Values shared by every goal: JSON documents as Jackson's tree model holds them,
    the outcome of an operation, and the ways a run can fail. */
module Documents {

  datatype Option<T> = None | Some(value: T)

  /** A path below the source directory, one name per level. */
  type Path = seq<string>

  /** Why a goal aborts. Each case stands for the exception the source raises at that point. */
  datatype Failure =
    | OutputDirNotCreated                                 // `mkdirs()` returned false
    | ListingUnavailable(dir: Path)                       // `requireNonNull(listFiles())`
    | Unreadable(file: Path)                              // `readTree` throws (not JSON, or a directory)
    | NotAnObject(file: Path)                             // fragment is not a JSON object
    | BlockNotAnObject(file: Path, language: string)      // cast of a language block fails
    | MissingBlock(file: Path, language: string)          // a required language block is absent
    | CombinedUnreadable                                  // the combined file cannot be read
    | CombinedNotAnObject                                 // the combined file is not an object (Kotlin cast)
    | ComponentMissing(file: Path, component: string)     // combined file has no entry for the component
    | ComponentNotAnObject(file: Path, component: string) // that entry is not an object (Kotlin cast)

  datatype Result<T> = Ok(value: T) | Err(failure: Failure)

  /** A JSON value. Numbers keep their textual form, so no floating point is involved. */
  datatype Json =
    | Obj(fields: map<string, Json>)
    | Arr(items: seq<Json>)
    | Str(text: string)
    | Num(literal: string)
    | Bool(truth: bool)
    | Null

  /** `JsonNode.asText()`: the text of a scalar; containers have the empty text. */
  function AsText(v: Json): (text: string)
    ensures v.Str? ==> text == v.text
    ensures v.Num? ==> text == v.literal
    ensures text == [] <==> v.Obj? || v.Arr? || v == Str([]) || v == Num([])
  {
    match v
    case Str(s) => s
    case Num(lit) => lit
    case Bool(b) => if b then "true" else "false"
    case Null => "null"
    case Obj(_) => ""
    case Arr(_) => ""
  }

  /** `JsonNode.get(fieldName)`: the named member of an object; `null` for anything else. */
  function Get(v: Json, key: string): (r: Option<Json>)
    ensures r.Some? <==> v.Obj? && key in v.fields
    ensures r.Some? ==> r.value == v.fields[key]
  {
    if v.Obj? && key in v.fields then Some(v.fields[key]) else None
  }

  /** `JsonNode.fields()`: the members of an object; every other node iterates nothing. */
  function Members(v: Json): (m: map<string, Json>)
    ensures v.Obj? ==> m == v.fields
    ensures !v.Obj? ==> m == map[]
  {
    if v.Obj? then v.fields else map[]
  }

  /** The block of `language` in a fragment's contents; empty when the fragment has none,
      as the goals create an empty object node for it. */
  function LanguageBlock(contents: map<string, Json>, language: string): (b: map<string, Json>)
    ensures language !in contents ==> b == map[]
    ensures language in contents && contents[language].Obj? ==> b == contents[language].fields
  {
    if language in contents then Members(contents[language]) else map[]
  }

  /** The entries of `m` whose keys are in `keys`. */
  function Restrict(m: map<string, Json>, keys: set<string>): (r: map<string, Json>)
    ensures r.Keys == m.Keys * keys
    ensures forall k :: k in r ==> r[k] == m[k]
  {
    map k | k in m && k in keys :: m[k]
  }

  lemma RestrictAll(m: map<string, Json>)
    ensures Restrict(m, m.Keys) == m && Restrict(m, {}) == map[]
  {
  }
}
