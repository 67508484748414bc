/**
 * The Python values that the metadata dictionaries hold, and the `CodeEntity`
 * record the Python extractor produces.
 */
module Values {
  import opened Wrappers

  /**
   * One function or class found in a Python file. `kind` is the `type` field
   * ('class' or 'function'); `dependencies` is `list(set(...))` in the source,
   * whose order is that of a hash set, so it is kept here as a set.
   */
  datatype CodeEntity = CodeEntity(
    name: string,
    kind: string,
    docstring: Option<string>,
    startLine: int,
    endLine: Option<int>,
    decorators: seq<string>,
    parent: Option<string>,
    dependencies: set<Option<string>>)

  /**
   * A dynamically typed metadata value. `VRatio` is the quotient `num / den`
   * kept exact; `VDict` is a dictionary as a foreign loader returns it, its
   * items in insertion order; `VMap` is a dictionary with string keys that the
   * pipeline itself builds and overlays.
   */
  datatype Value =
    | VNone
    | VBool(b: bool)
    | VInt(i: int)
    | VRatio(num: nat, den: nat)
    | VStr(s: string)
    | VList(items: seq<Value>)
    | VTuple(items: seq<Value>)
    | VDict(pairs: seq<(Value, Value)>)
    | VMap(fields: map<string, Value>)
    | VEntity(entity: CodeEntity)

  /** A metadata dictionary keyed by strings. */
  type Metadata = map<string, Value>

  /**
   * A foreign document loader (`yaml.safe_load`, `json.loads`): the document's
   * value, or None when the loader raises.
   */
  type Loader = string -> Option<Value>

  /** Python's truth value of a string or None. */
  predicate Truthy(v: Option<string>) {
    v.Some? && v.value != []
  }
}
