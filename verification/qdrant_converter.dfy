/**
 * The API's file metadata record and its conversion to and from a Qdrant
 * payload: a map from field names to tagged values. Every metadata field is a
 * nullable wrapper around a nullable value, as the JSON model declares it.
 */
module QdrantConverter {
  import opened Wrappers
  import opened Int64Text

  /** An arbitrary JSON object; the converter only looks at whether one is there. */
  datatype JsonObject = JsonObject(members: map<string, string>)

  datatype StringValue = StringValue(value: Option<string>)
  datatype IntegerValue = IntegerValue(value: Option<string>)
  datatype BoolValue = BoolValue(value: Option<bool>)
  datatype StructValue = StructValue(value: Option<JsonObject>)

  datatype FileMetadata = FileMetadata(
    repositoryOrganization: Option<StringValue>,
    fileName: Option<StringValue>,
    numLines: Option<IntegerValue>,
    fileType: Option<StringValue>,
    isEmpty: Option<BoolValue>,
    repositoryName: Option<StringValue>,
    repositoryTotalFiles: Option<IntegerValue>,
    hasShebang: Option<BoolValue>,
    repositoryFileTypes: Option<StructValue>,
    repositoryDirectoryStructure: Option<StructValue>,
    sizeBytes: Option<IntegerValue>,
    directory: Option<StringValue>,
    filePath: Option<StringValue>,
    repositoryUrl: Option<StringValue>)

  /** A Qdrant payload value; `Other` stands for the kinds the converter never writes (null, double, list). */
  datatype Value =
    | StringKind(s: string)
    | IntegerKind(i: int)
    | BoolKind(b: bool)
    | StructKind(fields: map<string, Value>)
    | Other

  /** The protobuf map the payload is built in. */
  class MapField {
    var entries: map<string, Value>

    constructor ()
      ensures entries == map[]
    {
      entries := map[];
    }

    /** `fields[key] = value`: insert or overwrite. */
    method Set(key: string, value: Value)
      modifies this
      ensures entries == old(entries)[key := value]
    {
      entries := entries[key := value];
    }
  }

  /** One `Add*Field` call: the key and the value written, or None when the field is skipped. */
  datatype Emission = Emission(key: string, value: Option<Value>)

  /** `AddStringField`: the key is written iff the wrapper and its string are non-null. */
  function StringEmission(key: string, w: Option<StringValue>): Emission {
    Emission(key, if w.Some? && w.value.value.Some? then Some(StringKind(w.value.value.value)) else None)
  }

  /** `AddIntegerField`: written only when the text parses as a 64-bit integer. */
  function IntegerEmission(key: string, w: Option<IntegerValue>): Emission {
    Emission(key,
      if w.Some? && w.value.value.Some? && TryParseInt64(w.value.value.value).Some? then
        Some(IntegerKind(TryParseInt64(w.value.value.value).value))
      else None)
  }

  /** `AddBooleanField`: written iff the nullable bool has a value. */
  function BoolEmission(key: string, w: Option<BoolValue>): Emission {
    Emission(key, if w.Some? && w.value.value.Some? then Some(BoolKind(w.value.value.value)) else None)
  }

  /** `AddStructField`: a present object is written as an empty struct, its contents dropped. */
  function StructEmission(key: string, w: Option<StructValue>): Emission {
    Emission(key, if w.Some? && w.value.value.Some? then Some(StructKind(map[])) else None)
  }

  /** The payload after one emission. */
  function Apply(fields: map<string, Value>, e: Emission): map<string, Value> {
    if e.value.Some? then fields[e.key := e.value.value] else fields
  }

  /** The payload after a run of emissions in order, starting from an empty map. */
  function Emit(es: seq<Emission>): map<string, Value>
    decreases |es|
  {
    if es == [] then map[] else Apply(Emit(es[..|es| - 1]), es[|es| - 1])
  }

  /** The fourteen calls `ToQdrantFields` makes, in its order. */
  function Emissions(m: FileMetadata): (es: seq<Emission>)
    ensures |es| == 14
  {
    [ StringEmission("repository_organization", m.repositoryOrganization),
      StringEmission("file_name", m.fileName),
      StringEmission("file_type", m.fileType),
      StringEmission("directory", m.directory),
      StringEmission("file_path", m.filePath),
      StringEmission("repository_name", m.repositoryName),
      StringEmission("repository_url", m.repositoryUrl),
      IntegerEmission("num_lines", m.numLines),
      IntegerEmission("repository_total_files", m.repositoryTotalFiles),
      IntegerEmission("size_bytes", m.sizeBytes),
      BoolEmission("is_empty", m.isEmpty),
      BoolEmission("has_shebang", m.hasShebang),
      StructEmission("repository_file_types", m.repositoryFileTypes),
      StructEmission("repository_directory_structure", m.repositoryDirectoryStructure) ]
  }

  /** The payload `ToQdrantFields` builds: the fourteen emissions applied in order to an empty map. */
  function Payload(m: FileMetadata): map<string, Value> {
    var f := Apply(map[], StringEmission("repository_organization", m.repositoryOrganization));
    var f := Apply(f, StringEmission("file_name", m.fileName));
    var f := Apply(f, StringEmission("file_type", m.fileType));
    var f := Apply(f, StringEmission("directory", m.directory));
    var f := Apply(f, StringEmission("file_path", m.filePath));
    var f := Apply(f, StringEmission("repository_name", m.repositoryName));
    var f := Apply(f, StringEmission("repository_url", m.repositoryUrl));
    var f := Apply(f, IntegerEmission("num_lines", m.numLines));
    var f := Apply(f, IntegerEmission("repository_total_files", m.repositoryTotalFiles));
    var f := Apply(f, IntegerEmission("size_bytes", m.sizeBytes));
    var f := Apply(f, BoolEmission("is_empty", m.isEmpty));
    var f := Apply(f, BoolEmission("has_shebang", m.hasShebang));
    var f := Apply(f, StructEmission("repository_file_types", m.repositoryFileTypes));
    Apply(f, StructEmission("repository_directory_structure", m.repositoryDirectoryStructure))
  }

  method AddStringField(fields: MapField, key: string, w: Option<StringValue>)
    modifies fields
    ensures fields.entries == Apply(old(fields.entries), StringEmission(key, w))
  {
    if w.Some? && w.value.value.Some? {
      fields.Set(key, StringKind(w.value.value.value));
    }
  }

  method AddIntegerField(fields: MapField, key: string, w: Option<IntegerValue>)
    modifies fields
    ensures fields.entries == Apply(old(fields.entries), IntegerEmission(key, w))
  {
    if w.Some? && w.value.value.Some? {
      var parsed := TryParseInt64(w.value.value.value);
      if parsed.Some? {
        fields.Set(key, IntegerKind(parsed.value));
      }
    }
  }

  method AddBooleanField(fields: MapField, key: string, w: Option<BoolValue>)
    modifies fields
    ensures fields.entries == Apply(old(fields.entries), BoolEmission(key, w))
  {
    if w.Some? && w.value.value.Some? {
      fields.Set(key, BoolKind(w.value.value.value));
    }
  }

  method AddStructField(fields: MapField, key: string, w: Option<StructValue>)
    modifies fields
    ensures fields.entries == Apply(old(fields.entries), StructEmission(key, w))
  {
    if w.Some? && w.value.value.Some? {
      fields.Set(key, StructKind(map[]));
    }
  }

  lemma EmitPrefix(es: seq<Emission>, k: nat)
    requires k < |es|
    ensures Emit(es[..k + 1]) == Apply(Emit(es[..k]), es[k])
  {
    assert es[..k + 1][..k] == es[..k];
  }

  method ToQdrantFields(m: FileMetadata) returns (fields: MapField)
    ensures fresh(fields)
    ensures fields.entries == Payload(m)
  {
    fields := new MapField();
    AddStringField(fields, "repository_organization", m.repositoryOrganization);
    AddStringField(fields, "file_name", m.fileName);
    AddStringField(fields, "file_type", m.fileType);
    AddStringField(fields, "directory", m.directory);
    AddStringField(fields, "file_path", m.filePath);
    AddStringField(fields, "repository_name", m.repositoryName);
    AddStringField(fields, "repository_url", m.repositoryUrl);
    AddIntegerField(fields, "num_lines", m.numLines);
    AddIntegerField(fields, "repository_total_files", m.repositoryTotalFiles);
    AddIntegerField(fields, "size_bytes", m.sizeBytes);
    AddBooleanField(fields, "is_empty", m.isEmpty);
    AddBooleanField(fields, "has_shebang", m.hasShebang);
    AddStructField(fields, "repository_file_types", m.repositoryFileTypes);
    AddStructField(fields, "repository_directory_structure", m.repositoryDirectoryStructure);
  }

  /** The payload is the fold of the emission list, so the general facts about `Emit` apply to it. */
  lemma PayloadIsEmit(m: FileMetadata)
    ensures Payload(m) == Emit(Emissions(m))
  {
    var es := Emissions(m);
    assert es[..0] == [];
    EmitPrefix(es, 0);
    EmitPrefix(es, 1);
    EmitPrefix(es, 2);
    EmitPrefix(es, 3);
    EmitPrefix(es, 4);
    EmitPrefix(es, 5);
    EmitPrefix(es, 6);
    EmitPrefix(es, 7);
    EmitPrefix(es, 8);
    EmitPrefix(es, 9);
    EmitPrefix(es, 10);
    EmitPrefix(es, 11);
    EmitPrefix(es, 12);
    EmitPrefix(es, 13);
    assert es[..14] == es;
  }

  /** A payload only holds keys some emission names. */
  lemma {:induction false} EmitKeys(es: seq<Emission>)
    ensures forall k :: k in Emit(es) ==> exists i :: 0 <= i < |es| && es[i].key == k
    decreases |es|
  {
    if es != [] {
      var init := es[..|es| - 1];
      EmitKeys(init);
      forall k | k in Emit(es) ensures exists i :: 0 <= i < |es| && es[i].key == k {
        if k != es[|es| - 1].key {
          assert k in Emit(init);
          var i :| 0 <= i < |init| && init[i].key == k;
          assert es[i] == init[i];
        }
      }
    }
  }

  predicate DistinctKeys(es: seq<Emission>) {
    forall a, b :: 0 <= a < b < |es| ==> es[a].key != es[b].key
  }

  /** With distinct keys, each key holds exactly what its own emission wrote. */
  lemma {:induction false} EmitAt(es: seq<Emission>, i: nat)
    requires DistinctKeys(es) && i < |es|
    ensures es[i].key in Emit(es) <==> es[i].value.Some?
    ensures es[i].key in Emit(es) ==> Emit(es)[es[i].key] == es[i].value.value
    decreases |es|
  {
    var init := es[..|es| - 1];
    if i < |es| - 1 {
      assert init[i] == es[i];
      EmitAt(init, i);
    } else {
      EmitKeys(init);
      forall j | 0 <= j < |init| ensures init[j].key != es[i].key {
        assert init[j] == es[j];
      }
    }
  }

  /** The fourteen keys the converter writes. */
  const PayloadKeys: set<string> := {
    "repository_organization", "file_name", "file_type", "directory", "file_path",
    "repository_name", "repository_url", "num_lines", "repository_total_files", "size_bytes",
    "is_empty", "has_shebang", "repository_file_types", "repository_directory_structure"}

  /** Only the fourteen listed keys can appear in a payload. */
  lemma PayloadKeysListed(m: FileMetadata)
    ensures Payload(m).Keys <= PayloadKeys
  {
    var es := Emissions(m);
    PayloadIsEmit(m);
    EmitKeys(es);
    forall k | k in Payload(m) ensures k in PayloadKeys {
      var i :| 0 <= i < |es| && es[i].key == k;
    }
  }

  /** The fourteen keys are distinct, so no call overwrites another's field. */
  lemma EmissionKeysDistinct(m: FileMetadata)
    ensures DistinctKeys(Emissions(m))
  {
  }

  /** What a payload holds under the key of an emission. */
  predicate Holds(p: map<string, Value>, e: Emission) {
    && (e.key in p <==> e.value.Some?)
    && (e.key in p ==> p[e.key] == e.value.value)
  }

  /**
   * Every key is written exactly as its own `Add*Field` call decides: strings iff
   * wrapper and string are non-null, integers iff the text parses as a 64-bit
   * integer, bools iff the nullable bool has a value, structs as an empty struct.
   */
  lemma PayloadFields(m: FileMetadata)
    ensures var p, es := Payload(m), Emissions(m); forall i :: 0 <= i < 14 ==> Holds(p, es[i])
  {
    var es := Emissions(m);
    PayloadIsEmit(m);
    EmissionKeysDistinct(m);
    forall i | 0 <= i < 14 ensures Holds(Payload(m), es[i]) {
      EmitAt(es, i);
    }
  }

  /** `GetStringValue`: null unless the key is there with a string. */
  function GetStringValue(fields: map<string, Value>, key: string): (r: Option<StringValue>)
    ensures r.Some? <==> key in fields && fields[key].StringKind?
    ensures r.Some? ==> r.value.value == Some(fields[key].s)
  {
    if key in fields && fields[key].StringKind? then Some(StringValue(Some(fields[key].s))) else None
  }

  /** `GetIntegerValue`: null unless the key is there with an integer, which comes back as its decimal text. */
  function GetIntegerValue(fields: map<string, Value>, key: string): (r: Option<IntegerValue>)
    ensures r.Some? <==> key in fields && fields[key].IntegerKind?
    ensures r.Some? ==> r.value.value == Some(ToDecimal(fields[key].i))
  {
    if key in fields && fields[key].IntegerKind? then Some(IntegerValue(Some(ToDecimal(fields[key].i)))) else None
  }

  /** `GetBoolValue`: null unless the key is there with a bool. */
  function GetBoolValue(fields: map<string, Value>, key: string): (r: Option<BoolValue>)
    ensures r.Some? <==> key in fields && fields[key].BoolKind?
    ensures r.Some? ==> r.value.value == Some(fields[key].b)
  {
    if key in fields && fields[key].BoolKind? then Some(BoolValue(Some(fields[key].b))) else None
  }

  /** `FromQdrantFields`: the two struct fields are never read back. */
  function FromQdrantFields(fields: map<string, Value>): (m: FileMetadata)
    ensures m.repositoryFileTypes.None? && m.repositoryDirectoryStructure.None?
  {
    FileMetadata(
      repositoryOrganization := GetStringValue(fields, "repository_organization"),
      fileName := GetStringValue(fields, "file_name"),
      numLines := GetIntegerValue(fields, "num_lines"),
      fileType := GetStringValue(fields, "file_type"),
      isEmpty := GetBoolValue(fields, "is_empty"),
      repositoryName := GetStringValue(fields, "repository_name"),
      repositoryTotalFiles := GetIntegerValue(fields, "repository_total_files"),
      hasShebang := GetBoolValue(fields, "has_shebang"),
      repositoryFileTypes := None,
      repositoryDirectoryStructure := None,
      sizeBytes := GetIntegerValue(fields, "size_bytes"),
      directory := GetStringValue(fields, "directory"),
      filePath := GetStringValue(fields, "file_path"),
      repositoryUrl := GetStringValue(fields, "repository_url"))
  }

  /** A string or bool wrapper after a round trip: kept when it held a value, null otherwise. */
  function KeptString(w: Option<StringValue>): Option<StringValue> {
    if w.Some? && w.value.value.Some? then w else None
  }

  function KeptBool(w: Option<BoolValue>): Option<BoolValue> {
    if w.Some? && w.value.value.Some? then w else None
  }

  /** An integer wrapper after a round trip: its text rewritten in canonical form, or null when it does not parse. */
  function KeptInteger(w: Option<IntegerValue>): Option<IntegerValue> {
    if w.Some? && w.value.value.Some? && TryParseInt64(w.value.value.value).Some? then
      Some(IntegerValue(Some(ToDecimal(TryParseInt64(w.value.value.value).value))))
    else None
  }

  /**
   * The partial round trip: string and bool fields holding a value come back,
   * integer fields come back in canonical decimal form, the struct fields and
   * every null or unparseable field come back null.
   */
  lemma RoundTrip(m: FileMetadata)
    ensures FromQdrantFields(Payload(m)) == FileMetadata(
      KeptString(m.repositoryOrganization), KeptString(m.fileName), KeptInteger(m.numLines),
      KeptString(m.fileType), KeptBool(m.isEmpty), KeptString(m.repositoryName),
      KeptInteger(m.repositoryTotalFiles), KeptBool(m.hasShebang), None, None,
      KeptInteger(m.sizeBytes), KeptString(m.directory), KeptString(m.filePath), KeptString(m.repositoryUrl))
  {
    var p, es := Payload(m), Emissions(m);
    PayloadFields(m);
    assert Holds(p, es[0]) && Holds(p, es[1]) && Holds(p, es[2]) && Holds(p, es[3]) && Holds(p, es[4]);
    assert Holds(p, es[5]) && Holds(p, es[6]) && Holds(p, es[7]) && Holds(p, es[8]) && Holds(p, es[9]);
    assert Holds(p, es[10]) && Holds(p, es[11]);
    StringBack(p, "repository_organization", m.repositoryOrganization);
    StringBack(p, "file_name", m.fileName);
    StringBack(p, "file_type", m.fileType);
    StringBack(p, "directory", m.directory);
    StringBack(p, "file_path", m.filePath);
    StringBack(p, "repository_name", m.repositoryName);
    StringBack(p, "repository_url", m.repositoryUrl);
    IntegerBack(p, "num_lines", m.numLines);
    IntegerBack(p, "repository_total_files", m.repositoryTotalFiles);
    IntegerBack(p, "size_bytes", m.sizeBytes);
    BoolBack(p, "is_empty", m.isEmpty);
    BoolBack(p, "has_shebang", m.hasShebang);
  }

  lemma StringBack(p: map<string, Value>, key: string, w: Option<StringValue>)
    requires Holds(p, StringEmission(key, w))
    ensures GetStringValue(p, key) == KeptString(w)
  {
  }

  lemma IntegerBack(p: map<string, Value>, key: string, w: Option<IntegerValue>)
    requires Holds(p, IntegerEmission(key, w))
    ensures GetIntegerValue(p, key) == KeptInteger(w)
  {
  }

  lemma BoolBack(p: map<string, Value>, key: string, w: Option<BoolValue>)
    requires Holds(p, BoolEmission(key, w))
    ensures GetBoolValue(p, key) == KeptBool(w)
  {
  }

  /** An integer field already in canonical decimal form survives the round trip unchanged. */
  lemma CanonicalIntegerKept(w: Option<IntegerValue>)
    requires w.Some? && w.value.value.Some? && Canonical(w.value.value.value)
    ensures KeptInteger(w) == w
  {
  }
}
