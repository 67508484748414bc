/**
 * The notebook configuration helper: connection strings of the form
 * `Key=value;Key=value;…` read from the environment, and the vector-store
 * collection name with its `eval-` prefix. Environment values are parameters
 * (`None` when the variable is unset).
 */
module ConfigHelper {
  import opened Wrappers
  import opened PyStr

  /** The exception a configuration lookup raises. */
  datatype ConfigError =
    | AttributeError  // `.split` called on an unset (None) connection string
    | StopIteration   // `next(...)` over parts none of which has the wanted prefix

  /** `next(p for p in parts if p.startswith(prefix))`, or None when nothing matches. */
  function FirstWith(parts: seq<string>, prefix: string): (r: Option<nat>)
    ensures r.Some? ==> (r.value < |parts| && StartsWith(parts[r.value], prefix)
      && forall k :: 0 <= k < r.value ==> !StartsWith(parts[k], prefix))
    ensures r.None? <==> forall k :: 0 <= k < |parts| ==> !StartsWith(parts[k], prefix)
    decreases |parts|
  {
    if parts == [] then None
    else if StartsWith(parts[0], prefix) then Some(0)
    else match FirstWith(parts[1..], prefix)
      case None => None
      case Some(k) => Some(k + 1)
  }

  /** Splitting on a one-character separator that does not occur in `a` only extends the current piece. */
  lemma {:induction false} SplitFromNoSep(a: string, rest: string, c: char, cur: string)
    requires c !in a
    ensures SplitFrom(a + rest, [c], cur) == SplitFrom(rest, [c], cur + a)
    decreases |a|
  {
    if a != [] {
      assert (a + rest)[0] == a[0] && !StartsWith(a + rest, [c]);
      assert (a + rest)[1..] == a[1..] + rest;
      SplitFromNoSep(a[1..], rest, c, cur + [a[0]]);
      assert cur + [a[0]] + a[1..] == cur + a;
    } else {
      assert a + rest == rest && cur + a == cur;
    }
  }

  /** The first piece of a split that starts at `cur` with no separator before `rest`'s first one. */
  lemma SplitFromFirst(rest: string, c: char, cur: string)
    requires rest == [] || rest[0] == c
    ensures SplitFrom(rest, [c], cur)[0] == cur
  {
  }

  /** The second piece of `p.split('=')` when `p` is `key=` followed by text. */
  lemma SecondPiece(p: string, key: string)
    requires '=' !in key && StartsWith(p, key + "=")
    ensures |Split(p, "=")| >= 2 && Split(p, "=")[1] == TakeUntil(p[|key| + 1..], '=')
  {
    var after := p[|key| + 1..];
    assert p == key + ("=" + after) by {
      assert p == (key + "=") + after;
    }
    KeyPiece(key, after);
    FirstPieceUntil(after);
  }

  /** A key free of '=' followed by '=' is the first piece; splitting goes on after the '='. */
  lemma KeyPiece(key: string, after: string)
    requires '=' !in key
    ensures SplitFrom(key + ("=" + after), "=", []) == [key] + SplitFrom(after, "=", [])
  {
    SplitFromNoSep(key, "=" + after, '=', []);
    assert [] + key == key;
    assert StartsWith("=" + after, "=");
    assert ("=" + after)[1..] == after;
  }

  /** The first piece of a split on '=' is the text up to the first '='. */
  lemma FirstPieceUntil(after: string)
    ensures SplitFrom(after, "=", [])[0] == TakeUntil(after, '=')
  {
    var v := TakeUntil(after, '=');
    var t := after[|v|..];
    assert after == v + t;
    SplitFromNoSep(v, t, '=', []);
    assert [] + v == v;
    SplitFromFirst(t, '=', v);
  }

  /**
   * `p.split('=')[1]` for a part that starts with `key=`: the text after the
   * first '=' up to the second '=' (or the end), so a value holding '=' is cut short.
   */
  function PartValue(p: string, key: string): (v: string)
    requires '=' !in key && StartsWith(p, key + "=")
    ensures '=' !in v
    ensures |key| + 1 + |v| <= |p| && p[|key| + 1..|key| + 1 + |v|] == v
    ensures |key| + 1 + |v| == |p| || p[|key| + 1 + |v|] == '='
  {
    SecondPiece(p, key);
    Split(p, "=")[1]
  }

  /** The longest prefix of `s` without `c`. */
  function TakeUntil(s: string, c: char): (v: string)
    ensures c !in v && |v| <= |s| && v == s[..|v|]
    ensures |v| == |s| || s[|v|] == c
  {
    if s == [] || s[0] == c then [] else [s[0]] + TakeUntil(s[1..], c)
  }

  /** The value of the first part of `parts` that starts with `key=`; StopIteration when there is none. */
  function Lookup(parts: seq<string>, key: string): (r: Result<string, ConfigError>)
    requires '=' !in key
    ensures r.Err? <==> forall k :: 0 <= k < |parts| ==> !StartsWith(parts[k], key + "=")
    ensures r.Err? ==> r.error == StopIteration
    ensures r.Ok? ==> exists k :: (0 <= k < |parts| && StartsWith(parts[k], key + "=")
      && (forall j :: 0 <= j < k ==> !StartsWith(parts[j], key + "="))
      && r.value == PartValue(parts[k], key))
  {
    match FirstWith(parts, key + "=")
    case None => Err(StopIteration)
    case Some(k) => Ok(PartValue(parts[k], key))
  }

  /** `parse_ollama_connection`: the endpoint and the model of a chat or embedding connection string. */
  function ParseOllamaConnection(conn: string): (r: Result<(string, string), ConfigError>)
    ensures r.Ok? <==> Lookup(Split(conn, ";"), "Endpoint").Ok? && Lookup(Split(conn, ";"), "Model").Ok?
    ensures r.Ok? ==> (r.value.0 == Lookup(Split(conn, ";"), "Endpoint").value
      && r.value.1 == Lookup(Split(conn, ";"), "Model").value)
    ensures r.Err? ==> r.error == StopIteration
  {
    var parts := Split(conn, ";");
    match Lookup(parts, "Endpoint")
    case Err(e) => Err(e)
    case Ok(endpoint) =>
      match Lookup(parts, "Model")
      case Err(e) => Err(e)
      case Ok(model) => Ok((endpoint, model))
  }

  /**
   * The model is found wherever its part sits relative to the endpoint's: with an
   * `Endpoint=` part and a `Model=` part, both orders give the same pair.
   */
  lemma EitherOrder(a: string, b: string)
    requires ';' !in a && ';' !in b
    requires StartsWith(a, "Endpoint=") && StartsWith(b, "Model=")
    ensures ParseOllamaConnection(a + ";" + b) == Ok((PartValue(a, "Endpoint"), PartValue(b, "Model")))
    ensures ParseOllamaConnection(b + ";" + a) == Ok((PartValue(a, "Endpoint"), PartValue(b, "Model")))
  {
    SplitTwo(a, b);
    SplitTwo(b, a);
    assert !StartsWith(a, "Model=") by { assert a[0] == 'E'; }
    assert !StartsWith(b, "Endpoint=") by { assert b[0] == 'M'; }
    LookupPair(a, b, "Endpoint");
    LookupPair(b, a, "Model");
    LookupPair(a, b, "Model");
    LookupPair(b, a, "Endpoint");
  }

  /** Looking a key up in two parts: the first part wins, else the second. */
  lemma LookupPair(x: string, y: string, key: string)
    requires '=' !in key
    ensures StartsWith(x, key + "=") ==> Lookup([x, y], key) == Ok(PartValue(x, key))
    ensures !StartsWith(x, key + "=") && StartsWith(y, key + "=") ==> Lookup([x, y], key) == Ok(PartValue(y, key))
  {
    var pre := key + "=";
    assert [x, y][0] == x && [x, y][1..] == [y];
    assert [y][0] == y && [y][1..] == [];
    if !StartsWith(x, pre) && StartsWith(y, pre) {
      assert FirstWith([y], pre) == Some(0);
      assert FirstWith([x, y], pre) == Some(1);
    }
  }

  lemma SplitTwo(a: string, b: string)
    requires ';' !in a && ';' !in b
    ensures Split(a + ";" + b, ";") == [a, b]
  {
    assert a + ";" + b == a + (";" + b);
    SplitFromNoSep(a, ";" + b, ';', []);
    assert [] + a == a;
    assert StartsWith(";" + b, ";");
    assert (";" + b)[1..] == b;
    assert SplitFrom(";" + b, ";", a) == [a] + SplitFrom(b, ";", []);
    SplitFromNoSep(b, [], ';', []);
    assert b + [] == b && [] + b == b;
    assert SplitFrom(b, ";", []) == [b];
  }

  /** The vector-store settings: `VectorDBConfig` with its default vector name. */
  datatype VectorDbConfig = VectorDbConfig(url: string, apiKey: string, collectionName: Option<string>, vectorName: string)

  /** A chat or embedding model's settings (`ModelConfig` with its defaults for provider and key). */
  datatype ModelConfig = ModelConfig(modelName: string, baseUrl: string)

  datatype Config = Config(vectorDb: VectorDbConfig, chat: ModelConfig, embedding: ModelConfig)

  /**
   * The collection name: in eval mode `eval-` followed by the variable as an
   * f-string renders it (an unset variable renders as `None`); otherwise the variable itself.
   */
  function CollectionName(isEval: bool, env: Option<string>): (r: Option<string>)
    ensures !isEval ==> r == env
    ensures isEval ==> (r.Some? && StartsWith(r.value, "eval-")
      && r.value[5..] == (if env.Some? then env.value else "None"))
  {
    if isEval then Some("eval-" + env.GetOr("None")) else env
  }

  /** The Qdrant URL and key of a `qdrant_http` connection string, by the same first-match rule. */
  function ParseQdrantConnection(conn: Option<string>): (r: Result<(string, string), ConfigError>)
    ensures conn.None? ==> r == Err(AttributeError)
    ensures conn.Some? ==> (r.Ok? <==> (Lookup(Split(conn.value, ";"), "Endpoint").Ok?
      && Lookup(Split(conn.value, ";"), "Key").Ok?))
    ensures r.Ok? ==> (r.value.0 == Lookup(Split(conn.value, ";"), "Endpoint").value
      && r.value.1 == Lookup(Split(conn.value, ";"), "Key").value)
  {
    match conn
    case None => Err(AttributeError)
    case Some(c) =>
      var parts := Split(c, ";");
      match Lookup(parts, "Endpoint")
      case Err(e) => Err(e)
      case Ok(url) =>
        match Lookup(parts, "Key")
        case Err(e) => Err(e)
        case Ok(key) => Ok((url, key))
  }

  /** `parse_ollama_connection` applied to an environment value: None raises AttributeError. */
  function ParseEnvConnection(conn: Option<string>): (r: Result<(string, string), ConfigError>)
    ensures conn.None? ==> r == Err(AttributeError)
    ensures conn.Some? ==> r == ParseOllamaConnection(conn.value)
  {
    match conn
    case None => Err(AttributeError)
    case Some(c) => ParseOllamaConnection(c)
  }

  /**
   * `ConfigHelper(is_eval)`: the chat, embedding and Qdrant connection strings are
   * parsed in that order and the first failure is the exception raised.
   */
  function NewConfigHelper(isEval: bool, collectionEnv: Option<string>, chatConn: Option<string>,
                           embeddingConn: Option<string>, qdrantConn: Option<string>): (r: Result<Config, ConfigError>)
    ensures r.Ok? <==> (ParseEnvConnection(chatConn).Ok? && ParseEnvConnection(embeddingConn).Ok?
      && ParseQdrantConnection(qdrantConn).Ok?)
    ensures ParseEnvConnection(chatConn).Err? ==> r == Err(ParseEnvConnection(chatConn).error)
    ensures ParseEnvConnection(chatConn).Ok? && ParseEnvConnection(embeddingConn).Err? ==>
      r == Err(ParseEnvConnection(embeddingConn).error)
    ensures (ParseEnvConnection(chatConn).Ok? && ParseEnvConnection(embeddingConn).Ok?
             && ParseQdrantConnection(qdrantConn).Err?) ==>
      r == Err(ParseQdrantConnection(qdrantConn).error)
    ensures r.Ok? ==> (
      && r.value.vectorDb.collectionName == CollectionName(isEval, collectionEnv)
      && r.value.vectorDb.vectorName == "page_content_vector"
      && r.value.chat == ModelConfig(ParseEnvConnection(chatConn).value.1, ParseEnvConnection(chatConn).value.0)
      && r.value.embedding == ModelConfig(ParseEnvConnection(embeddingConn).value.1,
                                          ParseEnvConnection(embeddingConn).value.0)
      && (r.value.vectorDb.url, r.value.vectorDb.apiKey) == ParseQdrantConnection(qdrantConn).value)
  {
    var name := CollectionName(isEval, collectionEnv);
    match ParseEnvConnection(chatConn)
    case Err(e) => Err(e)
    case Ok(chat) =>
      match ParseEnvConnection(embeddingConn)
      case Err(e) => Err(e)
      case Ok(embedding) =>
        match ParseQdrantConnection(qdrantConn)
        case Err(e) => Err(e)
        case Ok(qdrant) =>
          Ok(Config(VectorDbConfig(qdrant.0, qdrant.1, name, "page_content_vector"),
                    ModelConfig(chat.1, chat.0), ModelConfig(embedding.1, embedding.0)))
  }
}
