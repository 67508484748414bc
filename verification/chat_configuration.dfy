/**
 * The AppHost's chat configuration record: model names and host URIs read from
 * the environment (parameters here, `None` when unset), the provider each URI
 * selects, and the vector-store connection name derived from the two model names.
 */
module ChatConfiguration {
  import opened Wrappers
  import opened PyStr

  datatype ModelProvider = Ollama | OllamaHost | OpenAI | HuggingFace

  /** `s.Contains(needle, InvariantCultureIgnoreCase)` for an ASCII needle. */
  predicate ContainsIgnoreCase(s: string, needle: string) {
    Contains(Lower(s), Lower(needle))
  }

  predicate IsLocalHost(uri: string) {
    ContainsIgnoreCase(uri, "host.") || ContainsIgnoreCase(uri, "localhost")
  }

  /**
   * The provider a host URI selects: no URI is Ollama; a local host beats the
   * other tests; `hugging` is checked before `openai`; anything else is Ollama.
   */
  function GetModelProvider(uri: Option<string>): (p: ModelProvider)
    ensures uri.None? ==> p == Ollama
    ensures p == OllamaHost <==> uri.Some? && IsLocalHost(uri.value)
    ensures p == HuggingFace <==> uri.Some? && !IsLocalHost(uri.value) && ContainsIgnoreCase(uri.value, "hugging")
    ensures p == OpenAI <==> (uri.Some? && !IsLocalHost(uri.value) && !ContainsIgnoreCase(uri.value, "hugging")
      && ContainsIgnoreCase(uri.value, "openai"))
  {
    match uri
    case None => Ollama
    case Some(u) =>
      if IsLocalHost(u) then OllamaHost
      else if ContainsIgnoreCase(u, "hugging") then HuggingFace
      else if ContainsIgnoreCase(u, "openai") then OpenAI
      else Ollama
  }

  function Upper(s: string): (r: string)
    ensures |r| == |s|
  {
    if s == [] then [] else [if 'a' <= s[0] <= 'z' then (s[0] as int - 32) as char else s[0]] + Upper(s[1..])
  }

  lemma {:induction false} LowerUpper(s: string)
    ensures Lower(Upper(s)) == Lower(s)
  {
    if s != [] {
      LowerUpper(s[1..]);
      assert Upper(s)[1..] == Upper(s[1..]);
    }
  }

  lemma {:induction false} LowerLower(s: string)
    ensures Lower(Lower(s)) == Lower(s)
  {
    if s != [] {
      LowerLower(s[1..]);
      assert Lower(s)[1..] == Lower(s[1..]);
    }
  }

  /** The provider does not depend on the case of the URI's letters. */
  lemma ProviderIgnoresCase(u: string)
    ensures GetModelProvider(Some(Upper(u))) == GetModelProvider(Some(u))
    ensures GetModelProvider(Some(Lower(u))) == GetModelProvider(Some(u))
  {
    LowerUpper(u);
    LowerLower(u);
  }

  /** The empty URI (the default when the variable is unset) selects Ollama. */
  lemma EmptyUriIsOllama()
    ensures GetModelProvider(Some("")) == Ollama
  {
    assert Lower("") == [];
    assert !ContainsIgnoreCase("", "host.") by { NothingInEmpty(Lower("host.")); }
    assert !ContainsIgnoreCase("", "localhost") by { NothingInEmpty(Lower("localhost")); }
    assert !ContainsIgnoreCase("", "hugging") by { NothingInEmpty(Lower("hugging")); }
    assert !ContainsIgnoreCase("", "openai") by { NothingInEmpty(Lower("openai")); }
  }

  lemma NothingInEmpty(needle: string)
    requires needle != []
    ensures !Contains([], needle)
  {
  }

  /** A character the sanitiser keeps: an ASCII letter or '-'. */
  predicate Kept(c: char) {
    'a' <= c <= 'z' || 'A' <= c <= 'Z' || c == '-'
  }

  /** The characters of `s` that the sanitiser keeps, in their original order. */
  function Filter(s: string): (r: string)
    ensures |r| <= |s|
    ensures forall i :: 0 <= i < |r| ==> Kept(r[i])
  {
    if s == [] then [] else (if Kept(s[0]) then [s[0]] else []) + Filter(s[1..])
  }

  /** `StripSpecialCharacters`: null and "" come back unchanged; otherwise the kept characters. */
  function StripSpecialCharacters(input: Option<string>): (r: Option<string>)
    ensures r.None? <==> input.None?
    ensures r.Some? ==> |r.value| <= |input.value| && forall i :: 0 <= i < |r.value| ==> Kept(r.value[i])
  {
    match input
    case None => None
    case Some(s) => if s == [] then Some(s) else Some(Filter(s))
  }

  /** Filtering distributes over concatenation, so it keeps the kept characters in order. */
  lemma {:induction false} FilterAppend(a: string, b: string)
    ensures Filter(a + b) == Filter(a) + Filter(b)
  {
    if a == [] {
      assert a + b == b;
    } else {
      assert (a + b)[0] == a[0] && (a + b)[1..] == a[1..] + b;
      FilterAppend(a[1..], b);
    }
  }

  /** A string made only of kept characters passes through unchanged. */
  lemma {:induction false} FilterKeepsAll(s: string)
    requires forall i :: 0 <= i < |s| ==> Kept(s[i])
    ensures Filter(s) == s
  {
    if s != [] {
      FilterKeepsAll(s[1..]);
    }
  }

  /** A string with no kept character filters to the empty string. */
  lemma {:induction false} FilterDropsAll(s: string)
    requires forall i :: 0 <= i < |s| ==> !Kept(s[i])
    ensures Filter(s) == []
  {
    if s != [] {
      FilterDropsAll(s[1..]);
    }
  }

  /** Sanitising twice is sanitising once. */
  lemma FilterIdempotent(s: string)
    ensures Filter(Filter(s)) == Filter(s)
  {
    FilterKeepsAll(Filter(s));
  }

  /** The record built from the environment. */
  datatype Configuration = Configuration(
    chatModel: string,
    chatModelHostUri: string,
    chatModelProvider: ModelProvider,
    embeddingModel: string,
    embeddingModelProvider: ModelProvider,
    embeddingModelHostUri: string,
    vectorStoreConnectionName: string)

  /** The environment variables the constructor reads. */
  datatype Environment = Environment(
    embeddingModel: Option<string>,
    embeddingModelHostUri: Option<string>,
    chatModel: Option<string>,
    chatModelHostUri: Option<string>)

  /**
   * The constructor: unset variables take their defaults, each provider comes from
   * its host URI, and the connection name is the sanitised chat model followed by
   * the sanitised embedding model.
   */
  function NewConfiguration(env: Environment): (c: Configuration)
    ensures c.chatModel == env.chatModel.GetOr("phi3.5")
    ensures c.embeddingModel == env.embeddingModel.GetOr("mxbai-embed-large")
    ensures c.chatModelHostUri == env.chatModelHostUri.GetOr("")
    ensures c.embeddingModelHostUri == env.embeddingModelHostUri.GetOr("")
    ensures c.chatModelProvider == GetModelProvider(Some(c.chatModelHostUri))
    ensures c.embeddingModelProvider == GetModelProvider(Some(c.embeddingModelHostUri))
    ensures forall i :: 0 <= i < |c.vectorStoreConnectionName| ==> Kept(c.vectorStoreConnectionName[i])
    ensures |c.vectorStoreConnectionName| <= |c.chatModel| + |c.embeddingModel|
  {
    var embeddingModel := env.embeddingModel.GetOr("mxbai-embed-large");
    var embeddingUri := env.embeddingModelHostUri.GetOr("");
    var chatModel := env.chatModel.GetOr("phi3.5");
    var chatUri := env.chatModelHostUri.GetOr("");
    var name := StripSpecialCharacters(Some(chatModel)).value + StripSpecialCharacters(Some(embeddingModel)).value;
    Configuration(chatModel, chatUri, GetModelProvider(Some(chatUri)), embeddingModel,
                  GetModelProvider(Some(embeddingUri)), embeddingUri, name)
  }

  /** The connection name is the kept characters of the two model names, in order. */
  lemma ConnectionNameIsFiltered(env: Environment)
    ensures var c := NewConfiguration(env);
      c.vectorStoreConnectionName == Filter(c.chatModel + c.embeddingModel)
  {
    var c := NewConfiguration(env);
    FilterAppend(c.chatModel, c.embeddingModel);
  }

  /** With no environment variables set: Ollama for both models and the name `phimxbai-embed-large`. */
  lemma DefaultConfiguration()
    ensures var c := NewConfiguration(Environment(None, None, None, None));
      && c.chatModel == "phi3.5" && c.embeddingModel == "mxbai-embed-large"
      && c.chatModelHostUri == "" && c.embeddingModelHostUri == ""
      && c.chatModelProvider == Ollama && c.embeddingModelProvider == Ollama
      && c.vectorStoreConnectionName == "phimxbai-embed-large"
  {
    var c := NewConfiguration(Environment(None, None, None, None));
    assert c.chatModel == "phi3.5" && c.embeddingModel == "mxbai-embed-large";
    assert c.chatModelHostUri == "" && c.embeddingModelHostUri == "";
    EmptyUriIsOllama();
    DefaultNames();
  }

  lemma DefaultNames()
    ensures Filter("phi3.5") + Filter("mxbai-embed-large") == "phimxbai-embed-large"
  {
    FilterPhi();
    FilterEmbeddingDefault();
    NameLiteral();
  }

  lemma FilterPhi()
    ensures Filter("phi3.5") == "phi"
  {
    var s := "phi3.5";
    assert Filter(s[5..]) == [];
    assert Filter(s[4..]) == [];
    assert Filter(s[3..]) == [];
    assert Filter(s[2..]) == "i";
    assert Filter(s[1..]) == "hi";
  }

  lemma FilterEmbeddingDefault()
    ensures Filter("mxbai-embed-large") == "mxbai-embed-large"
  {
    FilterKeepsAll("mxbai-embed-large");
  }

  lemma NameLiteral()
    ensures "phi" + "mxbai-embed-large" == "phimxbai-embed-large"
  {
  }
}
