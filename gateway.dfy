/** The model-provider client: which API key a request uses, how the text sent for
    embedding is cleaned and clamped, and the two provider requests (embed, generate). */
module Gateway {
  import opened Wrappers
  import opened Text

  type Embedding = seq<real>

  /** One request that reached the model provider, with the key it was sent with. */
  datatype Call = EmbedCall(text: string, key: string) | GenerateCall(prompt: string, key: string)

  /** The most characters ever sent in one embedding request. */
  const MaxEmbedChars := 10000

  /** Python truthiness of an optional string: `None` and `""` are false. */
  predicate Truthy(s: Option<string>)
  {
    s.Some? && |s.value| > 0
  }

  /** Python's `s or ""`. */
  function OrEmpty(s: Option<string>): string
  {
    if s.Some? then s.value else ""
  }

  /** `get_client`'s key: the caller's key when it is truthy, else the `GEMINI_API_KEY`
      setting (`envKey`); when neither is truthy the request fails before any client exists. */
  function ResolveKey(apiKey: Option<string>, envKey: Option<string>): (r: Result<string, Error>)
    ensures r.Success? <==> Truthy(apiKey) || Truthy(envKey)
    ensures r.Success? ==> |r.value| > 0
    ensures Truthy(apiKey) ==> r == Success(apiKey.value)
    ensures !Truthy(apiKey) && Truthy(envKey) ==> r == Success(envKey.value)
    ensures r.Failure? ==> r.error == MissingKey
  {
    if Truthy(apiKey) then Success(apiKey.value)
    else if Truthy(envKey) then Success(envKey.value)
    else Failure(MissingKey)
  }

  /** The text `get_embedding` sends: the input (`None` read as `""`) stripped, then cut to
      its first `MaxEmbedChars` characters. */
  function SafeText(text: Option<string>): (r: string)
    ensures |r| <= MaxEmbedChars && |r| <= |Strip(OrEmpty(text))|
    ensures r == Strip(OrEmpty(text))[..|r|]
    ensures |Strip(OrEmpty(text))| <= MaxEmbedChars ==> r == Strip(OrEmpty(text))
    ensures |Strip(OrEmpty(text))| > MaxEmbedChars ==> |r| == MaxEmbedChars
  {
    var t := Strip(OrEmpty(text));
    if |t| > MaxEmbedChars then t[..MaxEmbedChars] else t
  }

  /** Text that is short enough and has no surrounding whitespace goes out unchanged, and
      a missing text goes out as the empty string. */
  lemma SafeTextKeepsCleanText(t: string)
    requires |t| <= MaxEmbedChars
    requires |t| > 0 ==> !IsSpace(t[0]) && !IsSpace(t[|t| - 1])
    ensures SafeText(Some(t)) == t
    ensures SafeText(None) == SafeText(Some("")) == ""
  {
    if |t| > 0 {
      StripKeepsTrimmed(t);
    }
  }

  /** A string that starts and ends with a non-space character strips to itself. */
  lemma StripKeepsTrimmed(r: string)
    requires |r| > 0 && !IsSpace(r[0]) && !IsSpace(r[|r| - 1])
    ensures Strip(r) == r
  {
    assert SkipSpaces(r, 0) == 0;
    assert SkipSpacesBack(r, 0, |r|) == |r|;
  }

  /** The model provider, seen from this program: what it answers to each request and the
      requests it has received. Its answers are a fixed function of the request. */
  class Provider {
    /** The embedding vector for a text and key, or the message of the failure raised. */
    const embed: (string, string) -> Result<Embedding, string>
    /** The generated text for a prompt and key, or the message of the failure raised. */
    const generate: (string, string) -> Result<string, string>
    /** Every request the provider has received, oldest first. */
    var calls: seq<Call>

    constructor(embed: (string, string) -> Result<Embedding, string>,
                generate: (string, string) -> Result<string, string>)
      ensures this.embed == embed && this.generate == generate && calls == []
    {
      this.embed := embed;
      this.generate := generate;
      calls := [];
    }

    /** `client.models.embed_content`. */
    method EmbedContent(text: string, key: string) returns (r: Result<Embedding, string>)
      modifies this
      ensures r == embed(text, key)
      ensures calls == old(calls) + [EmbedCall(text, key)]
    {
      r := embed(text, key);
      calls := calls + [EmbedCall(text, key)];
    }

    /** `client.models.generate_content`. */
    method GenerateContent(prompt: string, key: string) returns (r: Result<string, string>)
      modifies this
      ensures r == generate(prompt, key)
      ensures calls == old(calls) + [GenerateCall(prompt, key)]
    {
      r := generate(prompt, key);
      calls := calls + [GenerateCall(prompt, key)];
    }
  }

  /** What `get_embedding` returns: the missing-key failure, or the provider's answer to the
      safe text with its failure passed on unchanged. */
  function EmbedOutcome(embed: (string, string) -> Result<Embedding, string>, text: Option<string>,
                        apiKey: Option<string>, envKey: Option<string>): Result<Embedding, Error>
  {
    match ResolveKey(apiKey, envKey)
    case Failure(e) => Failure(e)
    case Success(key) =>
      match embed(SafeText(text), key)
      case Success(v) => Success(v)
      case Failure(m) => Failure(ProviderError(m))
  }

  /** The requests `get_embedding` sends: none without a key, else the safe text once. */
  function EmbedCalls(text: Option<string>, apiKey: Option<string>, envKey: Option<string>): seq<Call>
  {
    match ResolveKey(apiKey, envKey)
    case Failure(_) => []
    case Success(key) => [EmbedCall(SafeText(text), key)]
  }

  /** `get_embedding` makes exactly one provider request when a key resolves and none
      otherwise; the request carries the safe text, at most 10000 characters, and the
      resolved key; without a key it fails with the missing-key error. */
  lemma EmbedRequest(embed: (string, string) -> Result<Embedding, string>, text: Option<string>,
                     apiKey: Option<string>, envKey: Option<string>)
    ensures |EmbedCalls(text, apiKey, envKey)| == if Truthy(apiKey) || Truthy(envKey) then 1 else 0
    ensures forall c :: c in EmbedCalls(text, apiKey, envKey) ==>
              c.EmbedCall? && c.text == SafeText(text) && |c.text| <= MaxEmbedChars &&
              Success(c.key) == ResolveKey(apiKey, envKey)
    ensures !(Truthy(apiKey) || Truthy(envKey)) ==> EmbedOutcome(embed, text, apiKey, envKey) == Failure(MissingKey)
  {
  }

  /** A provider failure reaches the caller unchanged, and so does a vector: there is no
      retry and no fallback. */
  lemma EmbedPassesThrough(embed: (string, string) -> Result<Embedding, string>, text: Option<string>,
                           apiKey: Option<string>, envKey: Option<string>)
    requires ResolveKey(apiKey, envKey).Success?
    ensures var answer := embed(SafeText(text), ResolveKey(apiKey, envKey).value);
            EmbedOutcome(embed, text, apiKey, envKey)
            == if answer.Success? then Success(answer.value) else Failure(ProviderError(answer.error))
  {
  }

  /** `get_embedding`. */
  method GetEmbedding(provider: Provider, text: Option<string>, apiKey: Option<string>, envKey: Option<string>)
    returns (r: Result<Embedding, Error>)
    modifies provider
    ensures r == EmbedOutcome(provider.embed, text, apiKey, envKey)
    ensures provider.calls == old(provider.calls) + EmbedCalls(text, apiKey, envKey)
  {
    var safe := SafeText(text);
    var key := ResolveKey(apiKey, envKey);
    if key.Failure? {
      return Failure(key.error);
    }
    var res := provider.EmbedContent(safe, key.value);
    if res.Failure? {
      return Failure(ProviderError(res.error));
    }
    return Success(res.value);
  }

  /** What `generate_text` returns: the missing-key failure, or the provider's answer. */
  function GenerateOutcome(generate: (string, string) -> Result<string, string>, prompt: string,
                           apiKey: Option<string>, envKey: Option<string>): Result<string, Error>
  {
    match ResolveKey(apiKey, envKey)
    case Failure(e) => Failure(e)
    case Success(key) =>
      match generate(prompt, key)
      case Success(t) => Success(t)
      case Failure(m) => Failure(ProviderError(m))
  }

  /** The requests `generate_text` sends: none without a key, else the prompt once. */
  function GenerateCalls(prompt: string, apiKey: Option<string>, envKey: Option<string>): seq<Call>
  {
    match ResolveKey(apiKey, envKey)
    case Failure(_) => []
    case Success(key) => [GenerateCall(prompt, key)]
  }

  /** `generate_text`: the prompt goes out unchanged, once, with the resolved key. */
  method GenerateText(provider: Provider, prompt: string, apiKey: Option<string>, envKey: Option<string>)
    returns (r: Result<string, Error>)
    modifies provider
    ensures r == GenerateOutcome(provider.generate, prompt, apiKey, envKey)
    ensures provider.calls == old(provider.calls) + GenerateCalls(prompt, apiKey, envKey)
  {
    var key := ResolveKey(apiKey, envKey);
    if key.Failure? {
      return Failure(key.error);
    }
    var res := provider.GenerateContent(prompt, key.value);
    if res.Failure? {
      return Failure(ProviderError(res.error));
    }
    return Success(res.value);
  }
}
