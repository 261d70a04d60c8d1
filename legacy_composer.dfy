/** The older answer composer: the same grounded prompt, answered with no caller key, so
    the request always uses the configured default key. */
module LegacyComposer {
  import opened Wrappers
  import opened Gateway
  import Composer

  /** `generate_answer` of the older revision. */
  method GenerateAnswer(provider: Provider, question: string, context: string, envKey: Option<string>)
    returns (r: Result<string, Error>)
    modifies provider
    ensures r == Composer.AnswerOutcome(provider.generate, question, context, None, envKey)
    ensures provider.calls == old(provider.calls) + GenerateCalls(Composer.Prompt(question, context), None, envKey)
  {
    var reply := GenerateText(provider, Composer.Prompt(question, context), None, envKey);
    if reply.Failure? {
      return Failure(reply.error);
    }
    return Success(Text.Strip(reply.value));
  }

  /** The older revision behaves like the current one called without a key: it fails with
      the missing-key error exactly when no default key is configured, and otherwise sends
      the same prompt with the default key. */
  lemma LegacyUsesDefaultKey(generate: (string, string) -> Result<string, string>, question: string,
                             context: string, envKey: Option<string>)
    ensures Composer.AnswerOutcome(generate, question, context, None, envKey) == Failure(MissingKey) <==> !Truthy(envKey)
    ensures Truthy(envKey) ==>
              GenerateCalls(Composer.Prompt(question, context), None, envKey)
              == [GenerateCall(Composer.Prompt(question, context), envKey.value)]
    ensures Truthy(envKey) ==>
              forall apiKey :: !Truthy(apiKey) ==>
                Composer.AnswerOutcome(generate, question, context, apiKey, envKey)
                == Composer.AnswerOutcome(generate, question, context, None, envKey)
  {
  }
}
