/** The answer composer: the grounded prompt built from a question and the retrieved
    context, and the one generation request that answers it. */
module Composer {
  import opened Wrappers
  import opened Text
  import opened Gateway

  /** The sentence the model is told to reply with when the context holds no answer. */
  const Fallback := "Is PDF me iska answer available nahi hai."

  /** The rules the model is given, up to the fallback sentence. */
  const Rules := "\nYou are a helpful PDF assistant.\nAnswer ONLY using the provided PDF context.\n\nRules:\n- Do NOT use markdown formatting like **bold**, headings, code blocks.\n- Write in clean plain text.\n- If answer is not in context, reply exactly:\n"

  /** The heading of the context. */
  const ContextHeading := "\n\nPDF Context:\n"

  /** The instructions ahead of the context, ending with the context's heading. */
  const Preamble := Rules + Fallback + ContextHeading

  /** What separates the context from the question. */
  const QuestionHeading := "\n\nUser Question:\n"

  /** What follows the question. */
  const AnswerCue := "\n\nAnswer:\n"

  /** The prompt sent for a question and its context. */
  function Prompt(question: string, context: string): string
  {
    Preamble + context + QuestionHeading + question + AnswerCue
  }

  /** Where the context starts in the prompt. */
  function ContextStart(): nat
  {
    |Preamble|
  }

  /** Where the question starts in the prompt for a context of `contextLen` characters. */
  function QuestionStart(contextLen: nat): nat
  {
    |Preamble| + contextLen + |QuestionHeading|
  }

  /** The prompt is grounded: the whole context appears verbatim at a fixed place, the
      whole question appears verbatim after it, the instruction to answer with the
      fallback sentence comes before both, and the prompt ends with the answer cue. */
  lemma PromptGrounding(question: string, context: string)
    ensures OccursAt(Prompt(question, context), context, ContextStart())
    ensures ContextStart() + |context| < QuestionStart(|context|)
    ensures OccursAt(Prompt(question, context), question, QuestionStart(|context|))
    ensures |Prompt(question, context)| == QuestionStart(|context|) + |question| + |AnswerCue|
    ensures OccursAt(Prompt(question, context), QuestionHeading, ContextStart() + |context|)
    ensures OccursAt(Prompt(question, context), AnswerCue, QuestionStart(|context|) + |question|)
    ensures exists i: nat :: i + |Fallback| <= ContextStart() && OccursAt(Prompt(question, context), Fallback, i)
  {
    PromptParts(Rules, Fallback, ContextHeading, context, QuestionHeading, question, AnswerCue);
  }

  /** Where each part of a concatenation of seven strings starts. */
  lemma PromptParts(a: string, b: string, c: string, d: string, e: string, f: string, g: string)
    requires |e| > 0
    ensures var p := a + b + c + d + e + f + g;
            var d0 := |a| + |b| + |c|;
            var f0 := d0 + |d| + |e|;
            OccursAt(p, b, |a|) && OccursAt(p, d, d0) && OccursAt(p, e, d0 + |d|) &&
            OccursAt(p, f, f0) && OccursAt(p, g, f0 + |f|) && |p| == f0 + |f| + |g|
  {
    var p := a + b + c + d + e + f + g;
    var d0 := |a| + |b| + |c|;
    var f0 := d0 + |d| + |e|;
    assert p[|a|..|a| + |b|] == b;
    assert p[d0..d0 + |d|] == d;
    assert p[d0 + |d|..f0] == e;
    assert p[f0..f0 + |f|] == f;
    assert p[f0 + |f|..] == g;
  }

  /** What `generate_answer` returns: the generated text stripped of surrounding
      whitespace, or the failure of the generation request. */
  function AnswerOutcome(generate: (string, string) -> Result<string, string>, question: string,
                         context: string, apiKey: Option<string>, envKey: Option<string>): Result<string, Error>
  {
    match GenerateOutcome(generate, Prompt(question, context), apiKey, envKey)
    case Success(t) => Success(Strip(t))
    case Failure(e) => Failure(e)
  }

  /** The answer is the model's reply trimmed at both ends and nothing else: a contiguous
      slice of the reply whose cut-off ends are whitespace, which itself neither starts
      nor ends with whitespace, and which the caller can strip again without change. A
      failure is the generation request's own failure. */
  lemma AnswerIsTrimmedReply(generate: (string, string) -> Result<string, string>, question: string,
                             context: string, apiKey: Option<string>, envKey: Option<string>)
    ensures var reply := GenerateOutcome(generate, Prompt(question, context), apiKey, envKey);
            var r := AnswerOutcome(generate, question, context, apiKey, envKey);
            r.Success? <==> reply.Success?
    ensures var reply := GenerateOutcome(generate, Prompt(question, context), apiKey, envKey);
            var r := AnswerOutcome(generate, question, context, apiKey, envKey);
            reply.Failure? ==> r == Failure(reply.error)
    ensures var reply := GenerateOutcome(generate, Prompt(question, context), apiKey, envKey);
            var r := AnswerOutcome(generate, question, context, apiKey, envKey);
            reply.Success? ==>
              var lo := SkipSpaces(reply.value, 0);
              lo + |r.value| <= |reply.value| && r.value == reply.value[lo..lo + |r.value|] &&
              (forall i :: 0 <= i < lo ==> IsSpace(reply.value[i])) &&
              (forall i :: lo + |r.value| <= i < |reply.value| ==> IsSpace(reply.value[i])) &&
              (|r.value| > 0 ==> !IsSpace(r.value[0]) && !IsSpace(r.value[|r.value| - 1])) &&
              Strip(r.value) == r.value
  {
    var reply := GenerateOutcome(generate, Prompt(question, context), apiKey, envKey);
    if reply.Success? {
      StripIsTrimmedSlice(reply.value);
      StripIdempotent(reply.value);
    }
  }

  /** `generate_answer` sends exactly one generation request when a key resolves and none
      otherwise, and that request carries this prompt and the resolved key. */
  lemma AnswerRequest(question: string, context: string, apiKey: Option<string>, envKey: Option<string>)
    ensures |GenerateCalls(Prompt(question, context), apiKey, envKey)| == if Truthy(apiKey) || Truthy(envKey) then 1 else 0
    ensures forall c :: c in GenerateCalls(Prompt(question, context), apiKey, envKey) ==>
              c == GenerateCall(Prompt(question, context), ResolveKey(apiKey, envKey).value)
  {
  }

  /** `generate_answer`. */
  method GenerateAnswer(provider: Provider, question: string, context: string,
                        apiKey: Option<string>, envKey: Option<string>) returns (r: Result<string, Error>)
    modifies provider
    ensures r == AnswerOutcome(provider.generate, question, context, apiKey, envKey)
    ensures provider.calls == old(provider.calls) + GenerateCalls(Prompt(question, context), apiKey, envKey)
  {
    var reply := GenerateText(provider, Prompt(question, context), apiKey, envKey);
    if reply.Failure? {
      return Failure(reply.error);
    }
    return Success(Strip(reply.value));
  }
}
