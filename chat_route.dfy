/** The chat route: a question posted about one document is classified as a summary request
    or an ordinary question, answered from the document's retrieved passages (or refused),
    saved to the chat history and shown after the earlier exchanges. */
module ChatRoute {
  import opened Wrappers
  import opened Seqs
  import opened Text
  import opened Gateway
  import opened VectorStore
  import opened Composer

  const EmptyQuestionError := "Please type a question."
  /** The fixed query a summary request searches with. */
  const SummaryQuery := "overall document summary"
  const SummaryTopK := 10
  const QuestionTopK := 8
  /** A passage takes part in an ordinary answer only when its similarity is above this. */
  const Threshold: real := 0.20
  /** What the passages' texts are joined with to form the context. */
  const Separator := "\n\n"
  const ShortSummaryPrompt := "Give a short summary of this PDF in 6-8 bullet points."
  const FullSummaryPrompt := "Give a clean structured summary of this PDF in bullet points."
  const IncompleteIndexing := "\U{274C} Summary generate nahi ho paya, because PDF indexing incomplete hai. Please re-upload PDF."
  const Refusal := "\U{274C} Is PDF me iska answer available nahi hai."
  const Apology := "\U{274C} Sorry, I encountered an error while processing your request. Please try again."

  /** A question, lowered, that mentions "summary" or "summarize". */
  predicate IsSummaryRequest(question: string)
  {
    Contains(Lower(question), "summary") || Contains(Lower(question), "summarize")
  }

  /** A summary request that asks for a short summary. */
  predicate WantsShort(question: string)
  {
    Contains(Lower(question), "short")
  }

  /** Telling a summary request apart, and a short one, ignores letter case. */
  lemma ClassificationIgnoresCase(question: string)
    ensures IsSummaryRequest(Lower(question)) == IsSummaryRequest(question)
    ensures WantsShort(Lower(question)) == WantsShort(question)
  {
    LowerIdempotent(question);
  }

  /** Either word, in any case, anywhere in the question, makes it a summary request. */
  lemma SummaryWords(before: string, word: string, after: string)
    requires Lower(word) == "summary" || Lower(word) == "summarize"
    ensures IsSummaryRequest(before + word + after)
  {
    var s := before + word + after;
    forall i | 0 <= i < |word|
      ensures Lower(s)[|before| + i] == Lower(word)[i]
    {
      assert s[|before| + i] == word[i];
    }
    assert Lower(s)[|before|..|before| + |word|] == Lower(word);
    assert OccursAt(Lower(s), Lower(word), |before|);
    ContainsIff(Lower(s), Lower(word));
  }

  /** "Summary" and "SUMMARIZE" are such words. */
  lemma SummaryWordsExample(before: string, after: string)
    ensures IsSummaryRequest(before + "Summary" + after)
    ensures IsSummaryRequest(before + "SUMMARIZE" + after)
  {
    assert Lower("Summary") == "summary";
    SummaryWords(before, "Summary", after);
    assert Lower("SUMMARIZE") == "summarize";
    SummaryWords(before, "SUMMARIZE", after);
  }

  /** The query a question searches with. */
  function SearchQuery(question: string): string
  {
    if IsSummaryRequest(question) then SummaryQuery else question
  }

  /** How many passages a question asks the search for. */
  function SearchTopK(question: string): int
  {
    if IsSummaryRequest(question) then SummaryTopK else QuestionTopK
  }

  predicate IsRelevant(p: Passage)
  {
    p.similarity > Threshold
  }

  /** The passages an ordinary question is answered from. */
  function Relevant(results: seq<Passage>): seq<Passage>
  {
    Filter(results, IsRelevant)
  }

  function TextOf(p: Passage): string
  {
    p.text
  }

  /** The context sent with the passages: their texts, in order, separated by a blank line. */
  function ContextOf(passages: seq<Passage>): string
  {
    Join(Separator, Map(passages, TextOf))
  }

  /** What the route does with a search's results: reply at once with a fixed message, or
      ask the model a question over a context. */
  datatype Step = Reply(answer: string) | Ask(question: string, context: string)

  function Decide(question: string, results: seq<Passage>): Step
  {
    if IsSummaryRequest(question) then
      if |results| == 0 then Reply(IncompleteIndexing)
      else Ask(if WantsShort(question) then ShortSummaryPrompt else FullSummaryPrompt, ContextOf(results))
    else if |results| == 0 then Reply(Refusal)
    else if |Relevant(results)| == 0 then Reply(Refusal)
    else Ask(question, ContextOf(Relevant(results)))
  }

  /** The threshold keeps exactly the passages above it, every copy of each, in their order. */
  lemma RelevantKeepsExactly(results: seq<Passage>)
    ensures forall p :: p in Relevant(results) <==> p in results && p.similarity > Threshold
    ensures forall p :: multiset(Relevant(results))[p] == if p.similarity > Threshold then multiset(results)[p] else 0
    ensures IsSubsequence(Relevant(results), results)
  {
    FilterKeepsExactly(results, IsRelevant);
    FilterKeepsCopies(results, IsRelevant);
  }

  /** Three passages at 0.5, 0.1 and 0.25 leave the first and the last. */
  lemma RelevantExample(a: string, b: string, c: string)
    ensures Relevant([Passage(a, 0.5), Passage(b, 0.1), Passage(c, 0.25)]) == [Passage(a, 0.5), Passage(c, 0.25)]
  {
    var ps := [Passage(a, 0.5), Passage(b, 0.1), Passage(c, 0.25)];
    var tail := [Passage(b, 0.1), Passage(c, 0.25)];
    var last := [Passage(c, 0.25)];
    assert ps[1..] == tail && tail[1..] == last && last[1..] == [];
    assert Filter(last, IsRelevant) == last;
    assert Filter(tail, IsRelevant) == last;
  }

  /** An ordinary question is refused exactly when no passage is above the threshold, and
      otherwise goes to the model unchanged, over exactly those passages (every copy of each)
      in their order. */
  lemma QuestionGrounding(question: string, results: seq<Passage>)
    requires !IsSummaryRequest(question)
    ensures Decide(question, results) == Reply(Refusal) <==> forall p :: p in results ==> p.similarity <= Threshold
    ensures Decide(question, results).Ask? ==>
              Decide(question, results).question == question &&
              exists kept: seq<Passage> :: IsSubsequence(kept, results) &&
                (forall p :: p in kept <==> p in results && p.similarity > Threshold) &&
                (forall p: Passage :: multiset(kept)[p] == if p.similarity > Threshold then multiset(results)[p] else 0) &&
                Decide(question, results).context == ContextOf(kept)
  {
    RelevantKeepsExactly(results);
    if |Relevant(results)| > 0 {
      assert Relevant(results)[0] in Relevant(results);
    }
  }

  /** A summary request uses every passage found, whatever its similarity: only the texts
      decide the outcome, and it fails only when nothing was found. */
  lemma SummaryIgnoresSimilarity(question: string, results: seq<Passage>, others: seq<Passage>)
    requires IsSummaryRequest(question)
    requires Map(results, TextOf) == Map(others, TextOf)
    ensures Decide(question, results) == Decide(question, others)
    ensures Decide(question, results) == Reply(IncompleteIndexing) <==> |results| == 0
    ensures Decide(question, results).Ask? ==>
              Decide(question, results).question == (if WantsShort(question) then ShortSummaryPrompt else FullSummaryPrompt)
  {
  }

  /** Every passage that takes part in an answer is in the context whole, at its place. */
  lemma ContextHoldsEveryPassage(passages: seq<Passage>, k: nat)
    requires k < |passages|
    ensures OccursAt(ContextOf(passages), passages[k].text, PieceStart(Separator, Map(passages, TextOf), k))
  {
    JoinPieces(Separator, Map(passages, TextOf), k);
    MapAt(passages, TextOf, k);
  }

  /** The answer shown for a question: the fixed reply, the model's answer, or the apology
      when the search or the generation fails. */
  function AnswerFor(embed: (string, string) -> Result<Embedding, string>,
                     generate: (string, string) -> Result<string, string>,
                     matchChunks: MatchRequest -> Result<Option<seq<MatchRow>>, string>,
                     pdfId: string, question: string, envKey: Option<string>): string
  {
    match SearchOutcome(embed, matchChunks, pdfId, SearchQuery(question), SearchTopK(question), envKey)
    case Failure(_) => Apology
    case Success(results) =>
      match Decide(question, results)
      case Reply(a) => a
      case Ask(q, c) =>
        match AnswerOutcome(generate, q, c, None, envKey)
        case Success(t) => t
        case Failure(_) => Apology
  }

  /** The provider requests made while answering: the search's embedding, then the one
      generation when the route asks the model. */
  function AnswerCalls(embed: (string, string) -> Result<Embedding, string>,
                       matchChunks: MatchRequest -> Result<Option<seq<MatchRow>>, string>,
                       pdfId: string, question: string, envKey: Option<string>): seq<Call>
  {
    EmbedCalls(Some(SearchQuery(question)), None, envKey) +
    match SearchOutcome(embed, matchChunks, pdfId, SearchQuery(question), SearchTopK(question), envKey)
    case Failure(_) => []
    case Success(results) =>
      match Decide(question, results)
      case Reply(_) => []
      case Ask(q, c) => GenerateCalls(Prompt(q, c), None, envKey)
  }

  /** Without a configured key nothing reaches the provider and the apology is shown. */
  lemma NoKeyApology(embed: (string, string) -> Result<Embedding, string>,
                     generate: (string, string) -> Result<string, string>,
                     matchChunks: MatchRequest -> Result<Option<seq<MatchRow>>, string>,
                     pdfId: string, question: string, envKey: Option<string>)
    requires !Truthy(envKey)
    ensures AnswerFor(embed, generate, matchChunks, pdfId, question, envKey) == Apology
    ensures AnswerCalls(embed, matchChunks, pdfId, question, envKey) == []
    ensures SearchRequests(embed, pdfId, SearchQuery(question), SearchTopK(question), envKey) == []
  {
  }

  /** A refused question, or a summary of a document without passages, costs one embedding
      request and no generation; a generation failure shows the apology. */
  lemma RepliesWithoutModel(embed: (string, string) -> Result<Embedding, string>,
                            generate: (string, string) -> Result<string, string>,
                            matchChunks: MatchRequest -> Result<Option<seq<MatchRow>>, string>,
                            pdfId: string, question: string, envKey: Option<string>)
    requires Truthy(envKey)
    ensures var found := SearchOutcome(embed, matchChunks, pdfId, SearchQuery(question), SearchTopK(question), envKey);
            found.Success? && Decide(question, found.value).Reply? ==>
              AnswerFor(embed, generate, matchChunks, pdfId, question, envKey) in {Refusal, IncompleteIndexing} &&
              AnswerCalls(embed, matchChunks, pdfId, question, envKey)
              == [EmbedCall(SafeText(Some(SearchQuery(question))), envKey.value)]
    ensures var found := SearchOutcome(embed, matchChunks, pdfId, SearchQuery(question), SearchTopK(question), envKey);
            found.Success? && Decide(question, found.value).Ask? ==>
              var step := Decide(question, found.value);
              |AnswerCalls(embed, matchChunks, pdfId, question, envKey)| == 2 &&
              AnswerCalls(embed, matchChunks, pdfId, question, envKey)[1] == GenerateCall(Prompt(step.question, step.context), envKey.value) &&
              (AnswerOutcome(generate, step.question, step.context, None, envKey).Failure? ==>
                 AnswerFor(embed, generate, matchChunks, pdfId, question, envKey) == Apology)
  {
  }

  /** The summary search embeds the fixed summary query, unchanged, and asks for ten
      passages; an ordinary question asks for eight. */
  lemma SearchParameters(question: string)
    ensures IsSummaryRequest(question) ==> SafeText(Some(SearchQuery(question))) == SummaryQuery && SearchTopK(question) == 10
    ensures !IsSummaryRequest(question) ==> SearchQuery(question) == question && SearchTopK(question) == 8
  {
    SafeTextKeepsCleanText(SummaryQuery);
  }

  /** Answers one non-empty question: the `try` block of the route with its `except`. */
  method Respond(provider: Provider, table: ChunkTable, pdfId: string, question: string, envKey: Option<string>)
    returns (answer: string)
    modifies provider, table
    ensures answer == AnswerFor(provider.embed, provider.generate, table.matchChunks, pdfId, question, envKey)
    ensures provider.calls == old(provider.calls) + AnswerCalls(provider.embed, table.matchChunks, pdfId, question, envKey)
    ensures table.requests == old(table.requests) + SearchRequests(provider.embed, pdfId, SearchQuery(question), SearchTopK(question), envKey)
    ensures table.inserts == old(table.inserts)
  {
    var qLower := Lower(question);
    if Contains(qLower, "summary") || Contains(qLower, "summarize") {
      var found := SearchInVectorDb(provider, table, pdfId, SummaryQuery, SummaryTopK, envKey);
      if found.Failure? {
        return Apology;
      }
      var contextResults := found.value;
      if |contextResults| == 0 {
        answer := IncompleteIndexing;
      } else {
        var context := ContextOf(contextResults);
        var summaryPrompt := if Contains(qLower, "short") then ShortSummaryPrompt else FullSummaryPrompt;
        var reply := Composer.GenerateAnswer(provider, summaryPrompt, context, None, envKey);
        answer := if reply.Success? then reply.value else Apology;
      }
    } else {
      var found := SearchInVectorDb(provider, table, pdfId, question, QuestionTopK, envKey);
      if found.Failure? {
        return Apology;
      }
      var results := found.value;
      if |results| == 0 {
        answer := Refusal;
      } else {
        var filtered := Relevant(results);
        if |filtered| == 0 {
          answer := Refusal;
        } else {
          var context := ContextOf(filtered);
          var reply := Composer.GenerateAnswer(provider, question, context, None, envKey);
          answer := if reply.Success? then reply.value else Apology;
        }
      }
    }
  }

  /** One exchange as the page shows it. */
  datatype Exchange = Exchange(question: string, answer: string)

  /** One saved row of the chat history. */
  datatype HistoryRow = HistoryRow(pdfId: string, userId: string, question: string, answer: string)

  /** The exchanges shown for history rows: same order, each row's question and answer. */
  function ExchangesOf(rows: seq<HistoryRow>): (es: seq<Exchange>)
    ensures |es| == |rows|
    ensures forall j :: 0 <= j < |es| ==> es[j] == Exchange(rows[j].question, rows[j].answer)
  {
    if |rows| == 0 then [] else ExchangesOf(rows[..|rows| - 1]) + [Exchange(rows[|rows| - 1].question, rows[|rows| - 1].answer)]
  }

  /** The `chat_history` table, seen from this program: its rows in the order they were
      saved, which is the order of their creation times. */
  class HistoryTable {
    var rows: seq<HistoryRow>

    constructor()
      ensures rows == []
    {
      rows := [];
    }

    /** The rows of one user's chat about one document, oldest first. */
    function Select(pdfId: string, userId: string): seq<HistoryRow>
      reads this
    {
      Filter(rows, (r: HistoryRow) => r.pdfId == pdfId && r.userId == userId)
    }

    method Insert(row: HistoryRow)
      modifies this
      ensures rows == old(rows) + [row]
    {
      rows := rows + [row];
    }
  }

  /** Saving a row for this user and document adds it at the end of their history and
      leaves every other history as it was. */
  lemma SelectAfterInsert(before: seq<HistoryRow>, row: HistoryRow, pdfId: string, userId: string)
    ensures Filter(before + [row], (r: HistoryRow) => r.pdfId == pdfId && r.userId == userId)
            == Filter(before, (r: HistoryRow) => r.pdfId == pdfId && r.userId == userId) +
               (if row.pdfId == pdfId && row.userId == userId then [row] else [])
  {
    var mine := (r: HistoryRow) => r.pdfId == pdfId && r.userId == userId;
    FilterAppend(before, [row], mine);
    assert [row][1..] == [];
  }

  /** The chat route for a signed-in user and a document. It loads the user's exchanges
      about the document; on a post it strips the question, rejects an empty one with
      nothing else done, and otherwise answers it, saves the exchange and shows it last.
      The exchanges shown are always the ones the next visit loads. */
  method Chat(provider: Provider, table: ChunkTable, history: HistoryTable, pdfId: string, userId: string,
              isPost: bool, form: Option<string>, envKey: Option<string>)
    returns (messages: seq<Exchange>, error: Option<string>)
    modifies provider, table, history
    ensures var question := Strip(OrEmpty(form));
            if isPost && |question| > 0 then
              var answer := AnswerFor(provider.embed, provider.generate, table.matchChunks, pdfId, question, envKey);
              error == None &&
              messages == ExchangesOf(old(history.Select(pdfId, userId))) + [Exchange(question, answer)] &&
              history.rows == old(history.rows) + [HistoryRow(pdfId, userId, question, answer)] &&
              provider.calls == old(provider.calls) + AnswerCalls(provider.embed, table.matchChunks, pdfId, question, envKey) &&
              table.requests == old(table.requests) + SearchRequests(provider.embed, pdfId, SearchQuery(question), SearchTopK(question), envKey)
            else
              error == (if isPost then Some(EmptyQuestionError) else None) &&
              messages == ExchangesOf(old(history.Select(pdfId, userId))) &&
              history.rows == old(history.rows) && provider.calls == old(provider.calls) &&
              table.requests == old(table.requests)
    ensures table.inserts == old(table.inserts)
    ensures messages == ExchangesOf(history.Select(pdfId, userId))
  {
    var data := history.Select(pdfId, userId);
    messages := [];
    var i := 0;
    while i < |data|
      invariant 0 <= i <= |data|
      invariant messages == ExchangesOf(data[..i])
    {
      messages := messages + [Exchange(data[i].question, data[i].answer)];
      assert data[..i + 1][..i] == data[..i];
      i := i + 1;
    }
    assert data[..|data|] == data;
    error := None;
    if !isPost {
      return;
    }
    var question := Strip(OrEmpty(form));
    if |question| == 0 {
      error := Some(EmptyQuestionError);
      return;
    }
    var answer := Respond(provider, table, pdfId, question, envKey);
    ghost var rowsBefore := history.rows;
    history.Insert(HistoryRow(pdfId, userId, question, answer));
    SelectAfterInsert(rowsBefore, HistoryRow(pdfId, userId, question, answer), pdfId, userId);
    messages := messages + [Exchange(question, answer)];
  }
}
