/** The corpus store client: saving a PDF's chunks with their embeddings in batches, and
    fetching the passages ranked closest to a query. */
module VectorStore {
  import opened Wrappers
  import opened Seqs
  import opened Gateway

  /** The most rows sent in one insert request. */
  const BatchSize := 60

  /** One row of the `pdf_chunks` table. */
  datatype Row = Row(pdfId: string, userId: string, content: string, embedding: Embedding)

  /** One row returned by the `match_pdf_chunks` procedure. */
  datatype MatchRow = MatchRow(content: string, similarity: real)

  /** One search result as handed to the query path: `{text, similarity}`. */
  datatype Passage = Passage(text: string, similarity: real)

  /** The arguments of one `match_pdf_chunks` call. */
  datatype MatchRequest = MatchRequest(queryEmbedding: Embedding, matchPdfId: string, matchCount: int)

  /** The database, seen from this program: how it answers inserts and the ranking procedure,
      and the requests it has received. Its answers are a fixed function of the request; the
      ranking itself happens inside the database. */
  class ChunkTable {
    /** `None` when an insert of these rows succeeds, or the message of the failure raised. */
    const insertFault: seq<Row> -> Option<string>
    /** The data `match_pdf_chunks` returns (`None` for no data), or the message of the failure raised. */
    const matchChunks: MatchRequest -> Result<Option<seq<MatchRow>>, string>
    /** Every insert request sent to `pdf_chunks`, oldest first. */
    var inserts: seq<seq<Row>>
    /** Every `match_pdf_chunks` request, oldest first. */
    var requests: seq<MatchRequest>

    constructor(insertFault: seq<Row> -> Option<string>,
                matchChunks: MatchRequest -> Result<Option<seq<MatchRow>>, string>)
      ensures this.insertFault == insertFault && this.matchChunks == matchChunks
      ensures inserts == [] && requests == []
    {
      this.insertFault := insertFault;
      this.matchChunks := matchChunks;
      inserts := [];
      requests := [];
    }

    /** `supabase.table("pdf_chunks").insert(rows).execute()`. */
    method Insert(rows: seq<Row>) returns (fault: Option<string>)
      modifies this
      ensures fault == insertFault(rows)
      ensures inserts == old(inserts) + [rows] && requests == old(requests)
    {
      fault := insertFault(rows);
      inserts := inserts + [rows];
    }

    /** `supabase.rpc("match_pdf_chunks", ...).execute()`. */
    method MatchPdfChunks(request: MatchRequest) returns (r: Result<Option<seq<MatchRow>>, string>)
      modifies this
      ensures r == matchChunks(request)
      ensures requests == old(requests) + [request] && inserts == old(inserts)
    {
      r := matchChunks(request);
      requests := requests + [request];
    }
  }

  // ---------------------------------------------------------------------------------------
  // Batches

  /** `xs` cut, in order, into batches of `BatchSize`, the last one possibly shorter. */
  function Batches<T>(xs: seq<T>): seq<seq<T>>
    decreases |xs|
  {
    if |xs| == 0 then []
    else if |xs| <= BatchSize then [xs]
    else [xs[..BatchSize]] + Batches(xs[BatchSize..])
  }

  /** The batches put back together are the original sequence. */
  lemma {:induction false} BatchesFlatten<T>(xs: seq<T>)
    ensures Flatten(Batches(xs)) == xs
    decreases |xs|
  {
    if |xs| > BatchSize {
      BatchesFlatten(xs[BatchSize..]);
      assert Batches(xs)[1..] == Batches(xs[BatchSize..]);
      assert xs == xs[..BatchSize] + xs[BatchSize..];
    }
  }

  /** Every batch holds between 1 and `BatchSize` elements, every batch but the last holds
      exactly `BatchSize`, and there are ceil(|xs| / BatchSize) of them. */
  lemma {:induction false} BatchesShape<T>(xs: seq<T>)
    ensures |Batches(xs)| == (|xs| + BatchSize - 1) / BatchSize
    ensures forall j :: 0 <= j < |Batches(xs)| ==> 1 <= |Batches(xs)[j]| <= BatchSize
    ensures forall j :: 0 <= j < |Batches(xs)| - 1 ==> |Batches(xs)[j]| == BatchSize
    decreases |xs|
  {
    if |xs| > BatchSize {
      var rest := Batches(xs[BatchSize..]);
      BatchesShape(xs[BatchSize..]);
      assert Batches(xs) == [xs[..BatchSize]] + rest;
      forall j | 1 <= j < |Batches(xs)|
        ensures Batches(xs)[j] == rest[j - 1]
      {
      }
    }
  }

  /** 125 rows go out as batches of 60, 60 and 5. */
  lemma BatchesOf125<T>(xs: seq<T>)
    requires |xs| == 125
    ensures |Batches(xs)| == 3
    ensures |Batches(xs)[0]| == 60 && |Batches(xs)[1]| == 60 && |Batches(xs)[2]| == 5
  {
    var rest := xs[BatchSize..];
    assert Batches(xs) == [xs[..BatchSize]] + Batches(rest);
    assert Batches(rest) == [rest[..BatchSize]] + Batches(rest[BatchSize..]);
    assert Batches(rest[BatchSize..]) == [rest[BatchSize..]];
  }

  /** Batching a sequence whose length is a multiple of the batch size, then more: the
      batches of the first part followed by the batches of the rest. */
  lemma {:induction false} BatchesAppend<T>(xs: seq<T>, ys: seq<T>)
    requires |xs| % BatchSize == 0
    ensures Batches(xs + ys) == Batches(xs) + Batches(ys)
    decreases |xs|
  {
    if |xs| == 0 {
      assert xs + ys == ys;
    } else if |ys| == 0 {
      assert xs + ys == xs;
    } else {
      var zs := xs + ys;
      assert zs[..BatchSize] == xs[..BatchSize];
      assert zs[BatchSize..] == xs[BatchSize..] + ys;
      BatchesAppend(xs[BatchSize..], ys);
      if |xs| == BatchSize {
        assert xs[BatchSize..] + ys == ys;
        assert Batches(xs) == [xs];
      }
    }
  }

  /** A sequence whose length is a multiple of the batch size fills whole batches only. */
  lemma {:induction false} BatchesOfWhole<T>(xs: seq<T>)
    requires |xs| % BatchSize == 0
    ensures |Batches(xs)| * BatchSize == |xs|
    ensures forall j :: 0 <= j < |Batches(xs)| ==> |Batches(xs)[j]| == BatchSize
    decreases |xs|
  {
    if |xs| > 0 {
      var rest := xs[BatchSize..];
      BatchesOfWhole(rest);
      if |xs| == BatchSize {
        assert Batches(xs) == [xs];
      } else {
        assert Batches(xs) == [xs[..BatchSize]] + Batches(rest);
      }
    }
  }

  // ---------------------------------------------------------------------------------------
  // Ingestion

  /** What `get_embedding(chunk)` gives inside `add_to_vector_db`: no key is passed, so the
      configured default key is used. */
  function ChunkEmbedder(embed: (string, string) -> Result<Embedding, string>, envKey: Option<string>)
    : string -> Result<Embedding, Error>
  {
    c => EmbedOutcome(embed, Some(c), None, envKey)
  }

  /** The provider requests `get_embedding(chunk)` sends inside `add_to_vector_db`. */
  function ChunkCalls(envKey: Option<string>): string -> seq<Call>
  {
    c => EmbedCalls(Some(c), None, envKey)
  }

  /** The requests sent for each chunk of `cs` in turn, where `callsFor` gives those of one chunk. */
  function CallLog(callsFor: string -> seq<Call>, cs: seq<string>): seq<Call>
  {
    if |cs| == 0 then [] else CallLog(callsFor, cs[..|cs| - 1]) + callsFor(cs[|cs| - 1])
  }

  /** The provider requests `add_to_vector_db` sends for the chunks `cs`, in order. */
  function EmbedLog(envKey: Option<string>, cs: seq<string>): seq<Call>
  {
    CallLog(ChunkCalls(envKey), cs)
  }

  lemma CallLogStep(callsFor: string -> seq<Call>, chunks: seq<string>, i: nat)
    requires i < |chunks|
    ensures CallLog(callsFor, chunks[..i + 1]) == CallLog(callsFor, chunks[..i]) + callsFor(chunks[i])
  {
    assert chunks[..i + 1][..i] == chunks[..i];
  }

  /** With a default key, each chunk goes to the provider once, in order, as its safe text
      with that key; without one, nothing goes out. */
  lemma {:induction false} EmbedLogCalls(envKey: Option<string>, cs: seq<string>)
    ensures |EmbedLog(envKey, cs)| == if Truthy(envKey) then |cs| else 0
    ensures Truthy(envKey) ==>
              forall j :: 0 <= j < |cs| ==> EmbedLog(envKey, cs)[j] == EmbedCall(SafeText(Some(cs[j])), envKey.value)
    decreases |cs|
  {
    if |cs| > 0 {
      var init := cs[..|cs| - 1];
      EmbedLogCalls(envKey, init);
      if Truthy(envKey) {
        forall j | 0 <= j < |cs|
          ensures EmbedLog(envKey, cs)[j] == EmbedCall(SafeText(Some(cs[j])), envKey.value)
        {
          if j < |cs| - 1 {
            assert init[j] == cs[j];
          }
        }
      }
    }
  }

  /** The effect of one `add_to_vector_db` call: how it ends, the insert requests it sends,
      and how many chunks it hands to `get_embedding`. */
  datatype IngestRun = IngestRun(outcome: Outcome<Error>, inserts: seq<seq<Row>>, embedded: nat)

  /** A run preceded by the insert requests `sent`. */
  function Prefixed(sent: seq<seq<Row>>, run: IngestRun): IngestRun
  {
    IngestRun(run.outcome, sent + run.inserts, run.embedded)
  }

  /** Prefixing a run with some requests and then with earlier ones is prefixing it with
      all of them at once. */
  lemma PrefixedTwice(sent: seq<seq<Row>>, more: seq<seq<Row>>, run: IngestRun)
    ensures Prefixed(sent, Prefixed(more, run)) == Prefixed(sent + more, run)
  {
    assert sent + (more + run.inserts) == (sent + more) + run.inserts;
  }

  /** How an insert request ends. */
  function InsertOutcome(fault: Option<string>): Outcome<Error>
  {
    if fault.Some? then Fail(StoreError(fault.value)) else Pass
  }

  /** The reference definition of the `add_to_vector_db` loop from chunk `i` on, with the rows
      `rows` not yet sent: each chunk is embedded (the run stops at a failure), its row is
      buffered, a buffer of `BatchSize` rows is sent (the run stops when that insert fails),
      and once every chunk is embedded a non-empty buffer is sent as the last request. */
  function IngestFrom(pdfId: string, userId: string, chunks: seq<string>,
                      embedder: string -> Result<Embedding, Error>, insertFault: seq<Row> -> Option<string>,
                      i: nat, rows: seq<Row>): (run: IngestRun)
    requires i <= |chunks|
    ensures i <= run.embedded <= |chunks|
    decreases |chunks| - i
  {
    if i == |chunks| then
      if |rows| == 0 then IngestRun(Pass, [], i) else IngestRun(InsertOutcome(insertFault(rows)), [rows], i)
    else
      match embedder(chunks[i])
      case Failure(e) => IngestRun(Fail(e), [], i + 1)
      case Success(v) =>
        var buffered := rows + [Row(pdfId, userId, chunks[i], v)];
        if |buffered| < BatchSize then IngestFrom(pdfId, userId, chunks, embedder, insertFault, i + 1, buffered)
        else if insertFault(buffered).Some? then IngestRun(InsertOutcome(insertFault(buffered)), [buffered], i + 1)
        else Prefixed([buffered], IngestFrom(pdfId, userId, chunks, embedder, insertFault, i + 1, []))
  }

  /** The reference definition of `add_to_vector_db`. */
  function Ingest(pdfId: string, userId: string, chunks: seq<string>,
                  embedder: string -> Result<Embedding, Error>, insertFault: seq<Row> -> Option<string>): (run: IngestRun)
    ensures run.embedded <= |chunks|
  {
    IngestFrom(pdfId, userId, chunks, embedder, insertFault, 0, [])
  }

  /** `add_to_vector_db`: nothing happens for an empty chunk list; otherwise
      `EmbedAndInsert` runs its loop. */
  method AddToVectorDb(pdfId: string, userId: string, chunks: seq<string>,
                       provider: Provider, table: ChunkTable, envKey: Option<string>)
    returns (outcome: Outcome<Error>)
    modifies provider, table
    ensures var run := Ingest(pdfId, userId, chunks, ChunkEmbedder(provider.embed, envKey), table.insertFault);
            outcome == run.outcome &&
            table.inserts == old(table.inserts) + run.inserts &&
            provider.calls == old(provider.calls) + EmbedLog(envKey, chunks[..run.embedded])
    ensures table.requests == old(table.requests)
  {
    if |chunks| == 0 {
      return Pass;
    }
    ghost var embedder := ChunkEmbedder(provider.embed, envKey);
    outcome := EmbedAndInsert(pdfId, userId, chunks, provider, table, envKey, embedder, ChunkCalls(envKey),
                              Remaining(pdfId, userId, chunks, embedder, table.insertFault));
  }

  /** `IngestFrom` as a function of where the loop stands: the chunk it is at and the rows
      it has buffered. */
  function Remaining(pdfId: string, userId: string, chunks: seq<string>,
                     embedder: string -> Result<Embedding, Error>, insertFault: seq<Row> -> Option<string>)
    : (nat, seq<Row>) -> IngestRun
  {
    (i: nat, rows: seq<Row>) =>
      if i <= |chunks| then IngestFrom(pdfId, userId, chunks, embedder, insertFault, i, rows) else IngestRun(Pass, [], 0)
  }

  /** The loop of `add_to_vector_db`, for a provider whose answer to `get_embedding(chunk)` is
      `embedder(chunk)` and whose requests for it are `callsFor(chunk)`; `rest(i, rows)` is
      what the loop does from chunk `i` on with `rows` buffered. The loop keeps, as its
      invariant, that the requests sent so far followed by `rest` of where it stands is the
      whole run. */
  method EmbedAndInsert(pdfId: string, userId: string, chunks: seq<string>,
                        provider: Provider, table: ChunkTable, envKey: Option<string>,
                        ghost embedder: string -> Result<Embedding, Error>, ghost callsFor: string -> seq<Call>,
                        ghost rest: (nat, seq<Row>) -> IngestRun)
    returns (outcome: Outcome<Error>)
    requires forall c {:trigger EmbedOutcome(provider.embed, Some(c), None, envKey)} ::
               EmbedOutcome(provider.embed, Some(c), None, envKey) == embedder(c)
    requires forall c {:trigger EmbedCalls(Some(c), None, envKey)} :: EmbedCalls(Some(c), None, envKey) == callsFor(c)
    requires forall i: nat, rows {:trigger IngestFrom(pdfId, userId, chunks, embedder, table.insertFault, i, rows)} ::
               i <= |chunks| ==> rest(i, rows) == IngestFrom(pdfId, userId, chunks, embedder, table.insertFault, i, rows)
    modifies provider, table
    ensures outcome == rest(0, []).outcome
    ensures table.inserts == old(table.inserts) + rest(0, []).inserts
    ensures rest(0, []).embedded <= |chunks| &&
            provider.calls == old(provider.calls) + CallLog(callsFor, chunks[..rest(0, []).embedded])
    ensures table.requests == old(table.requests)
  {
    ghost var run := rest(0, []);
    var rows: seq<Row> := [];
    ghost var sent: seq<seq<Row>> := [];
    var i := 0;
    while i < |chunks|
      invariant i <= |chunks| && |rows| < BatchSize
      invariant Prefixed(sent, rest(i, rows)) == run
      invariant table.inserts == old(table.inserts) + sent
      invariant provider.calls == old(provider.calls) + CallLog(callsFor, chunks[..i])
      invariant table.requests == old(table.requests)
    {
      var stop;
      rows, stop, sent := EmbedChunk(pdfId, userId, chunks, i, rows, provider, table, envKey,
                                     embedder, callsFor, rest, sent, old(provider.calls), old(table.inserts));
      if stop.Some? {
        return Fail(stop.value);
      }
      i := i + 1;
    }
    assert chunks[..i] == chunks;
    assert rest(i, rows) == IngestFrom(pdfId, userId, chunks, embedder, table.insertFault, i, rows);
    outcome := FlushRest(table, rows);
  }

  /** The last insert of `add_to_vector_db`: the rows still buffered, when there are any. */
  method FlushRest(table: ChunkTable, rows: seq<Row>) returns (outcome: Outcome<Error>)
    modifies table
    ensures outcome == if |rows| == 0 then Pass else InsertOutcome(table.insertFault(rows))
    ensures table.inserts == old(table.inserts) + (if |rows| == 0 then [] else [rows])
    ensures table.requests == old(table.requests)
  {
    outcome := Pass;
    if |rows| > 0 {
      var fault := table.Insert(rows);
      if fault.Some? {
        outcome := Fail(StoreError(fault.value));
      }
    }
  }

  /** One turn of the `add_to_vector_db` loop: chunk `i` is embedded and its row buffered,
      and a full buffer is sent and emptied. The turn keeps the loop's invariant: the requests
      sent so far (`sent`, then `sentAfter`) followed by the rest of the run from where the loop
      stands do not change; when the turn stops the run, that is all of the run. */
  method EmbedChunk(pdfId: string, userId: string, chunks: seq<string>, i: nat, rows: seq<Row>,
                    provider: Provider, table: ChunkTable, envKey: Option<string>,
                    ghost embedder: string -> Result<Embedding, Error>, ghost callsFor: string -> seq<Call>,
                    ghost rest: (nat, seq<Row>) -> IngestRun,
                    ghost sent: seq<seq<Row>>, ghost callsBefore: seq<Call>, ghost insertsBefore: seq<seq<Row>>)
    returns (next: seq<Row>, stop: Option<Error>, ghost sentAfter: seq<seq<Row>>)
    requires i < |chunks| && |rows| < BatchSize
    requires forall c {:trigger EmbedOutcome(provider.embed, Some(c), None, envKey)} ::
               EmbedOutcome(provider.embed, Some(c), None, envKey) == embedder(c)
    requires forall c {:trigger EmbedCalls(Some(c), None, envKey)} :: EmbedCalls(Some(c), None, envKey) == callsFor(c)
    requires forall i: nat, rows {:trigger IngestFrom(pdfId, userId, chunks, embedder, table.insertFault, i, rows)} ::
               i <= |chunks| ==> rest(i, rows) == IngestFrom(pdfId, userId, chunks, embedder, table.insertFault, i, rows)
    requires table.inserts == insertsBefore + sent
    requires provider.calls == callsBefore + CallLog(callsFor, chunks[..i])
    modifies provider, table
    ensures stop.Some? ==> Prefixed(sent, rest(i, rows)) == IngestRun(Fail(stop.value), sentAfter, i + 1)
    ensures stop.None? ==> |next| < BatchSize && Prefixed(sentAfter, rest(i + 1, next)) == Prefixed(sent, rest(i, rows))
    ensures |sentAfter| > |sent| ==> next == []
    ensures table.inserts == insertsBefore + sentAfter
    ensures provider.calls == callsBefore + CallLog(callsFor, chunks[..i + 1])
    ensures table.requests == old(table.requests)
  {
    ghost var step := IngestFrom(pdfId, userId, chunks, embedder, table.insertFault, i, rows);
    CallLogStep(callsFor, chunks, i);
    var emb := GetEmbedding(provider, Some(chunks[i]), None, envKey);
    if emb.Failure? {
      return rows, Some(emb.error), sent;
    }
    next := rows + [Row(pdfId, userId, chunks[i], emb.value)];
    stop := None;
    sentAfter := sent;
    if |next| >= BatchSize {
      var fault := table.Insert(next);
      sentAfter := sent + [next];
      if fault.Some? {
        stop := Some(StoreError(fault.value));
      }
      next := [];
    }
    ghost var later := IngestFrom(pdfId, userId, chunks, embedder, table.insertFault, i + 1, next);
    PrefixedTwice(sent, sentAfter[|sent|..], later);
    assert sent + sentAfter[|sent|..] == sentAfter;
  }

  // ---------------------------------------------------------------------------------------
  // Properties of ingestion

  /** The vector of a successful embedding (empty otherwise). */
  function EmbeddingOf(r: Result<Embedding, Error>): Embedding
  {
    if r.Success? then r.value else []
  }

  /** The row saved for one chunk. */
  function RowFor(pdfId: string, userId: string, embedder: string -> Result<Embedding, Error>, chunk: string): Row
  {
    Row(pdfId, userId, chunk, EmbeddingOf(embedder(chunk)))
  }

  /** The rows for the chunks `cs`, one per chunk, in order. */
  function RowsOf(pdfId: string, userId: string, embedder: string -> Result<Embedding, Error>, cs: seq<string>)
    : (rows: seq<Row>)
    ensures |rows| == |cs|
  {
    if |cs| == 0 then [] else [RowFor(pdfId, userId, embedder, cs[0])] + RowsOf(pdfId, userId, embedder, cs[1..])
  }

  /** The rows of the first `m` chunks are the first `m` rows. */
  lemma {:induction false} RowsPrefix(pdfId: string, userId: string, embedder: string -> Result<Embedding, Error>,
                                      cs: seq<string>, m: nat)
    requires m <= |cs|
    ensures RowsOf(pdfId, userId, embedder, cs)[..m] == RowsOf(pdfId, userId, embedder, cs[..m])
    decreases m
  {
    if m > 0 {
      RowsPrefix(pdfId, userId, embedder, cs[1..], m - 1);
      assert cs[..m][1..] == cs[1..][..m - 1];
    }
  }

  /** Each row carries the document, the user, the chunk and that chunk's embedding. */
  lemma {:induction false} RowContents(pdfId: string, userId: string, embedder: string -> Result<Embedding, Error>,
                                       cs: seq<string>, j: nat)
    requires j < |cs| && embedder(cs[j]).Success?
    ensures var r := RowsOf(pdfId, userId, embedder, cs)[j];
            r.pdfId == pdfId && r.userId == userId && r.content == cs[j] && r.embedding == embedder(cs[j]).value
    decreases j
  {
    if j > 0 {
      RowContents(pdfId, userId, embedder, cs[1..], j - 1);
    }
  }

  /** The batches of a sequence whose length is a multiple of the batch size only. */
  function FullBatches<T>(xs: seq<T>): seq<seq<T>>
  {
    Batches(xs[..|xs| - |xs| % BatchSize])
  }

  lemma BatchesFullFirst<T>(xs: seq<T>, ys: seq<T>)
    requires |xs| == BatchSize
    ensures Batches(xs + ys) == [xs] + Batches(ys)
  {
    BatchesAppend(xs, ys);
    assert Batches(xs) == [xs];
  }

  lemma FullBatchesFirst<T>(xs: seq<T>, ys: seq<T>)
    requires |xs| == BatchSize
    ensures FullBatches(xs + ys) == [xs] + FullBatches(ys)
  {
    var m := |ys| - |ys| % BatchSize;
    assert |xs + ys| - |xs + ys| % BatchSize == BatchSize + m;
    assert (xs + ys)[..BatchSize + m] == xs + ys[..m];
    BatchesFullFirst(xs, ys[..m]);
  }
  /** The full batches of `xs` are floor(|xs| / 60) batches of 60 that hold, in order, all of
      `xs` but its last |xs| % 60 elements. */
  lemma FullBatchesShape<T>(xs: seq<T>)
    ensures |FullBatches(xs)| == |xs| / BatchSize
    ensures forall j :: 0 <= j < |FullBatches(xs)| ==> |FullBatches(xs)[j]| == BatchSize
    ensures Flatten(FullBatches(xs)) == xs[..|xs| - |xs| % BatchSize]
  {
    var whole := xs[..|xs| - |xs| % BatchSize];
    BatchesFlatten(whole);
    BatchesOfWhole(whole);
  }


  /** From chunk `i` on, when every embedding and every insert succeeds, the requests sent
      are the batches of the buffered rows followed by the rows of the chunks left. */
  lemma {:induction false} IngestFromSucceeds(pdfId: string, userId: string, chunks: seq<string>,
                                              embedder: string -> Result<Embedding, Error>,
                                              insertFault: seq<Row> -> Option<string>, i: nat, rows: seq<Row>)
    requires i <= |chunks| && |rows| < BatchSize
    requires forall j :: i <= j < |chunks| ==> embedder(chunks[j]).Success?
    requires forall b :: b in Batches(rows + RowsOf(pdfId, userId, embedder, chunks[i..])) ==> insertFault(b).None?
    ensures IngestFrom(pdfId, userId, chunks, embedder, insertFault, i, rows)
            == IngestRun(Pass, Batches(rows + RowsOf(pdfId, userId, embedder, chunks[i..])), |chunks|)
    decreases |chunks| - i
  {
    if i == |chunks| {
      assert rows + RowsOf(pdfId, userId, embedder, chunks[i..]) == rows;
      if |rows| > 0 {
        assert rows in Batches(rows);
      }
    } else {
      var buffered := rows + [RowFor(pdfId, userId, embedder, chunks[i])];
      var later := RowsOf(pdfId, userId, embedder, chunks[i + 1..]);
      assert chunks[i..][1..] == chunks[i + 1..];
      assert rows + RowsOf(pdfId, userId, embedder, chunks[i..]) == buffered + later;
      if |buffered| < BatchSize {
        IngestFromSucceeds(pdfId, userId, chunks, embedder, insertFault, i + 1, buffered);
      } else {
        BatchesFullFirst(buffered, later);
        assert buffered in Batches(buffered + later);
        assert [] + later == later;
        IngestFromSucceeds(pdfId, userId, chunks, embedder, insertFault, i + 1, []);
      }
    }
  }

  /** From chunk `i` on, when chunk `k` is the first whose embedding fails and no insert
      fails, only the full batches of the rows before it are sent. */
  lemma {:induction false} IngestFromFails(pdfId: string, userId: string, chunks: seq<string>,
                                           embedder: string -> Result<Embedding, Error>,
                                           insertFault: seq<Row> -> Option<string>, i: nat, rows: seq<Row>, k: nat)
    requires i <= k < |chunks| && |rows| < BatchSize
    requires forall j :: i <= j < k ==> embedder(chunks[j]).Success?
    requires embedder(chunks[k]).Failure?
    requires forall b :: b in FullBatches(rows + RowsOf(pdfId, userId, embedder, chunks[i..k])) ==> insertFault(b).None?
    ensures IngestFrom(pdfId, userId, chunks, embedder, insertFault, i, rows)
            == IngestRun(Fail(embedder(chunks[k]).error), FullBatches(rows + RowsOf(pdfId, userId, embedder, chunks[i..k])), k + 1)
    decreases k - i
  {
    if i == k {
      assert rows + RowsOf(pdfId, userId, embedder, chunks[i..k]) == rows;
      assert rows[..|rows| - |rows| % BatchSize] == [];
    } else {
      var buffered := rows + [RowFor(pdfId, userId, embedder, chunks[i])];
      var later := RowsOf(pdfId, userId, embedder, chunks[i + 1..k]);
      assert chunks[i..k][1..] == chunks[i + 1..k];
      assert rows + RowsOf(pdfId, userId, embedder, chunks[i..k]) == buffered + later;
      if |buffered| < BatchSize {
        IngestFromFails(pdfId, userId, chunks, embedder, insertFault, i + 1, buffered, k);
      } else {
        FullBatchesFirst(buffered, later);
        assert buffered in FullBatches(buffered + later);
        assert [] + later == later;
        IngestFromFails(pdfId, userId, chunks, embedder, insertFault, i + 1, [], k);
      }
    }
  }

  /** From chunk `i` on, with fewer than `BatchSize` rows buffered: the rows sent are, in
      order, a prefix of the buffered rows followed by the rows of the chunks left. */
  lemma {:induction false} IngestFromSent(pdfId: string, userId: string, chunks: seq<string>,
                                          embedder: string -> Result<Embedding, Error>,
                                          insertFault: seq<Row> -> Option<string>, i: nat, rows: seq<Row>)
    requires i <= |chunks| && |rows| < BatchSize
    ensures var run := IngestFrom(pdfId, userId, chunks, embedder, insertFault, i, rows);
            var all := rows + RowsOf(pdfId, userId, embedder, chunks[i..]);
            |Flatten(run.inserts)| <= |all| && Flatten(run.inserts) == all[..|Flatten(run.inserts)|]
    decreases |chunks| - i
  {
    var run := IngestFrom(pdfId, userId, chunks, embedder, insertFault, i, rows);
    var all := rows + RowsOf(pdfId, userId, embedder, chunks[i..]);
    if i == |chunks| {
      assert all == rows;
      if |rows| > 0 {
        assert Flatten(run.inserts) == rows + Flatten(run.inserts[1..]);
      }
    } else if embedder(chunks[i]).Success? {
      var buffered := rows + [RowFor(pdfId, userId, embedder, chunks[i])];
      var later := RowsOf(pdfId, userId, embedder, chunks[i + 1..]);
      assert chunks[i..][1..] == chunks[i + 1..];
      assert all == buffered + later;
      if |buffered| < BatchSize {
        IngestFromSent(pdfId, userId, chunks, embedder, insertFault, i + 1, buffered);
      } else if insertFault(buffered).Some? {
        assert Flatten(run.inserts) == buffered + Flatten(run.inserts[1..]);
        assert all[..|buffered|] == buffered;
      } else {
        var rest := IngestFrom(pdfId, userId, chunks, embedder, insertFault, i + 1, []);
        IngestFromSent(pdfId, userId, chunks, embedder, insertFault, i + 1, []);
        assert [] + later == later;
        assert run.inserts == [buffered] + rest.inserts;
        assert run.inserts[1..] == rest.inserts;
        assert Flatten(run.inserts) == buffered + Flatten(rest.inserts);
        assert all[..|buffered| + |Flatten(rest.inserts)|] == buffered + later[..|Flatten(rest.inserts)|];
      }
    }
  }

  /** Every request holds 1 to `BatchSize` rows, and every request but the last is full and
      succeeded. */
  predicate WellBatched(inserts: seq<seq<Row>>, insertFault: seq<Row> -> Option<string>)
  {
    (forall j :: 0 <= j < |inserts| ==> 1 <= |inserts[j]| <= BatchSize) &&
    (forall j :: 0 <= j < |inserts| - 1 ==> |inserts[j]| == BatchSize && insertFault(inserts[j]).None?)
  }

  /** A full request that succeeded can go ahead of well-batched requests. */
  lemma WellBatchedCons(batch: seq<Row>, inserts: seq<seq<Row>>, insertFault: seq<Row> -> Option<string>)
    requires |batch| == BatchSize && insertFault(batch).None? && WellBatched(inserts, insertFault)
    ensures WellBatched([batch] + inserts, insertFault)
  {
    var all := [batch] + inserts;
    forall j | 0 <= j < |all|
      ensures 1 <= |all[j]| <= BatchSize
      ensures j < |all| - 1 ==> |all[j]| == BatchSize && insertFault(all[j]).None?
    {
      if j > 0 {
        assert all[j] == inserts[j - 1];
      }
    }
  }

  /** From chunk `i` on, with fewer than `BatchSize` rows buffered, the requests sent are
      well batched. */
  lemma {:induction false} IngestFromBatchSizes(pdfId: string, userId: string, chunks: seq<string>,
                                                embedder: string -> Result<Embedding, Error>,
                                                insertFault: seq<Row> -> Option<string>, i: nat, rows: seq<Row>)
    requires i <= |chunks| && |rows| < BatchSize
    ensures WellBatched(IngestFrom(pdfId, userId, chunks, embedder, insertFault, i, rows).inserts, insertFault)
    decreases |chunks| - i
  {
    if i < |chunks| && embedder(chunks[i]).Success? {
      var buffered := rows + [Row(pdfId, userId, chunks[i], embedder(chunks[i]).value)];
      if |buffered| < BatchSize {
        IngestFromBatchSizes(pdfId, userId, chunks, embedder, insertFault, i + 1, buffered);
      } else if insertFault(buffered).None? {
        IngestFromBatchSizes(pdfId, userId, chunks, embedder, insertFault, i + 1, []);
        WellBatchedCons(buffered, IngestFrom(pdfId, userId, chunks, embedder, insertFault, i + 1, []).inserts, insertFault);
      }
    }
  }

  /** From chunk `i` on: a run that succeeds embedded every chunk and had every request
      succeed. */
  lemma {:induction false} IngestFromPasses(pdfId: string, userId: string, chunks: seq<string>,
                                            embedder: string -> Result<Embedding, Error>,
                                            insertFault: seq<Row> -> Option<string>, i: nat, rows: seq<Row>)
    requires i <= |chunks|
    ensures var run := IngestFrom(pdfId, userId, chunks, embedder, insertFault, i, rows);
            run.outcome == Pass ==> run.embedded == |chunks| && forall b :: b in run.inserts ==> insertFault(b).None?
    decreases |chunks| - i
  {
    if i < |chunks| && embedder(chunks[i]).Success? {
      var buffered := rows + [Row(pdfId, userId, chunks[i], embedder(chunks[i]).value)];
      if |buffered| < BatchSize {
        IngestFromPasses(pdfId, userId, chunks, embedder, insertFault, i + 1, buffered);
      } else if insertFault(buffered).None? {
        IngestFromPasses(pdfId, userId, chunks, embedder, insertFault, i + 1, []);
      }
    }
  }

  /** From chunk `i` on: a run that succeeds sent, in order, every buffered row and the rows
      of every chunk left, nothing skipped and nothing added. */
  lemma {:induction false} IngestFromStoresAll(pdfId: string, userId: string, chunks: seq<string>,
                                               embedder: string -> Result<Embedding, Error>,
                                               insertFault: seq<Row> -> Option<string>, i: nat, rows: seq<Row>)
    requires i <= |chunks|
    ensures var run := IngestFrom(pdfId, userId, chunks, embedder, insertFault, i, rows);
            run.outcome == Pass ==> Flatten(run.inserts) == rows + RowsOf(pdfId, userId, embedder, chunks[i..])
    decreases |chunks| - i
  {
    if i == |chunks| {
      assert rows + RowsOf(pdfId, userId, embedder, chunks[i..]) == rows;
      assert [rows][1..] == [];
    } else if embedder(chunks[i]).Success? {
      var buffered := rows + [RowFor(pdfId, userId, embedder, chunks[i])];
      var later := RowsOf(pdfId, userId, embedder, chunks[i + 1..]);
      assert chunks[i..][1..] == chunks[i + 1..];
      assert rows + RowsOf(pdfId, userId, embedder, chunks[i..]) == buffered + later;
      if |buffered| < BatchSize {
        IngestFromStoresAll(pdfId, userId, chunks, embedder, insertFault, i + 1, buffered);
      } else if insertFault(buffered).None? {
        IngestFromStoresAll(pdfId, userId, chunks, embedder, insertFault, i + 1, []);
        var sub := IngestFrom(pdfId, userId, chunks, embedder, insertFault, i + 1, []);
        assert ([buffered] + sub.inserts)[1..] == sub.inserts;
        assert [] + later == later;
      }
    }
  }

  /** An empty chunk list embeds nothing and inserts nothing. */
  lemma IngestNothing(pdfId: string, userId: string, embedder: string -> Result<Embedding, Error>,
                      insertFault: seq<Row> -> Option<string>)
    ensures Ingest(pdfId, userId, [], embedder, insertFault) == IngestRun(Pass, [], 0)
  {
  }

  /** When every embedding and every insert succeeds, each chunk is embedded, in order, and
      the requests sent are exactly the chunks' rows in order, in ceil(n / 60) batches, each
      of 1 to 60 rows, all but the last of 60. */
  lemma IngestSuccess(pdfId: string, userId: string, chunks: seq<string>,
                      embedder: string -> Result<Embedding, Error>, insertFault: seq<Row> -> Option<string>)
    requires forall c :: c in chunks ==> embedder(c).Success?
    requires forall b :: b in Batches(RowsOf(pdfId, userId, embedder, chunks)) ==> insertFault(b).None?
    ensures var run := Ingest(pdfId, userId, chunks, embedder, insertFault);
            run.outcome == Pass && run.embedded == |chunks| &&
            run.inserts == Batches(RowsOf(pdfId, userId, embedder, chunks)) &&
            Flatten(run.inserts) == RowsOf(pdfId, userId, embedder, chunks) &&
            |run.inserts| == (|chunks| + BatchSize - 1) / BatchSize &&
            (forall j :: 0 <= j < |run.inserts| ==> 1 <= |run.inserts[j]| <= BatchSize) &&
            (forall j :: 0 <= j < |run.inserts| - 1 ==> |run.inserts[j]| == BatchSize)
  {
    var rows := RowsOf(pdfId, userId, embedder, chunks);
    assert [] + RowsOf(pdfId, userId, embedder, chunks[0..]) == rows;
    IngestFromSucceeds(pdfId, userId, chunks, embedder, insertFault, 0, []);
    BatchesFlatten(rows);
    BatchesShape(rows);
  }

  /** When embedding chunk `k` is the first failure and the full batches before it are
      inserted, the run fails with that error after embedding k + 1 chunks, having sent
      floor(k / 60) full batches that hold the rows of the first k - k % 60 chunks. */
  lemma IngestEmbedFailure(pdfId: string, userId: string, chunks: seq<string>,
                           embedder: string -> Result<Embedding, Error>, insertFault: seq<Row> -> Option<string>,
                           k: nat)
    requires k < |chunks| && embedder(chunks[k]).Failure?
    requires forall j :: 0 <= j < k ==> embedder(chunks[j]).Success?
    requires forall b :: b in FullBatches(RowsOf(pdfId, userId, embedder, chunks[..k])) ==> insertFault(b).None?
    ensures var run := Ingest(pdfId, userId, chunks, embedder, insertFault);
            run.outcome == Fail(embedder(chunks[k]).error) && run.embedded == k + 1 &&
            |run.inserts| == k / BatchSize &&
            (forall j :: 0 <= j < |run.inserts| ==> |run.inserts[j]| == BatchSize) &&
            Flatten(run.inserts) == RowsOf(pdfId, userId, embedder, chunks[..k - k % BatchSize])
  {
    var rows := RowsOf(pdfId, userId, embedder, chunks[..k]);
    assert [] + RowsOf(pdfId, userId, embedder, chunks[0..k]) == rows;
    IngestFromFails(pdfId, userId, chunks, embedder, insertFault, 0, [], k);
    FullBatchesShape(rows);
    RowsPrefix(pdfId, userId, embedder, chunks[..k], k - k % BatchSize);
    assert chunks[..k][..k - k % BatchSize] == chunks[..k - k % BatchSize];
  }


  /** Whatever fails, the rows sent are, in order, the rows of the first chunks; every request
      holds 1 to 60 rows; every request but the last is full and succeeded; and a run that
      succeeds embedded every chunk, sent the rows of all of them and had every request
      succeed. */
  lemma IngestRequests(pdfId: string, userId: string, chunks: seq<string>,
                       embedder: string -> Result<Embedding, Error>, insertFault: seq<Row> -> Option<string>)
    ensures var run := Ingest(pdfId, userId, chunks, embedder, insertFault);
            var all := RowsOf(pdfId, userId, embedder, chunks);
            |Flatten(run.inserts)| <= |all| && Flatten(run.inserts) == all[..|Flatten(run.inserts)|] &&
            (forall j :: 0 <= j < |run.inserts| ==> 1 <= |run.inserts[j]| <= BatchSize) &&
            (forall j :: 0 <= j < |run.inserts| - 1 ==> |run.inserts[j]| == BatchSize && insertFault(run.inserts[j]).None?) &&
            (run.outcome == Pass ==> run.embedded == |chunks| && Flatten(run.inserts) == all &&
                                     forall b :: b in run.inserts ==> insertFault(b).None?)
  {
    IngestFromSent(pdfId, userId, chunks, embedder, insertFault, 0, []);
    IngestFromBatchSizes(pdfId, userId, chunks, embedder, insertFault, 0, []);
    IngestFromPasses(pdfId, userId, chunks, embedder, insertFault, 0, []);
    IngestFromStoresAll(pdfId, userId, chunks, embedder, insertFault, 0, []);
    assert [] + RowsOf(pdfId, userId, embedder, chunks[0..]) == RowsOf(pdfId, userId, embedder, chunks);
  }

  // ---------------------------------------------------------------------------------------
  // Search

  /** The passages for the rows `match_pdf_chunks` returned: same count, same order, each
      row's content as the text and its similarity unchanged. */
  function PassagesOf(rows: seq<MatchRow>): (ps: seq<Passage>)
    ensures |ps| == |rows|
    ensures forall j :: 0 <= j < |ps| ==> ps[j].text == rows[j].content && ps[j].similarity == rows[j].similarity
  {
    if |rows| == 0 then [] else PassagesOf(rows[..|rows| - 1]) + [Passage(rows[|rows| - 1].content, rows[|rows| - 1].similarity)]
  }

  /** What `search_in_vector_db` returns: the embedding failure, the procedure's failure, or
      the passages for the data returned (none when there is no data). */
  function SearchOutcome(embed: (string, string) -> Result<Embedding, string>,
                         matchChunks: MatchRequest -> Result<Option<seq<MatchRow>>, string>,
                         pdfId: string, query: string, topK: int, envKey: Option<string>): Result<seq<Passage>, Error>
  {
    match EmbedOutcome(embed, Some(query), None, envKey)
    case Failure(e) => Failure(e)
    case Success(v) =>
      match matchChunks(MatchRequest(v, pdfId, topK))
      case Failure(m) => Failure(StoreError(m))
      case Success(data) => Success(if data.Some? then PassagesOf(data.value) else [])
  }

  /** The `match_pdf_chunks` requests a search sends: one, carrying the query's embedding,
      the document and `top_k`, once the query is embedded; none otherwise. */
  function SearchRequests(embed: (string, string) -> Result<Embedding, string>,
                          pdfId: string, query: string, topK: int, envKey: Option<string>): seq<MatchRequest>
  {
    match EmbedOutcome(embed, Some(query), None, envKey)
    case Failure(_) => []
    case Success(v) => [MatchRequest(v, pdfId, topK)]
  }

  /** A search embeds the query once; when that works it calls the procedure once with
      `match_count = top_k` and `match_pdf_id = pdf_id`, and no data gives no passages. */
  lemma SearchRequest(embed: (string, string) -> Result<Embedding, string>,
                      matchChunks: MatchRequest -> Result<Option<seq<MatchRow>>, string>,
                      pdfId: string, query: string, topK: int, envKey: Option<string>)
    ensures |EmbedCalls(Some(query), None, envKey)| <= 1
    ensures var reqs := SearchRequests(embed, pdfId, query, topK, envKey);
            |reqs| == (if EmbedOutcome(embed, Some(query), None, envKey).Success? then 1 else 0) &&
            forall r :: r in reqs ==> r.matchCount == topK && r.matchPdfId == pdfId &&
                                      Success(r.queryEmbedding) == EmbedOutcome(embed, Some(query), None, envKey)
    ensures var reqs := SearchRequests(embed, pdfId, query, topK, envKey);
            |reqs| == 1 && matchChunks(reqs[0]).Success? && matchChunks(reqs[0]).value.None? ==>
              SearchOutcome(embed, matchChunks, pdfId, query, topK, envKey) == Success([])
  {
  }

  /** `search_in_vector_db`. The loop keeps the passages of the rows seen so far. */
  method SearchInVectorDb(provider: Provider, table: ChunkTable, pdfId: string, query: string,
                          topK: int, envKey: Option<string>)
    returns (r: Result<seq<Passage>, Error>)
    modifies provider, table
    ensures r == SearchOutcome(provider.embed, table.matchChunks, pdfId, query, topK, envKey)
    ensures provider.calls == old(provider.calls) + EmbedCalls(Some(query), None, envKey)
    ensures table.requests == old(table.requests) + SearchRequests(provider.embed, pdfId, query, topK, envKey)
    ensures table.inserts == old(table.inserts)
  {
    var queryEmb := GetEmbedding(provider, Some(query), None, envKey);
    if queryEmb.Failure? {
      return Failure(queryEmb.error);
    }
    var res := table.MatchPdfChunks(MatchRequest(queryEmb.value, pdfId, topK));
    if res.Failure? {
      return Failure(StoreError(res.error));
    }
    var results: seq<Passage> := [];
    if res.value.Some? && |res.value.value| > 0 {
      var data := res.value.value;
      var i := 0;
      while i < |data|
        invariant 0 <= i <= |data|
        invariant results == PassagesOf(data[..i])
      {
        results := results + [Passage(data[i].content, data[i].similarity)];
        assert data[..i + 1][..i] == data[..i];
        i := i + 1;
      }
      assert data[..|data|] == data;
    }
    return Success(results);
  }
}
