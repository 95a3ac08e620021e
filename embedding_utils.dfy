/**
 * The vector-store side of the backend: `store_transcript` writes one record per
 * transcript chunk, `answer_question` keeps the retrieved passages of one document.
 * The embedding model, the index's similarity search and the answer generator are
 * parameters: functions whose behaviour the model does not fix.
 */
module EmbeddingUtils {
  import opened Wrappers
  import opened Strings
  import Chunking

  type Embedding = seq<real>

  /** The metadata stored beside each chunk's vector. */
  datatype Metadata = Metadata(title: string, docId: string, chunkId: string, content: string, chunkIndex: nat)

  /** One upserted record: `{"id", "values", "metadata"}`. */
  datatype Vector = Vector(id: string, values: Embedding, metadata: Metadata)

  /** The records an index holds after upserting `vs` in order onto `m`; a later id overwrites. */
  function UpsertAll(m: map<string, Vector>, vs: seq<Vector>): (stored: map<string, Vector>) {
    if vs == [] then m else UpsertAll(m, vs[..|vs| - 1])[vs[|vs| - 1].id := vs[|vs| - 1]]
  }

  /** The vector index, as far as this core uses it. */
  class Index {
    /** The records held, by id. */
    var vectors: map<string, Vector>
    /** Every record received by `upsert`, in the order received. */
    var upserts: seq<Vector>

    constructor ()
      ensures vectors == map[] && upserts == []
    {
      vectors := map[];
      upserts := [];
    }

    /** `index.upsert(vectors=[v])`: inserts v, or overwrites the record with v's id. */
    method Upsert(v: Vector)
      modifies this
      ensures vectors == old(vectors)[v.id := v]
      ensures upserts == old(upserts) + [v]
    {
      vectors := vectors[v.id := v];
      upserts := upserts + [v];
    }
  }

  /** `f"{doc_id}_{i}"` */
  function ChunkId(docId: string, i: nat): (id: string) {
    docId + "_" + NatToString(i)
  }

  /** The record `store_transcript` builds for chunk i. */
  function ChunkRecord(docId: string, title: string, chunk: string, i: nat, embed: string -> Embedding): (v: Vector) {
    var id := ChunkId(docId, i);
    Vector(id, embed(chunk), Metadata(title, docId, id, chunk, i))
  }

  function ChunkRecords(docId: string, title: string, chunks: seq<string>, embed: string -> Embedding): (records: seq<Vector>) {
    seq(|chunks|, i requires 0 <= i < |chunks| => ChunkRecord(docId, title, chunks[i], i, embed))
  }

  /**
   * `store_transcript(title, transcript)`: chunks the transcript with the default window and
   * upserts one record per chunk, in chunk order. The random document id is a parameter.
   */
  method StoreTranscript(index: Index, title: string, transcript: string, docId: string, embed: string -> Embedding)
    returns (id: string)
    modifies index
    ensures id == docId
    ensures var records := ChunkRecords(docId, title,
        Chunking.Chunks(Split(transcript), Chunking.DefaultChunkSize, Chunking.DefaultOverlap), embed);
      index.upserts == old(index.upserts) + records
      && index.vectors == UpsertAll(old(index.vectors), records)
  {
    var chunks := Chunking.ChunkText(transcript, Chunking.DefaultChunkSize, Chunking.DefaultOverlap);
    ghost var records := ChunkRecords(docId, title, chunks, embed);
    for i := 0 to |chunks|
      invariant index.upserts == old(index.upserts) + records[..i]
      invariant index.vectors == UpsertAll(old(index.vectors), records[..i])
    {
      var chunkId := ChunkId(docId, i);
      var embedding := embed(chunks[i]);
      var metadata := Metadata(title, docId, chunkId, chunks[i], i);
      index.Upsert(Vector(chunkId, embedding, metadata));
      assert records[..i + 1] == records[..i] + [records[i]];
    }
    assert records[..|chunks|] == records;
    id := docId;
  }

  /** Distinct chunk positions of one document get distinct ids. */
  lemma ChunkIdsDistinct(docId: string, i: nat, j: nat)
    requires i != j
    ensures ChunkId(docId, i) != ChunkId(docId, j)
  {
    if ChunkId(docId, i) == ChunkId(docId, j) {
      var n := |docId| + 1;
      assert ChunkId(docId, i)[n..] == NatToString(i);
      assert ChunkId(docId, j)[n..] == NatToString(j);
      NatToStringInjective(i, j);
    }
  }

  /** Documents whose ids contain no `_` (as uuid4 strings do) never share a chunk id. */
  lemma ChunkIdInjective(d1: string, i1: nat, d2: string, i2: nat)
    requires '_' !in d1 && '_' !in d2
    requires ChunkId(d1, i1) == ChunkId(d2, i2)
    ensures d1 == d2 && i1 == i2
  {
    var s := ChunkId(d1, i1);
    assert forall k :: 0 <= k < |d1| ==> s[k] == d1[k];
    assert forall k :: 0 <= k < |d2| ==> s[k] == d2[k];
    assert s[|d1|] == '_' && s[|d2|] == '_';
    assert |d1| == |d2|;
    assert d1 == s[..|d1|] == d2;
    if i1 != i2 {
      ChunkIdsDistinct(d1, i1, i2);
    }
  }

  predicate DistinctIds(vs: seq<Vector>) {
    forall i, j :: 0 <= i < j < |vs| ==> vs[i].id != vs[j].id
  }

  /** Each stored record has chunk index, content, doc id and title as given, and its own id. */
  lemma ChunkRecordsFields(docId: string, title: string, chunks: seq<string>, embed: string -> Embedding)
    ensures var rs := ChunkRecords(docId, title, chunks, embed);
      |rs| == |chunks| && DistinctIds(rs)
      && forall i :: 0 <= i < |rs| ==>
        rs[i].id == rs[i].metadata.chunkId == ChunkId(docId, i) && rs[i].metadata.chunkIndex == i
        && rs[i].metadata.content == chunks[i] && rs[i].metadata.docId == docId
        && rs[i].metadata.title == title && rs[i].values == embed(chunks[i])
  {
    var rs := ChunkRecords(docId, title, chunks, embed);
    forall i, j | 0 <= i < j < |rs| ensures rs[i].id != rs[j].id {
      ChunkIdsDistinct(docId, i, j);
    }
  }

  /** After upserting records with distinct ids, each can be found under its id. */
  lemma {:induction false} UpsertAllFinds(m: map<string, Vector>, vs: seq<Vector>, i: nat)
    requires DistinctIds(vs) && i < |vs|
    ensures vs[i].id in UpsertAll(m, vs) && UpsertAll(m, vs)[vs[i].id] == vs[i]
  {
    if i < |vs| - 1 {
      var front := vs[..|vs| - 1];
      assert front[i] == vs[i];
      UpsertAllFinds(m, front, i);
    }
  }

  /** Upserting leaves every other id as it was. */
  lemma {:induction false} UpsertAllKeepsOthers(m: map<string, Vector>, vs: seq<Vector>, key: string)
    requires forall i :: 0 <= i < |vs| ==> vs[i].id != key
    ensures (key in UpsertAll(m, vs)) == (key in m)
    ensures key in m ==> UpsertAll(m, vs)[key] == m[key]
  {
    if vs != [] {
      UpsertAllKeepsOthers(m, vs[..|vs| - 1], key);
    }
  }

  /** After `store_transcript`, chunk i of the document is stored under `<doc_id>_<i>`. */
  lemma StoredChunk(m: map<string, Vector>, docId: string, title: string, chunks: seq<string>,
                    embed: string -> Embedding, i: nat)
    requires i < |chunks|
    ensures var stored := UpsertAll(m, ChunkRecords(docId, title, chunks, embed));
      ChunkId(docId, i) in stored && stored[ChunkId(docId, i)].metadata.content == chunks[i]
      && stored[ChunkId(docId, i)].metadata.chunkIndex == i
  {
    ChunkRecordsFields(docId, title, chunks, embed);
    UpsertAllFinds(m, ChunkRecords(docId, title, chunks, embed), i);
  }

  const NoInformation := "No relevant information found."
  const ErrorPrefix := "Error: "

  /** One entry of `results['matches']`: the record's id and its metadata. */
  datatype QueryMatch = QueryMatch(id: string, metadata: Metadata)

  /** `[m['metadata']['content'] for m in matches if m['metadata']['doc_id'] == doc_id]` */
  function Contexts(matches: seq<QueryMatch>, docId: string): (contexts: seq<string>) {
    if matches == [] then []
    else
      var last := matches[|matches| - 1];
      Contexts(matches[..|matches| - 1], docId)
        + (if last.metadata.docId == docId then [last.metadata.content] else [])
  }

  /** The positions of the matches that belong to document `docId`, in increasing order. */
  function MatchingPositions(matches: seq<QueryMatch>, docId: string): (ps: seq<nat>)
    ensures forall j :: 0 <= j < |ps| ==> ps[j] < |matches| && matches[ps[j]].metadata.docId == docId
    ensures forall j, k :: 0 <= j < k < |ps| ==> ps[j] < ps[k]
    ensures forall i :: 0 <= i < |matches| && matches[i].metadata.docId == docId ==> i in ps
  {
    if matches == [] then []
    else
      var n := |matches| - 1;
      var front := MatchingPositions(matches[..n], docId);
      assert forall j :: 0 <= j < |front| ==> matches[front[j]] == matches[..n][front[j]];
      assert forall i :: 0 <= i < n ==> matches[i] == matches[..n][i];
      front + (if matches[n].metadata.docId == docId then [n] else [])
  }

  /** The contexts are the contents of exactly the matches of `docId`, in result order. */
  lemma {:induction false} ContextsAreFiltered(matches: seq<QueryMatch>, docId: string)
    ensures var ps := MatchingPositions(matches, docId);
      |Contexts(matches, docId)| == |ps|
      && forall j :: 0 <= j < |ps| ==> Contexts(matches, docId)[j] == matches[ps[j]].metadata.content
  {
    if matches != [] {
      var n := |matches| - 1;
      ContextsAreFiltered(matches[..n], docId);
      var front := MatchingPositions(matches[..n], docId);
      assert forall j :: 0 <= j < |front| ==> matches[front[j]] == matches[..n][front[j]];
    }
  }

  /** No context survives exactly when no match belongs to the document. */
  lemma {:induction false} ContextsEmpty(matches: seq<QueryMatch>, docId: string)
    ensures Contexts(matches, docId) == [] <==> forall i :: 0 <= i < |matches| ==> matches[i].metadata.docId != docId
  {
    ContextsAreFiltered(matches, docId);
    var ps := MatchingPositions(matches, docId);
    if ps != [] {
      assert matches[ps[0]].metadata.docId == docId;
    }
  }

  /** Matches of other documents, wherever they are appended, never reach the answer. */
  lemma {:induction false} ContextsIgnoreOtherDocuments(matches: seq<QueryMatch>, others: seq<QueryMatch>, docId: string)
    requires forall i :: 0 <= i < |others| ==> others[i].metadata.docId != docId
    ensures Contexts(matches + others, docId) == Contexts(matches, docId)
  {
    if others != [] {
      var n := |others| - 1;
      assert (matches + others)[..|matches + others| - 1] == matches + others[..n];
      assert (matches + others)[|matches + others| - 1] == others[n];
      ContextsIgnoreOtherDocuments(matches, others[..n], docId);
    } else {
      assert matches + others == matches;
    }
  }

  /**
   * `answer_question(question, doc_id)`. `retrieved` is the outcome of embedding the question
   * and querying the index (an exception message on failure); `generate` maps the joined
   * contexts and the question to the model's text, or to an exception message.
   */
  function AnswerQuestion(question: string, docId: string, retrieved: Result<seq<QueryMatch>, string>,
                          generate: (string, string) -> Result<string, string>): (answer: string)
    ensures retrieved.Failure? ==> answer == ErrorPrefix + retrieved.error
    ensures retrieved.Success? && (forall i :: 0 <= i < |retrieved.value| ==> retrieved.value[i].metadata.docId != docId)
      ==> answer == NoInformation
    ensures retrieved.Success? && (exists i :: 0 <= i < |retrieved.value| && retrieved.value[i].metadata.docId == docId)
      ==> match generate(Join(Contexts(retrieved.value, docId)), question)
          case Success(text) => answer == text
          case Failure(e) => answer == ErrorPrefix + e
  {
    match retrieved
    case Failure(e) => ErrorPrefix + e
    case Success(matches) =>
      var contexts := Contexts(matches, docId);
      ContextsEmpty(matches, docId);
      if contexts == [] then NoInformation
      else
        match generate(Join(contexts), question)
        case Success(text) => text
        case Failure(e) => ErrorPrefix + e
  }
}
