/** The document store adapter (utils/vector_store.py): a collection maps document ids to
    their content and metadata. The embedding service and the nearest-neighbour index are
    oracles in `Backend`; every call to them may fail. */
module VectorStore {
  import opened Common
  import opened Seqs
  import opened DataLoader

  type Embedding = seq<real>

  /** What the collection keeps for one id. */
  datatype Entry = Entry(content: string, metadata: Metadata)

  /** A named collection. */
  datatype Store = Store(name: string, items: map<string, Entry>)

  /** The index's answer to one query: documents nearest first, and the distance,
      metadata and id columns, each possibly absent. */
  datatype QueryAnswer = QueryAnswer(
    documents: seq<string>,
    distances: Option<seq<real>>,
    metadatas: Option<seq<Metadata>>,
    ids: Option<seq<string>>)

  /** The foreign services. `embed` answers one embeddings request; `indexAccepts` says
      whether the index serves the lookup and the write for a batch with these ids;
      `query` answers a nearest-neighbour query for `n_results` and a `where` filter. */
  datatype Backend = Backend(
    embed: seq<string> -> Option<seq<Embedding>>,
    indexAccepts: seq<string> -> bool,
    query: (map<string, Entry>, Embedding, int, Option<Metadata>) -> Option<QueryAnswer>)

  /** One search result. */
  datatype Hit = Hit(content: string, metadata: Metadata, id: Option<string>, similarity: real)

  /** Errors the adapter raises to its caller. */
  datatype StoreError = InvalidBatchSize | ClearFailed

  /** Name and size of the collection. */
  datatype CollectionStats = CollectionStats(name: string, count: nat)

  const EmbeddingBatchSize := 100
  const DefaultBatchSize := 100

  /** A backend on which no call fails. */
  ghost predicate Reliable(be: Backend)
  {
    && (forall ids: seq<string> :: be.indexAccepts(ids))
    && (forall texts: seq<string> :: be.embed(texts).Some?)
  }

  // ---------------------------------------------------------------------------
  // Embeddings

  /** The vectors each request answered, in request order. */
  function Replies(batches: seq<seq<string>>, embed: seq<string> -> Option<seq<Embedding>>): (r: seq<seq<Embedding>>)
    requires forall j | 0 <= j < |batches| :: embed(batches[j]).Some?
    ensures |r| == |batches| && forall j | 0 <= j < |batches| :: r[j] == embed(batches[j]).value
  {
    seq(|batches|, j requires 0 <= j < |batches| => embed(batches[j]).value)
  }

  /** Issues one request per batch, in order; any failed request fails the whole call, and
      otherwise the result is every reply's vectors, concatenated in request order. */
  function EmbedBatches(batches: seq<seq<string>>, embed: seq<string> -> Option<seq<Embedding>>): (r: Option<seq<Embedding>>)
    ensures r.Some? <==> forall j | 0 <= j < |batches| :: embed(batches[j]).Some?
    ensures r.Some? ==> r.value == Flatten(Replies(batches, embed))
  {
    if |batches| == 0 then Some([])
    else match embed(batches[0])
      case None => None
      case Some(v) =>
        match EmbedBatches(batches[1..], embed)
        case None => None
        case Some(rest) =>
          assert Replies(batches, embed) == [v] + Replies(batches[1..], embed);
          assert ([v] + Replies(batches[1..], embed))[1..] == Replies(batches[1..], embed);
          Some(v + rest)
  }

  /** `_get_embeddings`: the texts go out in requests of at most 100, and the call
      succeeds exactly when every request does, returning the replies' vectors in order. */
  function GetEmbeddings(texts: seq<string>, embed: seq<string> -> Option<seq<Embedding>>): (r: Option<seq<Embedding>>)
    ensures r.Some? <==> forall b | b in Batches(texts, EmbeddingBatchSize) :: embed(b).Some?
    ensures r.Some? ==> r.value == Flatten(Replies(Batches(texts, EmbeddingBatchSize), embed))
  {
    EmbedBatches(Batches(texts, EmbeddingBatchSize), embed)
  }

  /** A service that answers each request with one vector per text gives one vector per
      text overall. */
  lemma GetEmbeddingsOnePerText(texts: seq<string>, embed: seq<string> -> Option<seq<Embedding>>)
    requires forall b: seq<string> :: embed(b).Some? ==> |embed(b).value| == |b|
    ensures GetEmbeddings(texts, embed).Some? ==> |GetEmbeddings(texts, embed).value| == |texts|
  {
    var bs := Batches(texts, EmbeddingBatchSize);
    if GetEmbeddings(texts, embed).Some? {
      FlattenSameLengths(Replies(bs, embed), bs);
    }
  }

  /** Lists of lists whose members pair up in length flatten to equal lengths. */
  lemma {:induction false} FlattenSameLengths<T, U>(xss: seq<seq<T>>, yss: seq<seq<U>>)
    requires |xss| == |yss| && forall j | 0 <= j < |xss| :: |xss[j]| == |yss[j]|
    ensures |Flatten(xss)| == |Flatten(yss)|
  {
    if |xss| > 0 {
      FlattenSameLengths(xss[1..], yss[1..]);
    }
  }

  // ---------------------------------------------------------------------------
  // add_documents

  /** A document's id: its own when it has one, otherwise a deterministic digest of its
      content and printed metadata, supplied as `hash`. */
  function DocId(doc: Document, hash: (string, Metadata) -> string): string
  {
    if doc.docId != "" then doc.docId else hash(doc.content, doc.metadata)
  }

  function BatchIds(batch: seq<Document>, hash: (string, Metadata) -> string): seq<string>
  {
    seq(|batch|, j requires 0 <= j < |batch| => DocId(batch[j], hash))
  }

  /** A document about to be written under its id. */
  datatype Pending = Pending(id: string, entry: Entry)

  function PendingOf(doc: Document, hash: (string, Metadata) -> string): Pending
  {
    Pending(DocId(doc, hash), Entry(doc.content, doc.metadata))
  }

  /** The pending writes of a list of documents, in order. */
  function Pendings(docs: seq<Document>, hash: (string, Metadata) -> string): (r: seq<Pending>)
    ensures |r| == |docs| && forall j | 0 <= j < |docs| :: r[j] == PendingOf(docs[j], hash)
  {
    seq(|docs|, j requires 0 <= j < |docs| => PendingOf(docs[j], hash))
  }

  lemma PendingsConcat(a: seq<Document>, b: seq<Document>, hash: (string, Metadata) -> string)
    ensures Pendings(a + b, hash) == Pendings(a, hash) + Pendings(b, hash)
  {
  }

  function PendingIds(ps: seq<Pending>): seq<string>
  {
    seq(|ps|, j requires 0 <= j < |ps| => ps[j].id)
  }

  function PendingContents(ps: seq<Pending>): seq<string>
  {
    seq(|ps|, j requires 0 <= j < |ps| => ps[j].entry.content)
  }

  /** The pending writes whose ids are not yet in the collection, in order. */
  function Unstored(ps: seq<Pending>, items: map<string, Entry>): (r: seq<Pending>)
    ensures |r| <= |ps|
    ensures forall p | p in r :: p in ps && p.id !in items
    ensures forall p | p in ps && p.id !in items :: p in r
    ensures (forall p | p in ps :: p.id !in items) ==> r == ps
    decreases |ps|
  {
    if |ps| == 0 then []
    else
      var rest := Unstored(ps[1..], items);
      assert ps == [ps[0]] + ps[1..];
      if ps[0].id in items then rest else [ps[0]] + rest
  }

  /** Filtering keeps the ids of the kept writes distinct. */
  lemma {:induction false} UnstoredDistinct(ps: seq<Pending>, items: map<string, Entry>)
    requires Distinct(PendingIds(ps))
    ensures Distinct(PendingIds(Unstored(ps, items)))
    decreases |ps|
  {
    if |ps| > 0 {
      var rest := Unstored(ps[1..], items);
      DistinctIdsTail(ps);
      UnstoredDistinct(ps[1..], items);
      if ps[0].id !in items {
        UnstoredAvoidsHead(ps, items);
        DistinctIdsCons(ps[0], rest);
        assert Unstored(ps, items) == [ps[0]] + rest;
      } else {
        assert Unstored(ps, items) == rest;
      }
    }
  }

  /** Dropping the first write keeps the ids distinct. */
  lemma DistinctIdsTail(ps: seq<Pending>)
    requires |ps| > 0 && Distinct(PendingIds(ps))
    ensures Distinct(PendingIds(ps[1..]))
  {
    assert PendingIds(ps[1..]) == PendingIds(ps)[1..];
    DistinctTail(PendingIds(ps));
  }

  /** A write under an id the others do not use keeps the ids distinct. */
  lemma DistinctIdsCons(p: Pending, rest: seq<Pending>)
    requires Distinct(PendingIds(rest)) && p.id !in PendingIds(rest)
    ensures Distinct(PendingIds([p] + rest))
  {
    assert PendingIds([p] + rest) == [p.id] + PendingIds(rest);
    DistinctCons(p.id, PendingIds(rest));
  }

  /** With distinct ids, the filtered tail does not hold the head's id. */
  lemma UnstoredAvoidsHead(ps: seq<Pending>, items: map<string, Entry>)
    requires |ps| > 0 && Distinct(PendingIds(ps))
    ensures ps[0].id !in PendingIds(Unstored(ps[1..], items))
  {
    var ids := PendingIds(ps);
    var rest := Unstored(ps[1..], items);
    forall j | 0 <= j < |rest| ensures PendingIds(rest)[j] != ps[0].id {
      assert rest[j] in ps[1..];
      var k :| 0 <= k < |ps[1..]| && ps[1..][k] == rest[j];
      assert ids[k + 1] == rest[j].id && ids[0] == ps[0].id;
    }
  }

  /** The documents of a batch whose ids are not yet in the collection, in batch order. */
  function NewEntries(batch: seq<Document>, hash: (string, Metadata) -> string, items: map<string, Entry>): (r: seq<Pending>)
    ensures |r| <= |batch|
    ensures forall p | p in r :: p.id !in items && p in Pendings(batch, hash)
    ensures forall d | d in batch && DocId(d, hash) !in items :: PendingOf(d, hash) in r
    ensures (forall d | d in batch :: DocId(d, hash) !in items) ==> |r| == |batch|
  {
    var ps := Pendings(batch, hash);
    forall d | d in batch ensures PendingOf(d, hash) in ps {
      var k :| 0 <= k < |batch| && batch[k] == d;
      assert ps[k] == PendingOf(d, hash);
    }
    Unstored(ps, items)
  }

  /** Documents with distinct ids give pending writes with distinct ids. */
  lemma NewEntriesDistinct(batch: seq<Document>, hash: (string, Metadata) -> string, items: map<string, Entry>)
    requires Distinct(BatchIds(batch, hash))
    ensures Distinct(PendingIds(NewEntries(batch, hash, items)))
  {
    assert PendingIds(Pendings(batch, hash)) == BatchIds(batch, hash);
    UnstoredDistinct(Pendings(batch, hash), items);
  }

  /** The ids of pending writes, as a set. */
  function IdSet(ps: seq<Pending>): set<string>
  {
    set p | p in ps :: p.id
  }

  /** The entry of the first pending write under `id`. */
  function EntryFor(ps: seq<Pending>, id: string): Entry
    requires id in IdSet(ps)
    decreases |ps|
  {
    if ps[0].id == id then ps[0].entry
    else
      assert id in IdSet(ps[1..]) by {
        var p :| p in ps && p.id == id;
        var k :| 0 <= k < |ps| && ps[k] == p;
        assert ps[1..][k - 1] == p;
      }
      EntryFor(ps[1..], id)
  }

  /** Writes pending entries under new, distinct ids in one call: the old entries and,
      under each new id, the entry written there. */
  function Insert(items: map<string, Entry>, ps: seq<Pending>): map<string, Entry>
    requires Distinct(PendingIds(ps))
    requires forall p | p in ps :: p.id !in items
  {
    map id | id in items.Keys + IdSet(ps) :: if id in items then items[id] else EntryFor(ps, id)
  }

  /** Writing under new, distinct ids keeps every existing entry, stores each pending
      entry under its id, and adds nothing else. */
  lemma InsertProperties(items: map<string, Entry>, ps: seq<Pending>)
    requires Distinct(PendingIds(ps))
    requires forall p | p in ps :: p.id !in items
    ensures var r := Insert(items, ps);
      && |r| == |items| + |ps|
      && (forall id | id in items :: id in r && r[id] == items[id])
      && (forall p | p in ps :: p.id in r && r[p.id] == p.entry)
      && (forall id | id in r && id !in items :: exists p :: p in ps && p.id == id)
  {
    var r := Insert(items, ps);
    assert r.Keys == items.Keys + IdSet(ps);
    assert items.Keys !! IdSet(ps);
    IdSetSize(ps);
    assert |r| == |r.Keys| == |items.Keys| + |IdSet(ps)|;
    forall p | p in ps ensures p.id in r && r[p.id] == p.entry {
      EntryForFinds(ps, p);
    }
  }

  /** Distinct ids make as many set elements as writes. */
  lemma {:induction false} IdSetSize(ps: seq<Pending>)
    requires Distinct(PendingIds(ps))
    ensures |IdSet(ps)| == |ps|
    decreases |ps|
  {
    if |ps| > 0 {
      InsertTail(ps);
      IdSetSize(ps[1..]);
      assert IdSet(ps) == {ps[0].id} + IdSet(ps[1..]) by {
        forall id | id in IdSet(ps) ensures id in {ps[0].id} + IdSet(ps[1..]) {
          var p :| p in ps && p.id == id;
          var k :| 0 <= k < |ps| && ps[k] == p;
          if k > 0 {
            assert ps[1..][k - 1] == p;
          }
        }
      }
      assert ps[0].id !in IdSet(ps[1..]);
    }
  }

  /** With distinct ids, the entry found under a write's id is that write's entry. */
  lemma {:induction false} EntryForFinds(ps: seq<Pending>, p: Pending)
    requires Distinct(PendingIds(ps)) && p in ps
    ensures p.id in IdSet(ps) && EntryFor(ps, p.id) == p.entry
    decreases |ps|
  {
    if ps[0] != p {
      InsertTail(ps);
      assert p in ps[1..] by {
        var k :| 0 <= k < |ps| && ps[k] == p;
        assert ps[1..][k - 1] == p;
      }
      EntryForFinds(ps[1..], p);
    } else {
      assert ps[0] in ps;
    }
  }

  lemma InsertTail(ps: seq<Pending>)
    requires |ps| > 0 && Distinct(PendingIds(ps))
    ensures Distinct(PendingIds(ps[1..]))
    ensures forall p | p in ps[1..] :: p in ps && p.id != ps[0].id
  {
    assert PendingIds(ps[1..]) == PendingIds(ps)[1..];
    forall p | p in ps[1..] ensures p in ps && p.id != ps[0].id {
      var k :| 0 <= k < |ps[1..]| && ps[1..][k] == p;
      assert ps[k + 1] == p;
      assert PendingIds(ps)[k + 1] == p.id && PendingIds(ps)[0] == ps[0].id;
    }
  }

  /** `store2` is `store` plus `n` documents of `docs` written under unseen ids, with every
      existing entry untouched. */
  ghost predicate GrowsBy(items: map<string, Entry>, items2: map<string, Entry>, n: nat,
                          docs: seq<Document>, hash: (string, Metadata) -> string)
  {
    && |items2| == |items| + n
    && n <= |docs|
    && (forall id | id in items :: id in items2 && items2[id] == items[id])
    && (forall id | id in items2 && id !in items :: Pending(id, items2[id]) in Pendings(docs, hash))
  }

  /** One batch of `add_documents`: looks up the batch ids, writes only the documents not
      yet stored, and on any failure (lookup, embedding or write) writes nothing. The
      index refuses a write that repeats an id. */
  function AddBatch(items: map<string, Entry>, batch: seq<Document>, hash: (string, Metadata) -> string, be: Backend): (r: (map<string, Entry>, nat))
    ensures GrowsBy(items, r.0, r.1, batch, hash)
  {
    GrowsByNothing(items, batch, hash);
    if !be.indexAccepts(BatchIds(batch, hash)) then (items, 0)
    else
      var unseen := NewEntries(batch, hash, items);
      if |unseen| == 0 || !NoRepeats(PendingIds(unseen)) then (items, 0)
      else WriteUnseen(items, unseen, batch, hash, be)
  }

  /** The write of a batch's unseen documents: embeds their contents and writes them all,
      or, when the embedding call fails, writes nothing. */
  function WriteUnseen(items: map<string, Entry>, unseen: seq<Pending>, batch: seq<Document>,
                       hash: (string, Metadata) -> string, be: Backend): (r: (map<string, Entry>, nat))
    requires |unseen| <= |batch| && NoRepeats(PendingIds(unseen))
    requires forall p | p in unseen :: p.id !in items && p in Pendings(batch, hash)
    ensures GrowsBy(items, r.0, r.1, batch, hash)
  {
    GrowsByNothing(items, batch, hash);
    match GetEmbeddings(PendingContents(unseen), be.embed)
    case None => (items, 0)
    case Some(_) =>
      NoRepeatsIffDistinct(PendingIds(unseen));
      InsertGrows(items, unseen, batch, hash);
      (Insert(items, unseen), |unseen|)
  }

  /** Writing nothing is growth by nothing. */
  lemma GrowsByNothing(items: map<string, Entry>, batch: seq<Document>, hash: (string, Metadata) -> string)
    ensures GrowsBy(items, items, 0, batch, hash)
  {
  }

  /** Writing pending entries of a batch under new, distinct ids grows the collection by
      them. */
  lemma InsertGrows(items: map<string, Entry>, ps: seq<Pending>, batch: seq<Document>, hash: (string, Metadata) -> string)
    requires Distinct(PendingIds(ps)) && |ps| <= |batch|
    requires forall p | p in ps :: p.id !in items && p in Pendings(batch, hash)
    ensures GrowsBy(items, Insert(items, ps), |ps|, batch, hash)
  {
    var items2 := Insert(items, ps);
    InsertProperties(items, ps);
    forall id | id in items2 && id !in items
      ensures Pending(id, items2[id]) in Pendings(batch, hash)
    {
      var p :| p in ps && p.id == id;
    }
  }

  /** Growth by a first batch and then by the rest is growth by both. */
  lemma GrowsByCompose(items: map<string, Entry>, items1: map<string, Entry>, n1: nat, b: seq<Document>,
                       items2: map<string, Entry>, n2: nat, rest: seq<Document>, hash: (string, Metadata) -> string)
    requires GrowsBy(items, items1, n1, b, hash)
    requires GrowsBy(items1, items2, n2, rest, hash)
    ensures GrowsBy(items, items2, n1 + n2, b + rest, hash)
  {
    PendingsConcat(b, rest, hash);
  }

  /** What one pass of the batch loop does: from the collection and a batch, the new
      collection and the number of documents written. */
  type BatchStep = (map<string, Entry>, seq<Document>) -> (map<string, Entry>, nat)

  /** `for i in range(0, len(docs), size)`: `step` applied to the batches `docs[i:i + size]`
      one after another, each seeing the collection its predecessors left, with the
      counts summed. */
  function RunBatches(items: map<string, Entry>, docs: seq<Document>, size: int, step: BatchStep): (map<string, Entry>, nat)
    requires size > 0
    decreases |docs|
  {
    if |docs| == 0 then (items, 0)
    else
      var n := Min(size, |docs|);
      var first := step(items, docs[..n]);
      var rest := RunBatches(first.0, docs[n..], size, step);
      (rest.0, first.1 + rest.1)
  }

  /** One pass of the loop: the first batch, then the rest from what it left. */
  lemma RunBatchesStep(items: map<string, Entry>, docs: seq<Document>, size: int, step: BatchStep)
    requires size > 0 && |docs| > 0
    ensures var n := Min(size, |docs|);
      var first := step(items, docs[..n]);
      var rest := RunBatches(first.0, docs[n..], size, step);
      var r := RunBatches(items, docs, size, step);
      r.0 == rest.0 && r.1 == first.1 + rest.1
  {
  }

  /** A step that grows the collection by its count on every batch makes the loop grow it
      by the summed count. */
  lemma {:induction false} RunBatchesGrows(items: map<string, Entry>, docs: seq<Document>, size: int, step: BatchStep,
                                           hash: (string, Metadata) -> string)
    requires size > 0
    requires forall m, b :: GrowsBy(m, step(m, b).0, step(m, b).1, b, hash)
    ensures var r := RunBatches(items, docs, size, step);
      GrowsBy(items, r.0, r.1, docs, hash)
    decreases |docs|
  {
    if |docs| == 0 {
      GrowsByNothing(items, docs, hash);
    } else {
      var n := Min(size, |docs|);
      var first := step(items, docs[..n]);
      RunBatchesGrows(first.0, docs[n..], size, step, hash);
      RunBatchesGrowsStep(items, docs, size, step, hash);
    }
  }

  /** The loop grows the collection by the summed count when its first batch and the
      rest each do. */
  lemma RunBatchesGrowsStep(items: map<string, Entry>, docs: seq<Document>, size: int, step: BatchStep,
                            hash: (string, Metadata) -> string)
    requires size > 0 && |docs| > 0
    requires var first := step(items, docs[..Min(size, |docs|)]);
      GrowsBy(items, first.0, first.1, docs[..Min(size, |docs|)], hash)
    requires var first := step(items, docs[..Min(size, |docs|)]);
      var rest := RunBatches(first.0, docs[Min(size, |docs|)..], size, step);
      GrowsBy(first.0, rest.0, rest.1, docs[Min(size, |docs|)..], hash)
    ensures var r := RunBatches(items, docs, size, step);
      GrowsBy(items, r.0, r.1, docs, hash)
  {
    var n := Min(size, |docs|);
    var first := step(items, docs[..n]);
    var rest := RunBatches(first.0, docs[n..], size, step);
    RunBatchesStep(items, docs, size, step);
    assert docs[..n] + docs[n..] == docs;
    GrowsByCompose(items, first.0, first.1, docs[..n], rest.0, rest.1, docs[n..], hash);
  }

  /** `add_documents`' loop body, as a step of the batch loop. */
  function AddBatchStep(hash: (string, Metadata) -> string, be: Backend): BatchStep
  {
    (m: map<string, Entry>, b: seq<Document>) => AddBatch(m, b, hash, be)
  }

  /** Every pass of `add_documents`' loop body grows the collection by its count. */
  lemma AddBatchStepGrows(hash: (string, Metadata) -> string, be: Backend)
    ensures var step := AddBatchStep(hash, be);
      forall m, b :: GrowsBy(m, step(m, b).0, step(m, b).1, b, hash)
  {
  }

  /** The batch loop of `add_documents`: every existing entry stays, and the entries it
      adds, as many as it counts, are documents of the list under their ids. */
  function AddBatches(items: map<string, Entry>, docs: seq<Document>, size: int,
                      hash: (string, Metadata) -> string, be: Backend): (r: (map<string, Entry>, nat))
    requires size > 0
    ensures GrowsBy(items, r.0, r.1, docs, hash)
  {
    AddBatchStepGrows(hash, be);
    RunBatchesGrows(items, docs, size, AddBatchStep(hash, be), hash);
    RunBatches(items, docs, size, AddBatchStep(hash, be))
  }

  /** One step of the batch loop: the first batch, then the rest from what it left. */
  lemma AddBatchesStep(items: map<string, Entry>, docs: seq<Document>, size: int,
                       hash: (string, Metadata) -> string, be: Backend)
    requires size > 0 && |docs| > 0
    ensures var n := Min(size, |docs|);
      var first := AddBatch(items, docs[..n], hash, be);
      var rest := AddBatches(first.0, docs[n..], size, hash, be);
      var r := AddBatches(items, docs, size, hash, be);
      r.0 == rest.0 && r.1 == first.1 + rest.1
  {
    var n := Min(size, |docs|);
    var first := AddBatch(items, docs[..n], hash, be);
    AddBatchStepIs(items, docs[..n], hash, be);
    AddBatchesIsRun(first.0, docs[n..], size, hash, be);
    AddBatchesIsRun(items, docs, size, hash, be);
    RunBatchesStep(items, docs, size, AddBatchStep(hash, be));
  }

  /** The step is `add_documents`' loop body. */
  lemma AddBatchStepIs(items: map<string, Entry>, b: seq<Document>, hash: (string, Metadata) -> string, be: Backend)
    ensures AddBatchStep(hash, be)(items, b) == AddBatch(items, b, hash, be)
  {
  }

  /** The batch loop of `add_documents` is the generic loop over its body. */
  lemma AddBatchesIsRun(items: map<string, Entry>, docs: seq<Document>, size: int,
                        hash: (string, Metadata) -> string, be: Backend)
    requires size > 0
    ensures AddBatches(items, docs, size, hash, be) == RunBatches(items, docs, size, AddBatchStep(hash, be))
  {
  }

  /** `add_documents`: an empty list adds nothing; a zero batch size raises; a negative
      one processes no batch; otherwise the batches run in order and the result counts
      the documents written. */
  function AddDocuments(s: Store, docs: seq<Document>, batchSize: int, hash: (string, Metadata) -> string, be: Backend): (r: Result<(Store, nat), StoreError>)
    ensures r.Failure? <==> |docs| > 0 && batchSize == 0
    ensures |docs| == 0 || batchSize < 0 ==> r == Success((s, 0))
    ensures r.Success? ==> r.value.0.name == s.name && GrowsBy(s.items, r.value.0.items, r.value.1, docs, hash)
  {
    if |docs| == 0 then Success((s, 0))
    else if batchSize == 0 then Failure(InvalidBatchSize)
    else if batchSize < 0 then Success((s, 0))
    else
      var (items, n) := AddBatches(s.items, docs, batchSize, hash, be);
      Success((Store(s.name, items), n))
  }

  /** A batch the index or the embedding service rejects writes nothing, and the batches
      after it run exactly as if it had not been there. */
  lemma FailedBatchIsIsolated(items: map<string, Entry>, docs: seq<Document>, size: int,
                               hash: (string, Metadata) -> string, be: Backend)
    requires size > 0 && |docs| > 0
    requires var b := docs[..Min(size, |docs|)];
      || !be.indexAccepts(BatchIds(b, hash))
      || GetEmbeddings(PendingContents(NewEntries(b, hash, items)), be.embed).None?
    ensures AddBatch(items, docs[..Min(size, |docs|)], hash, be) == (items, 0)
    ensures AddBatches(items, docs, size, hash, be) == AddBatches(items, docs[Min(size, |docs|)..], size, hash, be)
  {
    var n := Min(size, |docs|);
    assert AddBatch(items, docs[..n], hash, be) == (items, 0);
    AddBatchesStep(items, docs, size, hash, be);
  }

  /** Documents that are all stored already change nothing. */
  lemma {:induction false} AddBatchesAllStored(items: map<string, Entry>, docs: seq<Document>, size: int,
                                               hash: (string, Metadata) -> string, be: Backend)
    requires size > 0
    requires forall d | d in docs :: DocId(d, hash) in items
    ensures AddBatches(items, docs, size, hash, be) == (items, 0)
    decreases |docs|
  {
    if |docs| > 0 {
      var n := Min(size, |docs|);
      AddBatchesStep(items, docs, size, hash, be);
      assert forall d | d in docs[n..] :: d in docs;
      assert forall d | d in docs[..n] :: d in docs;
      AddBatchAllStored(items, docs[..n], hash, be);
      AddBatchesAllStored(items, docs[n..], size, hash, be);
    }
  }

  /** A batch whose ids are all stored writes nothing. */
  lemma AddBatchAllStored(items: map<string, Entry>, b: seq<Document>, hash: (string, Metadata) -> string, be: Backend)
    requires forall d | d in b :: DocId(d, hash) in items
    ensures AddBatch(items, b, hash, be) == (items, 0)
  {
    var ps := Pendings(b, hash);
    forall p | p in ps ensures p.id in items {
      var k :| 0 <= k < |b| && ps[k] == p;
      assert b[k] in b;
    }
    UnstoredAllStored(ps, items);
  }

  /** Nothing is left when every id is stored. */
  lemma {:induction false} UnstoredAllStored(ps: seq<Pending>, items: map<string, Entry>)
    requires forall p | p in ps :: p.id in items
    ensures Unstored(ps, items) == []
    decreases |ps|
  {
    if |ps| > 0 {
      assert ps[0] in ps;
      assert forall p | p in ps[1..] :: p in ps;
      UnstoredAllStored(ps[1..], items);
    }
  }

  /** Re-adding documents whose ids are all stored returns 0 and leaves the collection
      as it was. */
  lemma ReAddIsNoOp(s: Store, docs: seq<Document>, batchSize: int, hash: (string, Metadata) -> string, be: Backend)
    requires batchSize != 0
    requires forall d | d in docs :: DocId(d, hash) in s.items
    ensures AddDocuments(s, docs, batchSize, hash, be) == Success((s, 0))
  {
    if |docs| > 0 && batchSize > 0 {
      AddBatchesAllStored(s.items, docs, batchSize, hash, be);
    }
  }

  lemma DistinctSplit(docs: seq<Document>, n: nat, hash: (string, Metadata) -> string)
    requires n <= |docs| && Distinct(BatchIds(docs, hash))
    ensures Distinct(BatchIds(docs[..n], hash)) && Distinct(BatchIds(docs[n..], hash))
    ensures forall i, k | 0 <= i < n <= k < |docs| :: DocId(docs[i], hash) != DocId(docs[k], hash)
  {
    assert BatchIds(docs[..n], hash) == BatchIds(docs, hash)[..n];
    assert BatchIds(docs[n..], hash) == BatchIds(docs, hash)[n..];
    forall i, k | 0 <= i < n <= k < |docs| ensures DocId(docs[i], hash) != DocId(docs[k], hash) {
      assert BatchIds(docs, hash)[i] == DocId(docs[i], hash);
      assert BatchIds(docs, hash)[k] == DocId(docs[k], hash);
    }
  }

  /** Every id of the list is in `m` when the ids of both parts are. */
  lemma IdsOfParts(docs: seq<Document>, n: nat, hash: (string, Metadata) -> string, m: map<string, Entry>)
    requires n <= |docs|
    requires forall d | d in docs[..n] :: DocId(d, hash) in m
    requires forall d | d in docs[n..] :: DocId(d, hash) in m
    ensures forall d | d in docs :: DocId(d, hash) in m
  {
    forall d | d in docs ensures DocId(d, hash) in m {
      var k :| 0 <= k < |docs| && docs[k] == d;
      if k < n {
        assert docs[..n][k] == d;
      } else {
        assert docs[n..][k - n] == d;
      }
    }
  }

  /** After a batch that only wrote ids of its own documents, the ids of the following
      documents are still unstored. */
  lemma LaterIdsUnstored(items: map<string, Entry>, items1: map<string, Entry>, n1: nat,
                         docs: seq<Document>, n: nat, hash: (string, Metadata) -> string)
    requires n <= |docs| && Distinct(BatchIds(docs, hash))
    requires forall d | d in docs :: DocId(d, hash) !in items
    requires GrowsBy(items, items1, n1, docs[..n], hash)
    ensures forall d | d in docs[n..] :: DocId(d, hash) !in items1
  {
    DistinctSplit(docs, n, hash);
    forall d | d in docs[n..] ensures DocId(d, hash) !in items1 {
      var k :| 0 <= k < |docs| - n && docs[n..][k] == d;
      assert docs[n + k] == d;
      assert d in docs;
      NewIdFromBatch(items, items1, n1, docs[..n], hash, DocId(d, hash));
    }
  }

  /** An id that growth added belongs to one of the documents it grew by. */
  lemma NewIdFromBatch(items: map<string, Entry>, items1: map<string, Entry>, n1: nat,
                       b: seq<Document>, hash: (string, Metadata) -> string, id: string)
    requires GrowsBy(items, items1, n1, b, hash)
    ensures id in items1 && id !in items ==> exists i | 0 <= i < |b| :: DocId(b[i], hash) == id
  {
    if id in items1 && id !in items {
      var i :| 0 <= i < |b| && Pendings(b, hash)[i] == Pending(id, items1[id]);
      assert DocId(b[i], hash) == id;
    }
  }

  /** On a reliable backend, a list of documents with distinct ids ends up entirely stored. */
  lemma {:induction false} AddBatchesStoresAll(items: map<string, Entry>, docs: seq<Document>, size: int,
                                               hash: (string, Metadata) -> string, be: Backend)
    requires size > 0 && Reliable(be) && Distinct(BatchIds(docs, hash))
    ensures forall d | d in docs :: DocId(d, hash) in AddBatches(items, docs, size, hash, be).0
    decreases |docs|
  {
    if |docs| > 0 {
      var n := Min(size, |docs|);
      AddBatchesStep(items, docs, size, hash, be);
      DistinctSplit(docs, n, hash);
      var first := AddBatch(items, docs[..n], hash, be);
      ReliableBatch(items, docs[..n], hash, be);
      AddBatchStoresAll(items, docs[..n], hash, be);
      AddBatchesStoresAll(first.0, docs[n..], size, hash, be);
      var r := AddBatches(first.0, docs[n..], size, hash, be);
      IdsOfParts(docs, n, hash, r.0);
    }
  }

  /** On a reliable backend, documents with distinct ids none of which is stored yet are
      all counted as added. */
  lemma {:induction false} AddBatchesCountsAll(items: map<string, Entry>, docs: seq<Document>, size: int,
                                               hash: (string, Metadata) -> string, be: Backend)
    requires size > 0 && Reliable(be) && Distinct(BatchIds(docs, hash))
    requires forall d | d in docs :: DocId(d, hash) !in items
    ensures AddBatches(items, docs, size, hash, be).1 == |docs|
    decreases |docs|
  {
    if |docs| > 0 {
      var n := Min(size, |docs|);
      AddBatchesStep(items, docs, size, hash, be);
      DistinctSplit(docs, n, hash);
      var first := AddBatch(items, docs[..n], hash, be);
      assert forall d | d in docs[..n] :: d in docs;
      ReliableBatch(items, docs[..n], hash, be);
      AddBatchStoresAll(items, docs[..n], hash, be);
      LaterIdsUnstored(items, first.0, first.1, docs, n, hash);
      AddBatchesCountsAll(first.0, docs[n..], size, hash, be);
    }
  }

  /** A batch with distinct ids whose own calls succeed (the lookup of its ids and, when
      something is unseen, the embedding of the unseen contents) writes exactly its unseen
      documents and counts them, whatever the backend does on other inputs. So it stores
      every one of its documents, and counts all of them when none was stored before. */
  lemma AddBatchStoresAll(items: map<string, Entry>, b: seq<Document>, hash: (string, Metadata) -> string, be: Backend)
    requires Distinct(BatchIds(b, hash))
    requires be.indexAccepts(BatchIds(b, hash))
    requires var unseen := NewEntries(b, hash, items);
      |unseen| > 0 ==> GetEmbeddings(PendingContents(unseen), be.embed).Some?
    ensures var unseen := NewEntries(b, hash, items);
      && Distinct(PendingIds(unseen))
      && AddBatch(items, b, hash, be) == (Insert(items, unseen), |unseen|)
    ensures var r := AddBatch(items, b, hash, be);
      && (forall d | d in b :: DocId(d, hash) in r.0)
      && ((forall d | d in b :: DocId(d, hash) !in items) ==> r.1 == |b|)
  {
    var unseen := NewEntries(b, hash, items);
    NewEntriesDistinct(b, hash, items);
    NoRepeatsIffDistinct(PendingIds(unseen));
    InsertProperties(items, unseen);
    if |unseen| == 0 {
      assert Insert(items, unseen) == items;
    }
  }

  /** On a backend where no call fails, every batch's own calls succeed. */
  lemma ReliableBatch(items: map<string, Entry>, b: seq<Document>, hash: (string, Metadata) -> string, be: Backend)
    requires Reliable(be)
    ensures be.indexAccepts(BatchIds(b, hash))
    ensures GetEmbeddings(PendingContents(NewEntries(b, hash, items)), be.embed).Some?
  {
  }

  /** Adding the same documents twice on a reliable backend: the second call returns 0 and
      the collection keeps the size the first call gave it. */
  lemma SecondAddIsNoOp(s: Store, docs: seq<Document>, batchSize: int, hash: (string, Metadata) -> string, be: Backend)
    requires batchSize > 0 && Reliable(be) && Distinct(BatchIds(docs, hash))
    ensures var first := AddDocuments(s, docs, batchSize, hash, be);
      && first.Success?
      && AddDocuments(first.value.0, docs, batchSize, hash, be) == Success((first.value.0, 0))
      && GetCollectionStats(first.value.0).count == |s.items| + first.value.1
  {
    var first := AddDocuments(s, docs, batchSize, hash, be);
    if |docs| > 0 {
      AddBatchesStoresAll(s.items, docs, batchSize, hash, be);
    }
    ReAddIsNoOp(first.value.0, docs, batchSize, hash, be);
  }

  /** Indexing both datasets into an empty collection on a reliable backend stores every
      loaded document. */
  lemma IndexAllDatasets(name: string, qa: Option<seq<QaRow>>, statements: Option<seq<StatementRow>>,
                         hash: (string, Metadata) -> string, be: Backend)
    requires Reliable(be)
    ensures var docs := LoadAllDatasets(qa, statements);
      var r := AddDocuments(Store(name, map[]), docs, DefaultBatchSize, hash, be);
      r.Success? && r.value.1 == |docs| && GetCollectionStats(r.value.0).count == |docs|
  {
    var docs := LoadAllDatasets(qa, statements);
    LoadedIdsDistinct(qa, statements);
    assert BatchIds(docs, hash) == DocIds(docs) by {
      forall j | 0 <= j < |docs| ensures BatchIds(docs, hash)[j] == DocIds(docs)[j] {
        var k := if j < |LoadQaDataset(qa)| then j else j - |LoadQaDataset(qa)|;
        assert docs[j].docId != "" by {
          if j < |LoadQaDataset(qa)| {
            QaIdShape(qa, j);
          }
        }
      }
    }
    if |docs| > 0 {
      AddBatchesCountsAll(map[], docs, DefaultBatchSize, hash, be);
    }
  }

  // ---------------------------------------------------------------------------
  // search

  /** Row `k`'s distance: from the answer when it has a distance column, else 0. */
  function Distance(ans: QueryAnswer, k: nat): real
    requires ans.distances.Some? ==> k < |ans.distances.value|
  {
    if ans.distances.Some? then ans.distances.value[k] else 0.0
  }

  /** Row `k`'s similarity: one minus its distance. */
  function Similarity(ans: QueryAnswer, k: nat): real
    requires ans.distances.Some? ==> k < |ans.distances.value|
  {
    1.0 - Distance(ans, k)
  }

  /** Row `k` can be formatted without an index error: its distance exists, and when it
      passes the threshold, so do the metadata and id the source then reads. */
  predicate RowReadable(ans: QueryAnswer, threshold: real, k: nat)
  {
    && (ans.distances.Some? ==> k < |ans.distances.value|)
    && (Similarity(ans, k) >= threshold ==>
          && (ans.metadatas.Some? ==> k < |ans.metadatas.value|)
          && (ans.ids.Some? ==> k < |ans.ids.value|))
  }

  predicate AllRowsReadable(ans: QueryAnswer, threshold: real, i: nat)
  {
    forall k | i <= k < |ans.documents| :: RowReadable(ans, threshold, k)
  }

  predicate Passes(ans: QueryAnswer, threshold: real, k: nat)
    requires RowReadable(ans, threshold, k)
  {
    Similarity(ans, k) >= threshold
  }

  /** The result for a row that passes the threshold. */
  function RowHit(ans: QueryAnswer, threshold: real, k: nat): Hit
    requires k < |ans.documents| && RowReadable(ans, threshold, k) && Passes(ans, threshold, k)
  {
    Hit(ans.documents[k],
        if ans.metadatas.Some? then ans.metadatas.value[k] else map[],
        if ans.ids.Some? then Some(ans.ids.value[k]) else None,
        Similarity(ans, k))
  }

  /** Rows from `i` on whose similarity reaches the threshold, in the index's order. */
  ghost function Selected(ans: QueryAnswer, threshold: real, i: nat): (sel: seq<nat>)
    requires i <= |ans.documents| && AllRowsReadable(ans, threshold, i)
    ensures forall j | 0 <= j < |sel| ::
      i <= sel[j] < |ans.documents| && RowReadable(ans, threshold, sel[j]) && Passes(ans, threshold, sel[j])
    decreases |ans.documents| - i
  {
    if i == |ans.documents| then []
    else if Passes(ans, threshold, i) then [i] + Selected(ans, threshold, i + 1)
    else Selected(ans, threshold, i + 1)
  }

  /** The selected rows are increasing and leave out no row from `i` on that passes. */
  lemma SelectedExactly(ans: QueryAnswer, threshold: real, i: nat)
    requires i <= |ans.documents| && AllRowsReadable(ans, threshold, i)
    ensures Increasing(Selected(ans, threshold, i))
    ensures forall k | i <= k < |ans.documents| && Passes(ans, threshold, k) :: k in Selected(ans, threshold, i)
  {
    SelectedIncreasing(ans, threshold, i);
    SelectedComplete(ans, threshold, i);
  }

  lemma {:induction false} SelectedIncreasing(ans: QueryAnswer, threshold: real, i: nat)
    requires i <= |ans.documents| && AllRowsReadable(ans, threshold, i)
    ensures Increasing(Selected(ans, threshold, i))
    decreases |ans.documents| - i
  {
    if i < |ans.documents| {
      SelectedIncreasing(ans, threshold, i + 1);
      var sel := Selected(ans, threshold, i);
      var sel1 := Selected(ans, threshold, i + 1);
      if Passes(ans, threshold, i) {
        assert sel == [i] + sel1;
        forall j, j' | 0 <= j < j' < |sel| ensures sel[j] < sel[j'] {
          assert sel[j'] == sel1[j' - 1] >= i + 1;
          if j > 0 {
            assert sel[j] == sel1[j - 1];
          }
        }
      } else {
        assert sel == sel1;
      }
    }
  }

  lemma {:induction false} SelectedComplete(ans: QueryAnswer, threshold: real, i: nat)
    requires i <= |ans.documents| && AllRowsReadable(ans, threshold, i)
    ensures forall k | i <= k < |ans.documents| && Passes(ans, threshold, k) :: k in Selected(ans, threshold, i)
    decreases |ans.documents| - i
  {
    if i < |ans.documents| {
      SelectedComplete(ans, threshold, i + 1);
      var sel := Selected(ans, threshold, i);
      var sel1 := Selected(ans, threshold, i + 1);
      if Passes(ans, threshold, i) {
        assert sel == [i] + sel1;
        forall k | i <= k < |ans.documents| && Passes(ans, threshold, k) ensures k in sel {
          if k > i {
            assert k in sel1;
          }
        }
      }
    }
  }


  /** The formatting loop of `search` from row `i`: `None` when a row raises an index
      error, otherwise the hits of exactly the rows reaching the threshold, in order. */
  function FormatHits(ans: QueryAnswer, threshold: real, i: nat): (r: Option<seq<Hit>>)
    requires i <= |ans.documents|
    ensures r.Some? <==> AllRowsReadable(ans, threshold, i)
    ensures r.Some? ==> var sel := Selected(ans, threshold, i);
      |r.value| == |sel| && forall j | 0 <= j < |sel| :: r.value[j] == RowHit(ans, threshold, sel[j])
    decreases |ans.documents| - i
  {
    if i == |ans.documents| then Some([])
    else if !RowReadable(ans, threshold, i) then None
    else
      match FormatHits(ans, threshold, i + 1)
      case None => None
      case Some(rest) =>
        var r := if Passes(ans, threshold, i) then [RowHit(ans, threshold, i)] + rest else rest;
        FormatHitsStep(ans, threshold, i, rest);
        Some(r)
  }

  /** Formatting row `i` in front of the hits of the rows after it gives the hits of the
      rows from `i`. */
  lemma FormatHitsStep(ans: QueryAnswer, threshold: real, i: nat, rest: seq<Hit>)
    requires i < |ans.documents| && AllRowsReadable(ans, threshold, i)
    requires var sel := Selected(ans, threshold, i + 1);
      |rest| == |sel| && forall j | 0 <= j < |sel| :: rest[j] == RowHit(ans, threshold, sel[j])
    ensures var r := if Passes(ans, threshold, i) then [RowHit(ans, threshold, i)] + rest else rest;
      var sel := Selected(ans, threshold, i);
      |r| == |sel| && forall j | 0 <= j < |sel| :: r[j] == RowHit(ans, threshold, sel[j])
  {
    var sel := Selected(ans, threshold, i);
    var sel1 := Selected(ans, threshold, i + 1);
    if Passes(ans, threshold, i) {
      var r := [RowHit(ans, threshold, i)] + rest;
      assert sel == [i] + sel1;
      forall j | 0 <= j < |sel| ensures r[j] == RowHit(ans, threshold, sel[j]) {
        if j > 0 {
          assert r[j] == rest[j - 1] && sel[j] == sel1[j - 1];
        }
      }
    } else {
      assert sel == sel1;
    }
  }

  /** The embedding of the query, when the embedding call succeeds and returns one. */
  function QueryEmbedding(query: string, be: Backend): Option<Embedding>
  {
    match GetEmbeddings([query], be.embed)
    case None => None
    case Some(vs) => if |vs| == 0 then None else Some(vs[0])
  }

  /** `search`: any failure (embedding, query, or a short column) gives no results. */
  function Search(s: Store, query: string, topK: int, filter: Option<Metadata>, threshold: real, be: Backend): (r: seq<Hit>)
    ensures forall h | h in r :: h.similarity >= threshold
    ensures QueryEmbedding(query, be).None? ==> r == []
  {
    match QueryEmbedding(query, be)
    case None => []
    case Some(e) =>
      match be.query(s.items, e, topK, filter)
      case None => []
      case Some(ans) =>
        match FormatHits(ans, threshold, 0)
        case None => []
        case Some(hits) =>
          assert forall h | h in hits :: h.similarity >= threshold by {
            forall h | h in hits ensures h.similarity >= threshold {
              var j :| 0 <= j < |hits| && hits[j] == h;
            }
          }
          hits
  }

  /** When every call succeeds, the results are the index's rows whose similarity
      `1 - distance` reaches the threshold, in the index's order, and no more of them
      than the index returned. */
  lemma SearchReturnsPassingRows(s: Store, query: string, topK: int, filter: Option<Metadata>, threshold: real, be: Backend,
                                 e: Embedding, ans: QueryAnswer)
    requires QueryEmbedding(query, be) == Some(e)
    requires be.query(s.items, e, topK, filter) == Some(ans)
    requires AllRowsReadable(ans, threshold, 0)
    ensures var r := Search(s, query, topK, filter, threshold, be);
      var sel := Selected(ans, threshold, 0);
      && |r| == |sel| <= |ans.documents|
      && (forall j | 0 <= j < |r| :: r[j] == RowHit(ans, threshold, sel[j]))
      && (forall j | 0 <= j < |r| :: r[j].similarity == Similarity(ans, sel[j]) >= threshold)
  {
    SearchFormats(s, query, topK, filter, threshold, be, e, ans);
    var sel := Selected(ans, threshold, 0);
    SelectedExactly(ans, threshold, 0);
    IncreasingBounded(sel, |ans.documents|);

  }

  /** Once the embedding and the query succeed, `search` returns what the formatting loop
      gives, or nothing when that raises. */
  lemma SearchFormats(s: Store, query: string, topK: int, filter: Option<Metadata>, threshold: real, be: Backend,
                      e: Embedding, ans: QueryAnswer)
    requires QueryEmbedding(query, be) == Some(e)
    requires be.query(s.items, e, topK, filter) == Some(ans)
    ensures Search(s, query, topK, filter, threshold, be) == FormatHits(ans, threshold, 0).GetOr([])
  {
  }

  lemma {:induction false} IncreasingBounded(sel: seq<nat>, n: nat)
    requires forall j | 0 <= j < |sel| :: sel[j] < n
    requires Increasing(sel)
    ensures |sel| <= n
  {
    if |sel| > 0 {
      var last := sel[|sel| - 1];
      IncreasingBounded(sel[..|sel| - 1], last);
    }
  }

  /** A failed query, or a row the formatting loop cannot read, gives no results. */
  lemma SearchFailureIsEmpty(s: Store, query: string, topK: int, filter: Option<Metadata>, threshold: real, be: Backend, e: Embedding)
    requires QueryEmbedding(query, be) == Some(e)
    requires || be.query(s.items, e, topK, filter).None?
             || !AllRowsReadable(be.query(s.items, e, topK, filter).value, threshold, 0)
    ensures Search(s, query, topK, filter, threshold, be) == []
  {
  }

  /** The index honours `n_results` for this collection and filter. */
  ghost predicate HonoursTopK(be: Backend, items: map<string, Entry>, topK: int, filter: Option<Metadata>)
  {
    forall e: Embedding :: be.query(items, e, topK, filter).Some? ==> |be.query(items, e, topK, filter).value.documents| <= topK
  }

  /** An index that honours `n_results` yields at most `topK` results. */
  lemma SearchWithinTopK(s: Store, query: string, topK: int, filter: Option<Metadata>, threshold: real, be: Backend)
    requires HonoursTopK(be, s.items, topK, filter)
    ensures |Search(s, query, topK, filter, threshold, be)| <= Max(topK, 0)
  {
    match QueryEmbedding(query, be)
    case None =>
    case Some(e) =>
      match be.query(s.items, e, topK, filter)
      case None =>
      case Some(ans) =>
        if AllRowsReadable(ans, threshold, 0) {
          SearchReturnsPassingRows(s, query, topK, filter, threshold, be, e, ans);
        }
  }

  /** `md` satisfies an equality filter on metadata keys. */
  predicate MatchesFilter(md: Metadata, filter: Metadata)
  {
    forall key | key in filter :: key in md && md[key] == filter[key]
  }

  /** The index returns metadata for every row and honours the `where` filter. */
  ghost predicate HonoursFilter(be: Backend, items: map<string, Entry>, topK: int, filter: Metadata)
  {
    forall e: Embedding :: be.query(items, e, topK, Some(filter)).Some? ==>
      var ans := be.query(items, e, topK, Some(filter)).value;
      ans.metadatas.Some? && forall m | m in ans.metadatas.value :: MatchesFilter(m, filter)
  }

  const QaPairFilter: Metadata := map["type" := "qa_pair"]
  const StatementFilter: Metadata := map["type" := "statement"]

  /** `search_qa_pairs` (default top 3). */
  function SearchQaPairs(s: Store, query: string, topK: int, be: Backend): seq<Hit>
  {
    Search(s, query, topK, Some(QaPairFilter), 0.0, be)
  }

  /** `search_similar_statements` (default top 5). */
  function SearchSimilarStatements(s: Store, query: string, topK: int, be: Backend): seq<Hit>
  {
    Search(s, query, topK, Some(StatementFilter), 0.0, be)
  }

  /** Every result of a filtered search carries the filtered value when the index honours
      the filter. */
  lemma FilteredSearchMatches(s: Store, query: string, topK: int, filter: Metadata, be: Backend)
    requires HonoursFilter(be, s.items, topK, filter)
    ensures forall h | h in Search(s, query, topK, Some(filter), 0.0, be) :: MatchesFilter(h.metadata, filter)
  {
    match QueryEmbedding(query, be)
    case None =>
    case Some(e) =>
      match be.query(s.items, e, topK, Some(filter))
      case None =>
      case Some(ans) =>
        if AllRowsReadable(ans, 0.0, 0) {
          SearchReturnsPassingRows(s, query, topK, Some(filter), 0.0, be, e, ans);
          var r := Search(s, query, topK, Some(filter), 0.0, be);
          var sel := Selected(ans, 0.0, 0);
          forall h | h in r ensures MatchesFilter(h.metadata, filter) {
            var j :| 0 <= j < |r| && r[j] == h;
            assert RowReadable(ans, 0.0, sel[j]) && Passes(ans, 0.0, sel[j]);
            assert ans.metadatas.value[sel[j]] in ans.metadatas.value;
          }
        }
  }

  /** `search_qa_pairs` only returns QA pairs, `search_similar_statements` only statements,
      when the index honours the filter. */
  lemma TypedSearches(s: Store, query: string, topK: int, be: Backend)
    ensures HonoursFilter(be, s.items, topK, QaPairFilter) ==>
      forall h | h in SearchQaPairs(s, query, topK, be) :: "type" in h.metadata && h.metadata["type"] == "qa_pair"
    ensures HonoursFilter(be, s.items, topK, StatementFilter) ==>
      forall h | h in SearchSimilarStatements(s, query, topK, be) :: "type" in h.metadata && h.metadata["type"] == "statement"
  {
    if HonoursFilter(be, s.items, topK, QaPairFilter) {
      FilteredSearchMatches(s, query, topK, QaPairFilter, be);
    }
    if HonoursFilter(be, s.items, topK, StatementFilter) {
      FilteredSearchMatches(s, query, topK, StatementFilter, be);
    }
  }

  // ---------------------------------------------------------------------------
  // stats and clear

  /** `get_collection_stats`: the collection name and the number of stored documents. */
  function GetCollectionStats(s: Store): (r: CollectionStats)
    ensures r.name == s.name && r.count == |s.items.Keys|
  {
    CollectionStats(s.name, |s.items|)
  }

  /** `clear_collection`: drops and recreates the collection under the same name; when the
      index fails the error reaches the caller. */
  function ClearCollection(s: Store, indexOk: bool): (r: Result<Store, StoreError>)
    ensures r.Success? <==> indexOk
    ensures r.Success? ==> GetCollectionStats(r.value) == CollectionStats(s.name, 0)
    ensures r.Failure? ==> r.error == ClearFailed
  {
    if indexOk then Success(Store(s.name, map[])) else Failure(ClearFailed)
  }
}
