/** Documents, chunk rows, and ingestion attempts as steps against the database. */
module IngestionModel {
  import opened Chunker

  datatype DocId = DocId(tenant: nat, id: nat)

  datatype Status = Pending | Processing | Ready | Failed

  datatype Row = Row(doc: DocId, index: nat, content: string, tokenCount: nat, embedding: Vector)

  function RowOf(doc: DocId, c: Chunk): Row {
    Row(doc, c.index, c.content, c.tokenCount, c.embedding)
  }

  predicate SameKey(a: Row, b: Row) {
    a.doc == b.doc && a.index == b.index
  }

  predicate Taken(rows: seq<Row>, r: Row) {
    exists i :: 0 <= i < |rows| && SameKey(rows[i], r)
  }

  /** INSERT .. ON CONFLICT DO NOTHING. */
  function Inserted(rows: seq<Row>, r: Row): seq<Row> {
    if Taken(rows, r) then rows else rows + [r]
  }

  function InsertedAll(rows: seq<Row>, doc: DocId, chunks: seq<Chunk>): seq<Row> {
    if chunks == [] then rows
    else Inserted(InsertedAll(rows, doc, chunks[..|chunks| - 1]), RowOf(doc, chunks[|chunks| - 1]))
  }

  /** One step of attempt `a`; what has no effect on the database (fetching, embedding) is not a step. */
  datatype Op =
    | Start(a: nat, doc: DocId)
    | MarkProcessing(a: nat)
    | InsertNext(a: nat)
    | MarkReady(a: nat)
    | MarkFailed(a: nat)
    | Vanish(a: nat)

  /** How far an attempt has come: status set to processing, and how many chunks it has inserted. */
  datatype Attempt = Attempt(doc: DocId, marked: bool, inserted: nat)

  datatype Database = Database(status: map<DocId, Status>, rows: seq<Row>, attempts: map<nat, Attempt>)

  /** `source(d)` lists the scrubbed and embedded chunks of document `d`; empty if it cannot be ingested. */
  type Source = DocId -> seq<Chunk>

  ghost function Step(source: Source, db: Database, op: Op): Database {
    if op.Start? then
      if op.a in db.attempts || op.doc !in db.status || db.status[op.doc].Ready? then db
      else db.(attempts := db.attempts[op.a := Attempt(op.doc, false, 0)])
    else if op.a !in db.attempts then db
    else
      var t := db.attempts[op.a];
      var chunks := source(t.doc);
      match op
      case MarkProcessing(a) =>
        db.(status := db.status[t.doc := Processing], attempts := db.attempts[a := t.(marked := true)])
      case InsertNext(a) =>
        if t.marked && t.inserted < |chunks| then
          db.(rows := Inserted(db.rows, RowOf(t.doc, chunks[t.inserted])),
              attempts := db.attempts[a := t.(inserted := t.inserted + 1)])
        else db
      case MarkReady(a) =>
        if t.marked && chunks != [] && t.inserted == |chunks| then
          db.(status := db.status[t.doc := Ready], attempts := db.attempts - {a})
        else db
      case MarkFailed(a) =>
        if t.marked then db.(status := db.status[t.doc := Failed], attempts := db.attempts - {a}) else db
      case Vanish(a) =>
        db.(attempts := db.attempts - {a})
  }

  ghost function Exec(source: Source, db: Database, ops: seq<Op>): Database {
    if ops == [] then db else Step(source, Exec(source, db, ops[..|ops| - 1]), ops[|ops| - 1])
  }

  ghost predicate UniqueKeys(rows: seq<Row>) {
    forall i, j :: 0 <= i < j < |rows| ==> !SameKey(rows[i], rows[j])
  }

  /** The row holds exactly the chunk its index names. */
  ghost predicate Genuine(source: Source, r: Row) {
    r.index < |source(r.doc)| && r == RowOf(r.doc, source(r.doc)[r.index])
  }

  /** The first `n` chunks of the document have their rows. */
  ghost predicate Stored(source: Source, rows: seq<Row>, doc: DocId, n: nat) {
    n <= |source(doc)| && forall i :: 0 <= i < n ==> RowOf(doc, source(doc)[i]) in rows
  }

  ghost predicate Indexed(source: Source) {
    forall d, i :: 0 <= i < |source(d)| ==> source(d)[i].index == i
  }

  ghost predicate Sound(source: Source, db: Database) {
    && UniqueKeys(db.rows)
    && (forall i :: 0 <= i < |db.rows| ==> Genuine(source, db.rows[i]))
    && (forall a :: a in db.attempts ==>
          db.attempts[a].doc in db.status && Stored(source, db.rows, db.attempts[a].doc, db.attempts[a].inserted))
    && (forall d :: d in db.status && db.status[d].Ready? ==>
          source(d) != [] && Stored(source, db.rows, d, |source(d)|))
  }

  /** Inserting a chunk's own row leaves the table sound and the row present. */
  lemma InsertGenuine(source: Source, rows: seq<Row>, r: Row)
    requires UniqueKeys(rows) && (forall i :: 0 <= i < |rows| ==> Genuine(source, rows[i])) && Genuine(source, r)
    ensures var rows' := Inserted(rows, r);
            && UniqueKeys(rows') && (forall i :: 0 <= i < |rows'| ==> Genuine(source, rows'[i]))
            && r in rows' && (forall x :: x in rows ==> x in rows')
  {
    if Taken(rows, r) {
      var i :| 0 <= i < |rows| && SameKey(rows[i], r);
      assert Genuine(source, rows[i]);
    }
  }

  lemma InsertStepKeepsSound(source: Source, db: Database, a: nat)
    requires Indexed(source) && Sound(source, db)
    requires a in db.attempts && db.attempts[a].inserted < |source(db.attempts[a].doc)|
    ensures Sound(source, Step(source, db, InsertNext(a)))
  {
    var t := db.attempts[a];
    var r := RowOf(t.doc, source(t.doc)[t.inserted]);
    assert Genuine(source, r);
    InsertGenuine(source, db.rows, r);
  }

  lemma StepKeepsSound(source: Source, db: Database, op: Op)
    requires Indexed(source) && Sound(source, db)
    ensures Sound(source, Step(source, db, op))
  {
    if op.InsertNext? && op.a in db.attempts && db.attempts[op.a].inserted < |source(db.attempts[op.a].doc)| {
      InsertStepKeepsSound(source, db, op.a);
    }
  }

  /**
   * However many attempts run, overlap or vanish part-way: at most one row per document and index, each
   * holding that chunk's own content and embedding, and Ready only once all rows are there.
   */
  lemma {:induction false} EveryRunIsSound(source: Source, db: Database, ops: seq<Op>)
    requires Indexed(source) && Sound(source, db)
    ensures Sound(source, Exec(source, db, ops))
  {
    if ops != [] {
      EveryRunIsSound(source, db, ops[..|ops| - 1]);
      StepKeepsSound(source, Exec(source, db, ops[..|ops| - 1]), ops[|ops| - 1]);
    }
  }

  /** Documents that are registered but not yet ingested, and no rows. */
  lemma FreshIsSound(source: Source, db: Database)
    requires db.rows == [] && db.attempts == map[]
    requires forall d :: d in db.status ==> db.status[d].Pending?
    ensures Sound(source, db)
  {
  }

  lemma {:induction false} ExecAppend(source: Source, db: Database, xs: seq<Op>, ys: seq<Op>)
    ensures Exec(source, db, xs + ys) == Exec(source, Exec(source, db, xs), ys)
  {
    if ys == [] {
      assert xs + ys == xs;
    } else {
      assert (xs + ys)[..|xs + ys| - 1] == xs + ys[..|ys| - 1];
      ExecAppend(source, db, xs, ys[..|ys| - 1]);
    }
  }

  lemma {:induction false} InsertMany(source: Source, db: Database, a: nat, n: nat)
    requires a in db.attempts && db.attempts[a].marked && db.attempts[a].inserted == 0
    requires n <= |source(db.attempts[a].doc)|
    ensures var doc := db.attempts[a].doc;
            Exec(source, db, seq(n, i => InsertNext(a)))
            == Database(db.status, InsertedAll(db.rows, doc, source(doc)[..n]),
                        db.attempts[a := db.attempts[a].(inserted := n)])
  {
    var ops := seq(n, i => InsertNext(a));
    var doc := db.attempts[a].doc;
    if n == 0 {
      assert db.attempts == db.attempts[a := db.attempts[a].(inserted := 0)];
    } else {
      InsertMany(source, db, a, n - 1);
      assert ops[..n - 1] == seq(n - 1, i => InsertNext(a));
      assert source(doc)[..n][..n - 1] == source(doc)[..n - 1];
    }
  }

  /** What `n` chunks into an attempt the database holds. */
  lemma AttemptUpTo(source: Source, db: Database, a: nat, doc: DocId, n: nat)
    requires a !in db.attempts && doc in db.status && !db.status[doc].Ready?
    requires n <= |source(doc)|
    ensures Exec(source, db, [Start(a, doc), MarkProcessing(a)] + seq(n, i => InsertNext(a)))
            == Database(db.status[doc := Processing], InsertedAll(db.rows, doc, source(doc)[..n]),
                        db.attempts[a := Attempt(doc, true, n)])
  {
    var opening := [Start(a, doc), MarkProcessing(a)];
    assert opening[..1] == [Start(a, doc)] && opening[..1][..0] == [];
    assert Exec(source, db, opening[..1]) == Step(source, db, Start(a, doc));
    var db' := Exec(source, db, opening);
    assert db' == Database(db.status[doc := Processing], db.rows, db.attempts[a := Attempt(doc, true, 0)]);
    ExecAppend(source, db, opening, seq(n, i => InsertNext(a)));
    InsertMany(source, db', a, n);
  }

  /** An attempt that inserts `n` chunks and ends with `last`. */
  ghost function AttemptOps(a: nat, doc: DocId, n: nat, last: Op): seq<Op> {
    [Start(a, doc), MarkProcessing(a)] + seq(n, i => InsertNext(a)) + [last]
  }

  lemma AttemptEnds(source: Source, db: Database, a: nat, doc: DocId, n: nat, last: Op)
    requires a !in db.attempts && doc in db.status && !db.status[doc].Ready?
    requires n <= |source(doc)|
    requires last == MarkFailed(a) || last == Vanish(a) || (last == MarkReady(a) && n == |source(doc)| > 0)
    ensures Exec(source, db, AttemptOps(a, doc, n, last))
            == Database(db.status[doc := if last.MarkFailed? then Failed
                                         else if last.MarkReady? then Ready else Processing],
                        InsertedAll(db.rows, doc, source(doc)[..n]),
                        db.attempts)
  {
    var ops := AttemptOps(a, doc, n, last);
    AttemptUpTo(source, db, a, doc, n);
    assert ops[..|ops| - 1] == [Start(a, doc), MarkProcessing(a)] + seq(n, i => InsertNext(a));
    assert db.attempts[a := Attempt(doc, true, n)] - {a} == db.attempts;
  }

  /** From whatever state earlier attempts left behind, one undisturbed attempt makes the document Ready. */
  lemma CleanAttemptConverges(source: Source, db: Database, a: nat, doc: DocId)
    requires Indexed(source) && Sound(source, db)
    requires a !in db.attempts && doc in db.status && source(doc) != []
    ensures var db' := Exec(source, db, AttemptOps(a, doc, |source(doc)|, MarkReady(a)));
            && doc in db'.status && db'.status[doc].Ready?
            && Sound(source, db')
            && (forall r: Row :: r.doc == doc ==> (r in db'.rows <==> r.index < |source(doc)| && Genuine(source, r)))
            && (db.status[doc].Ready? ==> db'.rows == db.rows && db'.status == db.status)
  {
    var n := |source(doc)|;
    var ops := AttemptOps(a, doc, n, MarkReady(a));
    EveryRunIsSound(source, db, ops);
    if db.status[doc].Ready? {
      NothingToDo(source, db, ops, a, doc);
    } else {
      AttemptEnds(source, db, a, doc, n, MarkReady(a));
      assert source(doc)[..n] == source(doc);
    }
    var db' := Exec(source, db, ops);
    forall r: Row | r.doc == doc ensures r in db'.rows <==> r.index < n && Genuine(source, r) {
      if r in db'.rows {
        var i :| 0 <= i < |db'.rows| && db'.rows[i] == r;
        assert Genuine(source, db'.rows[i]);
      }
    }
  }

  /** Against a Ready document an attempt does nothing. */
  lemma {:induction false} NothingToDo(source: Source, db: Database, ops: seq<Op>, a: nat, doc: DocId)
    requires a !in db.attempts && doc in db.status && db.status[doc].Ready?
    requires forall i :: 0 <= i < |ops| ==> ops[i].a == a && (ops[i].Start? ==> ops[i].doc == doc)
    ensures Exec(source, db, ops) == db
  {
    if ops != [] {
      NothingToDo(source, db, ops[..|ops| - 1], a, doc);
    }
  }
}

/** The pipeline that carries out one attempt. */
module IngestionPipeline {
  import opened Common
  import opened Chunker
  import opened IngestionModel

  const EMBED_BATCH_SIZE := 16
  const MAX_DOCUMENT_BYTES := 100 * 1024 * 1024

  /** A chunk after scrubbing and embedding; its token count is still that of the text it was cut from. */
  function PreparedChunk(c: Chunk, scrub: string -> string, embedding: string -> Vector): Chunk {
    Chunk(scrub(c.content), c.tokenCount, c.index, embedding(scrub(c.content)))
  }

  function PreparedChunks(chunks: seq<Chunk>, scrub: string -> string, embedding: string -> Vector): seq<Chunk> {
    seq(|chunks|, i requires 0 <= i < |chunks| => PreparedChunk(chunks[i], scrub, embedding))
  }

  /**
   * How the systems around one attempt behave. A process that dies is one whose next database writes
   * all fail; `indexFailsAt` is the number of rows inserted before indexing reports an error.
   */
  datatype World = World(
    fetch: Result<string, string>,
    parse: string -> Result<string, string>,
    embedFails: nat -> bool,
    marking: Writing,
    indexFailsAt: Option<nat>,
    readying: Writing,
    failing: Writing)

  /** Fetching, parsing and chunking can end in `cut`. */
  ghost predicate Obtains(world: World, cfg: ChunkConfig, cut: seq<Chunk>) {
    && world.fetch.Ok? && |world.fetch.value| <= MAX_DOCUMENT_BYTES
    && world.parse(world.fetch.value).Ok?
    && IsChunking(world.parse(world.fetch.value).value, cfg, cut)
    && cut != []
  }

  /** Every batch of the chunks can be embedded. */
  ghost predicate Embeds(world: World, n: nat) {
    forall start: nat :: start < n && start % EMBED_BATCH_SIZE == 0 ==> !world.embedFails(start)
  }

  /** Everything before indexing succeeds. */
  ghost predicate Preparable(world: World, cfg: ChunkConfig) {
    exists cut :: Obtains(world, cfg, cut) && Embeds(world, |cut|)
  }

  ghost predicate Indexable(world: World, cfg: ChunkConfig) {
    Preparable(world, cfg) && world.indexFailsAt.None?
  }

  /** The embedder answers a batch with one vector per text, or fails. */
  function Embed(embedding: string -> Vector, fails: bool, texts: seq<string>): (r: Result<seq<Vector>, string>)
  {
    if fails then Err("embed") else Ok(seq(|texts|, i requires 0 <= i < |texts| => embedding(texts[i])))
  }

  method Scrub(chunks: array<Chunk>, scrub: string -> string)
    modifies chunks
    ensures forall i :: 0 <= i < chunks.Length ==>
              chunks[i] == old(chunks[i]).(content := scrub(old(chunks[i]).content))
  {
    for i := 0 to chunks.Length
      invariant forall k :: 0 <= k < i ==> chunks[k] == old(chunks[k]).(content := scrub(old(chunks[k]).content))
      invariant forall k :: i <= k < chunks.Length ==> chunks[k] == old(chunks[k])
    {
      chunks[i] := chunks[i].(content := scrub(chunks[i].content));
    }
  }

  method StoreVectors(chunks: array<Chunk>, start: nat, vectors: seq<Vector>)
    requires start + |vectors| <= chunks.Length
    modifies chunks
    ensures forall k :: start <= k < start + |vectors| ==>
              chunks[k] == old(chunks[k]).(embedding := vectors[k - start])
    ensures forall k :: 0 <= k < chunks.Length && !(start <= k < start + |vectors|) ==> chunks[k] == old(chunks[k])
  {
    for i := 0 to |vectors|
      invariant forall k :: start <= k < start + i ==>
                  chunks[k] == old(chunks[k]).(embedding := vectors[k - start])
      invariant forall k :: 0 <= k < chunks.Length && !(start <= k < start + i) ==> chunks[k] == old(chunks[k])
    {
      chunks[start + i] := chunks[start + i].(embedding := vectors[i]);
    }
  }

  ghost function Flat(batches: seq<seq<string>>): seq<string> {
    if batches == [] then [] else Flat(batches[..|batches| - 1]) + batches[|batches| - 1]
  }

  ghost function Contents(chunks: seq<Chunk>): seq<string> {
    seq(|chunks|, i requires 0 <= i < |chunks| => chunks[i].content)
  }

  /** Embeds the batch that starts at `start`, unless the embedder fails; `texts` is what it was given. */
  method EmbedBatch(chunks: array<Chunk>, start: nat, embedding: string -> Vector, fails: bool)
    returns (ok: bool, ghost texts: seq<string>)
    requires start < chunks.Length
    modifies chunks
    ensures ok <==> !fails
    ensures texts == Contents(old(chunks[..]))[start..Min(start + EMBED_BATCH_SIZE, chunks.Length)]
    ensures Contents(chunks[..]) == Contents(old(chunks[..]))
    ensures forall k :: 0 <= k < chunks.Length ==>
              chunks[k] == if ok && start <= k < start + EMBED_BATCH_SIZE
                           then old(chunks[k]).(embedding := embedding(old(chunks[k]).content)) else old(chunks[k])
  {
    var end := Min(start + EMBED_BATCH_SIZE, chunks.Length);
    var batch := seq(end - start, i requires 0 <= i < end - start reads chunks => chunks[start + i].content);
    texts := batch;
    var embeddings := Embed(embedding, fails, batch);
    if embeddings.Err? {
      return false, texts;
    }
    StoreVectors(chunks, start, embeddings.value);
    return true, texts;
  }

  /**
   * Embeds sixteen chunks at a time; a failed batch stops the loop. `asked` lists the batches of texts that the
   * embedder was given.
   */
  method EmbedAll(chunks: array<Chunk>, embedding: string -> Vector, fails: nat -> bool)
    returns (ok: bool, ghost asked: seq<seq<string>>)
    modifies chunks
    ensures forall b :: b in asked ==> 0 < |b| <= 16
    ensures Flat(asked) <= Contents(old(chunks[..]))
    ensures ok ==> Flat(asked) == Contents(old(chunks[..]))
    ensures ok ==> forall i :: 0 <= i < chunks.Length ==>
              chunks[i] == old(chunks[i]).(embedding := embedding(old(chunks[i]).content))
    ensures ok <==> forall start: nat :: start < chunks.Length && start % EMBED_BATCH_SIZE == 0 ==> !fails(start)
  {
    var start := 0;
    asked := [];
    ghost var contents := Contents(chunks[..]);
    while start < chunks.Length
      invariant start % EMBED_BATCH_SIZE == 0
      invariant forall b :: b in asked ==> 0 < |b| <= 16
      invariant Contents(chunks[..]) == contents && Flat(asked) == contents[..Min(start, chunks.Length)]
      invariant forall k :: 0 <= k < start && k < chunks.Length ==>
                  chunks[k] == old(chunks[k]).(embedding := embedding(old(chunks[k]).content))
      invariant forall k :: start <= k < chunks.Length ==> chunks[k] == old(chunks[k])
      invariant forall s: nat :: s < start && s % EMBED_BATCH_SIZE == 0 ==> !fails(s)
    {
      ghost var texts;
      ok, texts := EmbedBatch(chunks, start, embedding, fails(start));
      FlatExtends(asked, texts, contents, start, Min(start + EMBED_BATCH_SIZE, chunks.Length));
      asked := asked + [texts];
      if !ok {
        return false, asked;
      }
      start := start + EMBED_BATCH_SIZE;
    }
    return true, asked;
  }

  lemma FlatExtends(batches: seq<seq<string>>, texts: seq<string>, contents: seq<string>, start: nat, end: nat)
    requires start <= end <= |contents| && Flat(batches) == contents[..start] && texts == contents[start..end]
    ensures Flat(batches + [texts]) == contents[..end]
  {
    assert (batches + [texts])[..|batches|] == batches;
  }

  /** Everything up to indexing: fetch, parse, chunk, scrub, embed. */
  method Prepare(world: World, cfg: ChunkConfig, scrub: string -> string, embedding: string -> Vector)
    returns (r: Result<seq<Chunk>, string>, ghost asked: seq<seq<string>>)
    ensures r.Ok? ==> exists cut :: Obtains(world, cfg, cut) && r.value == PreparedChunks(cut, scrub, embedding)
    ensures r.Ok? <==> Preparable(world, cfg)
    // Every chunk has the vector of its own, scrubbed content, and keeps number and token count.
    ensures r.Ok? ==>
              exists cut: seq<Chunk> ::
                && Obtains(world, cfg, cut) && |cut| == |r.value|
                && (forall i :: 0 <= i < |cut| ==>
                      && r.value[i].content == scrub(cut[i].content)
                      && r.value[i].embedding == embedding(r.value[i].content)
                      && r.value[i].tokenCount == cut[i].tokenCount && r.value[i].index == cut[i].index)
    // The embedder sees scrubbed text only.
    ensures forall x :: x in Flat(asked) ==> OnlyScrubbed(world, cfg, scrub, x)
  {
    asked := [];
    if world.fetch.Err? {
      return Err(world.fetch.error), asked;
    }
    if |world.fetch.value| > MAX_DOCUMENT_BYTES {
      return Err("document exceeds maximum size"), asked;
    }
    var text := world.parse(world.fetch.value);
    if text.Err? {
      return Err(text.error), asked;
    }
    var cut := Split(text.value, cfg);
    forall other | Obtains(world, cfg, other) ensures other == cut {
      ChunkingUnique(text.value, cfg, other, cut);
    }
    if cut == [] {
      return Err("document produced no chunks after parsing"), asked;
    }
    assert Obtains(world, cfg, cut);
    var prepared;
    prepared, asked := ScrubAndEmbed(cut, scrub, embedding, world.embedFails);
    forall x | x in Flat(asked) ensures OnlyScrubbed(world, cfg, scrub, x) {
      var i :| 0 <= i < |cut| && x == scrub(cut[i].content);
    }
    return if prepared.Some? then Ok(prepared.value) else Err("embed"), asked;
  }

  /** The two steps that change the chunks in place: first all contents, then the vectors. */
  method ScrubAndEmbed(cut: seq<Chunk>, scrub: string -> string, embedding: string -> Vector, fails: nat -> bool)
    returns (r: Option<seq<Chunk>>, ghost asked: seq<seq<string>>)
    ensures r.Some? <==> forall start: nat :: start < |cut| && start % EMBED_BATCH_SIZE == 0 ==> !fails(start)
    ensures r.Some? ==> r.value == PreparedChunks(cut, scrub, embedding)
    ensures r.Some? ==>
              && |cut| == |r.value|
              && forall i :: 0 <= i < |cut| ==>
                   && r.value[i].content == scrub(cut[i].content)
                   && r.value[i].embedding == embedding(r.value[i].content)
                   && r.value[i].tokenCount == cut[i].tokenCount && r.value[i].index == cut[i].index
    ensures forall x :: x in Flat(asked) ==> exists i :: 0 <= i < |cut| && x == scrub(cut[i].content)
  {
    var chunks := new Chunk[|cut|](i requires 0 <= i < |cut| => cut[i]);
    Scrub(chunks, scrub);
    ghost var scrubbed := chunks[..];
    var ok;
    ok, asked := EmbedAll(chunks, embedding, fails);
    forall x | x in Flat(asked) ensures exists i :: 0 <= i < |cut| && x == scrub(cut[i].content) {
      var i :| 0 <= i < |Flat(asked)| && Flat(asked)[i] == x;
      assert x == Contents(scrubbed)[i] == scrub(cut[i].content);
    }
    return if ok then Some(chunks[..]) else None, asked;
  }

  /** The text is what scrubbing makes of one of the document's chunks. */
  ghost predicate OnlyScrubbed(world: World, cfg: ChunkConfig, scrub: string -> string, x: string) {
    exists cut: seq<Chunk>, i: nat :: Obtains(world, cfg, cut) && 0 <= i < |cut| && x == scrub(cut[i].content)
  }

  /** Documents of more than a hundred mebibytes are not taken. */
  lemma TooLarge(world: World, cfg: ChunkConfig)
    ensures world.fetch.Ok? && |world.fetch.value| > 104_857_600 ==> !Preparable(world, cfg)
  {
  }

  /** The chunks to index are numbered from zero, whatever the scrubber and the embedder do. */
  lemma PreparedChunksNumbered(world: World, cfg: ChunkConfig, cut: seq<Chunk>,
                               scrub: string -> string, embedding: string -> Vector, i: nat)
    requires Obtains(world, cfg, cut) && i < |cut|
    ensures PreparedChunks(cut, scrub, embedding)[i].index == i
  {
    assert cut[i] == ChunkAt(world.parse(world.fetch.value).value, Effective(cfg).size, Stride(cfg), i);
  }

  /** The database as a reader sees it between attempts. */
  ghost function Between(status: map<DocId, Status>, rows: seq<Row>): Database {
    Database(status, rows, map[])
  }

  class DocumentRepository {
    var status: map<DocId, Status>

    constructor ()
      ensures status == map[]
    {
      status := map[];
    }

    /** A taken identifier is refused; `writing` is Refused for an unknown tenant. */
    method Create(doc: DocId, initial: Status, writing: Writing) returns (ok: bool)
      modifies this
      ensures ok <==> doc !in old(status) && writing.Written?
      ensures status == if doc in old(status) || writing.Refused? then old(status) else old(status)[doc := initial]
    {
      if doc in status || writing.Refused? {
        return false;
      }
      status := status[doc := initial];
      return writing.Written?;
    }

    method GetByID(doc: DocId) returns (r: Option<Status>)
      ensures r == if doc in status then Some(status[doc]) else None
    {
      return if doc in status then Some(status[doc]) else None;
    }

    /** An unknown document is an error as well. */
    method UpdateStatus(doc: DocId, to: Status, writing: Writing) returns (ok: bool)
      modifies this
      ensures ok <==> doc in old(status) && writing.Written?
      ensures status == if doc !in old(status) || writing.Refused? then old(status) else old(status)[doc := to]
    {
      if doc !in status || writing.Refused? {
        return false;
      }
      status := status[doc := to];
      return writing.Written?;
    }
  }

  class Indexer {
    var rows: seq<Row>

    constructor ()
      ensures rows == []
    {
      rows := [];
    }

    /** Inserts the chunks in order, skipping those whose key is taken. */
    method Index(doc: DocId, chunks: seq<Chunk>, failsAt: Option<nat>) returns (ok: bool, ghost n: nat)
      modifies this
      ensures n <= |chunks| && rows == InsertedAll(old(rows), doc, chunks[..n])
      ensures ok <==> failsAt.None?
      ensures n == if failsAt.Some? then Min(failsAt.value, |chunks|) else |chunks|
    {
      n := 0;
      for i := 0 to |chunks|
        invariant n == i && rows == InsertedAll(old(rows), doc, chunks[..i])
        invariant failsAt.Some? ==> i <= failsAt.value
      {
        if failsAt == Some(i) {
          return false, n;
        }
        var r := RowOf(doc, chunks[i]);
        assert chunks[..i + 1][..i] == chunks[..i];
        if !Taken(rows, r) {
          rows := rows + [r];
        }
        n := i + 1;
      }
      return failsAt.None?, n;
    }
  }

  class Pipeline {
    const docs: DocumentRepository
    const indexer: Indexer

    constructor (docs: DocumentRepository, indexer: Indexer)
      ensures this.docs == docs && this.indexer == indexer
    {
      this.docs, this.indexer := docs, indexer;
    }

    /** Everything between the first and the last status update; `n` rows have been looked after. */
    method Process(doc: DocId, world: World, cfg: ChunkConfig, scrub: string -> string, embedding: string -> Vector,
                   ghost source: Source)
      returns (ok: bool, ghost n: nat)
      requires forall cut :: Obtains(world, cfg, cut) ==> source(doc) == PreparedChunks(cut, scrub, embedding)
      modifies indexer
      ensures n <= |source(doc)| && indexer.rows == InsertedAll(old(indexer.rows), doc, source(doc)[..n])
      ensures ok <==> Indexable(world, cfg)
      ensures ok ==> n == |source(doc)| > 0
    {
      n := 0;
      var prepared, _ := Prepare(world, cfg, scrub, embedding);
      if prepared.Err? {
        assert source(doc)[..0] == [];
        return false, 0;
      }
      ok, n := indexer.Index(doc, prepared.value, world.indexFailsAt);
    }

    /** One attempt; `ops` are the steps it amounts to. */
    method Ingest(doc: DocId, world: World, cfg: ChunkConfig, scrub: string -> string, embedding: string -> Vector,
                  ghost source: Source)
      returns (r: Result<(), string>, ghost ops: seq<Op>)
      requires forall cut :: Obtains(world, cfg, cut) ==> source(doc) == PreparedChunks(cut, scrub, embedding)
      modifies docs, indexer
      ensures Between(docs.status, indexer.rows) == Exec(source, Between(old(docs.status), old(indexer.rows)), ops)
      ensures doc in old(docs.status) && old(docs.status)[doc].Ready? ==> ops == []
      ensures docs.status == StatusAfter(old(docs.status), doc, world, cfg)
      ensures r.Ok? ==> doc in docs.status && docs.status[doc].Ready?
      // From a sound start, success means that the rows hold the scrubbed chunks with their own vectors.
      ensures r.Ok? && Indexed(source) && Sound(source, Between(old(docs.status), old(indexer.rows))) ==>
                forall cut :: Obtains(world, cfg, cut) ==> RowsHold(indexer.rows, doc, cut, scrub, embedding)
      ensures r.Ok? <==>
                && doc in old(docs.status)
                && (old(docs.status)[doc].Ready?
                    || (world.marking.Written? && Indexable(world, cfg) && world.readying.Written?))
    {
      ops := [];
      var found := docs.GetByID(doc);
      if found.None? {
        return Err("document not found"), ops;
      }
      if found.value.Ready? {
        ReadyAllHold(source, docs.status, indexer.rows, doc, world, cfg, scrub, embedding);
        return Ok(()), ops;
      }
      ghost var before := Between(docs.status, indexer.rows);
      r, ops := Reprocess(doc, world, cfg, scrub, embedding, source);
      if r.Ok? && Indexed(source) && Sound(source, before) {
        EveryRunIsSound(source, before, ops);
        ReadyAllHold(source, docs.status, indexer.rows, doc, world, cfg, scrub, embedding);
      }
    }

    /** An attempt on a document that is there and not Ready. */
    method Reprocess(doc: DocId, world: World, cfg: ChunkConfig, scrub: string -> string, embedding: string -> Vector,
                     ghost source: Source)
      returns (r: Result<(), string>, ghost ops: seq<Op>)
      requires doc in docs.status && !docs.status[doc].Ready?
      requires forall cut :: Obtains(world, cfg, cut) ==> source(doc) == PreparedChunks(cut, scrub, embedding)
      modifies docs, indexer
      ensures Between(docs.status, indexer.rows) == Exec(source, Between(old(docs.status), old(indexer.rows)), ops)
      ensures docs.status == StatusAfter(old(docs.status), doc, world, cfg)
      ensures r.Ok? <==> world.marking.Written? && Indexable(world, cfg) && world.readying.Written?
    {
      ops := [];
      ghost var status, rows := docs.status, indexer.rows;
      var marked := docs.UpdateStatus(doc, Processing, world.marking);
      if !marked {
        if world.marking.Unacknowledged? {
          ops := MarkOnly(source, status, rows, doc);
        }
        return Err("mark processing"), ops;
      }
      ghost var n;
      r, n := Complete(doc, world, cfg, scrub, embedding, source);
      ops := MarkAndComplete(source, status, rows, doc, n, world, Indexable(world, cfg));
    }

    /** What follows once the document has been marked: processing, and the final status. */
    method Complete(doc: DocId, world: World, cfg: ChunkConfig, scrub: string -> string, embedding: string -> Vector,
                    ghost source: Source)
      returns (r: Result<(), string>, ghost n: nat)
      requires doc in docs.status && docs.status[doc].Processing?
      requires forall cut :: Obtains(world, cfg, cut) ==> source(doc) == PreparedChunks(cut, scrub, embedding)
      modifies docs, indexer
      ensures n <= |source(doc)| && indexer.rows == InsertedAll(old(indexer.rows), doc, source(doc)[..n])
      ensures Indexable(world, cfg) ==> n == |source(doc)| > 0
      ensures docs.status == old(docs.status)[doc := FinalStatus(world, Indexable(world, cfg))]
      ensures r.Ok? <==> Indexable(world, cfg) && world.readying.Written?
    {
      var processed;
      processed, n := Process(doc, world, cfg, scrub, embedding, source);
      if !processed {
        var _ := docs.UpdateStatus(doc, Failed, world.failing);
        return Err("ingest"), n;
      }
      var ready := docs.UpdateStatus(doc, Ready, world.readying);
      return if ready then Ok(()) else Err("mark ready"), n;
    }

    /**
     * The job queue: registrations and attempts, of any documents, each as often as it likes, in any worlds that
     * show the same sources. The rows stay sound, and a document is Ready once any of its attempts met no failure.
     */
    method Serve(events: seq<Event>, cfg: ChunkConfig, scrub: string -> string, embedding: string -> Vector,
                 ghost source: Source)
      requires Indexed(source) && Sound(source, Between(docs.status, indexer.rows))
      requires forall e :: e in events ==> Shows(e, cfg, scrub, embedding, source)
      modifies docs, indexer
      ensures Sound(source, Between(docs.status, indexer.rows))
      ensures forall e :: e in events && Unhindered(e, cfg) && e.doc in old(docs.status) ==>
                e.doc in docs.status && docs.status[e.doc].Ready?
    {
      for i := 0 to |events|
        invariant Sound(source, Between(docs.status, indexer.rows))
        invariant old(docs.status).Keys <= docs.status.Keys
        invariant forall j :: 0 <= j < i && Unhindered(events[j], cfg) && events[j].doc in old(docs.status) ==>
                    docs.status[events[j].doc].Ready?
      {
        assert events[i] in events;
        Handle(events[i], cfg, scrub, embedding, source);
      }
    }

    method Handle(e: Event, cfg: ChunkConfig, scrub: string -> string, embedding: string -> Vector,
                  ghost source: Source)
      requires Indexed(source) && Sound(source, Between(docs.status, indexer.rows))
      requires Shows(e, cfg, scrub, embedding, source)
      modifies docs, indexer
      ensures Sound(source, Between(docs.status, indexer.rows))
      ensures old(docs.status).Keys <= docs.status.Keys
      ensures forall d :: d in old(docs.status) && old(docs.status)[d].Ready? ==> docs.status[d].Ready?
      ensures Unhindered(e, cfg) && e.doc in old(docs.status) ==> docs.status[e.doc].Ready?
    {
      match e
      case Registered(doc, writing) =>
        RegistrationIsSound(source, docs.status, indexer.rows, doc);
        var _ := docs.Create(doc, Pending, writing);
      case Attempted(doc, world) =>
        ghost var before := Between(docs.status, indexer.rows);
        var r, ops := Ingest(doc, world, cfg, scrub, embedding, source);
        EveryRunIsSound(source, before, ops);
    }
  }

  /**
   * The rows of the document are exactly one per chunk, each with the scrubbed content, the vector of that
   * content, and the token count of the chunk.
   */
  ghost predicate RowsHold(rows: seq<Row>, doc: DocId, cut: seq<Chunk>, scrub: string -> string,
                           embedding: string -> Vector)
  {
    && (forall n :: 0 <= n < |cut| ==> HasRow(rows, doc, n))
    && (forall r :: r in rows && r.doc == doc ==>
          && r.index < |cut| && r.content == scrub(cut[r.index].content)
          && r.embedding == embedding(r.content) && r.tokenCount == cut[r.index].tokenCount)
    && UniqueKeys(rows)
  }

  ghost predicate HasRow(rows: seq<Row>, doc: DocId, n: nat) {
    exists r :: r in rows && r.doc == doc && r.index == n
  }

  /** In a sound database the rows of a Ready document hold what the source holds. */
  lemma ReadyRowsHold(source: Source, status: map<DocId, Status>, rows: seq<Row>, doc: DocId, world: World,
                      cfg: ChunkConfig, cut: seq<Chunk>, scrub: string -> string, embedding: string -> Vector)
    requires Indexed(source) && Sound(source, Between(status, rows))
    requires doc in status && status[doc].Ready?
    requires Obtains(world, cfg, cut) && source(doc) == PreparedChunks(cut, scrub, embedding)
    ensures RowsHold(rows, doc, cut, scrub, embedding)
  {
    forall n | 0 <= n < |cut| ensures HasRow(rows, doc, n) {
      var r := RowOf(doc, source(doc)[n]);
      assert r in rows && r.doc == doc && r.index == n;
    }
    forall r | r in rows && r.doc == doc
      ensures r.index < |cut| && r.content == scrub(cut[r.index].content)
      ensures r.embedding == embedding(r.content) && r.tokenCount == cut[r.index].tokenCount
    {
      var i :| 0 <= i < |rows| && rows[i] == r;
      assert Genuine(source, rows[i]);
    }
  }

  lemma ReadyAllHold(source: Source, status: map<DocId, Status>, rows: seq<Row>, doc: DocId, world: World,
                     cfg: ChunkConfig, scrub: string -> string, embedding: string -> Vector)
    requires forall cut :: Obtains(world, cfg, cut) ==> source(doc) == PreparedChunks(cut, scrub, embedding)
    requires doc in status && status[doc].Ready?
    ensures Indexed(source) && Sound(source, Between(status, rows)) ==>
              forall cut :: Obtains(world, cfg, cut) ==> RowsHold(rows, doc, cut, scrub, embedding)
  {
    if Indexed(source) && Sound(source, Between(status, rows)) {
      forall cut | Obtains(world, cfg, cut) ensures RowsHold(rows, doc, cut, scrub, embedding) {
        ReadyRowsHold(source, status, rows, doc, world, cfg, cut, scrub, embedding);
      }
    }
  }

  /** The status an attempt leaves, case by case. */
  lemma StatusRules(status: map<DocId, Status>, doc: DocId, world: World, cfg: ChunkConfig)
    requires doc in status && !status[doc].Ready?
    ensures var after := StatusAfter(status, doc, world, cfg);
            && after.Keys == status.Keys && (forall d :: d in status && d != doc ==> after[d] == status[d])
            && (world.marking.Refused? ==> after[doc] == status[doc])
            && (world.marking.Written? && Indexable(world, cfg) && !world.readying.Refused? ==> after[doc] == Ready)
            && (world.marking.Written? && !Indexable(world, cfg) && !world.failing.Refused? ==> after[doc] == Failed)
            && (world.marking.Written? && Indexable(world, cfg) && world.readying.Refused? ==> after[doc] == Processing)
  {
  }

  datatype Event = Registered(doc: DocId, writing: Writing) | Attempted(doc: DocId, world: World)

  /** What an attempt gets to index, if anything, is the document's source. */
  ghost predicate Shows(e: Event, cfg: ChunkConfig, scrub: string -> string, embedding: string -> Vector,
                        source: Source)
  {
    e.Attempted? ==>
      forall cut :: Obtains(e.world, cfg, cut) ==> source(e.doc) == PreparedChunks(cut, scrub, embedding)
  }

  /** An attempt in which nothing fails. */
  ghost predicate Unhindered(e: Event, cfg: ChunkConfig) {
    e.Attempted? && e.world.marking.Written? && Indexable(e.world, cfg) && e.world.readying.Written?
  }

  lemma RegistrationIsSound(source: Source, status: map<DocId, Status>, rows: seq<Row>, doc: DocId)
    requires Sound(source, Between(status, rows))
    ensures doc !in status ==> Sound(source, Between(status[doc := Pending], rows))
  {
  }

  /** How an attempt that has been marked as processing ends. */
  ghost function LastStep(world: World, processed: bool): Op {
    if processed then (if world.readying.Refused? then Vanish(0) else MarkReady(0))
    else if world.failing.Refused? then Vanish(0) else MarkFailed(0)
  }

  /** An attempt that stops once it has been marked. */
  lemma MarkOnly(source: Source, status: map<DocId, Status>, rows: seq<Row>, doc: DocId) returns (ops: seq<Op>)
    requires doc in status && !status[doc].Ready?
    ensures Exec(source, Between(status, rows), ops) == Between(status[doc := Processing], rows)
  {
    ops := AttemptOps(0, doc, 0, Vanish(0));
    AttemptEnds(source, Between(status, rows), 0, doc, 0, Vanish(0));
    assert source(doc)[..0] == [];
  }

  lemma MarkAndComplete(source: Source, status: map<DocId, Status>, rows: seq<Row>, doc: DocId, n: nat,
                        world: World, processed: bool)
    returns (ops: seq<Op>)
    requires doc in status && !status[doc].Ready?
    requires n <= |source(doc)| && (processed ==> n == |source(doc)| > 0)
    ensures Exec(source, Between(status, rows), ops)
         == Between(status[doc := FinalStatus(world, processed)], InsertedAll(rows, doc, source(doc)[..n]))
  {
    ops := AttemptOps(0, doc, n, LastStep(world, processed));
    AttemptEnds(source, Between(status, rows), 0, doc, n, LastStep(world, processed));
  }

  ghost function FinalStatus(world: World, processed: bool): Status {
    if processed then (if world.readying.Refused? then Processing else Ready)
    else if world.failing.Refused? then Processing else Failed
  }

  /**
   * The statuses after an attempt: only the document's own changes, and a Ready one stays Ready. A lost
   * acknowledgement leaves the status written: Processing, or Ready although the attempt reports an error.
   */
  ghost function StatusAfter(status: map<DocId, Status>, doc: DocId, world: World, cfg: ChunkConfig):
    map<DocId, Status>
  {
    if doc !in status || status[doc].Ready? || world.marking.Refused? then status
    else if world.marking.Unacknowledged? then status[doc := Processing]
    else status[doc := FinalStatus(world, Indexable(world, cfg))]
  }
}
