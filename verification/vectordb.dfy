/**
 * create_vector_db.py: ingestion of the processed chunk records into the
 * vector collection.
 *
 * The directory listing and the file reads, the sentence encoder
 * (`encode`, `None` when it raises) and the store's acceptance of an
 * upsert (`accept`) are parameters. The collection's contents are a map
 * from point id to point; the collections of the store are a map from
 * name to vector parameters.
 */
module VectorDb {
  import opened Wrappers
  import opened Json
  import opened Errors
  import Text

  /** `BATCH_SIZE`. */
  const BatchSize := 32

  /** `VECTOR_DIM` of the E5-large encoder. */
  const VectorDim := 1024

  /** The E5 convention for documents. */
  const PassagePrefix := "passage: "

  // ---------------------------------------------------------------------
  // `_init_collection`.

  datatype Distance = Cosine

  /** `models.VectorParams(size=..., distance=...)`. */
  datatype VectorParams = VectorParams(size: nat, distance: Distance)

  /**
   * An existing collection is kept as it is (appended to); a missing one
   * is created with cosine distance and the given dimension.
   */
  function InitCollection(collections: map<string, VectorParams>, name: string, dim: nat): (r: map<string, VectorParams>)
    ensures r.Keys == collections.Keys + {name}
    ensures forall k :: k in collections ==> r[k] == collections[k]
    ensures name !in collections ==> r[name] == VectorParams(dim, Cosine)
  {
    if name in collections then collections else collections[name := VectorParams(dim, Cosine)]
  }

  /** Running the initialisation twice is running it once. */
  lemma InitCollectionIdempotent(collections: map<string, VectorParams>, name: string, dim: nat, dim': nat)
    ensures InitCollection(InitCollection(collections, name, dim), name, dim') == InitCollection(collections, name, dim)
  {
  }

  // ---------------------------------------------------------------------
  // `read_processed_files`.

  /**
   * One directory entry: its name and the lines the file yielded before
   * any read error (each line as iterated, newline included).
   */
  datatype DirEntry = DirEntry(name: string, lines: seq<string>)

  /**
   * The record one line contributes: none for a line that strips to the
   * empty string (one made of whitespace only), or for one that does not
   * decode.
   */
  function Parse(line: string, decode: string -> Option<Value>): (r: Option<Value>)
    ensures r.Some? ==> r == decode(line)
  {
    if Text.IsBlank(line) then None else decode(line)
  }

  /** `if not line.strip(): continue`, then the decode: a line yields a record exactly when it strips to something and decodes. */
  lemma ParseSkipsBlank(line: string, decode: string -> Option<Value>)
    ensures Parse(line, decode).Some? <==> Text.Strip(line) != "" && decode(line).Some?
  {
    Text.StripEmptyIffBlank(line);
  }

  /** The records of one file: blank lines are skipped, undecodable lines are reported and skipped. */
  function FileRecords(lines: seq<string>, decode: string -> Option<Value>): (r: seq<Value>)
    ensures |r| <= |lines|
  {
    if |lines| == 0 then []
    else
      var front := FileRecords(lines[..|lines| - 1], decode);
      match Parse(lines[|lines| - 1], decode)
      case None => front
      case Some(v) => front + [v]
  }

  predicate IsJsonl(e: DirEntry) {
    Text.EndsWith(e.name, ".jsonl")
  }

  /** The stream of records: the `.jsonl` entries in listing order, each file's records in line order. */
  function ReadProcessedFiles(entries: seq<DirEntry>, decode: string -> Option<Value>): seq<Value> {
    if |entries| == 0 then []
    else
      var front := ReadProcessedFiles(entries[..|entries| - 1], decode);
      var e := entries[|entries| - 1];
      if IsJsonl(e) then front + FileRecords(e.lines, decode) else front
  }


  /**
   * A file's records are the records of its lines, in line order: reading
   * the lines in two parts gives the records of the first part followed by
   * those of the second.
   */
  lemma {:induction false} FileRecordsAppend(a: seq<string>, b: seq<string>, decode: string -> Option<Value>)
    ensures FileRecords(a + b, decode) == FileRecords(a, decode) + FileRecords(b, decode)
    decreases |b|
  {
    if |b| == 0 {
      assert a + b == a;
    } else {
      var front := b[..|b| - 1];
      FileRecordsAppend(a, front, decode);
      assert (a + b)[..|a + b| - 1] == a + front && (a + b)[|a + b| - 1] == b[|b| - 1];
    }
  }

  /** One line yields its parsed record, or nothing. */
  lemma FileRecordsLine(line: string, decode: string -> Option<Value>)
    ensures FileRecords([line], decode) == if Parse(line, decode).Some? then [Parse(line, decode).value] else []
  {
    assert [line][..0] == [];
  }

  /** A record is among a file's records exactly when some non-blank line decodes to it. */
  lemma {:induction false} FileRecordsMembers(lines: seq<string>, decode: string -> Option<Value>, v: Value)
    ensures v in FileRecords(lines, decode) <==> exists line :: line in lines && Parse(line, decode) == Some(v)
  {
    if |lines| > 0 {
      var front := lines[..|lines| - 1];
      var last := lines[|lines| - 1];
      FileRecordsMembers(front, decode, v);
      assert lines == front + [last];
    }
  }

  /**
   * A record is in the stream exactly when some non-blank line of some
   * `.jsonl` file decodes to it.
   */
  lemma {:induction false} ReadProcessedFilesMembers(entries: seq<DirEntry>, decode: string -> Option<Value>, v: Value)
    ensures v in ReadProcessedFiles(entries, decode)
      <==> exists e, line :: e in entries && IsJsonl(e) && line in e.lines && Parse(line, decode) == Some(v)
  {
    if |entries| > 0 {
      var front := entries[..|entries| - 1];
      var last := entries[|entries| - 1];
      ReadProcessedFilesMembers(front, decode, v);
      FileRecordsMembers(last.lines, decode, v);
      assert entries == front + [last];
    }
  }

  /** Files are read one after the other: the stream of two listings is the two streams in turn. */
  lemma {:induction false} ReadProcessedFilesAppend(a: seq<DirEntry>, b: seq<DirEntry>, decode: string -> Option<Value>)
    ensures ReadProcessedFiles(a + b, decode) == ReadProcessedFiles(a, decode) + ReadProcessedFiles(b, decode)
  {
    if |b| > 0 {
      ReadProcessedFilesAppend(a, b[..|b| - 1], decode);
      assert (a + b)[..|a + b| - 1] == a + b[..|b| - 1];
    } else {
      assert a + b == a;
    }
  }

  // ---------------------------------------------------------------------
  // Records, points and the collection.

  /** `v[key]` on a decoded JSON value. */
  function Subscript(v: Value, key: string): (r: Result<Value, PyError>)
    ensures r.Ok? <==> v.Object? && Get(v.fields, key).Some?
    ensures r.Ok? ==> r.value == Get(v.fields, key).value
    ensures r.Err? ==> r.error == if v.Object? then KeyError else TypeError
  {
    match v
    case Object(fs) => if Get(fs, key).Some? then Ok(Get(fs, key).value) else Err(KeyError)
    case _ => Err(TypeError)
  }

  /**
   * `f"passage: {doc['vector_text']}"`. A record that is not a dictionary,
   * or has no `vector_text`, raises; nothing in the loop catches it.
   */
  function PassageText(doc: Value): (r: Result<string, PyError>)
    ensures r.Ok? <==> Subscript(doc, "vector_text").Ok?
    ensures r.Err? ==> r.error == Subscript(doc, "vector_text").error
    ensures r.Ok? ==> (&& |r.value| >= |PassagePrefix|
                       && r.value[..|PassagePrefix|] == PassagePrefix
                       && r.value[|PassagePrefix|..] == Display(Subscript(doc, "vector_text").value))
  {
    var v :- Subscript(doc, "vector_text");
    Ok(PassagePrefix + Display(v))
  }

  /** `models.PointStruct(id=..., vector=..., payload=...)`. */
  datatype Point<V> = Point(id: Value, vector: V, payload: Value)

  /** The collection's contents, by point id. */
  type Store<V> = map<Value, Point<V>>

  /**
   * The points of a batch: `doc["id"]`, `embeddings[i]` and
   * `doc["payload"]`, in that order, for each record in turn.
   */
  function BuildPoints<V>(docs: seq<Value>, embs: seq<V>): (r: Result<seq<Point<V>>, PyError>)
    ensures r.Ok? <==> (&& |docs| <= |embs|
                        && forall i :: 0 <= i < |docs| ==> Subscript(docs[i], "id").Ok? && Subscript(docs[i], "payload").Ok?)
    ensures r.Ok? ==> |r.value| == |docs|
    decreases |docs|
  {
    if |docs| == 0 then Ok([])
    else
      var id :- Subscript(docs[0], "id");
      if |embs| == 0 then Err(IndexError)
      else
        var payload :- Subscript(docs[0], "payload");
        var rest :- BuildPoints(docs[1..], embs[1..]);
        assert forall i :: 1 <= i < |docs| ==> docs[i] == docs[1..][i - 1];
        Ok([Point(id, embs[0], payload)] + rest)
  }

  /** Point `i` is built from record `i` and embedding `i`. */
  ghost predicate BuiltFrom<V>(ps: seq<Point<V>>, docs: seq<Value>, embs: seq<V>)
    requires |docs| <= |embs|
    requires forall i :: 0 <= i < |docs| ==> Subscript(docs[i], "id").Ok? && Subscript(docs[i], "payload").Ok?
  {
    && |ps| == |docs|
    && forall i :: 0 <= i < |docs| ==>
         ps[i] == Point(Subscript(docs[i], "id").value, embs[i], Subscript(docs[i], "payload").value)
  }

  lemma {:induction false} BuildPointsContents<V>(docs: seq<Value>, embs: seq<V>)
    requires BuildPoints(docs, embs).Ok?
    ensures BuiltFrom(BuildPoints(docs, embs).value, docs, embs)
  {
    if |docs| > 0 {
      BuildPointsContents(docs[1..], embs[1..]);
      var ps := BuildPoints(docs, embs).value;
      forall i | 1 <= i < |docs|
        ensures ps[i] == Point(Subscript(docs[i], "id").value, embs[i], Subscript(docs[i], "payload").value)
      {
        assert docs[1..][i - 1] == docs[i];
        assert embs[1..][i - 1] == embs[i];
      }
    }
  }

  function Ids<V>(points: seq<Point<V>>): set<Value> {
    set i | 0 <= i < |points| :: points[i].id
  }

  /** `client.upsert`: points are written in order, a later point replacing an earlier one with its id. */
  function Upsert<V>(store: Store<V>, points: seq<Point<V>>): (r: Store<V>)
    ensures r.Keys == store.Keys + Ids(points)
    decreases |points|
  {
    if |points| == 0 then store
    else
      var front := points[..|points| - 1];
      var p := points[|points| - 1];
      assert Ids(points) == Ids(front) + {p.id} by {
        assert forall i :: 0 <= i < |front| ==> front[i] == points[i];
      }
      Upsert(store, front)[p.id := p]
  }

  /** Ids no point of the batch carries are left as they were. */
  lemma {:induction false} UpsertOther<V>(store: Store<V>, points: seq<Point<V>>, k: Value)
    requires forall i :: 0 <= i < |points| ==> points[i].id != k
    ensures k in Upsert(store, points) <==> k in store
    ensures k in store ==> Upsert(store, points)[k] == store[k]
  {
    if |points| > 0 {
      var front := points[..|points| - 1];
      assert forall i :: 0 <= i < |front| ==> front[i] == points[i];
      UpsertOther(store, front, k);
    }
  }

  /** Point `i` of an upsert is found under its id, unless a later point with that id replaced it. */
  lemma {:induction false} UpsertStores<V>(store: Store<V>, points: seq<Point<V>>, i: nat)
    requires i < |points|
    ensures points[i].id in Upsert(store, points)
    ensures exists j :: i <= j < |points| && Upsert(store, points)[points[i].id] == points[j]
  {
    var front := points[..|points| - 1];
    var p := points[|points| - 1];
    var k := points[i].id;
    if i < |points| - 1 && p.id != k {
      assert front[i] == points[i];
      UpsertStores(store, front, i);
      var j :| i <= j < |front| && Upsert(store, front)[k] == front[j];
      assert points[j] == front[j];
    } else {
      assert Upsert(store, points)[k] == p;
    }
  }

  /** The point an upsert stores for a repeated id is the batch's last one with it. */
  lemma {:induction false} UpsertLastWins<V>(store: Store<V>, points: seq<Point<V>>, i: nat)
    requires i < |points|
    requires forall j :: i < j < |points| ==> points[j].id != points[i].id
    ensures Upsert(store, points)[points[i].id] == points[i]
  {
    if i < |points| - 1 {
      var front := points[..|points| - 1];
      assert front[i] == points[i];
      assert forall j :: i < j < |front| ==> front[j] == points[j];
      UpsertLastWins(store, front, i);
      UpsertStores(store, front, i);
    }
  }

  /** A batch of records with their prepared texts. */
  type Batch = seq<(Value, string)>

  function Docs(batch: Batch): (r: seq<Value>)
    ensures |r| == |batch| && forall i :: 0 <= i < |r| ==> r[i] == batch[i].0
  {
    seq(|batch|, i requires 0 <= i < |batch| => batch[i].0)
  }

  function Texts(batch: Batch): (r: seq<string>)
    ensures |r| == |batch| && forall i :: 0 <= i < |r| ==> r[i] == batch[i].1
  {
    seq(|batch|, i requires 0 <= i < |batch| => batch[i].1)
  }

  /**
   * `_process_batch`: encode the texts, build the points, upsert them.
   * Any failure on the way is reported and the batch is dropped; the
   * collection is then unchanged.
   */
  function ProcessBatch<V>(store: Store<V>, batch: Batch,
                           encode: seq<string> -> Option<seq<V>>, accept: seq<Point<V>> -> bool): (r: Store<V>)
    ensures store.Keys <= r.Keys
  {
    var embs := encode(Texts(batch));
    if embs.None? then store
    else
      var points := BuildPoints(Docs(batch), embs.value);
      if points.Err? || !accept(points.value) then store
      else Upsert(store, points.value)
  }

  /**
   * A batch touches nothing but the ids of its own records: every other
   * point keeps its value, and no id appears from elsewhere.
   */
  lemma ProcessBatchFrame<V>(store: Store<V>, batch: Batch,
                             encode: seq<string> -> Option<seq<V>>, accept: seq<Point<V>> -> bool, k: Value)
    ensures var r := ProcessBatch(store, batch, encode, accept);
      && (k in r ==> k in store || exists i :: 0 <= i < |batch| && Subscript(batch[i].0, "id") == Ok(k))
      && (k in store && (forall i :: 0 <= i < |batch| ==> Subscript(batch[i].0, "id") != Ok(k)) ==> r[k] == store[k])
  {
    var embs := encode(Texts(batch));
    if embs.Some? {
      var docs := Docs(batch);
      var points := BuildPoints(docs, embs.value);
      if points.Ok? && accept(points.value) {
        BuildPointsContents(docs, embs.value);
        UpsertFrame(store, batch, embs.value, points.value, k);
      }
    }
  }

  /** Upserting the points built from a batch touches only the batch's ids. */
  lemma UpsertFrame<V>(store: Store<V>, batch: Batch, embs: seq<V>, points: seq<Point<V>>, k: Value)
    requires |batch| <= |embs|
    requires forall i :: 0 <= i < |batch| ==> Subscript(Docs(batch)[i], "id").Ok? && Subscript(Docs(batch)[i], "payload").Ok?
    requires BuiltFrom(points, Docs(batch), embs)
    ensures var r := Upsert(store, points);
      && (k in r ==> k in store || exists i :: 0 <= i < |batch| && Subscript(batch[i].0, "id") == Ok(k))
      && (k in store && (forall i :: 0 <= i < |batch| ==> Subscript(batch[i].0, "id") != Ok(k)) ==> r[k] == store[k])
  {
    if k in Ids(points) {
      var i :| 0 <= i < |points| && points[i].id == k;
      assert Subscript(batch[i].0, "id") == Ok(k);
    } else {
      UpsertOther(store, points, k);
    }
  }

  /**
   * A batch that encodes, builds and is accepted makes every record
   * retrievable by its id, holding its embedding and payload (a later
   * record of the batch wins when ids repeat).
   */
  lemma ProcessBatchStores<V>(store: Store<V>, batch: Batch, embs: seq<V>,
                              encode: seq<string> -> Option<seq<V>>, accept: seq<Point<V>> -> bool, i: nat)
    requires i < |batch|
    requires encode(Texts(batch)) == Some(embs)
    requires BuildPoints(Docs(batch), embs).Ok? && accept(BuildPoints(Docs(batch), embs).value)
    ensures Subscript(batch[i].0, "id").Ok?
    ensures var r := ProcessBatch(store, batch, encode, accept);
      var k := Subscript(batch[i].0, "id").value;
      && k in r
      && exists j :: i <= j < |batch| && r[k] == Point(Subscript(batch[j].0, "id").value, embs[j], Subscript(batch[j].0, "payload").value)
  {
    var docs := Docs(batch);
    var points := BuildPoints(docs, embs).value;
    BuildPointsContents(docs, embs);
    UpsertStores(store, points, i);
    assert points[i].id == Subscript(batch[i].0, "id").value;
  }

  // ---------------------------------------------------------------------
  // `embed_and_upsert`: the reference, batch by batch.

  /** Where the last batch of a stream of `n` records starts. */
  function LastStart(n: nat): (m: nat)
    requires 0 < n
    ensures m % BatchSize == 0 && m < n <= m + BatchSize
  {
    if n <= BatchSize then 0 else BatchSize + LastStart(n - BatchSize)
  }

  /** The last batch starts at the one multiple of `BATCH_SIZE` in `[n - BATCH_SIZE, n)`. */
  lemma {:induction false} LastStartUnique(n: nat, m: nat)
    requires m % BatchSize == 0 && m < n <= m + BatchSize
    ensures LastStart(n) == m
  {
    if n > BatchSize {
      LastStartUnique(n - BatchSize, m - BatchSize);
    }
  }

  /** The stream cut into consecutive batches of `BATCH_SIZE`, the last one possibly shorter. */
  function Batches<T>(s: seq<T>): seq<seq<T>>
    decreases |s|
  {
    if |s| == 0 then []
    else
      var m := LastStart(|s|);
      Batches(s[..m]) + [s[m..]]
  }

  function Flat<T>(ss: seq<seq<T>>): seq<T> {
    if |ss| == 0 then [] else Flat(ss[..|ss| - 1]) + ss[|ss| - 1]
  }

  /** A stream whose length is past a whole number of batches ends in one more batch. */
  lemma BatchesSnoc<T>(s: seq<T>, m: nat)
    requires m % BatchSize == 0 && m < |s| <= m + BatchSize
    ensures Batches(s) == Batches(s[..m]) + [s[m..]]
  {
    LastStartUnique(|s|, m);
  }

  /** None of the batches is empty or larger than `BATCH_SIZE`, and all but the last are full. */
  predicate WellCut<T>(bs: seq<seq<T>>) {
    && (forall i :: 0 <= i < |bs| ==> 0 < |bs[i]| <= BatchSize)
    && (forall i :: 0 <= i < |bs| - 1 ==> |bs[i]| == BatchSize)
  }

  predicate AllFull<T>(bs: seq<seq<T>>) {
    forall i :: 0 <= i < |bs| ==> |bs[i]| == BatchSize
  }

  /**
   * The batches put back together give the stream; they are cut well, and
   * a stream of a whole number of batches has only full ones.
   */
  lemma BatchesShape<T>(s: seq<T>)
    ensures Flat(Batches(s)) == s
    ensures WellCut(Batches(s))
    ensures |s| % BatchSize == 0 ==> AllFull(Batches(s))
  {
    BatchesFlat(s);
    BatchesCut(s);
  }

  lemma {:induction false} BatchesFlat<T>(s: seq<T>)
    ensures Flat(Batches(s)) == s
  {
    if |s| > 0 {
      var m := LastStart(|s|);
      BatchesFlat(s[..m]);
      var bs := Batches(s);
      assert bs[..|bs| - 1] == Batches(s[..m]);
      assert s == s[..m] + s[m..];
    }
  }

  lemma {:induction false} BatchesCut<T>(s: seq<T>)
    ensures WellCut(Batches(s))
    ensures |s| % BatchSize == 0 ==> AllFull(Batches(s))
  {
    if |s| > 0 {
      var m := LastStart(|s|);
      assert |s[..m]| % BatchSize == 0;
      BatchesCut(s[..m]);
      var last := s[m..];
      CutSnoc(Batches(s[..m]), last);
      if |s| % BatchSize == 0 {
        LastStartUnique(|s|, |s| - BatchSize);
        FullSnoc(Batches(s[..m]), last);
      }
    }
  }

  /** Full batches followed by one more of at most `BATCH_SIZE` are cut well. */
  lemma CutSnoc<T>(front: seq<seq<T>>, last: seq<T>)
    requires AllFull(front) && 0 < |last| <= BatchSize
    ensures WellCut(front + [last])
  {
  }

  lemma FullSnoc<T>(front: seq<seq<T>>, last: seq<T>)
    requires AllFull(front) && |last| == BatchSize
    ensures AllFull(front + [last])
  {
  }

  /** Every record can be prepared. */
  predicate AllPrepared(docs: seq<Value>) {
    forall j :: 0 <= j < |docs| ==> PassageText(docs[j]).Ok?
  }

  /** A record with its passage text (only ever used on records that have one). */
  function Prepared(doc: Value): (Value, string) {
    (doc, match PassageText(doc) case Ok(t) => t case Err(_) => "")
  }

  function Prepare(docs: seq<Value>): (r: Batch)
    ensures |r| == |docs|
    ensures forall j :: 0 <= j < |r| ==> r[j] == Prepared(docs[j])
  {
    seq(|docs|, j requires 0 <= j < |docs| => Prepared(docs[j]))
  }

  lemma PrepareSplit(docs: seq<Value>, a: nat, b: nat)
    requires a <= b <= |docs|
    ensures Prepare(docs[..b]) == Prepare(docs[..a]) + Prepare(docs[a..b])
  {
    assert forall j :: 0 <= j < a ==> docs[..a][j] == docs[..b][j];
    assert forall j :: 0 <= j < b - a ==> docs[a..b][j] == docs[..b][a + j];
  }

  /** Position of the first record `embed_and_upsert` cannot prepare, or the stream's length. */
  function FirstBad(stream: seq<Value>): (n: nat)
    ensures n <= |stream|
    ensures forall j :: 0 <= j < n ==> PassageText(stream[j]).Ok?
    ensures n < |stream| ==> PassageText(stream[n]).Err?
  {
    if |stream| == 0 then 0
    else if PassageText(stream[0]).Err? then 0
    else
      var rest := stream[1..];
      var n := FirstBad(rest);
      assert forall j :: 1 <= j <= n ==> PassageText(stream[j]).Ok? by {
        forall j | 1 <= j <= n ensures PassageText(stream[j]).Ok? {
          assert stream[j] == rest[j - 1];
        }
      }
      assert 1 + n < |stream| ==> stream[1 + n] == rest[n];
      1 + n
  }

  /** A whole number of batches leaves no remainder. */
  lemma {:induction false} WholeBatches(k: nat)
    ensures (BatchSize * k) % BatchSize == 0
  {
    if k > 0 {
      WholeBatches(k - 1);
      assert BatchSize * k == BatchSize * (k - 1) + BatchSize;
    }
  }

  /** The records of the full batches among the first `n`. */
  function FullPart(n: nat): (m: nat)
    ensures m % BatchSize == 0 && m <= n < m + BatchSize
  {
    if n < BatchSize then 0 else BatchSize + FullPart(n - BatchSize)
  }

  lemma {:induction false} FullPartUnique(n: nat, m: nat)
    requires m % BatchSize == 0 && m <= n < m + BatchSize
    ensures FullPart(n) == m
  {
    if n >= BatchSize {
      FullPartUnique(n - BatchSize, m - BatchSize);
    }
  }

  /** Every batch in turn. */
  function ProcessAll<V>(store: Store<V>, bs: seq<Batch>,
                         encode: seq<string> -> Option<seq<V>>, accept: seq<Point<V>> -> bool): (r: Store<V>)
    ensures store.Keys <= r.Keys
  {
    if |bs| == 0 then store
    else ProcessBatch(ProcessAll(store, bs[..|bs| - 1], encode, accept), bs[|bs| - 1], encode, accept)
  }

  /** What one run leaves behind: the collection, the `count` it reports, and the exception it ended with. */
  datatype Outcome<V> = Outcome(store: Store<V>, count: nat, error: Option<PyError>)

  /**
   * The run, described batch-wise: without a bad record, every batch of
   * the stream is processed and `count` is the stream's length. A bad
   * record aborts the run: the full batches before it have been processed,
   * the partial batch it would have joined is lost.
   */
  function Ingest<V>(stream: seq<Value>, store: Store<V>,
                     encode: seq<string> -> Option<seq<V>>, accept: seq<Point<V>> -> bool): Outcome<V>
  {
    var n := FirstBad(stream);
    var m := if n == |stream| then n else FullPart(n);
    Outcome(ProcessAll(store, Batches(Prepare(stream[..m])), encode, accept), m,
            if n == |stream| then None else Some(PassageText(stream[n]).error))
  }

  /** The loop's state between records: the collection, the pending batch, the running `count`. */
  datatype Pending<V> = Pending(st: Store<V>, batch: Batch, count: nat)

  /**
   * One record of the loop: a record without `vector_text` raises; a good
   * one joins the batch, which is processed and emptied once it holds
   * `BATCH_SIZE` records.
   */
  function Feed<V>(p: Pending<V>, doc: Value,
                   encode: seq<string> -> Option<seq<V>>, accept: seq<Point<V>> -> bool): Result<Pending<V>, PyError>
  {
    var text :- PassageText(doc);
    var b := p.batch + [(doc, text)];
    if |b| >= BatchSize then Ok(Pending(ProcessBatch(p.st, b, encode, accept), [], p.count + |b|))
    else Ok(Pending(p.st, b, p.count))
  }

  /** After the loop: a non-empty last batch is processed. */
  function Finish<V>(p: Pending<V>, encode: seq<string> -> Option<seq<V>>, accept: seq<Point<V>> -> bool): Outcome<V> {
    Outcome(if 0 < |p.batch| then ProcessBatch(p.st, p.batch, encode, accept) else p.st, p.count + |p.batch|, None)
  }

  /** The rest of a run, record by record as `embed_and_upsert` streams them. */
  function Resume<V>(p: Pending<V>, rest: seq<Value>,
                     encode: seq<string> -> Option<seq<V>>, accept: seq<Point<V>> -> bool): Outcome<V>
    decreases |rest|
  {
    if |rest| == 0 then Finish(p, encode, accept)
    else
      match Feed(p, rest[0], encode, accept)
      case Err(e) => Outcome(p.st, p.count, Some(e))
      case Ok(q) => Resume(q, rest[1..], encode, accept)
  }

  /**
   * The loop state the batch-wise description has after `i` records
   * without a bad one: `full` batches processed, the rest pending.
   */
  ghost predicate Reached<V>(stream: seq<Value>, store: Store<V>,
                             encode: seq<string> -> Option<seq<V>>, accept: seq<Point<V>> -> bool,
                             p: Pending<V>, full: nat, i: nat)
  {
    && p.count == BatchSize * full && p.count <= i <= |stream| && i - p.count < BatchSize
    && i <= FirstBad(stream)
    && p.st == ProcessAll(store, Batches(Prepare(stream[..p.count])), encode, accept)
    && p.batch == Prepare(stream[p.count..i])
  }

  /** Processing the next batch of the stream extends the processed prefix. */
  lemma FlushStep<V>(stream: seq<Value>, store: Store<V>,
                     encode: seq<string> -> Option<seq<V>>, accept: seq<Point<V>> -> bool,
                     st: Store<V>, count: nat, full: nat, i: nat)
    requires count == BatchSize * full && count < i <= count + BatchSize && i <= |stream|
    requires st == ProcessAll(store, Batches(Prepare(stream[..count])), encode, accept)
    ensures ProcessBatch(st, Prepare(stream[count..i]), encode, accept) == ProcessAll(store, Batches(Prepare(stream[..i])), encode, accept)
  {
    PrepareSplit(stream, count, i);
    var p := Prepare(stream[..i]);
    WholeBatches(full);
    BatchesSnoc(p, count);
    assert p[..count] == Prepare(stream[..count]);
    assert p[count..] == Prepare(stream[count..i]);
    var bs := Batches(p);
    assert bs[..|bs| - 1] == Batches(Prepare(stream[..count]));
  }

  /** A good record at the scan position moves the first bad record further on. */
  lemma GoodStep(stream: seq<Value>, i: nat)
    requires i < |stream|
    requires i <= FirstBad(stream) && PassageText(stream[i]).Ok?
    ensures i < FirstBad(stream)
  {
    if FirstBad(stream) == i {
      assert false;
    }
  }

  /** One more good record joins the current batch. */
  lemma GrowStep(stream: seq<Value>, count: nat, i: nat)
    requires count <= i < |stream|
    requires PassageText(stream[i]).Ok?
    ensures Prepare(stream[count..i]) + [(stream[i], PassageText(stream[i]).value)] == Prepare(stream[count..i + 1])
  {
    assert stream[count..i + 1] == stream[count..i] + [stream[i]];
  }

  /** A good record that does not fill the batch is only added to it. */
  lemma AdvanceKeep<V>(stream: seq<Value>, store: Store<V>,
                       encode: seq<string> -> Option<seq<V>>, accept: seq<Point<V>> -> bool,
                       p: Pending<V>, full: nat, i: nat)
    requires Reached(stream, store, encode, accept, p, full, i) && i < |stream|
    requires PassageText(stream[i]).Ok? && i + 1 - p.count < BatchSize
    ensures Reached(stream, store, encode, accept,
                    Pending(p.st, p.batch + [(stream[i], PassageText(stream[i]).value)], p.count), full, i + 1)
  {
    GoodStep(stream, i);
    GrowStep(stream, p.count, i);
  }

  /** A good record that fills the batch has it processed: one more full batch is done. */
  lemma AdvanceFlush<V>(stream: seq<Value>, store: Store<V>,
                        encode: seq<string> -> Option<seq<V>>, accept: seq<Point<V>> -> bool,
                        p: Pending<V>, full: nat, i: nat)
    requires Reached(stream, store, encode, accept, p, full, i) && i < |stream|
    requires PassageText(stream[i]).Ok? && i + 1 - p.count == BatchSize
    ensures Reached(stream, store, encode, accept,
                    Pending(ProcessBatch(p.st, p.batch + [(stream[i], PassageText(stream[i]).value)], encode, accept), [], i + 1),
                    full + 1, i + 1)
  {
    GoodStep(stream, i);
    GrowStep(stream, p.count, i);
    FlushStep(stream, store, encode, accept, p.st, p.count, full, i + 1);
    assert stream[i + 1..i + 1] == [];
  }

  /** A good record takes the loop to the state the description has one record later. */
  lemma AdvanceStep<V>(stream: seq<Value>, store: Store<V>,
                       encode: seq<string> -> Option<seq<V>>, accept: seq<Point<V>> -> bool,
                       p: Pending<V>, full: nat, i: nat)
    requires Reached(stream, store, encode, accept, p, full, i) && i < |stream|
    requires PassageText(stream[i]).Ok?
    ensures Feed(p, stream[i], encode, accept).Ok?
    ensures var q := Feed(p, stream[i], encode, accept).value;
      Reached(stream, store, encode, accept, q, if q.batch == [] then full + 1 else full, i + 1)
  {
    var b := p.batch + [(stream[i], PassageText(stream[i]).value)];
    assert |b| == i + 1 - p.count;
    if |b| >= BatchSize {
      AdvanceFlush(stream, store, encode, accept, p, full, i);
    } else {
      AdvanceKeep(stream, store, encode, accept, p, full, i);
    }
  }

  /** A bad record at `i`, inside the batch that starts at `count`, ends the run there. */
  lemma AbortStep<V>(stream: seq<Value>, store: Store<V>,
                     encode: seq<string> -> Option<seq<V>>, accept: seq<Point<V>> -> bool,
                     p: Pending<V>, full: nat, i: nat)
    requires Reached(stream, store, encode, accept, p, full, i) && i < |stream|
    requires PassageText(stream[i]).Err?
    ensures Ingest(stream, store, encode, accept) == Outcome(p.st, p.count, Some(PassageText(stream[i]).error))
  {
    assert FirstBad(stream) == i;
    WholeBatches(full);
    FullPartUnique(i, p.count);
  }

  /** A stream without bad records is processed to the end, its last batch flushed after the loop. */
  lemma CompleteStep<V>(stream: seq<Value>, store: Store<V>,
                        encode: seq<string> -> Option<seq<V>>, accept: seq<Point<V>> -> bool,
                        p: Pending<V>, full: nat)
    requires Reached(stream, store, encode, accept, p, full, |stream|)
    ensures Ingest(stream, store, encode, accept) == Finish(p, encode, accept)
  {
    IngestClean(stream, store, encode, accept);
    FinishClean(stream, store, encode, accept, p, full);
  }

  /** After the last record, the pending batch is the stream's last batch. */
  lemma FinishClean<V>(stream: seq<Value>, store: Store<V>,
                       encode: seq<string> -> Option<seq<V>>, accept: seq<Point<V>> -> bool,
                       p: Pending<V>, full: nat)
    requires p.count == BatchSize * full && p.count <= |stream| < p.count + BatchSize
    requires p.st == ProcessAll(store, Batches(Prepare(stream[..p.count])), encode, accept)
    requires p.batch == Prepare(stream[p.count..|stream|])
    ensures Finish(p, encode, accept)
         == Outcome(ProcessAll(store, Batches(Prepare(stream[..|stream|])), encode, accept), |stream|, None)
  {
    if p.count < |stream| {
      FlushStep(stream, store, encode, accept, p.st, p.count, full, |stream|);
    } else {
      assert stream[..p.count] == stream[..|stream|];
    }
  }

  /** Without a bad record, every batch of the whole stream is processed. */
  lemma IngestClean<V>(stream: seq<Value>, store: Store<V>,
                       encode: seq<string> -> Option<seq<V>>, accept: seq<Point<V>> -> bool)
    requires FirstBad(stream) == |stream|
    ensures Ingest(stream, store, encode, accept)
         == Outcome(ProcessAll(store, Batches(Prepare(stream[..|stream|])), encode, accept), |stream|, None)
  {
  }

  /**
   * From any point of the stream that the batch-wise description reaches
   * (full batches processed, the partial batch pending, no bad record
   * passed), the record-by-record run ends where the description says.
   */
  lemma {:induction false} ResumeIsIngest<V>(stream: seq<Value>, store: Store<V>,
                                             encode: seq<string> -> Option<seq<V>>, accept: seq<Point<V>> -> bool,
                                             p: Pending<V>, full: nat, i: nat)
    requires Reached(stream, store, encode, accept, p, full, i)
    ensures Resume(p, stream[i..], encode, accept) == Ingest(stream, store, encode, accept)
    decreases |stream| - i
  {
    var rest := stream[i..];
    if i == |stream| {
      assert |rest| == 0;
      CompleteStep(stream, store, encode, accept, p, full);
    } else {
      assert rest[0] == stream[i] && rest[1..] == stream[i + 1..];
      if PassageText(stream[i]).Err? {
        AbortStep(stream, store, encode, accept, p, full, i);
      } else {
        AdvanceStep(stream, store, encode, accept, p, full, i);
        var q := Feed(p, stream[i], encode, accept).value;
        ResumeIsIngest(stream, store, encode, accept, q, if q.batch == [] then full + 1 else full, i + 1);
      }
    }
  }

  /** A run from the start of the stream ends where the batch-wise description says. */
  lemma ResumeFromStart<V>(stream: seq<Value>, store: Store<V>,
                           encode: seq<string> -> Option<seq<V>>, accept: seq<Point<V>> -> bool)
    ensures Resume(Pending(store, [], 0), stream, encode, accept) == Ingest(stream, store, encode, accept)
  {
    assert stream[0..] == stream;
    assert stream[..0] == [] && stream[0..0] == [];
    ResumeIsIngest(stream, store, encode, accept, Pending(store, [], 0), 0, 0);
  }

  /**
   * `embed_and_upsert`, record by record as the source streams them. It
   * does exactly what the batch-wise description says.
   */
  method EmbedAndUpsert<V>(stream: seq<Value>, store: Store<V>,
                           encode: seq<string> -> Option<seq<V>>, accept: seq<Point<V>> -> bool)
    returns (out: Outcome<V>)
    ensures out == Ingest(stream, store, encode, accept)
  {
    ResumeFromStart(stream, store, encode, accept);
    var p := Pending(store, [], 0);
    var rest := stream;
    while |rest| > 0
      invariant Resume(p, rest, encode, accept) == Ingest(stream, store, encode, accept)
    {
      var next := Feed(p, rest[0], encode, accept);
      if next.Err? {
        return Outcome(p.st, p.count, Some(next.error));
      }
      p := next.value;
      rest := rest[1..];
    }
    return Finish(p, encode, accept);
  }

  /**
   * `count` counts every record handed to a batch, including those of
   * batches whose encoding or upsert failed; an aborted run counts the
   * full batches before the bad record.
   */
  lemma IngestCount<V>(stream: seq<Value>, store: Store<V>,
                       encode: seq<string> -> Option<seq<V>>, accept: seq<Point<V>> -> bool)
    ensures var out := Ingest(stream, store, encode, accept);
      && (out.error.None? <==> AllPrepared(stream))
      && (out.error.None? ==> out.count == |stream|)
      && (out.error.Some? ==> out.count % BatchSize == 0 && out.count <= FirstBad(stream) < out.count + BatchSize)
  {
    var n := FirstBad(stream);
    if n < |stream| {
      assert !AllPrepared(stream);
    }
  }

  /** Nothing is lost from the collection: a run only adds or replaces points. */
  lemma IngestKeepsIds<V>(stream: seq<Value>, store: Store<V>,
                          encode: seq<string> -> Option<seq<V>>, accept: seq<Point<V>> -> bool)
    ensures store.Keys <= Ingest(stream, store, encode, accept).store.Keys
  {
  }
}
