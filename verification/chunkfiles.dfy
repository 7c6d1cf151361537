/**
 * One document end to end (`DocumentProcessor.process_document` and the
 * text `_write_chunks` puts in the output file, json_to_rag_chunks.py): the
 * header, the flattened articles, the chunks, the sanitised file name and
 * the file contents. Opening and writing the file is not modelled.
 */
module ChunkFiles {
  import opened Wrappers
  import opened Json
  import opened Errors
  import Text
  import Articles
  import Chunker

  /** A character kept in a file name: alphanumeric (per `str.isalnum`), `-` or `_`. */
  predicate Kept(c: char, isAlnum: char -> bool) {
    isAlnum(c) || c == '-' || c == '_'
  }

  /**
   * `"".join(c for c in str(element_id) if c.isalnum() or c in ('-', '_'))`.
   * `str.isalnum` is Unicode-wide, so it is a parameter here.
   */
  function SafeId(id: string, isAlnum: char -> bool): (r: string)
    ensures |r| <= |id|
    ensures forall k :: 0 <= k < |r| ==> Kept(r[k], isAlnum)
    ensures forall c :: multiset(r)[c] == if Kept(c, isAlnum) then multiset(id)[c] else 0
  {
    if |id| == 0 then ""
    else
      var rest := SafeId(id[1..], isAlnum);
      assert id == [id[0]] + id[1..];
      if Kept(id[0], isAlnum) then [id[0]] + rest else rest
  }

  /** A single character survives, as itself, exactly when it is kept. */
  lemma SafeIdChar(c: char, isAlnum: char -> bool)
    ensures SafeId([c], isAlnum) == if Kept(c, isAlnum) then [c] else []
  {
    assert [c][1..] == [];
  }

  /**
   * The filter works character by character, left to right: the file name
   * stem of a concatenation is the concatenation of the stems, so the kept
   * characters stay in their original order.
   */
  lemma {:induction false} SafeIdAppend(a: string, b: string, isAlnum: char -> bool)
    ensures SafeId(a + b, isAlnum) == SafeId(a, isAlnum) + SafeId(b, isAlnum)
  {
    if |a| == 0 {
      assert a + b == b;
    } else {
      assert (a + b)[0] == a[0] && (a + b)[1..] == a[1..] + b;
      SafeIdAppend(a[1..], b, isAlnum);
    }
  }

  /** Sanitising a sanitised id changes nothing. */
  lemma {:induction false} SafeIdIdempotent(id: string, isAlnum: char -> bool)
    ensures SafeId(SafeId(id, isAlnum), isAlnum) == SafeId(id, isAlnum)
  {
    if |id| > 0 {
      SafeIdIdempotent(id[1..], isAlnum);
    }
  }

  /** An id made only of kept characters is its own file name stem. */
  lemma {:induction false} SafeIdKeepsCleanIds(id: string, isAlnum: char -> bool)
    requires forall k :: 0 <= k < |id| ==> Kept(id[k], isAlnum)
    ensures SafeId(id, isAlnum) == id
  {
    if |id| > 0 {
      SafeIdKeepsCleanIds(id[1..], isAlnum);
    }
  }

  /** The marker line written before chunk number `n` (counted from 1). */
  function Marker(n: nat): string {
    "--- CHUNK " + Text.NatToString(n) + " ---\n"
  }

  /** What `_write_chunks` writes for the i-th chunk (counted from 0). */
  function Record(i: nat, chunk: string): string {
    Marker(i + 1) + chunk + "\n\n"
  }

  /** The whole file: one record per chunk, in order. */
  function FileText(chunks: seq<string>): string {
    Text.Concat(seq(|chunks|, i requires 0 <= i < |chunks| => Record(i, chunks[i])))
  }

  /**
   * The file is written chunk after chunk: writing one more chunk appends
   * exactly its numbered record, so the i-th record is marked `i + 1`.
   */
  lemma FileTextAppend(chunks: seq<string>, c: string)
    ensures FileText(chunks + [c]) == FileText(chunks) + Marker(|chunks| + 1) + c + "\n\n"
  {
    var all := chunks + [c];
    var records := seq(|all|, i requires 0 <= i < |all| => Record(i, all[i]));
    var front := seq(|chunks|, i requires 0 <= i < |chunks| => Record(i, chunks[i]));
    assert records == front + [Record(|chunks|, c)];
    Text.ConcatAppend(front, [Record(|chunks|, c)]);
  }

  /** No chunks, empty file. */
  lemma FileTextEmpty()
    ensures FileText([]) == ""
  {
  }

  /** The output of one document. */
  datatype ChunkFile = ChunkFile(name: string, chunks: seq<string>, text: string)

  /**
   * `process_document`: a document that is not a dictionary, or whose
   * articles cannot be flattened, raises; otherwise the chunks of its
   * flattened articles under its header, in the file named after its
   * sanitised `element_id` (default `"unknown"`).
   */
  function ProcessDocument(doc: Value, chunkSize: int, overlap: int, isAlnum: char -> bool)
    : (r: Result<ChunkFile, PyError>)
    requires Chunker.ValidConfig(chunkSize, overlap)
    ensures !doc.Object? ==> r == Err(AttributeError)
    ensures doc.Object? ==> (r.Ok? <==> Articles.Flatten(GetOr(doc.fields, "articles", Array([]))).Ok?)
    ensures r.Ok? ==>
      var body := Articles.Flatten(GetOr(doc.fields, "articles", Array([]))).value;
      && r.value.chunks == Chunker.ChunkText(Articles.Header(doc.fields), body, chunkSize, overlap)
      && r.value.text == FileText(r.value.chunks)
      && Text.EndsWith(r.value.name, ".txt")
      && r.value.name[..|r.value.name| - 4] == SafeId(Display(GetOr(doc.fields, "element_id", String("unknown"))), isAlnum)
  {
    match doc
    case Object(fs) =>
      var elementId := GetOr(fs, "element_id", String("unknown"));
      var header := Articles.Header(fs);
      var body :- Articles.Flatten(GetOr(fs, "articles", Array([])));
      var chunks := Chunker.ChunkText(header, body, chunkSize, overlap);
      Ok(ChunkFile(SafeId(Display(elementId), isAlnum) + ".txt", chunks, FileText(chunks)))
    case _ => Err(AttributeError)
  }

  /** A document without articles still yields one chunk: its stripped header. */
  lemma NoArticlesGiveHeaderChunk(fs: Fields, chunkSize: int, overlap: int, isAlnum: char -> bool)
    requires Chunker.ValidConfig(chunkSize, overlap)
    requires Get(fs, "articles").None? || !Truthy(Get(fs, "articles").value)
    ensures ProcessDocument(Object(fs), chunkSize, overlap, isAlnum).Ok?
    ensures ProcessDocument(Object(fs), chunkSize, overlap, isAlnum).value.chunks == [Text.Strip(Articles.Header(fs))]
  {
    var articles := GetOr(fs, "articles", Array([]));
    assert !Truthy(articles);
    assert Articles.Flatten(articles) == Ok("");
    var r := ProcessDocument(Object(fs), chunkSize, overlap, isAlnum);
    assert r.Ok? && r.value.chunks == Chunker.ChunkText(Articles.Header(fs), "", chunkSize, overlap);
  }
}
