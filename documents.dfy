/**
 * The document the readers produce and the indexer submits (a redisearch
 * Document: id, score and a field map), and the errors a reader returns.
 */
module Documents {
  import opened Wrappers

  /** A field value: the readers store strings and integers. */
  datatype Value = Str(s: string) | Int(i: int)

  /** redisearch.Document; `score` is the document's default score. */
  datatype Doc = Doc(id: string, score: real, props: map<string, Value>)

  /** The zero Document a reader returns beside an error. */
  const Empty: Doc := Doc("", 0.0, map[])

  /** redisearch.NewDocument */
  function NewDocument(id: string, score: real): Doc
  {
    Doc(id, score, map[])
  }

  /** Document.Set: stores `v` under `name`, replacing an earlier value. */
  function Set(d: Doc, name: string, v: Value): Doc
  {
    d.(props := d.props[name := v])
  }

  /** The errors readers and decoders return; `EOF` is io.EOF. */
  datatype Error =
    | EOF
    | NumSyntax   // strconv.ErrSyntax
    | NumRange    // strconv.ErrRange
    | Malformed   // any other decoding failure

  /** What one `Read` call returns: a document and a nil (None) or non-nil error. */
  datatype ReadOut = ReadOut(doc: Doc, err: Option<Error>)

  /**
   * What a reader's scan over the results of its decoder decided, and how
   * many of those results it consumed.
   */
  datatype Scan = Scan(out: ReadOut, used: nat)

  /** The scan a reader makes after it has already consumed `n` results. */
  function After(s: Scan, n: nat): Scan
  {
    s.(used := s.used + n)
  }
}
