/**
 * The Reddit comments reader (parser/reddit.go): the quoted-integer
 * `timestamp` type and the reader that turns one decoded JSON comment
 * into a document. The JSON decoder is not modelled: a reader holds the
 * sequence of results its Decode calls will return, a comment's
 * `created_utc` value kept as the raw bytes the decoder hands to
 * timestamp.UnmarshalJSON.
 */
module Reddit {
  import opened Wrappers
  import opened Documents
  import opened GoStrings
  import opened GoStrconv

  /** timestamp.UnmarshalJSON without the store: strip quotes at both ends, then parse a base-10 int64. */
  function Unmarshal(b: string): Result<int, Error>
  {
    ParseInt(Trim(b, "\""))
  }

  /**
   * Unmarshal accepts exactly the inputs that are, once their outer quotes
   * are gone, an optional sign and decimal digits of an int64 value, and
   * yields that value; it rejects everything else with a syntax or range
   * error.
   */
  lemma UnmarshalSpec(b: string)
    ensures var s := Trim(b, "\"");
      && (Unmarshal(b).Ok? <==> SignedDigits(s) && IsInt64(SignedValue(s)))
      && (Unmarshal(b).Ok? ==> Unmarshal(b).value == SignedValue(s))
      && (Unmarshal(b).Err? ==> Unmarshal(b).error in {NumSyntax, NumRange})
  {
    ParseIntSpec(Trim(b, "\""));
  }

  /** Round trip: every int64, rendered bare or in quotes, unmarshals back to itself. */
  lemma UnmarshalFormat(i: int)
    requires IsInt64(i)
    ensures Unmarshal(FormatInt(i)) == Ok(i)
    ensures Unmarshal("\"" + FormatInt(i) + "\"") == Ok(i)
  {
    var s := FormatInt(i);
    FormatIntEnds(i);
    TrimEndsUntouched(s, Chars("\""));
    TrimEndsWrapped('"', s, '"', Chars("\""));
    assert ['"'] + s + ['"'] == "\"" + s + "\"";
    ParseFormatInt(i);
  }

  /** Helper: a decimal rendering neither starts nor ends with a quote. */
  lemma FormatIntEnds(i: int)
    ensures var s := FormatInt(i); s != [] && s[0] != '"' && s[|s| - 1] != '"'
  {
    if i < 0 {
      FormatUintDigits(-i);
      var u := FormatUint(-i);
      assert FormatInt(i)[|FormatInt(i)| - 1] == u[|u| - 1];
      assert IsDigit(u[|u| - 1]);
    } else {
      FormatUintDigits(i);
      var u := FormatUint(i);
      assert IsDigit(u[0]) && IsDigit(u[|u| - 1]);
    }
  }

  /** A number outside the int64 range is rejected with a range error, quoted or not. */
  lemma UnmarshalOutOfRange(i: int)
    requires !IsInt64(i)
    ensures Unmarshal(FormatInt(i)) == Err(NumRange)
    ensures Unmarshal("\"" + FormatInt(i) + "\"") == Err(NumRange)
  {
    var s := FormatInt(i);
    FormatIntEnds(i);
    TrimEndsUntouched(s, Chars("\""));
    TrimEndsWrapped('"', s, '"', Chars("\""));
    assert ['"'] + s + ['"'] == "\"" + s + "\"";
    OutOfRangeInt(i);
  }

  /** Helper: ParseInt reports a range error for the rendering of a value outside int64. */
  lemma OutOfRangeInt(i: int)
    requires !IsInt64(i)
    ensures ParseInt(FormatInt(i)) == Err(NumRange)
  {
    var s := FormatInt(i);
    if i < 0 {
      var u := FormatUint(-i);
      FormatUintDigits(-i);
      ScanUintSpec(u);
      assert s[0] == '-' && s[1..] == u;
    } else {
      FormatUintDigits(i);
      ScanUintSpec(s);
      assert IsDigit(s[0]);
    }
  }

  /** The `timestamp` type: an int64 that UnmarshalJSON updates in place. */
  class Timestamp {
    var value: int

    /** The zero timestamp of a freshly declared comment. */
    constructor ()
      ensures value == 0
    {
      value := 0;
    }

    /** UnmarshalJSON: stores the parsed value on success and leaves the timestamp alone on failure. */
    method UnmarshalJSON(b: string) returns (err: Option<Error>)
      modifies this
      ensures Unmarshal(b).Ok? ==> value == Unmarshal(b).value && err == None
      ensures Unmarshal(b).Err? ==> value == old(value) && err == Some(Unmarshal(b).error)
    {
      var s := Trim(b, "\"");
      var r := ParseInt(s);
      match r
      case Ok(i) =>
        value := i;
        err := None;
      case Err(e) =>
        err := Some(e);
    }
  }

  /** redditDocument: the decoded comment; `created` is the raw created_utc value, when present. */
  datatype Comment = Comment(
    author: string, body: string, created: Option<string>, id: string,
    score: int, ups: int, downs: int, subreddit: string)

  /** The document for a decoded comment whose creation time is `date`. */
  function CommentDoc(c: Comment, date: int): Doc
  {
    var d := NewDocument(c.id, c.score as real);
    var d := Set(d, "body", Str(c.body));
    var d := Set(d, "author", Str(c.author));
    var d := Set(d, "sub", Str(c.subreddit));
    Set(d, "date", Int(date))
  }

  /** The creation time a comment decodes to: zero when absent, else what UnmarshalJSON makes of it. */
  function Created(c: Comment): Result<int, Error>
  {
    match c.created
    case None => Ok(0)
    case Some(b) => Unmarshal(b)
  }

  /** Read over one Decode result: a failed decode gives its error and the empty document. */
  function ReadComment(r: Result<Comment, Error>): (out: ReadOut)
  {
    if r.Err? then ReadOut(Empty, Some(r.error))
    else match Created(r.value)
      case Err(e) => ReadOut(Empty, Some(e))
      case Ok(t) => ReadOut(CommentDoc(r.value, t), None)
  }

  /**
   * Read succeeds exactly when the comment and its timestamp decode; it
   * then gives the comment's id and score and copies body, author,
   * subreddit and creation time, and otherwise gives the empty document
   * and the decode error, which is UnmarshalJSON's when only created_utc
   * is rejected.
   */
  lemma ReadCommentSpec(r: Result<Comment, Error>)
    ensures var out := ReadComment(r);
      && (out.err == None <==> r.Ok? && Created(r.value).Ok?)
      && (out.err != None ==> out.doc == Empty && (r.Err? ==> out.err == Some(r.error)))
      && (r.Ok? && Created(r.value).Err? ==> out.err == Some(Created(r.value).error))
      && (out.err == None ==>
        && out.doc.id == r.value.id && out.doc.score == r.value.score as real
        && out.doc.props == map["body" := Str(r.value.body), "author" := Str(r.value.author),
                                "sub" := Str(r.value.subreddit), "date" := Int(Created(r.value).value)])
  {
  }

  /** A comment stamped with the rendering of an int64, quoted or not, is dated with that number. */
  lemma ReadCommentStamped(c: Comment, i: int)
    requires IsInt64(i)
    requires c.created == Some(FormatInt(i)) || c.created == Some("\"" + FormatInt(i) + "\"")
    ensures ReadComment(Ok(c)) == ReadOut(CommentDoc(c, i), None)
  {
    UnmarshalFormat(i);
  }

  /** RedditReader: the results its decoder has still to return. */
  class RedditReader {
    var rest: seq<Result<Comment, Error>>

    /** RedditReaderOpen */
    constructor (input: seq<Result<Comment, Error>>)
      ensures rest == input
    {
      rest := input;
    }

    /** Read: one Decode into a fresh comment; a decoder with nothing left reports io.EOF. */
    method Read() returns (doc: Doc, err: Option<Error>)
      modifies this
      ensures old(rest) == [] ==> doc == Empty && err == Some(EOF) && rest == []
      ensures old(rest) != [] ==> ReadOut(doc, err) == ReadComment(old(rest)[0]) && rest == old(rest)[1..]
    {
      doc := Empty;
      if rest == [] {
        err := Some(EOF);
        return;
      }
      var r := rest[0];
      rest := rest[1..];
      match r
      case Err(e) =>
        err := Some(e);
      case Ok(c) =>
        var created := new Timestamp();
        err := None;
        if c.created.Some? {
          err := created.UnmarshalJSON(c.created.value);
        }
        if err == None {
          doc := NewDocument(c.id, c.score as real);
          doc := Set(doc, "body", Str(c.body));
          doc := Set(doc, "author", Str(c.author));
          doc := Set(doc, "sub", Str(c.subreddit));
          doc := Set(doc, "date", Int(created.value));
        }
    }
  }
}
