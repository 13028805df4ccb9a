/**
 * The Twitter reader (parser/twitter.go): a retry loop over JSON Decode
 * calls that passes over every decode error except io.EOF and turns the
 * first tweet that decodes into a document. The JSON decoder is not
 * modelled: a reader holds the sequence of results its Decode calls will
 * return, a tweet's `timestamp_ms` value kept as the raw bytes the decoder
 * hands to timestamp.UnmarshalJSON.
 */
module Twitter {
  import opened Wrappers
  import opened Documents
  import opened GoStrings
  import opened Reddit

  /** One element of entities.hashtags. */
  datatype HashTag = HashTag(text: string)

  /** The user object of a tweet. */
  datatype User = User(name: string, location: string, timezone: string)

  /** tweet: the decoded fields; `likes` is retweeted_status.favorite_count. */
  datatype Tweet = Tweet(
    body: string, timestamp: Option<string>, id: string, lang: string,
    hashtags: seq<HashTag>, likes: int, user: User)

  /** Go's `/` on integers, which truncates toward zero, for a positive divisor. */
  function GoQuot(a: int, b: int): int
    requires b > 0
  {
    if a >= 0 then a / b else -((-a) / b)
  }

  /**
   * Truncating division: the quotient times the divisor comes within one
   * divisor of the dividend, on the dividend's side of zero.
   */
  lemma GoQuotSpec(a: int, b: int)
    requires b > 0
    ensures var q := GoQuot(a, b); var r := a - q * b;
      -b < r < b && (a >= 0 ==> r >= 0 && q >= 0) && (a < 0 ==> r <= 0 && q <= 0)
  {
    if a < 0 {
      var p, m := (-a) / b, (-a) % b;
      assert -a == p * b + m && 0 <= m < b;
      QuotNonNegative(-a, b);
      assert GoQuot(a, b) * b == -(p * b);
      assert a - GoQuot(a, b) * b == -m;
    } else {
      assert a == (a / b) * b + a % b && 0 <= a % b < b;
      QuotNonNegative(a, b);
    }
  }

  /** Helper: Euclidean division of a natural number by a positive one is natural. */
  lemma QuotNonNegative(n: int, b: int)
    requires n >= 0 && b > 0
    ensures n / b >= 0
  {
  }

  /** GoQuot differs from Euclidean division on negative dividends that are not multiples of the divisor. */
  lemma GoQuotNegative()
    ensures GoQuot(-1500, 1000) == -1 && -1500 / 1000 == -2
  {
  }

  /** The hashtag texts, in order. */
  function Texts(tags: seq<HashTag>): seq<string>
  {
    seq(|tags|, k requires 0 <= k < |tags| => tags[k].text)
  }

  /** The time a tweet decodes to: zero when absent, else what UnmarshalJSON makes of it. */
  function Stamp(tw: Tweet): Result<int, Error>
  {
    match tw.timestamp
    case None => Ok(0)
    case Some(b) => Unmarshal(b)
  }

  /** The document for a decoded tweet whose timestamp_ms is `ms`. */
  function TweetDoc(tw: Tweet, ms: int): Doc
  {
    var d := NewDocument(tw.id, 1.0);
    var d := Set(d, "body", Str(tw.body));
    var d := Set(d, "user", Str(tw.user.name));
    var d := Set(d, "lang", Str(tw.lang));
    var d := Set(d, "tz", Str(tw.user.timezone));
    var d := Set(d, "time", Int(GoQuot(ms, 1000)));
    var d := Set(d, "likes", Int(tw.likes));
    if |tw.hashtags| > 0 then Set(d, "hashtag", Str(Join(Texts(tw.hashtags), ","))) else d
  }

  /** One Decode call, timestamp included: a tweet's document or the decode error. */
  function Decode(r: Result<Tweet, Error>): Result<Doc, Error>
  {
    match r
    case Err(e) => Err(e)
    case Ok(tw) =>
      match Stamp(tw)
      case Err(e) => Err(e)
      case Ok(ms) => Ok(TweetDoc(tw, ms))
  }

  /**
   * The document of a tweet has its id_str as id and score 1; it copies
   * body, user name, lang, time zone and likes, stores the time in seconds,
   * and has a `hashtag` field exactly when the tweet has hashtags.
   */
  lemma TweetDocSpec(tw: Tweet, ms: int)
    ensures var d := TweetDoc(tw, ms);
      && d.id == tw.id && d.score == 1.0
      && d.props["body"] == Str(tw.body) && d.props["user"] == Str(tw.user.name)
      && d.props["lang"] == Str(tw.lang) && d.props["tz"] == Str(tw.user.timezone)
      && d.props["time"] == Int(GoQuot(ms, 1000)) && d.props["likes"] == Int(tw.likes)
      && ("hashtag" in d.props <==> |tw.hashtags| > 0)
      && (|tw.hashtags| > 0 ==> d.props["hashtag"] == Str(Join(Texts(tw.hashtags), ",")))
      && d.props.Keys <= {"body", "user", "lang", "tz", "time", "likes", "hashtag"}
  {
  }

  /** A single hashtag is stored as it is. */
  lemma OneHashTag(tw: Tweet, ms: int)
    requires |tw.hashtags| == 1
    ensures TweetDoc(tw, ms).props["hashtag"] == Str(tw.hashtags[0].text)
  {
    assert Texts(tw.hashtags) == [tw.hashtags[0].text];
  }

  /**
   * Read over the Decode results `rs`: every error other than io.EOF is
   * passed over; the first tweet that decodes gives its document; io.EOF,
   * or the end of the input, gives the empty document and io.EOF.
   */
  function NextTweet(rs: seq<Result<Tweet, Error>>): (s: Scan)
    ensures s.used <= |rs|
    ensures forall k :: 0 <= k < s.used - 1 ==> Decode(rs[k]).Err? && Decode(rs[k]).error != EOF
    ensures s.out.err == None ==> s.used >= 1 && Decode(rs[s.used - 1]) == Ok(s.out.doc)
    ensures s.out.err != None ==>
      s.out == ReadOut(Empty, Some(EOF)) && (s.used == |rs| || (s.used >= 1 && Decode(rs[s.used - 1]) == Err(EOF)))
    ensures s.out.err != None && s.used == |rs| && (s.used == 0 || Decode(rs[s.used - 1]) != Err(EOF)) ==>
      forall k :: 0 <= k < |rs| ==> Decode(rs[k]).Err?
    decreases |rs|
  {
    if rs == [] then Scan(ReadOut(Empty, Some(EOF)), 0)
    else match Decode(rs[0])
      case Err(e) =>
        if e == EOF then Scan(ReadOut(Empty, Some(EOF)), 1)
        else After(NextTweet(rs[1..]), 1)
      case Ok(d) => Scan(ReadOut(d, None), 1)
  }

  /** Read returns a tweet exactly when one decodes before io.EOF. */
  lemma NextTweetFinds(rs: seq<Result<Tweet, Error>>)
    ensures NextTweet(rs).out.err == None <==>
      exists i :: 0 <= i < |rs| && Decode(rs[i]).Ok? && forall k :: 0 <= k < i ==> Decode(rs[k]) != Err(EOF)
  {
    var s := NextTweet(rs);
    if s.out.err == None {
      assert Decode(rs[s.used - 1]).Ok?;
    } else {
      forall i | 0 <= i < |rs| && Decode(rs[i]).Ok? ensures exists k :: 0 <= k < i && Decode(rs[k]) == Err(EOF) {
        assert s.used - 1 < i;
      }
    }
  }

  /** The hashtag loop: appends the texts one by one. */
  method CollectTags(hashtags: seq<HashTag>) returns (tags: seq<string>)
    ensures |tags| == |hashtags|
    ensures forall k :: 0 <= k < |hashtags| ==> tags[k] == hashtags[k].text
  {
    tags := [];
    for i := 0 to |hashtags|
      invariant |tags| == i
      invariant forall k :: 0 <= k < i ==> tags[k] == hashtags[k].text
    {
      tags := tags + [hashtags[i].text];
    }
  }

  /** TwitterReader: the results its decoder has still to return. */
  class TwitterReader {
    var rest: seq<Result<Tweet, Error>>

    /** TwitterReaderOpen */
    constructor (input: seq<Result<Tweet, Error>>)
      ensures rest == input
    {
      rest := input;
    }

    /** Read: Decode until a tweet decodes or the decoder reports io.EOF. */
    method Read() returns (doc: Doc, err: Option<Error>)
      modifies this
      ensures var s := NextTweet(old(rest));
        ReadOut(doc, err) == s.out && rest == old(rest)[s.used..]
    {
      ghost var rs := rest;
      ghost var used := 0;
      doc := Empty;
      while true
        invariant used <= |rs| && rest == rs[used..] && doc == Empty
        invariant NextTweet(rs) == After(NextTweet(rest), used)
        decreases |rest|
      {
        var tw: Tweet;
        var stamp := new Timestamp();
        if rest == [] {
          err := Some(EOF);
        } else {
          var r := rest[0];
          assert rs[used + 1..] == rest[1..];
          rest := rest[1..];
          used := used + 1;
          match r
          case Err(e) =>
            err := Some(e);
          case Ok(t) =>
            tw := t;
            err := None;
            if t.timestamp.Some? {
              err := stamp.UnmarshalJSON(t.timestamp.value);
            }
        }
        if err != None {
          if err != Some(EOF) {
            continue;
          }
          break;
        }
        doc := NewDocument(tw.id, 1.0);
        doc := Set(doc, "body", Str(tw.body));
        doc := Set(doc, "user", Str(tw.user.name));
        doc := Set(doc, "lang", Str(tw.lang));
        doc := Set(doc, "tz", Str(tw.user.timezone));
        doc := Set(doc, "time", Int(GoQuot(stamp.value, 1000)));
        doc := Set(doc, "likes", Int(tw.likes));
        if |tw.hashtags| > 0 {
          var tags := CollectTags(tw.hashtags);
          assert tags == Texts(tw.hashtags);
          doc := Set(doc, "hashtag", Str(Join(tags, ",")));
        }
        return;
      }
    }
  }
}
