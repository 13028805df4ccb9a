/**
 * The StackExchange posts dump reader: every `row` element of the XML dump
 * becomes one document, built from the row's attributes; the `Tags`
 * attribute ("<c#><winforms>") becomes a comma-separated tag list.
 */
module StackExchange {
  import opened Wrappers
  import opened Documents
  import opened GoStrings
  import opened XmlTokens

  // ------------------------------------------------------- tag extraction

  /** The position of the first '>' in s, if there is one. */
  function FirstClose(s: string): (r: Option<nat>)
    ensures r.Some? ==> r.value < |s| && s[r.value] == '>' && '>' !in s[..r.value]
    ensures r.None? ==> '>' !in s
    decreases |s|
  {
    if s == [] then None
    else if s[0] == '>' then Some(0)
    else match FirstClose(s[1..])
      case None => None
      case Some(j) =>
        assert s[..j + 1] == [s[0]] + s[1..][..j];
        Some(j + 1)
  }

  /**
   * The length of the match of `<([^>]+)>` that starts at s[0], if any:
   * a '<', at least one character other than '>', then the first '>'.
   */
  function MatchHere(s: string): (r: Option<nat>)
    ensures r.Some? ==> 3 <= r.value <= |s| && IsTagMatch(s[..r.value])
  {
    if s != [] && s[0] == '<' then
      match FirstClose(s[1..])
      case Some(j) =>
        if j > 0 then
          assert s[..j + 2][1..j + 1] == s[1..][..j];
          Some(j + 2)
        else None
      case None => None
    else None
  }

  /** A match of `<([^>]+)>`: '<', a group with no '>' in it, '>'. */
  predicate IsTagMatch(m: string)
  {
    |m| >= 3 && m[0] == '<' && m[|m| - 1] == '>' && '>' !in m[1..|m| - 1]
  }

  /**
   * regexp `<([^>]+)>` FindAllString(s, -1): the leftmost match, then the
   * matches in what follows it, left to right and without overlap.
   */
  function FindAll(s: string): seq<string>
    decreases |s|
  {
    if s == [] then []
    else match MatchHere(s)
      case Some(l) => [s[..l]] + FindAll(s[l..])
      case None => FindAll(s[1..])
  }

  /** Every match is '<', a non-empty group without '>', and '>'. */
  lemma {:induction false} FindAllShape(s: string)
    ensures forall k :: 0 <= k < |FindAll(s)| ==> IsTagMatch(FindAll(s)[k])
    decreases |s|
  {
    if s != [] {
      match MatchHere(s)
      case Some(l) =>
        FindAllShape(s[l..]);
        assert forall k :: 0 < k < |FindAll(s)| ==> FindAll(s)[k] == FindAll(s[l..])[k - 1];
      case None =>
        FindAllShape(s[1..]);
    }
  }

  /** Some match of the pattern starts at s[i]. */
  predicate MatchAt(s: string, i: nat)
  {
    i + 1 < |s| && s[i] == '<' && s[i + 1] != '>' && '>' in s[i + 2..]
  }

  /** The tags processTags extracts: each match with its '<' and '>' trimmed off both ends. */
  function TagsOf(raw: string): (ts: seq<string>)
    ensures |ts| == |FindAll(raw)|
  {
    var ms := FindAll(raw);
    seq(|ms|, k requires 0 <= k < |ms| => Trim(ms[k], "<>"))
  }

  /** processTags: fills a slice with the trimmed matches, then joins it with ",". */
  method ProcessTags(raw: string) returns (r: string)
    ensures r == Join(TagsOf(raw), ",")
  {
    var matches := FindAll(raw);
    var s := new string[|matches|];
    for i := 0 to |matches|
      invariant forall k :: 0 <= k < i ==> s[k] == TagsOf(raw)[k]
    {
      s[i] := Trim(matches[i], "<>");
    }
    assert s[..] == TagsOf(raw);
    r := Join(s[..], ",");
  }

  /** There are no tags exactly when no match of the pattern starts anywhere in the input; then processTags gives "". */
  lemma {:induction false} NoGroupNoTags(raw: string)
    ensures FindAll(raw) == [] <==> forall i :: 0 <= i < |raw| ==> !MatchAt(raw, i)
    ensures (forall i :: 0 <= i < |raw| ==> !MatchAt(raw, i)) ==> Join(TagsOf(raw), ",") == ""
    decreases |raw|
  {
    if raw != [] {
      match MatchHere(raw)
      case Some(l) =>
        assert raw[l - 1] == raw[..l][l - 1];
        assert raw[1] == raw[..l][1];
        assert '>' in raw[2..] by { assert raw[2..][l - 3] == raw[l - 1]; }
        assert MatchAt(raw, 0);
      case None =>
        NoGroupNoTags(raw[1..]);
        MatchAtShift(raw);
        if forall i :: 0 <= i < |raw[1..]| ==> !MatchAt(raw[1..], i) {
          forall i | 0 <= i < |raw| ensures !MatchAt(raw, i) {
            if i > 0 { assert !MatchAt(raw[1..], i - 1); }
          }
        } else {
          var i :| 0 <= i < |raw[1..]| && MatchAt(raw[1..], i);
          assert MatchAt(raw, i + 1);
        }
    }
  }

  /** A match starting at s[i + 1] is a match starting at s[1..][i]. */
  lemma MatchAtShift(s: string)
    requires s != []
    ensures forall i :: 0 <= i < |s| - 1 ==> (MatchAt(s, i + 1) <==> MatchAt(s[1..], i))
  {
    forall i | 0 <= i < |s| - 1
      ensures MatchAt(s, i + 1) <==> MatchAt(s[1..], i)
    {
      if i + 2 < |s| {
        assert s[i + 3..] == s[1..][i + 2..];
      }
    }
  }

  /** Every tag is free of '>' and neither starts nor ends with '<' or '>'. */
  lemma TagShape(raw: string)
    ensures forall k :: 0 <= k < |TagsOf(raw)| ==>
      var t := TagsOf(raw)[k];
      '>' !in t && (t != "" ==> t[0] !in "<>" && t[|t| - 1] !in "<>")
  {
    var ms := FindAll(raw);
    FindAllShape(raw);
    forall k | 0 <= k < |ms|
      ensures var t := TagsOf(raw)[k];
        '>' !in t && (t != "" ==> t[0] !in "<>" && t[|t| - 1] !in "<>")
    {
      var m := ms[k];
      var g := m[1..|m| - 1];
      assert m == [m[0]] + g + [m[|m| - 1]];
      TrimEndsWrapped(m[0], g, m[|m| - 1], Chars("<>"));
      TrimEndsShape(g, Chars("<>"));
    }
  }

  /** The Tags attribute written the way the dump writes it: every tag in angle brackets, back to back. */
  function Bracketed(tags: seq<string>): string
    decreases |tags|
  {
    if tags == [] then "" else "<" + tags[0] + ">" + Bracketed(tags[1..])
  }

  /** Tags with no '<' or '>' in them come back out of their bracketed form unchanged and in order. */
  lemma {:induction false} TagsRoundTrip(tags: seq<string>)
    requires forall k :: 0 <= k < |tags| ==> tags[k] != "" && '<' !in tags[k] && '>' !in tags[k]
    ensures TagsOf(Bracketed(tags)) == tags
    ensures Join(TagsOf(Bracketed(tags)), ",") == Join(tags, ",")
    decreases |tags|
  {
    if tags != [] {
      var t := tags[0];
      var rest := Bracketed(tags[1..]);
      TagsRoundTrip(tags[1..]);
      FindAllBracketed(t, rest);
      TrimBracketed(t);
      TagsOfCons(Bracketed(tags), "<" + t + ">", rest);
    }
  }

  /** Trimming "<t>" gives t back when t neither starts nor ends with '<' or '>'. */
  lemma TrimBracketed(t: string)
    requires t != "" && '<' !in t && '>' !in t
    ensures Trim("<" + t + ">", "<>") == t
  {
    assert ("<" + t + ">") == ['<'] + t + ['>'];
    TrimEndsWrapped('<', t, '>', Chars("<>"));
    TrimEndsUntouched(t, Chars("<>"));
  }

  /** The tags of a string whose first match is m, followed by rest. */
  lemma TagsOfCons(s: string, m: string, rest: string)
    requires FindAll(s) == [m] + FindAll(rest)
    ensures TagsOf(s) == [Trim(m, "<>")] + TagsOf(rest)
  {
    var ts := TagsOf(s);
    var tr := TagsOf(rest);
    forall k | 0 <= k < |ts| ensures ts[k] == ([Trim(m, "<>")] + tr)[k] {
      if k > 0 {
        assert FindAll(s)[k] == FindAll(rest)[k - 1];
      }
    }
  }

  /** The leftmost match of "<t>" followed by anything is "<t>" itself. */
  lemma FindAllBracketed(t: string, rest: string)
    requires t != "" && '>' !in t
    ensures FindAll("<" + t + ">" + rest) == ["<" + t + ">"] + FindAll(rest)
  {
    var s := "<" + t + ">" + rest;
    var after := s[1..];
    assert after == t + ">" + rest;
    assert after[|t|] == '>';
    assert after[..|t|] == t;
    assert FirstClose(after) == Some(|t|);
    assert s[..|t| + 2] == "<" + t + ">";
    assert s[|t| + 2..] == rest;
  }

  // ------------------------------------------------------------ row fields

  /** The value of the last attribute named `name`, or "" when there is none (a Go map read of a missing key). */
  function LastValue(attrs: seq<Attr>, name: string): string
    decreases |attrs|
  {
    if attrs == [] then ""
    else if attrs[|attrs| - 1].name == name then attrs[|attrs| - 1].value
    else LastValue(attrs[..|attrs| - 1], name)
  }

  /** The last attribute named `name` gives LastValue. */
  lemma {:induction false} LastValueAt(attrs: seq<Attr>, name: string, i: nat)
    requires i < |attrs| && attrs[i].name == name
    requires forall j :: i < j < |attrs| ==> attrs[j].name != name
    ensures LastValue(attrs, name) == attrs[i].value
    decreases |attrs|
  {
    if i < |attrs| - 1 {
      var init := attrs[..|attrs| - 1];
      assert init[i] == attrs[i];
      LastValueAt(init, name, i);
    }
  }

  /** With no attribute named `name`, LastValue is "". */
  lemma {:induction false} LastValueAbsent(attrs: seq<Attr>, name: string)
    requires forall j :: 0 <= j < |attrs| ==> attrs[j].name != name
    ensures LastValue(attrs, name) == ""
    decreases |attrs|
  {
    if attrs != [] {
      LastValueAbsent(attrs[..|attrs| - 1], name);
    }
  }

  /** time.Time{}.Unix(): the seconds from 1970 back to January 1 of year 1, what a failed time.Parse leaves. */
  const ZeroTimeUnix: int := -62135596800

  /**
   * The code the reader calls but which is not modelled here:
   * strip.StripTags, and time.Parse with layout "2006-01-02T15:04:05.000"
   * as the Unix seconds of the instant it parses, None when it fails.
   */
  datatype Env = Env(stripTags: string -> string, parseTime: string -> Option<int>)

  /** dt.Unix() after `dt, _ := time.Parse(...)`. */
  function UnixOrZero(t: Option<int>): int
  {
    if t.Some? then t.value else ZeroTimeUnix
  }

  /** The document parseAttrs builds from a row's attributes. */
  function RowDoc(attrs: seq<Attr>, env: Env): Doc
  {
    var d := NewDocument(LastValue(attrs, "Id"), 1.0);
    var d := Set(d, "body", Str(env.stripTags(LastValue(attrs, "Body"))));
    var d := Set(d, "title", Str(LastValue(attrs, "Title")));
    var d := Set(d, "tags", Str(Join(TagsOf(LastValue(attrs, "Tags")), ",")));
    var d := Set(d, "score", Str(LastValue(attrs, "Score")));
    var d := Set(d, "answers", Str(LastValue(attrs, "AnswerCount")));
    Set(d, "time", Int(UnixOrZero(env.parseTime(LastValue(attrs, "CreationDate")))))
  }

  /** parseAttrs: collects the attributes into a map, later ones overwriting earlier ones, then builds the document. */
  method ParseAttrs(attrs: seq<Attr>, env: Env) returns (doc: Doc)
    ensures doc == RowDoc(attrs, env)
  {
    var m: map<string, string> := map[];
    for i := 0 to |attrs|
      invariant forall k :: Get(m, k) == LastValue(attrs[..i], k)
    {
      assert attrs[..i + 1][..i] == attrs[..i];
      m := m[attrs[i].name := attrs[i].value];
    }
    assert attrs[..|attrs|] == attrs;
    assert Get(m, "Id") == LastValue(attrs, "Id") && Get(m, "Body") == LastValue(attrs, "Body");
    assert Get(m, "Title") == LastValue(attrs, "Title") && Get(m, "Tags") == LastValue(attrs, "Tags");
    assert Get(m, "Score") == LastValue(attrs, "Score") && Get(m, "AnswerCount") == LastValue(attrs, "AnswerCount");
    assert Get(m, "CreationDate") == LastValue(attrs, "CreationDate");
    var tags := ProcessTags(Get(m, "Tags"));
    doc := NewDocument(Get(m, "Id"), 1.0);
    doc := Set(doc, "body", Str(env.stripTags(Get(m, "Body"))));
    doc := Set(doc, "title", Str(Get(m, "Title")));
    doc := Set(doc, "tags", Str(tags));
    doc := Set(doc, "score", Str(Get(m, "Score")));
    doc := Set(doc, "answers", Str(Get(m, "AnswerCount")));
    doc := Set(doc, "time", Int(UnixOrZero(env.parseTime(Get(m, "CreationDate")))));
  }

  // ------------------------------------------------------------ the reader

  /** A `row` start element. */
  predicate IsRow(r: Raw)
  {
    r.Tok? && r.t.StartElement? && r.t.name == "row"
  }

  /**
   * Read over the RawToken results `rs`: skips every token that is not a
   * `row` start element and every error other than io.EOF; the first row
   * gives its document; io.EOF, or the end of the input, gives the empty
   * document and io.EOF.
   */
  function NextRow(rs: seq<Raw>, env: Env): (s: Scan)
    ensures s.used <= |rs|
    decreases |rs|
  {
    if rs == [] then Scan(ReadOut(Empty, Some(EOF)), 0)
    else if rs[0] == Fail(EOF) then Scan(ReadOut(Empty, Some(EOF)), 1)
    else if IsRow(rs[0]) then Scan(ReadOut(RowDoc(rs[0].t.attrs, env), None), 1)
    else After(NextRow(rs[1..], env), 1)
  }

  /**
   * The results Read passes over are neither rows nor io.EOF; a nil error
   * comes with the document of the row consumed last; otherwise Read gives
   * the empty document and io.EOF, having stopped at io.EOF or having used
   * up an input without rows.
   */
  lemma {:induction false} NextRowShape(rs: seq<Raw>, env: Env)
    ensures var s := NextRow(rs, env);
      && (forall k :: 0 <= k < s.used - 1 ==> !IsRow(rs[k]) && rs[k] != Fail(EOF))
      && (s.out.err == None ==>
        s.used >= 1 && IsRow(rs[s.used - 1]) && s.out.doc == RowDoc(rs[s.used - 1].t.attrs, env))
      && (s.out.err != None ==>
        s.out == ReadOut(Empty, Some(EOF)) && (s.used == |rs| || (s.used >= 1 && rs[s.used - 1] == Fail(EOF))))
      && (s.out.err != None && s.used == |rs| && (s.used == 0 || rs[s.used - 1] != Fail(EOF)) ==>
        forall k :: 0 <= k < |rs| ==> !IsRow(rs[k]))
    decreases |rs|
  {
    if rs != [] && rs[0] != Fail(EOF) && !IsRow(rs[0]) {
      NextRowShape(rs[1..], env);
      assert forall k :: 1 <= k < |rs| ==> rs[k] == rs[1..][k - 1];
    }
  }

  /** Read returns the first row when there is one before io.EOF, and io.EOF exactly when there is none. */
  lemma NextRowFinds(rs: seq<Raw>, env: Env)
    ensures NextRow(rs, env).out.err == None <==>
      exists i :: 0 <= i < |rs| && IsRow(rs[i]) && forall k :: 0 <= k < i ==> rs[k] != Fail(EOF)
  {
    var s := NextRow(rs, env);
    NextRowShape(rs, env);
    if s.out.err == None {
      assert IsRow(rs[s.used - 1]);
    } else {
      forall i | 0 <= i < |rs| && IsRow(rs[i]) ensures exists k :: 0 <= k < i && rs[k] == Fail(EOF) {
        assert s.used - 1 < i;
      }
    }
  }

  /** StackExchangeReader: the RawToken results its decoder has still to return. */
  class StackExchangeReader {
    var rest: seq<Raw>

    /** NewStackExchangeReader */
    constructor (input: seq<Raw>)
      ensures rest == input
    {
      rest := input;
    }

    /** Read: the loop `for err != io.EOF` over RawToken. */
    method Read(env: Env) returns (doc: Doc, err: Option<Error>)
      modifies this
      ensures var s := NextRow(old(rest), env);
        ReadOut(doc, err) == s.out && rest == old(rest)[s.used..]
    {
      ghost var rs := rest;
      ghost var used := 0;
      doc := Empty;
      err := None;
      while err != Some(EOF)
        invariant used <= |rs| && rest == rs[used..] && doc == Empty
        invariant err != Some(EOF) ==> NextRow(rs, env) == After(NextRow(rest, env), used)
        invariant err == Some(EOF) ==> NextRow(rs, env) == Scan(ReadOut(Empty, Some(EOF)), used)
        decreases |rest| + if err == Some(EOF) then 0 else 1
      {
        var tok: Raw;
        if rest == [] {
          tok := Fail(EOF);
        } else {
          tok := rest[0];
          assert rs[used + 1..] == rest[1..];
          rest := rest[1..];
          used := used + 1;
        }
        match tok
        case Tok(t) =>
          err := None;
          if t.StartElement? && t.name == "row" {
            doc := ParseAttrs(t.attrs, env);
            return;
          }
        case Fail(e) =>
          err := Some(e);
      }
    }
  }
}
