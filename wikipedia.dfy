/**
 * The Wikipedia abstracts reader (parser/wikipedia.go): a scan over the
 * raw XML tokens of an abstracts dump that gathers the text of the
 * `title`, `url` and `abstract` elements of each `doc` element and turns
 * every page the filter accepts into a document.
 */
module Wikipedia {
  import opened Wrappers
  import opened Documents
  import opened GoStrings
  import opened GoPaths
  import opened XmlTokens

  /** filter: pages that are lists, redirects or disambiguation pages are dropped. */
  predicate Filter(title: string, body: string)
  {
    !(HasPrefix(title, "List of") || HasPrefix(body, "#REDIRECT") || HasPrefix(body, "#redirect")
      || Contains(title, "(disambiguation)"))
  }

  /** The filter in terms of positions: it accepts exactly when none of the four patterns is found. */
  lemma FilterIff(title: string, body: string)
    ensures Filter(title, body) <==>
      !OccursAt(title, "List of", 0) && !OccursAt(body, "#REDIRECT", 0) && !OccursAt(body, "#redirect", 0)
      && forall i :: !OccursAt(title, "(disambiguation)", i)
  {
    ContainsIff(title, "(disambiguation)");
  }

  /** The title a page is indexed under: trimmed, without the "Wikipedia: " prefix. */
  function PageTitle(title: string): string
  {
    TrimPrefix(TrimSpace(title), "Wikipedia: ")
  }

  /** The document built from a page's title, url and abstract text. */
  function AbstractDoc(title: string, url: string, summary: string): Doc
  {
    var d := NewDocument(Base(url), 1.0);
    var d := Set(d, "title", Str(PageTitle(title)));
    var d := Set(d, "body", Str(TrimSpace(summary)));
    Set(d, "url", Str(TrimSpace(url)))
  }

  /** Whether the page held in `props` gives a document when its `doc` element ends. */
  predicate Accepts(props: map<string, string>)
  {
    |Base(Get(props, "url"))| > 0 && Filter(PageTitle(Get(props, "title")), TrimSpace(Get(props, "abstract")))
  }

  /** The document for the page held in `props`. */
  function PageDoc(props: map<string, string>): Doc
  {
    AbstractDoc(Get(props, "title"), Get(props, "url"), Get(props, "abstract"))
  }

  /** What every document the reader returns looks like. */
  predicate Accepted(d: Doc)
  {
    && d.id != "" && d.score == 1.0
    && d.props.Keys == {"title", "body", "url"}
    && d.props["title"].Str? && d.props["body"].Str? && d.props["url"].Str?
    && Filter(d.props["title"].s, d.props["body"].s)
    && (d.props["body"].s != [] ==> !IsSpace(d.props["body"].s[0]) && !IsSpace(d.props["body"].s[|d.props["body"].s| - 1]))
    && (d.props["url"].s != [] ==> !IsSpace(d.props["url"].s[0]) && !IsSpace(d.props["url"].s[|d.props["url"].s| - 1]))
  }

  /** A page the reader accepts gives an id-bearing document that passes the filter. */
  lemma PageDocAccepted(props: map<string, string>)
    requires Accepts(props)
    ensures Accepted(PageDoc(props))
  {
    var d := PageDoc(props);
    var body := TrimSpace(Get(props, "abstract"));
    var url := TrimSpace(Get(props, "url"));
    assert d.props == map["title" := Str(PageTitle(Get(props, "title"))), "body" := Str(body), "url" := Str(url)];
    assert d.props["body"].s == body && d.props["url"].s == url;
  }

  /** The text a CharData token adds: the reader ignores pieces of at most one character. */
  function Piece(t: string): string
  {
    if |t| > 1 then t else ""
  }

  /** What one RawToken result does to the reader: go on from a new state, or stop with a result. */
  datatype Step = Continue(props: map<string, string>, text: string) | Stop(out: ReadOut)

  /**
   * One pass of the loop from the state (`props`, `text`): character data
   * is collected, the end of `title`, `url` or `abstract` stores the
   * collected text, the end of `doc` either returns the page or forgets it,
   * and every end tag clears the collected text; errors other than io.EOF
   * are passed over and io.EOF gives the empty document.
   */
  function StepOn(r: Raw, props: map<string, string>, text: string): Step
  {
    match r
    case Fail(e) =>
      if e == EOF then Stop(ReadOut(Empty, Some(EOF))) else Continue(props, text)
    case Tok(CharData(t)) => Continue(props, text + Piece(t))
    case Tok(EndElement(name)) =>
      if name == "title" || name == "url" || name == "abstract" then Continue(props[name := text], "")
      else if name == "doc" then
        if Accepts(props) then Stop(ReadOut(PageDoc(props), None)) else Continue(map[], "")
      else Continue(props, "")
    case Tok(_) => Continue(props, text)
  }

  /** A step stops with a document only at the end of an accepted page, and otherwise only at io.EOF. */
  lemma StepStops(r: Raw, props: map<string, string>, text: string)
    requires StepOn(r, props, text).Stop?
    ensures var out := StepOn(r, props, text).out;
      && (out.err == None ==> r == Tok(EndElement("doc")) && Accepted(out.doc))
      && (out.err != None ==> r == Fail(EOF) && out == ReadOut(Empty, Some(EOF)))
  {
    if StepOn(r, props, text).out.err == None {
      PageDocAccepted(props);
    }
  }

  /**
   * Read from the state (`props`, `text`) over the RawToken results `rs`,
   * one step at a time; the end of the input gives the empty document and
   * io.EOF.
   */
  function NextPage(rs: seq<Raw>, props: map<string, string>, text: string): (s: Scan)
    ensures s.used <= |rs|
    decreases |rs|
  {
    if rs == [] then Scan(ReadOut(Empty, Some(EOF)), 0)
    else match StepOn(rs[0], props, text)
      case Stop(out) => Scan(out, 1)
      case Continue(p, t) => After(NextPage(rs[1..], p, t), 1)
  }

  /**
   * A document Read returns is an accepted page, returned at the end of its
   * `doc` element; otherwise Read gives the empty document and io.EOF,
   * having stopped at io.EOF or at the end of the input.
   */
  lemma {:induction false} NextPageShape(rs: seq<Raw>, props: map<string, string>, text: string)
    ensures var s := NextPage(rs, props, text);
      && (s.out.err == None ==> s.used >= 1 && rs[s.used - 1] == Tok(EndElement("doc")) && Accepted(s.out.doc))
      && (s.out.err != None ==>
        s.out == ReadOut(Empty, Some(EOF)) && (s.used == |rs| || (s.used >= 1 && rs[s.used - 1] == Fail(EOF))))
    decreases |rs|
  {
    if rs != [] {
      match StepOn(rs[0], props, text)
      case Stop(out) =>
        StepStops(rs[0], props, text);
      case Continue(p, t) =>
        NextPageShape(rs[1..], p, t);
        var s1 := NextPage(rs[1..], p, t);
        if s1.used >= 1 {
          assert rs[1..][s1.used - 1] == rs[s1.used];
        }
    }
  }

  /** path.Base never yields "", so a page is accepted exactly when it passes the filter. */
  lemma AcceptsIffFilter(props: map<string, string>)
    ensures Accepts(props) <==> Filter(PageTitle(Get(props, "title")), TrimSpace(Get(props, "abstract")))
  {
  }

  /** The tokens of one text element: `<name>t</name>`. */
  function FieldTokens(name: string, t: string): seq<Raw>
  {
    [Tok(StartElement(name, [])), Tok(CharData(t)), Tok(EndElement(name))]
  }

  /** The tokens of one abstracts page: `<doc><title>…</title><url>…</url><abstract>…</abstract></doc>`. */
  function PageTokens(title: string, url: string, summary: string): seq<Raw>
  {
    [Tok(StartElement("doc", []))] + FieldTokens("title", title) + FieldTokens("url", url)
      + FieldTokens("abstract", summary) + [Tok(EndElement("doc"))]
  }

  /** Reading a `title`, `url` or `abstract` element stores its text under its name. */
  lemma FieldRead(name: string, t: string, rest: seq<Raw>, props: map<string, string>)
    requires name == "title" || name == "url" || name == "abstract"
    ensures NextPage(FieldTokens(name, t) + rest, props, "") == After(NextPage(rest, props[name := Piece(t)], ""), 3)
  {
    var rs := FieldTokens(name, t) + rest;
    var r1 := [Tok(CharData(t)), Tok(EndElement(name))] + rest;
    var r2 := [Tok(EndElement(name))] + rest;
    assert rs == [Tok(StartElement(name, []))] + r1 && r1 == [Tok(CharData(t))] + r2;
    assert rs[1..] == r1 && r1[1..] == r2 && r2[1..] == rest;
    assert NextPage(r2, props, Piece(t)) == After(NextPage(rest, props[name := Piece(t)], ""), 1);
    assert NextPage(r1, props, "") == After(NextPage(r2, props, Piece(t)), 1) by {
      assert "" + Piece(t) == Piece(t);
    }
  }

  /** Helper: the end of a `doc` element returns the page or forgets it. */
  lemma DocEndRead(rest: seq<Raw>, props: map<string, string>)
    ensures NextPage([Tok(EndElement("doc"))] + rest, props, "") ==
      if Filter(PageTitle(Get(props, "title")), TrimSpace(Get(props, "abstract")))
      then Scan(ReadOut(PageDoc(props), None), 1)
      else After(NextPage(rest, map[], ""), 1)
  {
    assert ([Tok(EndElement("doc"))] + rest)[1..] == rest;
  }

  /**
   * Reading a page from a fresh state returns that page's document when the
   * filter accepts it and otherwise goes on with the tokens after it, from a
   * fresh state again.
   */
  lemma PageRead(title: string, url: string, summary: string, rest: seq<Raw>)
    ensures var s := NextPage(PageTokens(title, url, summary) + rest, map[], "");
      if Filter(PageTitle(Piece(title)), TrimSpace(Piece(summary))) then
        s == Scan(ReadOut(AbstractDoc(Piece(title), Piece(url), Piece(summary)), None), 11)
      else s == After(NextPage(rest, map[], ""), 11)
  {
    var p1 := map["title" := Piece(title)];
    var p2 := p1["url" := Piece(url)];
    var p3 := p2["abstract" := Piece(summary)];
    var close := [Tok(EndElement("doc"))] + rest;
    var r3 := FieldTokens("abstract", summary) + close;
    var r2 := FieldTokens("url", url) + r3;
    var r1 := FieldTokens("title", title) + r2;
    var rs := [Tok(StartElement("doc", []))] + r1;
    assert rs == PageTokens(title, url, summary) + rest;
    assert rs[1..] == r1;
    FieldRead("title", title, r2, map[]);
    FieldRead("url", url, r3, p1);
    FieldRead("abstract", summary, close, p2);
    DocEndRead(rest, p3);
    assert map[]["title" := Piece(title)] == p1;
    assert Get(p3, "title") == Piece(title) && Get(p3, "url") == Piece(url) && Get(p3, "abstract") == Piece(summary);
  }

  /** WikipediaAbstractsReader: the RawToken results its decoder has still to return. */
  class WikipediaAbstractsReader {
    var rest: seq<Raw>

    /** NewWikipediaAbstractReader */
    constructor (input: seq<Raw>)
      ensures rest == input
    {
      rest := input;
    }

    /** Read: the loop `for err != io.EOF` over RawToken, with its page map and collected text. */
    method Read() returns (doc: Doc, err: Option<Error>)
      modifies this
      ensures var s := NextPage(old(rest), map[], "");
        ReadOut(doc, err) == s.out && rest == old(rest)[s.used..]
    {
      ghost var rs := rest;
      ghost var used := 0;
      var props: map<string, string> := map[];
      var currentText := "";
      doc := Empty;
      err := None;
      while err != Some(EOF)
        invariant used <= |rs| && rest == rs[used..] && doc == Empty
        invariant err != Some(EOF) ==> NextPage(rs, map[], "") == After(NextPage(rest, props, currentText), used)
        invariant err == Some(EOF) ==> NextPage(rs, map[], "") == Scan(ReadOut(Empty, Some(EOF)), used)
        decreases |rest| + if err == Some(EOF) then 0 else 1
      {
        var tok: Raw;
        if rest == [] {
          tok := Fail(EOF);
        } else {
          tok := rest[0];
          assert rs[used + 1..] == rest[1..];
          rest := rest[1..];
          used := used + 1;
        }
        match tok
        case Fail(e) =>
          err := Some(e);
        case Tok(t) =>
          err := None;
          match t
          case CharData(text) =>
            if |text| > 1 {
              currentText := currentText + text;
            } else {
              assert currentText + Piece(text) == currentText;
            }
          case EndElement(name) =>
            if name == "title" || name == "url" || name == "abstract" {
              props := props[name := currentText];
            } else if name == "doc" {
              var id := Base(Get(props, "url"));
              if |id| > 0 {
                var title := TrimPrefix(TrimSpace(Get(props, "title")), "Wikipedia: ");
                var body := TrimSpace(Get(props, "abstract"));
                if Filter(title, body) {
                  doc := NewDocument(id, 1.0);
                  doc := Set(doc, "title", Str(title));
                  doc := Set(doc, "body", Str(body));
                  doc := Set(doc, "url", Str(TrimSpace(Get(props, "url"))));
                  return;
                }
              }
              props := map[];
            }
            currentText := "";
          case _ =>
      }
    }
  }
}
