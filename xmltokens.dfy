/**
 * The tokens an encoding/xml Decoder hands out through RawToken, as the
 * two XML readers see them. The decoder itself is not modelled: a reader
 * holds the sequence of results its RawToken calls will return, and once
 * that sequence is used up every further call reports io.EOF.
 */
module XmlTokens {
  import opened Documents

  /** xml.Attr with only the local part of its name. */
  datatype Attr = Attr(name: string, value: string)

  /** xml.Token: the kinds the readers tell apart; comments, directives and processing instructions are OtherToken. */
  datatype Token =
    | StartElement(name: string, attrs: seq<Attr>)
    | EndElement(name: string)
    | CharData(text: string)
    | OtherToken

  /** One RawToken result: a token with a nil error, or a nil token with an error. */
  datatype Raw = Tok(t: Token) | Fail(e: Error)
}
