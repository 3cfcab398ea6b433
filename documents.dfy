/** The documents the admin tool keeps in the repository: report metadata, the
    reports index, and file contents as the GitHub client moves them around.

    JSON is not spelled out character by character: the text that
    `JSON.stringify` produces for an index document is represented by the
    document itself (`IndexJson`), so parsing gives that document back, and any
    other text is taken not to parse as an index. Base64 is represented the same
    way, by the content it encodes. */
module Documents {
  import opened Common

  /** Points in time, in milliseconds. The source keeps ISO-8601 strings made
      from the same clock. */
  type Timestamp = int

  /** One entry of the reports index. */
  datatype ReportMeta = ReportMeta(
    id: string,
    title: string,
    description: string,
    categories: seq<string>,
    fileName: string,
    createdAt: Timestamp,
    updatedAt: Timestamp)

  /** `{ version, lastUpdated, reports }` as stored in the index file. */
  datatype IndexDoc = IndexDoc(version: string, lastUpdated: Timestamp, reports: seq<ReportMeta>)

  /** The text of a file: raw text, or the JSON text of an index document. */
  datatype Content = Text(text: string) | IndexJson(doc: IndexDoc)

  /** `JSON.parse` of a file's text as an index document. */
  function ParseIndex(c: Content): (r: Option<IndexDoc>)
    ensures r.Some? <==> c.IndexJson?
  {
    match c
    case IndexJson(d) => Some(d)
    case Text(_) => None
  }

  /** `Buffer.from(c).toString('base64')`. */
  datatype Base64 = Base64Of(decoded: Content)

  function EncodeBase64(c: Content): Base64 {
    Base64Of(c)
  }

  /** `Buffer.from(b, 'base64').toString('utf8')`. */
  function DecodeBase64(b: Base64): Content {
    b.decoded
  }

  /** The base64 text is empty exactly when the encoded text is. */
  predicate Base64IsEmpty(b: Base64) {
    b.decoded == Text("")
  }
}
