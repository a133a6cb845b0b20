/**
 * The records of the procurement registry's tender change feed, the pages
 * the feed is served in, and the collaborators the bot is configured with.
 */
module Tender {
  import opened Wrappers

  datatype ProcuringEntity = ProcuringEntity(name: Option<string>)

  /**
   * One entry of the change feed. Every field may be missing from the JSON
   * object; `dateModified` is kept as the raw ISO-8601 text the feed sent.
   */
  datatype TenderRecord = TenderRecord(
    id: Option<string>,
    tenderID: Option<string>,
    title: Option<string>,
    description: Option<string>,
    dateModified: Option<string>,
    procuringEntity: Option<ProcuringEntity>)

  /** A page of the feed: its `data` list (missing means empty) and `next_page.offset`. */
  datatype Page = Page(data: seq<TenderRecord>, nextOffset: Option<string>)

  /** Why a query raised instead of returning tenders. */
  datatype FetchError =
    | HttpStatus(code: int)         // raise_for_status on a non-success reply
    | Transport                     // timeout or connection failure
    | BadTimestamp(raw: string)     // datetime.fromisoformat or the comparison raised

  /** One GET of the change feed, given the `offset` parameter it carries (None: no offset sent). */
  type PageSource = Option<string> -> Result<Page, FetchError>

  /**
   * Reads an ISO-8601 timestamp as a UTC instant in microseconds since the
   * epoch, the resolution of Python's datetime; None where Python raises.
   */
  type Parser = string -> Option<int>

  /** Process-wide configuration and the collaborators the core calls. */
  datatype Config = Config(
    apiBase: string,                // PROZORRO_API_BASE
    source: PageSource,             // the registry's /tenders endpoint
    parse: Parser,                  // fromisoformat after replacing "Z" by "+00:00"
    lower: char -> char,            // str.lower, one character at a time
    render: string -> string,       // fromisoformat, astimezone(Europe/Kyiv), strftime("%Y-%m-%d %H:%M")
    username: string)               // the bot's own Telegram username, as Bot.me() reports it

  /** Python truthiness of an optional string: present and not empty. */
  predicate Truthy(v: Option<string>)
  {
    v.Some? && v.value != ""
  }

  /** `v or ""` */
  function OrEmpty(v: Option<string>): string
  {
    if v.Some? then v.value else ""
  }
}
