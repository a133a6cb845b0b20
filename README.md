# geomot-bot core, modelled in Dafny

geomot-bot is a Telegram bot that answers a keyword (pressed as a keyboard
button or typed as free text) with the Prozorro procurement tenders changed
in the last 24 hours whose title or description contains that keyword. This
project models the four parts of `main.py` that decide what the bot answers:

- **the feed walk** (`fetch_tenders_since`, module `Feed`): pages of the
  Prozorro tender feed are requested newest first, following the offset each
  page returns, at most 50 pages; records without `dateModified` are skipped,
  the walk stops at the first record older than the cutoff, at an empty page
  or at a page without a next offset; an HTTP failure or an unparsable
  timestamp raises;
- **the matcher** (`get_tenders_for_keyword`, module `Matcher` and
  `Bot.GetTendersForKeyword`): case-insensitive substring match on title or
  description, then a stable sort by `dateModified`, newest first;
- **the formatter** (`format_tenders_message`, module `Formatter`): a header
  "showing min(n, 10) of n", one four-line block per shown tender with the
  placeholder rules for missing fields, and a greedy packer that joins whole
  blocks into chunks of at most 3800 characters, unless a single block is
  longer;
- **the handlers** (`start_handler`'s routing, `keyword_handler`,
  `any_text_handler`, module `Bot`): a start command gets the greeting;
  otherwise the text is stripped, a blank text gets no reply, and any other
  text gets the "nothing found" notice or the chunks.

The feed is a function from the requested offset to a page or an error
(`Tender.PageSource`), the ISO-8601 timestamp parser is a function to epoch
microseconds that may fail (`Tender.Parser`), the resolution at which
Python compares datetimes, Unicode lower-casing is a function
on characters, and the Kyiv-time rendering of a timestamp is a function on
strings; all four are fields of `Tender.Config`. The feed walk is specified
by the recursive function `Feed.Walk`, and the imperative method
`Feed.FetchTendersSince`, a loop over pages with an inner loop over records
(`Feed.ScanPage`), is proved equal to it. The stable sort is specified by a
functional insertion sort, `Matcher.SortDesc`, and
`Matcher.SortDescIsStableSort` proves that any stable, descending
rearrangement of the input equals it, so it is the order Python's `list.sort`
produces. The chunk packer is specified by `Formatter.Groups`, and the loop
`Formatter.PackChunks` is proved equal to it.

Files: `wrappers.dfy` (Option, Result), `text.dfy` (joining, substring
search, Python's `str.strip`, decimal rendering, string order), `tender.dfy`
(the feed's records and pages, the injected functions), `feed.dfy`,
`matcher.dfy`, `formatter.dfy`, `bot.dfy`.

Behaviour of `main.py` worth noting:

- a record whose `dateModified` does not parse raises out of the whole walk
  (`datetime.fromisoformat` is not guarded); it is not skipped;
- a failed fetch is not answered with a distinct message: the exception
  leaves the handler and nothing is sent (`Bot.Outcome.Raised`);
- a single block, or the header, longer than 3800 characters is sent as a
  chunk of its own that exceeds 3800, and if the header alone is that long
  an empty first chunk is produced (`Formatter.ChunksOversized`,
  `Formatter.ChunksOnlyFirstEmpty`).

## Model

| member | source | states |
|---|---|---|
| Feed.FirstHalt | main.py:146-153 | the position of the first dated record that is older than the cutoff or does not parse; no record before it halts the scan |
| Feed.DatedOnlyMembers | main.py:147-149 | skipping undated records keeps exactly the records whose `dateModified` is truthy, each as often as it occurs, and drops the others |
| Feed.DatedOnlySingle | main.py:147-149 | a single record is kept exactly when its `dateModified` is truthy |
| Feed.DatedOnlyAppend | main.py:146-154 | skipping undated records keeps their order: the records kept from two runs laid end to end are those kept from the first followed by those kept from the second |
| Feed.KeptOfRecent | main.py:146-154 | every record a page contributes is dated and at or after the cutoff |
| Feed.WalkChain | main.py:130-161 | the walk makes at most 50 requests, the first without offset, and each later one with the offset the previous page returned, after a non-empty page with no record older than the cutoff |
| Feed.WalkStopsEarly | main.py:141-161 | a walk that makes fewer requests than the ceiling stopped on an empty page, a page with an old or unreadable record, a page without a next offset, or a failed request |
| Feed.WalkFailsLast | main.py:138-150 | the walk raises exactly when its last request failed or its page held an unreadable `dateModified` before any old record |
| Feed.WalkRecent | main.py:146-154 | every record of a successful walk is at or after the cutoff |
| Feed.WalkCollects | main.py:133-161 | a successful walk returns the contributions of the requested pages, in request order |
| Feed.CeilingReached | main.py:130-133 | against a feed where every page goes on, the walk stops after exactly the ceiling number of requests, successfully |
| Feed.ScanPage | main.py:145-154 | scanning one page appends its dated records up to the first halting record, and reports whether it stopped and which unparsable timestamp, if any, stopped it |
| Feed.FetchTendersSince | main.py:118-163 | the loop's result and requests are those of the specification walk from no offset with 50 pages, and every record it returns is recent |
| Matcher.MatchingCounts | main.py:172-178 | the filter keeps each record as often as it occurs in the input when its lower-cased title or description contains the lower-cased keyword, and drops it otherwise |
| Matcher.SortDescSorted | main.py:180 | the sort is a permutation of its input and is ordered newest `dateModified` first, a missing date counting as the empty string |
| Matcher.SortDescStable | main.py:180 | records with equal sort keys keep their input order |
| Matcher.SortDescIsStableSort | main.py:180 | any ordering that is descending and keeps the input order of equal keys equals the specification sort |
| Matcher.MatchTenders | main.py:172-181 | the returned list is the matching records, sorted newest first and stable, each kept as often as in the input |
| Bot.GetTendersForKeyword | main.py:165-181 | a failed fetch is propagated; otherwise the result is the matching fetched records, newest first, with their input multiplicities |
| Text.ContainsIffOccurs | main.py:177 | the substring test holds exactly when the needle occurs at some position of the haystack |
| Text.StripSplit | main.py:62 | stripping removes exactly a leading and a trailing run of Python whitespace, leaves a text that begins and ends with non-whitespace, and is empty exactly for an all-whitespace text |
| Text.DecimalRoundTrip | main.py:188 | the rendered count is a run of digits without leading zero that reads back as the count |
| Text.LexLessTotal | main.py:180 | two different keys are always ordered one way or the other |
| Text.LexLessTransitive | main.py:180 | the key order is transitive |
| Formatter.ShownFields | main.py:192-198 | the shown title and customer are never empty: placeholders replace missing values |
| Formatter.BlockRoundTrip | main.py:200-205 | a block reads back to the four fields it was built from when none contains a line break |
| Formatter.BlockShows | main.py:192-206 | a tender's block shows its title or "Без назви", its customer name or "—", its rendered date or "—", and the portal link when it has a `tenderID`, else the API link with its `id` |
| Formatter.MessageBlocks | main.py:188-206 | the header comes first, then the blocks of the first min(n, limit) tenders, all non-empty |
| Formatter.ChunksJoinBack | main.py:208-217 | the chunks joined together are exactly the blocks joined together: nothing is lost, duplicated or reordered |
| Formatter.ChunksWholeBlocks | main.py:208-217 | every chunk is a run of whole consecutive blocks |
| Formatter.ChunksOversized | main.py:209-214 | a chunk longer than 3800 characters holds a single block |
| Formatter.ChunksGreedy | main.py:210-212 | a chunk is closed only when the next block would take it over 3800 characters |
| Formatter.ChunksOnlyFirstEmpty | main.py:209-216 | with non-empty blocks, there are chunks exactly when there are blocks, no chunk after the first is empty, and the first is empty exactly when the first block alone exceeds 3800 characters |
| Formatter.PackChunks | main.py:208-217 | the packing loop yields the specification chunks, whose concatenation is the concatenation of the blocks |
| Formatter.FormatTendersMessage | main.py:183-217 | the message chunks are the packed header and blocks, and joined they are the header followed by the blocks |
| Bot.AnswerKeyword | main.py:63-70 | the reply to a keyword is the raised fetch error, the "nothing found" notice, or the formatted chunks, as the specification answer says |
| Bot.ButtonsNotBlank | main.py:19-27 | every keyboard button is already stripped and not blank, so both handlers treat a button press alike |
| Bot.HandleText | main.py:52-84 | a start command gets the greeting; otherwise a blank text gets no reply and any other text gets the answer for its stripped form, whether it is a button or free text |
| Bot.StartCommandForms | main.py:52 | "/start" alone and "/start" followed by white space and an argument are start commands |
| Bot.ButtonsNotStart | main.py:52-60 | no keyboard button is a start command, so every button press reaches keyword_handler |
| Text.FirstWordOf | main.py:52 | a leading run without white space, followed by white space or the end, is the text's first word |
| Bot.NotFoundExactly | main.py:64-66 | the "nothing found" notice is sent exactly when the fetch succeeded and no fetched record matches |
| Bot.ChunksNotNotice | main.py:64-70 | the formatted chunks for a non-empty match list never amount to the "nothing found" notice |
| Bot.AnswerChunks | main.py:68-70 | when tenders match, at least one message is sent; joined, the messages are the header and the blocks of the ten newest matches; no message after the first is empty |

## Left out

- HTTP: the client, its 20-second timeout and the query parameters other than the offset (`opt_fields`, `limit=100`, `descending=1`) are not modelled; the feed is a function from offset to page or error, and its HTTP status check and transport errors are its error values.
- JSON decoding: fields are modelled as optional strings; a field holding a non-string JSON value is not modelled.
- Time: `datetime.now`, `fromisoformat`, the `Z` replacement, the Kyiv time zone and `strftime` are injected functions (current time as a parameter, a parser to epoch microseconds that may fail, a renderer).
- Unicode lower-casing is a per-character function, so a character whose lower case is longer than one character is not modelled.
- `limit` is a natural number; Python's slicing with a negative limit is not modelled (the handlers always pass 10).
- Matcher.SortDesc is an insertion sort rather than Timsort; Matcher.SortDescIsStableSort shows that both give the same order.
- Feed.ScanPage: the inner loop over a page's records is a method of its own; its behaviour is the loop's.
- The FastAPI routes, the webhook endpoint, startup and shutdown hooks, the keyboard construction (`make_keyboard`) and the keyboard sent with the greeting, environment configuration, and Telegram delivery (messages are the returned sequence; the `disable_web_page_preview` flag and Telegram's own rejection of an empty message are not modelled).
- aiogram's `CommandStart()` filter (`Bot.IsStartCommand`) is modelled by how it reads the first word of the text (prefix "/", command "start", optional "@" mention checked against the bot's username); aiogram itself is not part of this model, and the bot's username is a configuration value rather than a call to Telegram.
- async execution and concurrency between handlers.
- Non-text messages, which neither handler receives.
