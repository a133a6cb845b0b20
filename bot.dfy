/**
 * The message handlers: every text is stripped and, unless blank, answered
 * with the tenders of the last 24 hours that match it, or with a
 * "nothing found" notice.
 */
module Bot {
  import opened Wrappers
  import opened Text
  import opened Tender
  import opened Feed
  import opened Matcher
  import opened Formatter

  /** The look-back window, timedelta(hours=24), in microseconds. */
  const LookbackMicros := 24 * 60 * 60 * 1000000

  /** The keyboard's keyword buttons. */
  const Buttons: seq<string> := [
    "геотекстиль",
    "бентоніт",
    "георешітка",
    "геомембрана",
    "геосітка",
    "Протирадіаційного укриття нове будівництво",
    "Будівництво захисної споруди"
  ]

  /** start_handler's greeting (sent with the keyboard). */
  const Greeting := "Привіт! Я шукаю тендери в Prozorro за останні 24 години по вибраним ключовим словам.\n"
    + "Натисніть кнопку або напишіть слово."

  /**
   * The CommandStart() filter start_handler is registered with, ahead of the
   * other handlers: the first word is "/" then "start", optionally followed
   * by "@" and a mention which, when not empty, must name this bot, compared
   * case-insensitively. Anything after the first word is the command's
   * argument and does not matter.
   */
  predicate IsStartCommand(cfg: Config, text: string)
  {
    var word := FirstWord(text);
    && word != ""
    && word[0] == '/'
    && var parts := PartitionAt(word[1..], '@');
    && parts.0 == "start"
    && (parts.1 == "" || LowerStr(cfg.lower, parts.1) == LowerStr(cfg.lower, cfg.username))
  }

  function NotFoundMessage(kw: string): string
  {
    "За останні 24 години по запиту «" + kw + "» тендерів не знайдено."
  }

  /** What handling one message does: the texts sent, in order, or the error it raised. */
  datatype Outcome = Sent(messages: seq<string>) | Raised(error: FetchError)

  /** The records fetched for a query made at `now` (microseconds since the epoch, UTC). */
  function Recent(cfg: Config, now: int): Result<seq<TenderRecord>, FetchError>
  {
    Walk(cfg.source, cfg.parse, now - LookbackMicros, None, MaxPages).outcome
  }

  /** The reply to keyword `kw`: the failure, the "nothing found" notice, or the chunks. */
  function Answer(cfg: Config, now: int, kw: string): Outcome
  {
    match Recent(cfg, now)
    case Failure(e) => Raised(e)
    case Success(recent) =>
      var matched := SortDesc(Matching(cfg.lower, kw, recent));
      if matched == [] then Sent([NotFoundMessage(kw)])
      else Sent(ChunkText(MessageBlocks(kw, matched, DefaultLimit, cfg.apiBase, cfg.render)))
  }

  /** get_tenders_for_keyword: fetch since 24 hours before `now`, then match and sort. */
  method GetTendersForKeyword(cfg: Config, now: int, keyword: string) returns (r: Result<seq<TenderRecord>, FetchError>)
    ensures Recent(cfg, now).Failure? ==> r == Failure(Recent(cfg, now).error)
    ensures Recent(cfg, now).Success? ==>
      && r.Success?
      && r.value == SortDesc(Matching(cfg.lower, keyword, Recent(cfg, now).value))
      && SortedDesc(r.value)
      && forall t :: multiset(r.value)[t] ==
           if Matches(cfg.lower, keyword, t) then multiset(Recent(cfg, now).value)[t] else 0
  {
    var cutoff := now - LookbackMicros;
    var fetched;
    ghost var requests;
    fetched, requests := FetchTendersSince(cfg.source, cfg.parse, cutoff);
    if fetched.Failure? {
      return Failure(fetched.error);
    }
    var matched := MatchTenders(cfg.lower, keyword, fetched.value);
    r := Success(matched);
  }

  /** The body shared by both handlers once the keyword is known. */
  method AnswerKeyword(cfg: Config, now: int, kw: string) returns (o: Outcome)
    ensures o == Answer(cfg, now, kw)
  {
    var tenders := GetTendersForKeyword(cfg, now, kw);
    if tenders.Failure? {
      return Raised(tenders.error);
    }
    if tenders.value == [] {
      return Sent([NotFoundMessage(kw)]);
    }
    var chunks := FormatTendersMessage(kw, tenders.value, DefaultLimit, cfg.apiBase, cfg.render);
    o := Sent(chunks);
  }

  /** Every button is already stripped and not blank. */
  lemma ButtonsNotBlank()
    ensures forall b :: b in Buttons ==> Strip(b) == b && b != ""
  {
    forall b | b in Buttons ensures Strip(b) == b && b != "" {
      assert b != "" && !IsSpace(b[0]) && !IsSpace(b[|b| - 1]);
    }
  }

  /**
   * Routing of a text message, in the order the handlers are registered: a
   * start command gets the greeting; a button press goes to keyword_handler;
   * any other text to any_text_handler, which ignores a blank text. So a
   * blank text gets no reply and any other text gets the answer for its
   * stripped form.
   */
  method HandleText(cfg: Config, now: int, text: string) returns (o: Outcome)
    ensures IsStartCommand(cfg, text) ==> o == Sent([Greeting])
    ensures !IsStartCommand(cfg, text) && Strip(text) == "" ==> o == Sent([])
    ensures !IsStartCommand(cfg, text) && Strip(text) != "" ==> o == Answer(cfg, now, Strip(text))
  {
    if IsStartCommand(cfg, text) {
      return Sent([Greeting]);
    }
    ButtonsNotBlank();
    if text in Buttons {
      var kw := Strip(text);
      o := AnswerKeyword(cfg, now, kw);
    } else {
      var kw := Strip(text);
      if kw == "" {
        return Sent([]);
      }
      o := AnswerKeyword(cfg, now, kw);
    }
  }

  /**
   * "/start" alone, and "/start" followed by white space and any argument,
   * are start commands, whatever the bot is called.
   */
  lemma StartCommandForms(cfg: Config, space: char, args: string)
    requires IsSpace(space)
    ensures IsStartCommand(cfg, "/start")
    ensures IsStartCommand(cfg, "/start" + [space] + args)
  {
    StartWord(cfg, "");
    assert "/start" + "" == "/start";
    StartWord(cfg, [space] + args);
    assert "/start" + ([space] + args) == "/start" + [space] + args;
  }

  /** "/start" as the first word, followed by white space or nothing. */
  lemma StartWord(cfg: Config, rest: string)
    requires rest == [] || IsSpace(rest[0])
    ensures IsStartCommand(cfg, "/start" + rest)
  {
    FirstWordOf("/start", rest);
    PartitionAtJoin("start", '@', "");
    assert "/start"[1..] == "start";
  }

  /** No keyboard button is a start command, so every button reaches keyword_handler. */
  lemma ButtonsNotStart(cfg: Config)
    ensures forall b :: b in Buttons ==> !IsStartCommand(cfg, b)
  {
    forall b | b in Buttons ensures !IsStartCommand(cfg, b) {
      assert b != [] && !IsSpace(b[0]) && b[0] != '/';
      assert FirstWord(b) == Word(b);
    }
  }

  /**
   * The "nothing found" notice is sent exactly when the fetch succeeded and
   * no fetched record matches; a non-empty match list never produces it.
   */
  lemma NotFoundExactly(cfg: Config, now: int, kw: string)
    ensures Answer(cfg, now, kw) == Sent([NotFoundMessage(kw)]) <==>
      Recent(cfg, now).Success? && forall t :: t in Recent(cfg, now).value ==> !Matches(cfg.lower, kw, t)
  {
    if Recent(cfg, now).Success? {
      var recent := Recent(cfg, now).value;
      var matched := SortDesc(Matching(cfg.lower, kw, recent));
      MatchingCounts(cfg.lower, kw, recent);
      SortDescSorted(Matching(cfg.lower, kw, recent));
      if matched == [] {
        forall t | t in recent ensures !Matches(cfg.lower, kw, t) {
          assert multiset(matched)[t] == 0;
        }
      } else {
        var t := matched[0];
        assert multiset(matched)[t] > 0;
        assert t in recent && Matches(cfg.lower, kw, t);
        ChunksNotNotice(kw, matched, cfg.apiBase, cfg.render);
      }
    }
  }

  /** The formatted chunks never read as the "nothing found" notice. */
  lemma ChunksNotNotice(kw: string, matched: seq<TenderRecord>, apiBase: string, render: string -> string)
    ensures ChunkText(MessageBlocks(kw, matched, DefaultLimit, apiBase, render)) != [NotFoundMessage(kw)]
  {
    var blocks := MessageBlocks(kw, matched, DefaultLimit, apiBase, render);
    ChunksJoinBack(blocks);
    ConcatCons(blocks[0], blocks[1..]);
    assert [blocks[0]] + blocks[1..] == blocks;
    ConcatSingle(NotFoundMessage(kw));
    assert Concat(ChunkText(blocks))[0] != NotFoundMessage(kw)[0];
  }

  /**
   * When tenders match, the messages sent are at least one; joined they are
   * the header showing min(count, 10) of count followed by the blocks of the
   * ten newest matches; no message after the first is empty, and the first
   * is empty only when the header alone is longer than MaxChunk.
   */
  lemma AnswerChunks(cfg: Config, now: int, kw: string)
    requires Recent(cfg, now).Success?
    requires SortDesc(Matching(cfg.lower, kw, Recent(cfg, now).value)) != []
    ensures var matched := SortDesc(Matching(cfg.lower, kw, Recent(cfg, now).value));
      var shown := Min(|matched|, DefaultLimit);
      var header := Header(kw, shown, |matched|);
      && Answer(cfg, now, kw).Sent?
      && var ms := Answer(cfg, now, kw).messages;
      && ms != []
      && Concat(ms) == header + Concat(BlockList(matched[..shown], cfg.apiBase, cfg.render))
      && (forall i :: 1 <= i < |ms| ==> ms[i] != "")
      && (ms[0] == "" <==> |header| > MaxChunk)
  {
    var matched := SortDesc(Matching(cfg.lower, kw, Recent(cfg, now).value));
    var blocks := MessageBlocks(kw, matched, DefaultLimit, cfg.apiBase, cfg.render);
    ChunksJoinBack(blocks);
    ChunksOnlyFirstEmpty(blocks);
    ConcatCons(blocks[0], blocks[1..]);
    assert [blocks[0]] + blocks[1..] == blocks;
  }
}
