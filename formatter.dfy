/**
 * format_tenders_message: a header, one block per shown tender, and the
 * greedy packing of whole blocks into chunks of at most MaxChunk characters
 * (a single block longer than that travels alone).
 */
module Formatter {
  import opened Wrappers
  import opened Text
  import opened Tender

  const MaxChunk := 3800
  const DefaultLimit := 10
  const PortalBase := "https://prozorro.gov.ua/tender/"
  const Untitled := "Без назви"
  const NoValue := "—"

  function Min(a: nat, b: nat): nat
  {
    if a < b then a else b
  }

  /** The header line: keyword, number shown and number matched. */
  function Header(kw: string, shown: nat, total: nat): string
  {
    "🧾 Тендери за 24 години по запиту «" + kw + "»: показую " + DecimalString(shown)
    + " з " + DecimalString(total) + "\n\n"
  }

  /** What a block shows about one tender. */
  datatype Shown = Shown(title: string, org: string, when: string, link: string)

  /**
   * The values a block shows: the title or "Без назви", the procuring
   * entity's name or "—", the Kyiv-time modification date or "—", and the
   * portal link when the record has a tenderID, else the API resource link.
   */
  function ShownFields(t: TenderRecord, apiBase: string, render: string -> string): (f: Shown)
    ensures f.title != "" && f.org != ""
  {
    Shown(
      if Truthy(t.title) then t.title.value else Untitled,
      if t.procuringEntity.Some? && Truthy(t.procuringEntity.value.name)
        then t.procuringEntity.value.name.value else NoValue,
      if Truthy(t.dateModified) then render(t.dateModified.value) else NoValue,
      if Truthy(t.tenderID) then PortalBase + t.tenderID.value
        else apiBase + "/tenders/" + (if t.id.Some? then t.id.value else "None"))
  }

  function TitleLine(f: Shown): string { "• " + f.title }
  function OrgLine(f: Shown): string { "Замовник: " + f.org }
  function WhenLine(f: Shown): string { "Змінено: " + f.when + " (Kyiv)" }
  function LinkLine(f: Shown): string { "Посилання: " + f.link }

  /** The text of a block: four lines and a blank line. */
  function RenderBlock(f: Shown): string
  {
    TitleLine(f) + "\n" + OrgLine(f) + "\n" + WhenLine(f) + "\n" + LinkLine(f) + "\n" + "\n"
  }

  /** The block of one tender. */
  function Block(t: TenderRecord, apiBase: string, render: string -> string): string
  {
    RenderBlock(ShownFields(t, apiBase, render))
  }

  /** The first line of `s` and what follows its newline; None if `s` has no newline. */
  function SplitLine(s: string): Option<(string, string)>
  {
    if s == [] then None
    else if s[0] == '\n' then Some(("", s[1..]))
    else
      match SplitLine(s[1..])
      case None => None
      case Some(p) => Some(([s[0]] + p.0, p.1))
  }

  lemma {:induction false} SplitLineJoin(a: string, b: string)
    requires '\n' !in a
    ensures SplitLine(a + "\n" + b) == Some((a, b))
  {
    if a != [] {
      SplitLineJoin(a[1..], b);
      assert (a + "\n" + b)[1..] == a[1..] + "\n" + b;
      assert [a[0]] + a[1..] == a;
    } else {
      assert a + "\n" + b == ['\n'] + b;
    }
  }

  /** `s` with `prefix` removed from its start, if it starts so. */
  function After(prefix: string, s: string): Option<string>
  {
    if prefix <= s then Some(s[|prefix|..]) else None
  }

  /** `s` with `suffix` removed from its end, if it ends so. */
  function Before(suffix: string, s: string): Option<string>
  {
    if |suffix| <= |s| && s[|s| - |suffix|..] == suffix then Some(s[..|s| - |suffix|]) else None
  }

  /** The four lines of a block. */
  datatype Lines = Lines(first: string, second: string, third: string, fourth: string)

  /** Splits a block into its four lines, which must be followed by a blank line. */
  function SplitBlock(s: string): Option<Lines>
  {
    var p1 :- SplitLine(s);
    var p2 :- SplitLine(p1.1);
    var p3 :- SplitLine(p2.1);
    var p4 :- SplitLine(p3.1);
    if p4.1 == "\n" then Some(Lines(p1.0, p2.0, p3.0, p4.0)) else None
  }

  /** Reads the shown values off the four labelled lines. */
  function ReadFields(ls: Lines): Option<Shown>
  {
    var title :- After("• ", ls.first);
    var org :- After("Замовник: ", ls.second);
    var whenKyiv :- After("Змінено: ", ls.third);
    var when :- Before(" (Kyiv)", whenKyiv);
    var link :- After("Посилання: ", ls.fourth);
    Some(Shown(title, org, when, link))
  }

  /** Reads back the four values a block shows. */
  function ParseBlock(s: string): Option<Shown>
  {
    var ls :- SplitBlock(s);
    ReadFields(ls)
  }

  lemma NoBreakJoin(a: string, b: string)
    requires '\n' !in a && '\n' !in b
    ensures '\n' !in a + b
  {
  }

  lemma AfterPrefix(prefix: string, x: string)
    ensures After(prefix, prefix + x) == Some(x)
  {
    assert (prefix + x)[|prefix|..] == x;
  }

  lemma BeforeSuffix(x: string, suffix: string)
    ensures Before(suffix, x + suffix) == Some(x)
  {
    assert (x + suffix)[|x|..] == suffix && (x + suffix)[..|x|] == x;
  }

  lemma SplitBlockJoin(l1: string, l2: string, l3: string, l4: string)
    requires '\n' !in l1 && '\n' !in l2 && '\n' !in l3 && '\n' !in l4
    ensures SplitBlock(l1 + "\n" + l2 + "\n" + l3 + "\n" + l4 + "\n" + "\n") == Some(Lines(l1, l2, l3, l4))
  {
    var r3 := l4 + "\n" + "\n";
    var r2 := l3 + "\n" + r3;
    var r1 := l2 + "\n" + r2;
    assert l1 + "\n" + l2 + "\n" + l3 + "\n" + l4 + "\n" + "\n" == l1 + "\n" + r1;
    SplitLineJoin(l1, r1);
    SplitLineJoin(l2, r2);
    SplitLineJoin(l3, r3);
    SplitLineJoin(l4, "\n");
  }

  lemma ReadFieldsBack(f: Shown)
    ensures ReadFields(Lines(TitleLine(f), OrgLine(f), WhenLine(f), LinkLine(f))) == Some(f)
  {
    AfterPrefix("• ", f.title);
    AfterPrefix("Замовник: ", f.org);
    assert WhenLine(f) == "Змінено: " + (f.when + " (Kyiv)");
    AfterPrefix("Змінено: ", f.when + " (Kyiv)");
    BeforeSuffix(f.when, " (Kyiv)");
    AfterPrefix("Посилання: ", f.link);
  }

  /** A block reads back as exactly the values it shows, when none holds a line break. */
  lemma BlockRoundTrip(f: Shown)
    requires '\n' !in f.title && '\n' !in f.org && '\n' !in f.when && '\n' !in f.link
    ensures ParseBlock(RenderBlock(f)) == Some(f)
  {
    NoBreakJoin("• ", f.title);
    NoBreakJoin("Замовник: ", f.org);
    NoBreakJoin(f.when, " (Kyiv)");
    NoBreakJoin("Змінено: ", f.when + " (Kyiv)");
    NoBreakJoin("Посилання: ", f.link);
    SplitBlockJoin(TitleLine(f), OrgLine(f), WhenLine(f), LinkLine(f));
    ReadFieldsBack(f);
  }

  /**
   * What a tender's block shows, read back from its text: the title or
   * "Без назви", the entity name or "—", the rendered date or "—", and the
   * prozorro.gov.ua link when tenderID is set, else {apiBase}/tenders/{id}.
   */
  lemma BlockShows(t: TenderRecord, apiBase: string, render: string -> string)
    requires var f := ShownFields(t, apiBase, render);
      '\n' !in f.title && '\n' !in f.org && '\n' !in f.when && '\n' !in f.link
    ensures ParseBlock(Block(t, apiBase, render)) == Some(Shown(
      if Truthy(t.title) then t.title.value else Untitled,
      if t.procuringEntity.Some? && Truthy(t.procuringEntity.value.name)
        then t.procuringEntity.value.name.value else NoValue,
      if Truthy(t.dateModified) then render(t.dateModified.value) else NoValue,
      if Truthy(t.tenderID) then PortalBase + t.tenderID.value
        else apiBase + "/tenders/" + (if t.id.Some? then t.id.value else "None")))
  {
    BlockRoundTrip(ShownFields(t, apiBase, render));
  }

  /** The blocks of `ts`, one per tender, in order. */
  function BlockList(ts: seq<TenderRecord>, apiBase: string, render: string -> string): seq<string>
  {
    seq(|ts|, i requires 0 <= i < |ts| => Block(ts[i], apiBase, render))
  }

  lemma BlockListSnoc(ts: seq<TenderRecord>, i: nat, apiBase: string, render: string -> string)
    requires i < |ts|
    ensures BlockList(ts[..i + 1], apiBase, render) == BlockList(ts[..i], apiBase, render) + [Block(ts[i], apiBase, render)]
  {
    assert ts[..i + 1][..i] == ts[..i];
  }

  /**
   * The header followed by the blocks of the first `limit` tenders in order;
   * no block is empty.
   */
  function MessageBlocks(kw: string, tenders: seq<TenderRecord>, limit: nat, apiBase: string, render: string -> string)
    : (r: seq<string>)
    ensures |r| == 1 + Min(|tenders|, limit)
    ensures r[0] == Header(kw, Min(|tenders|, limit), |tenders|)
    ensures forall i :: 0 <= i < Min(|tenders|, limit) ==> r[i + 1] == Block(tenders[i], apiBase, render)
    ensures forall i :: 0 <= i < |r| ==> r[i] != ""
  {
    var shown := Min(|tenders|, limit);
    [Header(kw, shown, |tenders|)] + BlockList(tenders[..shown], apiBase, render)
  }

  /**
   * The greedy packing, as groups of whole blocks: `open` holds the blocks
   * of the chunk being filled, `rest` the blocks still to place. A block
   * that would take the open chunk past MaxChunk closes it and opens the
   * next; the last chunk is closed unless it is empty.
   */
  function Groups(open: seq<string>, rest: seq<string>): seq<seq<string>>
    decreases |rest|
  {
    if rest == [] then (if Concat(open) != "" then [open] else [])
    else if |Concat(open)| + |rest[0]| > MaxChunk then [open] + Groups([rest[0]], rest[1..])
    else Groups(open + [rest[0]], rest[1..])
  }

  /** Each group joined into the text of its chunk. */
  function JoinEach(groups: seq<seq<string>>): seq<string>
  {
    seq(|groups|, i requires 0 <= i < |groups| => Concat(groups[i]))
  }

  /** The chunks the packing produces from `blocks`. */
  function ChunkText(blocks: seq<string>): seq<string>
  {
    JoinEach(Groups([], blocks))
  }

  /** The groups laid end to end. */
  function Flatten(groups: seq<seq<string>>): seq<string>
  {
    if groups == [] then [] else groups[0] + Flatten(groups[1..])
  }

  predicate NoneEmpty(blocks: seq<string>)
  {
    forall i :: 0 <= i < |blocks| ==> blocks[i] != ""
  }

  lemma JoinEachCons(g: seq<string>, gs: seq<seq<string>>)
    ensures JoinEach([g] + gs) == [Concat(g)] + JoinEach(gs)
  {
  }

  lemma ConcatCons(b: string, bs: seq<string>)
    ensures Concat([b] + bs) == b + Concat(bs)
  {
    ConcatAppend([b], bs);
    assert Concat([b]) == Concat([]) + b;
  }

  /** One step of the packing, for a non-empty `rest`. */
  lemma GroupsStep(open: seq<string>, b: string, rest: seq<string>)
    ensures Groups(open, [b] + rest) ==
      if |Concat(open)| + |b| > MaxChunk then [open] + Groups([b], rest)
      else Groups(open + [b], rest)
  {
    assert ([b] + rest)[0] == b && ([b] + rest)[1..] == rest;
  }

  lemma ConcatSingle(b: string)
    ensures Concat([b]) == b
  {
    assert [b][..0] == [];
  }

  lemma {:induction false} GroupsJoinBack(open: seq<string>, rest: seq<string>)
    ensures Concat(JoinEach(Groups(open, rest))) == Concat(open) + Concat(rest)
    decreases |rest|
  {
    if rest == [] {
      if Concat(open) != "" {
        assert JoinEach([open]) == [Concat(open)];
        ConcatSingle(Concat(open));
      }
    } else {
      var b, rest' := rest[0], rest[1..];
      assert rest == [b] + rest';
      assert Concat(rest) == b + Concat(rest') by {
        ConcatCons(b, rest');
      }
      GroupsStep(open, b, rest');
      if |Concat(open)| + |b| > MaxChunk {
        var next := Groups([b], rest');
        GroupsJoinBack([b], rest');
        ConcatSingle(b);
        assert Concat(JoinEach([open] + next)) == Concat(open) + Concat(JoinEach(next)) by {
          JoinEachCons(open, next);
          ConcatCons(Concat(open), JoinEach(next));
        }
      } else {
        GroupsJoinBack(open + [b], rest');
        ConcatSnoc(open, b);
      }
    }
  }

  lemma {:induction false} GroupsWhole(open: seq<string>, rest: seq<string>)
    requires NoneEmpty(open) && NoneEmpty(rest)
    ensures Flatten(Groups(open, rest)) == open + rest
    decreases |rest|
  {
    if rest == [] {
      if open != [] {
        ConcatNonEmpty(open);
        assert Flatten([open]) == open + Flatten([]);
      }
    } else {
      var b, rest' := rest[0], rest[1..];
      assert rest == [b] + rest';
      if |Concat(open)| + |b| > MaxChunk {
        GroupsWhole([b], rest');
        assert ([open] + Groups([b], rest'))[1..] == Groups([b], rest');
      } else {
        GroupsWhole(open + [b], rest');
      }
    }
  }

  lemma {:induction false} GroupsOversized(open: seq<string>, rest: seq<string>)
    requires |Concat(open)| <= MaxChunk || |open| <= 1
    ensures var g := Groups(open, rest);
      forall i :: 0 <= i < |g| && |Concat(g[i])| > MaxChunk ==> |g[i]| == 1
    decreases |rest|
  {
    if rest != [] {
      var b, rest' := rest[0], rest[1..];
      if |Concat(open)| + |b| > MaxChunk {
        GroupsOversized([b], rest');
        var g := Groups(open, rest);
        assert forall i :: 1 <= i < |g| ==> g[i] == Groups([b], rest')[i - 1];
      } else {
        ConcatSnoc(open, b);
        assert Groups(open, rest) == Groups(open + [b], rest');
        GroupsOversized(open + [b], rest');
      }
    }
  }

  lemma {:induction false} GroupsStartWithOpen(open: seq<string>, rest: seq<string>)
    requires open != [] && Groups(open, rest) != []
    ensures open <= Groups(open, rest)[0]
    decreases |rest|
  {
    if rest != [] && |Concat(open)| + |rest[0]| <= MaxChunk {
      GroupsStartWithOpen(open + [rest[0]], rest[1..]);
    }
  }

  lemma {:induction false} GroupsNonEmpty(open: seq<string>, rest: seq<string>)
    ensures var g := Groups(open, rest);
      forall i :: 0 <= i < |g| ==> g[i] != [] || (i == 0 && open == [])
    decreases |rest|
  {
    if rest != [] {
      var b, rest' := rest[0], rest[1..];
      assert rest == [b] + rest';
      GroupsStep(open, b, rest');
      if |Concat(open)| + |b| > MaxChunk {
        GroupsNonEmpty([b], rest');
        var g := Groups(open, rest);
        assert forall i :: 1 <= i < |g| ==> g[i] == Groups([b], rest')[i - 1];
      } else {
        var grown := open + [b];
        assert |grown| == |open| + 1;
        GroupsNonEmpty(grown, rest');
      }
    }
  }

  /** Group i was closed because the first block of group i + 1 did not fit in it. */
  predicate ClosedFull(g: seq<seq<string>>, i: int)
    requires 0 <= i < |g| - 1
  {
    g[i + 1] != [] && |Concat(g[i])| + |g[i + 1][0]| > MaxChunk
  }

  lemma {:induction false} GroupsGreedy(open: seq<string>, rest: seq<string>)
    ensures var g := Groups(open, rest);
      forall i :: 0 <= i < |g| - 1 ==> ClosedFull(g, i)
    decreases |rest|
  {
    if rest != [] {
      var b, rest' := rest[0], rest[1..];
      if |Concat(open)| + |b| > MaxChunk {
        GroupsGreedy([b], rest');
        var next := Groups([b], rest');
        var g := Groups(open, rest);
        assert g == [open] + next;
        if next != [] {
          GroupsStartWithOpen([b], rest');
          assert next[0][0] == b;
          assert ClosedFull(g, 0);
        }
        forall i | 1 <= i < |g| - 1 ensures ClosedFull(g, i) {
          assert ClosedFull(next, i - 1);
          assert g[i] == next[i - 1] && g[i + 1] == next[i];
        }
      } else {
        assert Groups(open, rest) == Groups(open + [b], rest');
        GroupsGreedy(open + [b], rest');
      }
    }
  }

  /** The chunks joined give back the blocks joined: nothing lost, nothing reordered. */
  lemma ChunksJoinBack(blocks: seq<string>)
    ensures Concat(ChunkText(blocks)) == Concat(blocks)
  {
    GroupsJoinBack([], blocks);
  }

  /**
   * Each chunk is the join of a run of whole consecutive blocks: laid end to
   * end, the runs are the blocks (when no block is empty).
   */
  lemma ChunksWholeBlocks(blocks: seq<string>)
    requires NoneEmpty(blocks)
    ensures |Groups([], blocks)| == |ChunkText(blocks)|
    ensures forall i :: 0 <= i < |ChunkText(blocks)| ==> ChunkText(blocks)[i] == Concat(Groups([], blocks)[i])
    ensures Flatten(Groups([], blocks)) == blocks
  {
    GroupsWhole([], blocks);
  }

  /** A chunk longer than MaxChunk is a single block. */
  lemma ChunksOversized(blocks: seq<string>)
    ensures var g := Groups([], blocks);
      forall i :: 0 <= i < |g| && |ChunkText(blocks)[i]| > MaxChunk ==> |g[i]| == 1
  {
    GroupsOversized([], blocks);
  }

  /** A chunk is closed only when the next block would not fit in it. */
  lemma ChunksGreedy(blocks: seq<string>)
    ensures var g := Groups([], blocks);
      |g| == |ChunkText(blocks)| && forall i :: 0 <= i < |g| - 1 ==> ClosedFull(g, i)
  {
    GroupsGreedy([], blocks);
  }

  /**
   * Only the first chunk can be empty, and it is exactly when the first
   * block alone is longer than MaxChunk; the packing yields no chunk only
   * for no blocks.
   */
  lemma ChunksOnlyFirstEmpty(blocks: seq<string>)
    requires NoneEmpty(blocks)
    ensures var c := ChunkText(blocks);
      && (c == [] <==> blocks == [])
      && (forall i :: 1 <= i < |c| ==> c[i] != "")
      && (c != [] && c[0] == "" <==> blocks != [] && |blocks[0]| > MaxChunk)
  {
    var g := Groups([], blocks);
    var c := ChunkText(blocks);
    GroupsWhole([], blocks);
    GroupsNonEmpty([], blocks);
    assert c == [] <==> blocks == [];
    forall i | 0 <= i < |g| && g[i] != [] ensures c[i] != "" {
      FlattenedRun(g, i);
      ConcatNonEmpty(g[i]);
    }
    if blocks != [] && |blocks[0]| <= MaxChunk {
      assert g == Groups([blocks[0]], blocks[1..]);
      GroupsStartWithOpen([blocks[0]], blocks[1..]);
    }
  }

  /** Every string of a group is one of the flattened strings. */
  lemma {:induction false} FlattenedRun(g: seq<seq<string>>, i: nat)
    requires i < |g|
    ensures forall j :: 0 <= j < |g[i]| ==> g[i][j] in Flatten(g)
  {
    if i > 0 {
      FlattenedRun(g[1..], i - 1);
    }
  }

  /** The loop that packs the blocks into chunks. */
  method PackChunks(blocks: seq<string>) returns (chunks: seq<string>)
    ensures chunks == ChunkText(blocks)
    ensures Concat(chunks) == Concat(blocks)
  {
    chunks := [];
    var buf := "";
    ghost var open: seq<string> := [];
    for i := 0 to |blocks|
      invariant buf == Concat(open)
      invariant chunks + JoinEach(Groups(open, blocks[i..])) == ChunkText(blocks)
    {
      var b := blocks[i];
      assert blocks[i..] == [b] + blocks[i + 1..];
      GroupsStep(open, b, blocks[i + 1..]);
      if |buf| + |b| > MaxChunk {
        JoinEachCons(open, Groups([b], blocks[i + 1..]));
        assert chunks + JoinEach(Groups(open, blocks[i..]))
            == (chunks + [buf]) + JoinEach(Groups([b], blocks[i + 1..]));
        chunks := chunks + [buf];
        buf := b;
        open := [b];
        ConcatSingle(b);
      } else {
        ConcatSnoc(open, b);
        buf := buf + b;
        open := open + [b];
      }
    }
    assert blocks[|blocks|..] == [];
    if buf != "" {
      assert JoinEach([open]) == [buf];
      chunks := chunks + [buf];
    } else {
      assert chunks + [] == chunks;
    }
    ChunksJoinBack(blocks);
  }

  /** format_tenders_message: builds the header and the blocks, then packs them. */
  method FormatTendersMessage(kw: string, tenders: seq<TenderRecord>, limit: nat, apiBase: string, render: string -> string)
    returns (chunks: seq<string>)
    ensures chunks == ChunkText(MessageBlocks(kw, tenders, limit, apiBase, render))
    ensures Concat(chunks) == Concat(MessageBlocks(kw, tenders, limit, apiBase, render))
  {
    var shown := Min(|tenders|, limit);
    var header := Header(kw, shown, |tenders|);
    var blocks := [header];
    for i := 0 to shown
      invariant blocks == [header] + BlockList(tenders[..i], apiBase, render)
    {
      BlockListSnoc(tenders, i, apiBase, render);
      blocks := blocks + [Block(tenders[i], apiBase, render)];
    }
    chunks := PackChunks(blocks);
  }
}
