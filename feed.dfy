/**
 * The change-feed walk: pages are requested newest first, each request
 * carrying the offset the previous page returned, and the walk stops at the
 * first record older than the cutoff, on an empty page, when no next offset
 * comes back, or after MaxPages requests.
 */
module Feed {
  import opened Wrappers
  import opened Tender

  const MaxPages := 50

  /** The record has a non-empty `dateModified`; others are skipped. */
  predicate Dated(t: TenderRecord)
  {
    Truthy(t.dateModified)
  }

  function DateOf(t: TenderRecord): string
    requires Dated(t)
  {
    t.dateModified.value
  }

  /** Reading this record ends the page: its date is unreadable or before the cutoff. */
  predicate Halts(parse: Parser, cutoff: int, t: TenderRecord)
  {
    Dated(t) && (parse(DateOf(t)).None? || parse(DateOf(t)).value < cutoff)
  }

  /** The record is dated at or after the cutoff. */
  predicate IsRecent(parse: Parser, cutoff: int, t: TenderRecord)
  {
    Dated(t) && parse(DateOf(t)).Some? && parse(DateOf(t)).value >= cutoff
  }

  /** The position of the first record that ends the page, or |data| if none does. */
  function FirstHalt(parse: Parser, cutoff: int, data: seq<TenderRecord>): (k: nat)
    ensures k <= |data|
    ensures forall i :: 0 <= i < k ==> !Halts(parse, cutoff, data[i])
    ensures k < |data| ==> Halts(parse, cutoff, data[k])
  {
    if data == [] then 0
    else if Halts(parse, cutoff, data[0]) then 0
    else 1 + FirstHalt(parse, cutoff, data[1..])
  }

  /** The records of `s` that have a `dateModified`, in their order. */
  function DatedOnly(s: seq<TenderRecord>): seq<TenderRecord>
  {
    if s == [] then []
    else DatedOnly(s[..|s| - 1]) + (if Dated(s[|s| - 1]) then [s[|s| - 1]] else [])
  }

  /** Skipping undated records keeps each dated record as often as it occurs, and drops the rest. */
  lemma {:induction false} DatedOnlyMembers(s: seq<TenderRecord>)
    ensures forall t :: t in DatedOnly(s) <==> t in s && Dated(t)
    ensures forall t :: multiset(DatedOnly(s))[t] == if Dated(t) then multiset(s)[t] else 0
    decreases |s|
  {
    if s != [] {
      DatedOnlyMembers(s[..|s| - 1]);
      assert s == s[..|s| - 1] + [s[|s| - 1]];
    }
  }

  /** A single record is kept exactly when it is dated. */
  lemma DatedOnlySingle(t: TenderRecord)
    ensures DatedOnly([t]) == if Dated(t) then [t] else []
  {
    assert [t][..0] == [];
  }

  /** Skipping undated records keeps the order: it distributes over concatenation. */
  lemma {:induction false} DatedOnlyAppend(a: seq<TenderRecord>, b: seq<TenderRecord>)
    ensures DatedOnly(a + b) == DatedOnly(a) + DatedOnly(b)
    decreases |b|
  {
    if b == [] {
      assert a + b == a;
    } else {
      var init, last := b[..|b| - 1], b[|b| - 1];
      DatedOnlyAppend(a, init);
      assert (a + b)[..|a + b| - 1] == a + init;
      assert (a + b)[|a + b| - 1] == last;
    }
  }

  /** What one page contributes: the dated records before the first one that ends it. */
  function KeptOf(parse: Parser, cutoff: int, data: seq<TenderRecord>): seq<TenderRecord>
  {
    DatedOnly(data[..FirstHalt(parse, cutoff, data)])
  }

  /** Every record a page contributes is dated at or after the cutoff. */
  lemma KeptOfRecent(parse: Parser, cutoff: int, data: seq<TenderRecord>)
    ensures forall t :: t in KeptOf(parse, cutoff, data) ==> IsRecent(parse, cutoff, t)
  {
    DatedOnlyMembers(data[..FirstHalt(parse, cutoff, data)]);
  }

  /** The `offset` parameter sent for a stored offset (`if offset:`). */
  function RequestOffset(offset: Option<string>): Option<string>
  {
    if Truthy(offset) then offset else None
  }

  /** The outcome of a walk and the offsets of the requests it made, in order. */
  datatype Walked = Walked(outcome: Result<seq<TenderRecord>, FetchError>, requests: seq<Option<string>>)

  /** A walk preceded by records already collected and requests already made. */
  function Join(kept: seq<TenderRecord>, requests: seq<Option<string>>, w: Walked): Walked
  {
    Walked(if w.outcome.Success? then Success(kept + w.outcome.value) else w.outcome,
           requests + w.requests)
  }

  lemma JoinJoin(a: seq<TenderRecord>, ra: seq<Option<string>>, b: seq<TenderRecord>, rb: seq<Option<string>>, w: Walked)
    ensures Join(a, ra, Join(b, rb, w)) == Join(a + b, ra + rb, w)
  {
    if w.outcome.Success? {
      assert a + (b + w.outcome.value) == (a + b) + w.outcome.value;
    }
    assert ra + (rb + w.requests) == (ra + rb) + w.requests;
  }

  /**
   * The walk from stored offset `offset` with `pagesLeft` requests still
   * allowed: the specification of fetch_tenders_since.
   */
  function Walk(source: PageSource, parse: Parser, cutoff: int, offset: Option<string>, pagesLeft: nat): Walked
    decreases pagesLeft
  {
    if pagesLeft == 0 then Walked(Success([]), [])
    else
      var request := RequestOffset(offset);
      var response := source(request);
      if response.Failure? then Walked(Failure(response.error), [request])
      else
        var data := response.value.data;
        var k := FirstHalt(parse, cutoff, data);
        if data == [] then Walked(Success([]), [request])
        else if k < |data| && parse(DateOf(data[k])).None? then
          Walked(Failure(BadTimestamp(DateOf(data[k]))), [request])
        else if k < |data| || !Truthy(response.value.nextOffset) then
          Walked(Success(KeptOf(parse, cutoff, data)), [request])
        else
          Join(KeptOf(parse, cutoff, data), [request],
               Walk(source, parse, cutoff, response.value.nextOffset, pagesLeft - 1))
  }

  /** The page answered to `request` lets the walk request another one. */
  predicate GoesOn(source: PageSource, parse: Parser, cutoff: int, request: Option<string>)
  {
    && source(request).Success?
    && source(request).value.data != []
    && FirstHalt(parse, cutoff, source(request).value.data) == |source(request).value.data|
    && Truthy(source(request).value.nextOffset)
  }

  /** `next` is the request made right after `request`. */
  predicate Continues(source: PageSource, parse: Parser, cutoff: int, request: Option<string>, next: Option<string>)
  {
    GoesOn(source, parse, cutoff, request) && next == source(request).value.nextOffset
  }

  /** Answering `request` raises: the GET failed, or a date on the page could not be read. */
  predicate Fails(source: PageSource, parse: Parser, cutoff: int, request: Option<string>)
  {
    source(request).Failure? ||
    var data := source(request).value.data;
    var k := FirstHalt(parse, cutoff, data);
    k < |data| && parse(DateOf(data[k])).None?
  }

  /** A step of the walk that goes on to the next page. */
  lemma WalkOn(source: PageSource, parse: Parser, cutoff: int, offset: Option<string>, pagesLeft: nat)
    requires pagesLeft > 0 && GoesOn(source, parse, cutoff, RequestOffset(offset))
    ensures var page := source(RequestOffset(offset)).value;
      Walk(source, parse, cutoff, offset, pagesLeft)
      == Join(KeptOf(parse, cutoff, page.data), [RequestOffset(offset)],
              Walk(source, parse, cutoff, page.nextOffset, pagesLeft - 1))
  {
  }

  /**
   * The requests a walk makes: at most `pagesLeft`; the first carries the
   * stored offset (none at the start); every later one carries the offset
   * the page before returned, and follows a page that was non-empty, had no
   * record older than the cutoff and returned an offset.
   */
  lemma {:induction false} WalkChain(source: PageSource, parse: Parser, cutoff: int, offset: Option<string>, pagesLeft: nat)
    ensures var w := Walk(source, parse, cutoff, offset, pagesLeft);
      && |w.requests| <= pagesLeft
      && (pagesLeft > 0 ==> w.requests != [] && w.requests[0] == RequestOffset(offset))
      && (forall j :: 0 <= j < |w.requests| - 1 ==> Continues(source, parse, cutoff, w.requests[j], w.requests[j + 1]))
    decreases pagesLeft
  {
    if pagesLeft > 0 {
      var request := RequestOffset(offset);
      var w := Walk(source, parse, cutoff, offset, pagesLeft);
      if GoesOn(source, parse, cutoff, request) {
        var next := source(request).value.nextOffset;
        WalkChain(source, parse, cutoff, next, pagesLeft - 1);
        WalkOn(source, parse, cutoff, offset, pagesLeft);
        var rest := Walk(source, parse, cutoff, next, pagesLeft - 1);
        assert w.requests == [request] + rest.requests;
        assert RequestOffset(next) == next;
        forall j | 0 <= j < |w.requests| - 1
          ensures Continues(source, parse, cutoff, w.requests[j], w.requests[j + 1])
        {
          if j > 0 {
            assert w.requests[j] == rest.requests[j - 1] && w.requests[j + 1] == rest.requests[j];
          }
        }
      } else {
        assert w.requests == [request];
      }
    }
  }

  /** A walk that stops below the ceiling stops on a page that does not go on. */
  lemma {:induction false} WalkStopsEarly(source: PageSource, parse: Parser, cutoff: int, offset: Option<string>, pagesLeft: nat)
    ensures var w := Walk(source, parse, cutoff, offset, pagesLeft);
      0 < |w.requests| < pagesLeft ==> !GoesOn(source, parse, cutoff, w.requests[|w.requests| - 1])
    decreases pagesLeft
  {
    if pagesLeft > 0 {
      var request := RequestOffset(offset);
      var w := Walk(source, parse, cutoff, offset, pagesLeft);
      if GoesOn(source, parse, cutoff, request) {
        var next := source(request).value.nextOffset;
        WalkStopsEarly(source, parse, cutoff, next, pagesLeft - 1);
        WalkOn(source, parse, cutoff, offset, pagesLeft);
        var rest := Walk(source, parse, cutoff, next, pagesLeft - 1);
        assert w.requests == [request] + rest.requests;
        if rest.requests != [] {
          assert w.requests[|w.requests| - 1] == rest.requests[|rest.requests| - 1];
        }
      } else {
        WalkStep(source, parse, cutoff, offset, pagesLeft);
        assert w.requests == [request];
      }
    }
  }

  /** A walk raises exactly when its last request raised. */
  lemma {:induction false} WalkFailsLast(source: PageSource, parse: Parser, cutoff: int, offset: Option<string>, pagesLeft: nat)
    ensures var w := Walk(source, parse, cutoff, offset, pagesLeft);
      w.outcome.Failure? <==> w.requests != [] && Fails(source, parse, cutoff, w.requests[|w.requests| - 1])
    decreases pagesLeft
  {
    if pagesLeft > 0 {
      var request := RequestOffset(offset);
      var w := Walk(source, parse, cutoff, offset, pagesLeft);
      if GoesOn(source, parse, cutoff, request) {
        var next := source(request).value.nextOffset;
        WalkFailsLast(source, parse, cutoff, next, pagesLeft - 1);
        WalkOn(source, parse, cutoff, offset, pagesLeft);
        var rest := Walk(source, parse, cutoff, next, pagesLeft - 1);
        assert w.requests == [request] + rest.requests;
        assert w.outcome.Failure? <==> rest.outcome.Failure?;
        if rest.requests != [] {
          assert w.requests[|w.requests| - 1] == rest.requests[|rest.requests| - 1];
        } else {
          assert !Fails(source, parse, cutoff, request);
        }
      } else {
        WalkEnds(source, parse, cutoff, offset, pagesLeft);
      }
    }
  }

  /** A step that does not go on is the walk's only request, and raises exactly when that request raises. */
  lemma WalkEnds(source: PageSource, parse: Parser, cutoff: int, offset: Option<string>, pagesLeft: nat)
    requires pagesLeft > 0 && !GoesOn(source, parse, cutoff, RequestOffset(offset))
    ensures var w := Walk(source, parse, cutoff, offset, pagesLeft);
      && w.requests == [RequestOffset(offset)]
      && (w.outcome.Failure? <==> Fails(source, parse, cutoff, RequestOffset(offset)))
  {
    WalkStep(source, parse, cutoff, offset, pagesLeft);
  }

  /** Every record a successful walk returns is dated at or after the cutoff. */
  lemma {:induction false} WalkRecent(source: PageSource, parse: Parser, cutoff: int, offset: Option<string>, pagesLeft: nat)
    ensures var w := Walk(source, parse, cutoff, offset, pagesLeft);
      w.outcome.Success? ==> forall t :: t in w.outcome.value ==> IsRecent(parse, cutoff, t)
    decreases pagesLeft
  {
    if pagesLeft > 0 && source(RequestOffset(offset)).Success? {
      var page := source(RequestOffset(offset)).value;
      KeptOfRecent(parse, cutoff, page.data);
      if Truthy(page.nextOffset) {
        WalkRecent(source, parse, cutoff, page.nextOffset, pagesLeft - 1);
      }
    }
  }

  /** What the pages answered to `requests` contribute, in request order. */
  function KeptAll(source: PageSource, parse: Parser, cutoff: int, requests: seq<Option<string>>): seq<TenderRecord>
  {
    if requests == [] then []
    else
      (if source(requests[0]).Success? then KeptOf(parse, cutoff, source(requests[0]).value.data) else [])
      + KeptAll(source, parse, cutoff, requests[1..])
  }

  /**
   * A successful walk returns the records of the requested pages in the order
   * received, each page cut before its first record older than the cutoff,
   * minus the records without `dateModified`.
   */
  lemma {:induction false} WalkCollects(source: PageSource, parse: Parser, cutoff: int, offset: Option<string>, pagesLeft: nat)
    ensures var w := Walk(source, parse, cutoff, offset, pagesLeft);
      w.outcome.Success? ==> w.outcome.value == KeptAll(source, parse, cutoff, w.requests)
    decreases pagesLeft
  {
    if pagesLeft > 0 && source(RequestOffset(offset)).Success? {
      var request := RequestOffset(offset);
      var page := source(request).value;
      var w := Walk(source, parse, cutoff, offset, pagesLeft);
      if page.data != [] && FirstHalt(parse, cutoff, page.data) == |page.data| && Truthy(page.nextOffset) {
        WalkCollects(source, parse, cutoff, page.nextOffset, pagesLeft - 1);
        var rest := Walk(source, parse, cutoff, page.nextOffset, pagesLeft - 1);
        assert w.requests == [request] + rest.requests;
        assert w.requests[1..] == rest.requests;
      } else {
        assert w.requests == [request];
        assert w.requests[1..] == [];
      }
    }
  }

  /**
   * The page ceiling: against a feed whose every page goes on, the walk makes
   * exactly `pagesLeft` requests and returns what it collected, not an error.
   */
  lemma CeilingReached(source: PageSource, parse: Parser, cutoff: int, offset: Option<string>, pagesLeft: nat)
    requires forall r :: GoesOn(source, parse, cutoff, r)
    ensures |Walk(source, parse, cutoff, offset, pagesLeft).requests| == pagesLeft
    ensures Walk(source, parse, cutoff, offset, pagesLeft).outcome.Success?
  {
    WalkChain(source, parse, cutoff, offset, pagesLeft);
    WalkStopsEarly(source, parse, cutoff, offset, pagesLeft);
    WalkFailsLast(source, parse, cutoff, offset, pagesLeft);
    var w := Walk(source, parse, cutoff, offset, pagesLeft);
    if pagesLeft > 0 {
      assert GoesOn(source, parse, cutoff, w.requests[|w.requests| - 1]);
    }
  }

  /** A step of the walk that ends it, spelled out by the answer to its request. */
  lemma WalkStep(source: PageSource, parse: Parser, cutoff: int, offset: Option<string>, pagesLeft: nat)
    requires pagesLeft > 0
    ensures var request := RequestOffset(offset);
      var w := Walk(source, parse, cutoff, offset, pagesLeft);
      && (source(request).Failure? ==> w == Walked(Failure(source(request).error), [request]))
      && (source(request).Success? ==>
            var page := source(request).value;
            var k := FirstHalt(parse, cutoff, page.data);
            && (page.data == [] ==> w == Walked(Success([]), [request]))
            && (page.data != [] && k < |page.data| && parse(DateOf(page.data[k])).None? ==>
                  w == Walked(Failure(BadTimestamp(DateOf(page.data[k]))), [request]))
            && (page.data != [] && k < |page.data| && parse(DateOf(page.data[k])).Some? ==>
                  w == Walked(Success(KeptOf(parse, cutoff, page.data)), [request]))
            && (page.data != [] && k == |page.data| && !Truthy(page.nextOffset) ==>
                  w == Walked(Success(KeptOf(parse, cutoff, page.data)), [request])))
  {
  }

  /**
   * A page that goes on moves what it contributes and its request from the
   * walk still to come to the part already done.
   */
  lemma WalkGoesOn(source: PageSource, parse: Parser, cutoff: int, offset: Option<string>, pagesLeft: nat,
                   done: seq<TenderRecord>, requested: seq<Option<string>>, whole: Walked)
    requires pagesLeft > 0 && GoesOn(source, parse, cutoff, RequestOffset(offset))
    requires Join(done, requested, Walk(source, parse, cutoff, offset, pagesLeft)) == whole
    ensures var page := source(RequestOffset(offset)).value;
      Join(done + KeptOf(parse, cutoff, page.data), requested + [RequestOffset(offset)],
           Walk(source, parse, cutoff, page.nextOffset, pagesLeft - 1)) == whole
  {
    var page := source(RequestOffset(offset)).value;
    JoinJoin(done, requested, KeptOf(parse, cutoff, page.data), [RequestOffset(offset)],
             Walk(source, parse, cutoff, page.nextOffset, pagesLeft - 1));
  }

  /**
   * The loop over one page's records: skips undated records, raises on an
   * unreadable date, stops at the first record older than the cutoff and
   * appends every other record to `results`.
   */
  method ScanPage(parse: Parser, cutoff: int, data: seq<TenderRecord>, results: seq<TenderRecord>)
    returns (extended: seq<TenderRecord>, stop: bool, bad: Option<string>)
    ensures var k := FirstHalt(parse, cutoff, data);
      && (bad.Some? <==> k < |data| && parse(DateOf(data[k])).None?)
      && (bad.Some? ==> bad.value == DateOf(data[k]))
      && (bad.None? ==> extended == results + KeptOf(parse, cutoff, data) && (stop <==> k < |data|))
  {
    extended, stop, bad := results, false, None;
    for j := 0 to |data|
      invariant extended == results + DatedOnly(data[..j])
      invariant forall i :: 0 <= i < j ==> !Halts(parse, cutoff, data[i])
    {
      assert data[..j + 1][..j] == data[..j];
      var t := data[j];
      if !Truthy(t.dateModified) {
        continue;
      }
      var when := parse(t.dateModified.value);
      if when.None? {
        bad := Some(t.dateModified.value);
        assert FirstHalt(parse, cutoff, data) == j;
        return;
      }
      if when.value < cutoff {
        stop := true;
        assert FirstHalt(parse, cutoff, data) == j;
        return;
      }
      extended := extended + [t];
    }
    assert data[..|data|] == data;
  }

  /** fetch_tenders_since: the walk from no offset with MaxPages requests allowed. */
  method FetchTendersSince(source: PageSource, parse: Parser, cutoff: int)
    returns (r: Result<seq<TenderRecord>, FetchError>, ghost requests: seq<Option<string>>)
    ensures Walked(r, requests) == Walk(source, parse, cutoff, None, MaxPages)
    ensures r.Success? ==> forall t :: t in r.value ==> IsRecent(parse, cutoff, t)
  {
    WalkRecent(source, parse, cutoff, None, MaxPages);
    var results: seq<TenderRecord> := [];
    var offset: Option<string> := None;
    requests := [];
    ghost var whole := Walk(source, parse, cutoff, None, MaxPages);
    assert [] + whole.requests == whole.requests;
    assert whole.outcome.Success? ==> [] + whole.outcome.value == whole.outcome.value;
    for pageNo := 0 to MaxPages
      invariant Join(results, requests, Walk(source, parse, cutoff, offset, MaxPages - pageNo)) == whole
    {
      ghost var before, requestsBefore, offsetBefore := results, requests, offset;
      var request := RequestOffset(offset);
      WalkStep(source, parse, cutoff, offset, MaxPages - pageNo);
      requests := requests + [request];
      var response := source(request);
      if response.Failure? {
        r := Failure(response.error);
        return;
      }
      var data := response.value.data;
      if data == [] {
        assert results + [] == results;
        assert Walked(Success(results), requests) == whole;
        break;
      }
      var stop, bad;
      results, stop, bad := ScanPage(parse, cutoff, data, results);
      if bad.Some? {
        r := Failure(BadTimestamp(bad.value));
        return;
      }
      if stop {
        assert Walked(Success(results), requests) == whole;
        break;
      }
      offset := response.value.nextOffset;
      if !Truthy(offset) {
        assert Walked(Success(results), requests) == whole;
        break;
      }
      assert results == before + KeptOf(parse, cutoff, data);
      assert GoesOn(source, parse, cutoff, request);
      WalkGoesOn(source, parse, cutoff, offsetBefore, MaxPages - pageNo, before, requestsBefore, whole);
    }
    assert results + [] == results && requests + [] == requests;
    r := Success(results);
  }
}
