/**
 * Keyword matching: keep the records whose lower-cased title or description
 * contains the lower-cased keyword, then order them newest first by the raw
 * `dateModified` text with Python's stable sort.
 */
module Matcher {
  import opened Wrappers
  import opened Text
  import opened Tender

  /** The record matches the keyword; a missing title or description reads as "". */
  predicate Matches(lower: char -> char, keyword: string, t: TenderRecord)
  {
    var kw := LowerStr(lower, keyword);
    Contains(LowerStr(lower, OrEmpty(t.title)), kw) || Contains(LowerStr(lower, OrEmpty(t.description)), kw)
  }

  /** The matching records of `s`, in their order. */
  function Matching(lower: char -> char, keyword: string, s: seq<TenderRecord>): seq<TenderRecord>
  {
    if s == [] then []
    else Matching(lower, keyword, s[..|s| - 1])
         + (if Matches(lower, keyword, s[|s| - 1]) then [s[|s| - 1]] else [])
  }

  /** Each record occurs in the filtered list as often as in the input if it matches, else never. */
  lemma {:induction false} MatchingCounts(lower: char -> char, keyword: string, s: seq<TenderRecord>)
    ensures forall t :: multiset(Matching(lower, keyword, s))[t]
                        == if Matches(lower, keyword, t) then multiset(s)[t] else 0
    decreases |s|
  {
    if s != [] {
      MatchingCounts(lower, keyword, s[..|s| - 1]);
      assert s == s[..|s| - 1] + [s[|s| - 1]];
    }
  }

  /** The sort key `x.get("dateModified", "")`. */
  function Key(t: TenderRecord): string
  {
    if t.dateModified.Some? then t.dateModified.value else ""
  }

  /** `a` sorts strictly before `b` when sorting by Key with reverse=True. */
  predicate Newer(a: TenderRecord, b: TenderRecord)
  {
    LexLess(Key(b), Key(a))
  }

  /** Non-increasing by Key. */
  predicate SortedDesc(s: seq<TenderRecord>)
  {
    forall i, j :: 0 <= i < j < |s| ==> !Newer(s[j], s[i])
  }

  /** The records of `s` whose key is `k`, in their order. */
  function WithKey(s: seq<TenderRecord>, k: string): seq<TenderRecord>
  {
    if s == [] then [] else (if Key(s[0]) == k then [s[0]] else []) + WithKey(s[1..], k)
  }

  /** Places `t` before the first record of `s` that is not newer than it. */
  function Insert(t: TenderRecord, s: seq<TenderRecord>): seq<TenderRecord>
  {
    if s == [] || !Newer(s[0], t) then [t] + s else [s[0]] + Insert(t, s[1..])
  }

  /** `sort(key=Key, reverse=True)`: a stable sort, newest first. */
  function SortDesc(s: seq<TenderRecord>): seq<TenderRecord>
  {
    if s == [] then [] else Insert(s[0], SortDesc(s[1..]))
  }

  /** No record of `s` is newer than `x`. */
  predicate NotOlderThanAll(x: TenderRecord, s: seq<TenderRecord>)
  {
    forall j :: 0 <= j < |s| ==> !Newer(s[j], x)
  }

  lemma SortedCons(x: TenderRecord, s: seq<TenderRecord>)
    requires NotOlderThanAll(x, s) && SortedDesc(s)
    ensures SortedDesc([x] + s)
  {
    var r := [x] + s;
    forall i, j | 0 <= i < j < |r| ensures !Newer(r[j], r[i]) {
      if i > 0 {
        assert r[i] == s[i - 1];
      }
    }
  }

  lemma {:induction false} InsertPermutes(t: TenderRecord, s: seq<TenderRecord>)
    ensures multiset(Insert(t, s)) == multiset(s) + multiset{t}
    decreases |s|
  {
    if s != [] && Newer(s[0], t) {
      InsertPermutes(t, s[1..]);
      assert s == [s[0]] + s[1..];
    }
  }

  lemma {:induction false} InsertKeepsBound(x: TenderRecord, t: TenderRecord, s: seq<TenderRecord>)
    requires NotOlderThanAll(x, s) && !Newer(t, x)
    ensures NotOlderThanAll(x, Insert(t, s))
    decreases |s|
  {
    if s != [] && Newer(s[0], t) {
      InsertKeepsBound(x, t, s[1..]);
    }
  }

  lemma {:induction false} InsertSorted(t: TenderRecord, s: seq<TenderRecord>)
    requires SortedDesc(s)
    ensures SortedDesc(Insert(t, s))
    decreases |s|
  {
    if s == [] || !Newer(s[0], t) {
      forall j | 0 <= j < |s| ensures !Newer(s[j], t) {
        if j > 0 {
          NotLessTransitive(Key(t), Key(s[0]), Key(s[j]));
        }
      }
      SortedCons(t, s);
    } else {
      InsertSorted(t, s[1..]);
      LexLessAsymmetric(Key(t), Key(s[0]));
      InsertKeepsBound(s[0], t, s[1..]);
      SortedCons(s[0], Insert(t, s[1..]));
    }
  }

  /** The sorted list is a permutation of its input, non-increasing by Key. */
  lemma {:induction false} SortDescSorted(s: seq<TenderRecord>)
    ensures multiset(SortDesc(s)) == multiset(s)
    ensures SortedDesc(SortDesc(s))
    decreases |s|
  {
    if s != [] {
      SortDescSorted(s[1..]);
      InsertPermutes(s[0], SortDesc(s[1..]));
      InsertSorted(s[0], SortDesc(s[1..]));
      assert s == [s[0]] + s[1..];
    }
  }

  lemma {:induction false} InsertWithKey(t: TenderRecord, s: seq<TenderRecord>, k: string)
    ensures WithKey(Insert(t, s), k) == (if Key(t) == k then [t] else []) + WithKey(s, k)
    decreases |s|
  {
    if s == [] || !Newer(s[0], t) {
      assert ([t] + s)[1..] == s;
    } else {
      LexLessIrreflexive(Key(t));
      InsertWithKey(t, s[1..], k);
      assert ([s[0]] + Insert(t, s[1..]))[1..] == Insert(t, s[1..]);
    }
  }

  /** Stability: records with equal keys keep their relative order. */
  lemma {:induction false} SortDescStable(s: seq<TenderRecord>, k: string)
    ensures WithKey(SortDesc(s), k) == WithKey(s, k)
    decreases |s|
  {
    if s != [] {
      SortDescStable(s[1..], k);
      InsertWithKey(s[0], SortDesc(s[1..]), k);
    }
  }

  lemma {:induction false} WithKeyMembers(s: seq<TenderRecord>, k: string)
    ensures forall x :: x in WithKey(s, k) ==> x in s && Key(x) == k
    decreases |s|
  {
    if s != [] {
      WithKeyMembers(s[1..], k);
    }
  }

  /** A record of `s` with key `k`, when `s` has one. */
  lemma WithKeyHead(s: seq<TenderRecord>)
    requires s != []
    ensures WithKey(s, Key(s[0])) != [] && WithKey(s, Key(s[0]))[0] == s[0]
  {
  }

  lemma HeadsAgree(a: seq<TenderRecord>, b: seq<TenderRecord>)
    requires a != [] && b != [] && SortedDesc(a) && SortedDesc(b)
    requires WithKey(a, Key(a[0])) == WithKey(b, Key(a[0]))
    requires WithKey(a, Key(b[0])) == WithKey(b, Key(b[0]))
    ensures a[0] == b[0]
  {
    var ka, kb := Key(a[0]), Key(b[0]);
    WithKeyHead(a);
    WithKeyHead(b);
    WithKeyMembers(a, kb);
    WithKeyMembers(b, ka);
    assert a[0] in b && b[0] in a;
    var j :| 0 <= j < |b| && b[j] == a[0];
    var i :| 0 <= i < |a| && a[i] == b[0];
    assert !LexLess(kb, ka) by {
      if j == 0 { LexLessIrreflexive(ka); }
    }
    assert !LexLess(ka, kb) by {
      if i == 0 { LexLessIrreflexive(kb); }
    }
    LexLessTotal(ka, kb);
  }

  lemma TailsAgree(a: seq<TenderRecord>, b: seq<TenderRecord>, k: string)
    requires a != [] && b != [] && a[0] == b[0]
    requires WithKey(a, k) == WithKey(b, k)
    ensures WithKey(a[1..], k) == WithKey(b[1..], k)
  {
    var p := if Key(a[0]) == k then [a[0]] else [];
    assert WithKey(a, k) == p + WithKey(a[1..], k);
    assert WithKey(b, k) == p + WithKey(b[1..], k);
    assert (p + WithKey(a[1..], k))[|p|..] == WithKey(a[1..], k);
    assert (p + WithKey(b[1..], k))[|p|..] == WithKey(b[1..], k);
  }

  /** Two lists sorted newest first that agree on the order of every run of equal keys are equal. */
  lemma {:induction false} StableOrderUnique(a: seq<TenderRecord>, b: seq<TenderRecord>)
    requires SortedDesc(a) && SortedDesc(b)
    requires forall k :: WithKey(a, k) == WithKey(b, k)
    ensures a == b
    decreases |a|
  {
    if b != [] {
      WithKeyHead(b);
      assert WithKey(a, Key(b[0])) != [];
    }
    if a != [] {
      WithKeyHead(a);
      assert WithKey(b, Key(a[0])) != [];
    }
    if a != [] && b != [] {
      HeadsAgree(a, b);
      forall k ensures WithKey(a[1..], k) == WithKey(b[1..], k) {
        TailsAgree(a, b, k);
      }
      StableOrderUnique(a[1..], b[1..]);
      assert a == [a[0]] + a[1..] && b == [b[0]] + b[1..];
    }
  }

  /**
   * SortDesc is the stable sort: any list that is sorted newest first and
   * keeps records of equal key in their input order is SortDesc of the
   * input, whatever algorithm produced it.
   */
  lemma SortDescIsStableSort(s: seq<TenderRecord>, r: seq<TenderRecord>)
    requires SortedDesc(r)
    requires forall k :: WithKey(r, k) == WithKey(s, k)
    ensures r == SortDesc(s)
  {
    SortDescSorted(s);
    forall k ensures WithKey(SortDesc(s), k) == WithKey(s, k) {
      SortDescStable(s, k);
    }
    StableOrderUnique(r, SortDesc(s));
  }

  /**
   * get_tenders_for_keyword after the fetch: the loop collecting the
   * matching records, then the in-place sort.
   */
  method MatchTenders(lower: char -> char, keyword: string, records: seq<TenderRecord>)
    returns (matched: seq<TenderRecord>)
    ensures matched == SortDesc(Matching(lower, keyword, records))
    ensures forall t :: multiset(matched)[t] == if Matches(lower, keyword, t) then multiset(records)[t] else 0
    ensures SortedDesc(matched)
    ensures forall k :: WithKey(matched, k) == WithKey(Matching(lower, keyword, records), k)
  {
    var kw := LowerStr(lower, keyword);
    matched := [];
    for i := 0 to |records|
      invariant matched == Matching(lower, keyword, records[..i])
    {
      assert records[..i + 1][..i] == records[..i];
      var t := records[i];
      var title := LowerStr(lower, OrEmpty(t.title));
      var descr := LowerStr(lower, OrEmpty(t.description));
      if Contains(title, kw) || Contains(descr, kw) {
        matched := matched + [t];
      }
    }
    assert records[..|records|] == records;
    ghost var filtered := matched;
    matched := SortDesc(matched);
    MatchingCounts(lower, keyword, records);
    SortDescSorted(filtered);
    forall k ensures WithKey(matched, k) == WithKey(filtered, k) {
      SortDescStable(filtered, k);
    }
  }
}
