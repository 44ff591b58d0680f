/** controllers/scheduleController.js, getSchedules: the page and limit read from the
    query, the number of documents skipped and the page count of the reply. The sorted
    collection is the sequence `items`; its length is `countDocuments()`. */
module Schedules {
  import opened Wrappers
  import opened Decimal
  import opened Strings

  const DefaultPage: int := 1
  const DefaultLimit: int := 50

  // ---------------------------------------------------------------- parseInt(s, 10)

  /** The longest prefix of decimal digits. */
  function DigitPrefix(s: string): (d: string)
    ensures AllDigits(d) && |d| <= |s| && d == s[..|d|]
    ensures |d| < |s| ==> !IsDigit(s[|d|])
  {
    if |s| > 0 && IsDigit(s[0]) then [s[0]] + DigitPrefix(s[1..]) else ""
  }

  /** `parseInt(s, 10)`: leading white space, an optional sign, then as many digits as
      there are; no digit at all is NaN, here None. */
  function ParseInt(s: string): Option<int> {
    var t := TrimStart(s);
    var u := if |t| > 0 && (t[0] == '-' || t[0] == '+') then t[1..] else t;
    var d := DigitPrefix(u);
    var magnitude: int := DigitsValue(d);
    if |d| == 0 then None
    else if |t| > 0 && t[0] == '-' then Some(-magnitude)
    else Some(magnitude)
  }

  /** A query parameter: absent reads as `parseInt(undefined)`, which is NaN. */
  function ParseParam(param: Option<string>): (r: Option<int>)
    ensures param.None? ==> r.None?
    ensures param.Some? ==> r == ParseInt(param.value)
  {
    if param.None? then None else ParseInt(param.value)
  }

  /** `parseInt(param, 10) || fallback`: NaN and 0 are falsy. */
  function OrDefault(n: Option<int>, fallback: int): (r: int)
    ensures n.None? || n == Some(0) ==> r == fallback
    ensures n.Some? && n.value != 0 ==> r == n.value
  {
    if n.Some? && n.value != 0 then n.value else fallback
  }

  // ---------------------------------------------------------------- the pagination

  /** `Math.ceil(a / b)` for a non-zero divisor. */
  function CeilDiv(a: int, b: int): (r: int)
    requires b != 0
    ensures b > 0 ==> (r - 1) * b < a <= r * b
    ensures b < 0 ==> r * b <= a < (r - 1) * b
  {
    if b > 0 then -((-a) / b) else -((-(-a)) / (-b))
  }

  datatype Pagination = Pagination(page: int, limit: int, skip: int, pages: int)

  function GetSchedulesPagination(pageParam: Option<string>, limitParam: Option<string>, total: nat): (r: Pagination)
    ensures r.page != 0 && r.limit != 0
    ensures r.page == OrDefault(ParseParam(pageParam), DefaultPage)
    ensures r.limit == OrDefault(ParseParam(limitParam), DefaultLimit)
    ensures r.skip == (r.page - 1) * r.limit
    ensures r.pages == CeilDiv(total, r.limit)
  {
    var page := OrDefault(ParseParam(pageParam), DefaultPage);
    var limit := OrDefault(ParseParam(limitParam), DefaultLimit);
    Pagination(page, limit, (page - 1) * limit, CeilDiv(total, limit))
  }

  /** What `skip(skip).limit(limit)` returns of the sorted collection for a positive page
      and limit. */
  function PageWindow(items: seq<int>, page: int, limit: int): (w: seq<int>)
    requires page >= 1 && limit >= 1
    ensures |w| <= limit
  {
    var s := (page - 1) * limit;
    var lo := if s < |items| then s else |items|;
    var hi := if s + limit < |items| then s + limit else |items|;
    items[lo..hi]
  }

  /** The collection cut into consecutive pages of `limit` documents. */
  function Paged(items: seq<int>, limit: int): (ps: seq<seq<int>>)
    requires limit >= 1
    decreases |items|
  {
    if |items| == 0 then []
    else if |items| <= limit then [items]
    else [items[..limit]] + Paged(items[limit..], limit)
  }

  function Flatten(ps: seq<seq<int>>): seq<int> {
    if |ps| == 0 then [] else ps[0] + Flatten(ps[1..])
  }

  // ---------------------------------------------------------------- properties

  /** Absent, unparseable or zero parameters fall back to page 1 and 50 per page. */
  lemma DefaultsApply(total: nat)
    ensures GetSchedulesPagination(None, None, total) == Pagination(1, 50, 0, CeilDiv(total, 50))
    ensures GetSchedulesPagination(Some("0"), Some("abc"), total) == Pagination(1, 50, 0, CeilDiv(total, 50))
  {
    ParseZero();
    ParseLetters();
  }

  lemma ParseZero()
    ensures ParseInt("0") == Some(0)
  {
    ParseIntReadsDecimal(0);
    assert NatToString(0) == "0";
  }

  lemma ParseLetters()
    ensures ParseInt("abc") == None
  {
    var s := "abc";
    assert !IsSpace(s[0]) && !IsDigit(s[0]);
    assert TrimStart(s) == s;
    assert DigitPrefix(s) == "";
  }

  /** A decimal natural is read back as itself, and with a minus sign as its negation. */
  lemma ParseIntReadsDecimal(n: nat)
    ensures ParseInt(NatToString(n)) == Some(n)
    ensures ParseInt("-" + NatToString(n)) == Some(0 - n)
  {
    var s := NatToString(n);
    DigitPrefixAll(s);
    PlainStart(s);
    var m := "-" + s;
    assert !IsSpace(m[0]);
    assert TrimStart(m) == m;
    assert m[1..] == s;
  }

  lemma PlainStart(s: string)
    requires AllDigits(s) && |s| > 0
    ensures TrimStart(s) == s
  {
    assert IsDigit(s[0]);
  }

  lemma {:induction false} DigitPrefixAll(s: string)
    requires AllDigits(s)
    ensures DigitPrefix(s) == s
  {
    if |s| > 0 {
      DigitPrefixAll(s[1..]);
      assert [s[0]] + s[1..] == s;
    }
  }

  /** For a positive limit the pages just cover the collection: the last page is not
      empty, and an empty collection has no pages. */
  lemma PagesCoverTotal(total: nat, limit: int)
    requires limit > 0
    ensures CeilDiv(total, limit) * limit >= total
    ensures total > 0 ==> (CeilDiv(total, limit) - 1) * limit < total && CeilDiv(total, limit) >= 1
    ensures total == 0 ==> CeilDiv(total, limit) == 0
  {
  }

  /** The reply's page count just covers the total, and for a positive page and limit a
      page starts inside the collection exactly when it is within the page count. */
  lemma PaginationCoversCollection(pageParam: Option<string>, limitParam: Option<string>, total: nat)
    ensures var r := GetSchedulesPagination(pageParam, limitParam, total);
            && (r.limit > 0 ==> r.pages * r.limit >= total && (total > 0 ==> (r.pages - 1) * r.limit < total))
            && (r.page >= 1 && r.limit > 0 ==> r.skip >= 0 && (r.skip < total <==> r.page <= r.pages))
  {
    var r := GetSchedulesPagination(pageParam, limitParam, total);
    if r.limit > 0 {
      PagesCoverTotal(total, r.limit);
      if r.page >= 1 {
        SkipWithinPages(total, r.page, r.limit);
      }
    }
  }

  /** A page starts inside the collection exactly when it is within the page count. */
  lemma SkipWithinPages(total: nat, page: int, limit: int)
    requires page >= 1 && limit > 0
    ensures (page - 1) * limit >= 0
    ensures (page - 1) * limit < total <==> page <= CeilDiv(total, limit)
  {
    var r := CeilDiv(total, limit);
    assert (r - 1) * limit < total <= r * limit;
    MulMonotone(0, page - 1, limit);
    if page <= r {
      MulMonotone(page - 1, r - 1, limit);
    } else {
      MulMonotone(r, page - 1, limit);
    }
  }

  /** Every document of the collection lies on a page within the count: document k is on
      page k / limit + 1, whose skip is at most k and less than limit before it. */
  lemma EveryDocumentOnAPage(total: nat, limit: int, k: nat)
    requires limit > 0 && k < total
    ensures var p := k / limit + 1;
            1 <= p <= CeilDiv(total, limit) && (p - 1) * limit <= k < (p - 1) * limit + limit
  {
    var p := k / limit + 1;
    var r := CeilDiv(total, limit);
    assert (p - 1) * limit == k / limit * limit;
    if p > r {
      assert (p - 1) * limit >= r * limit by {
        assert p - 1 >= r;
        MulMonotone(r, p - 1, limit);
      }
    }
  }

  lemma MulMonotone(a: int, b: int, c: int)
    requires a <= b && c > 0
    ensures a * c <= b * c
  {
  }

  /** Page p of the reply is the p-th piece of the collection cut into pages. */
  lemma {:induction false} WindowIsPiece(items: seq<int>, limit: int, i: nat)
    requires limit >= 1 && i < |Paged(items, limit)|
    ensures Paged(items, limit)[i] == PageWindow(items, i + 1, limit)
    decreases |items|
  {
    if |items| <= limit {
      assert i == 0;
    } else if i == 0 {
    } else {
      var rest := items[limit..];
      WindowIsPiece(rest, limit, i - 1);
      assert Paged(items, limit)[i] == Paged(rest, limit)[i - 1];
      var t := (i - 1) * limit;
      assert t >= 0 by { MulMonotone(0, i - 1, limit); }
      assert i * limit == t + limit;
      var lo := if t < |rest| then t else |rest|;
      var hi := if t + limit < |rest| then t + limit else |rest|;
      assert PageWindow(rest, i, limit) == rest[lo..hi];
      assert PageWindow(items, i + 1, limit) == items[lo + limit..hi + limit];
      assert rest[lo..hi] == items[lo + limit..hi + limit];
    }
  }

  /** The pieces, laid end to end, are the whole collection, and there are as many as the
      page count of the reply. */
  lemma {:induction false} PiecesPartition(items: seq<int>, limit: int)
    requires limit >= 1
    ensures Flatten(Paged(items, limit)) == items
    ensures |Paged(items, limit)| == CeilDiv(|items|, limit)
    decreases |items|
  {
    if |items| == 0 {
      PagesCoverTotal(0, limit);
    } else if |items| <= limit {
      PagesCoverTotal(|items|, limit);
      CeilOne(|items|, limit);
    } else {
      var rest := items[limit..];
      PiecesPartition(rest, limit);
      assert items[..limit] + rest == items;
      CeilStep(|items|, limit);
    }
  }

  lemma CeilOne(n: int, limit: int)
    requires 0 < n <= limit
    ensures CeilDiv(n, limit) == 1
  {
    CeilUnique(n, limit, 1);
  }

  lemma CeilStep(n: int, limit: int)
    requires limit >= 1 && n > limit
    ensures CeilDiv(n, limit) == CeilDiv(n - limit, limit) + 1
  {
    var r := CeilDiv(n - limit, limit);
    assert (r - 1) * limit < n - limit <= r * limit;
    assert (r + 1 - 1) * limit < n <= (r + 1) * limit;
    CeilUnique(n, limit, r + 1);
  }

  /** The ceiling is the one r with (r - 1) * limit < n <= r * limit. */
  lemma CeilUnique(n: int, limit: int, r: int)
    requires limit >= 1 && (r - 1) * limit < n <= r * limit
    ensures CeilDiv(n, limit) == r
  {
    var c := CeilDiv(n, limit);
    if c > r {
      MulMonotone(r, c - 1, limit);
    } else if c < r {
      MulMonotone(c, r - 1, limit);
    }
  }
}
