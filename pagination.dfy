/**
 * Page and limit handling shared by `ProjectService.findAll` and
 * `TaskService.findAll`, and the `page`/`limit` transforms of the query DTOs:
 * `val ? parseInt(val, 10) : undefined`, then `page || 1`, `limit || 10`,
 * `skip = (page - 1) * limit`, `take = limit` and
 * `totalPages = Math.ceil(total / limit)`.
 */
module Pagination {
  import opened Common
  import opened Strings

  /** A number as JavaScript holds it after the query transform: `undefined`, `NaN` or an integer. */
  datatype QueryNumber = Undefined | NaN | Num(value: int)

  /** The pagination block of a list response (the `PaginationMeta` interface). */
  datatype PaginationMeta = PaginationMeta(page: int, limit: int, total: nat, totalPages: int)

  const DefaultPage: int := 1
  const DefaultLimit: int := 10

  // ---------------------------------------------------------------------------
  // parseInt(val, 10)

  /** The longest prefix of `s` made of decimal digits. */
  function DigitPrefix(s: string): (d: string)
    ensures d <= s
    ensures forall k :: 0 <= k < |d| ==> IsDigit(d[k])
    ensures |d| < |s| ==> !IsDigit(s[|d|])
  {
    if s != [] && IsDigit(s[0]) then [s[0]] + DigitPrefix(s[1..]) else []
  }

  /**
   * `parseInt(s, 10)`: skip leading whitespace, read an optional sign, then the
   * longest run of digits; no digits at all gives `NaN`.
   */
  function ParseInt(s: string): (q: QueryNumber)
    ensures TrimStart(s) == [] ==> q == NaN
    ensures q.Num? && q.value < 0 ==> TrimStart(s)[0] == '-'
  {
    var t := TrimStart(s);
    var negative := t != [] && t[0] == '-';
    var unsigned := if t != [] && (t[0] == '-' || t[0] == '+') then t[1..] else t;
    var digits := DigitPrefix(unsigned);
    if digits == [] then NaN
    else if negative then Num(-(DigitsValue(digits) as int))
    else Num(DigitsValue(digits))
  }

  /** The DTO transform: an absent or empty string is `undefined`, anything else goes through `parseInt`. */
  function QueryTransform(val: Option<string>): (q: QueryNumber)
    ensures q.Undefined? <==> (val.None? || val.value == "")
  {
    if val.None? || val.value == "" then Undefined else ParseInt(val.value)
  }

  lemma DigitPrefixOfDigits(s: string)
    requires forall k :: 0 <= k < |s| ==> IsDigit(s[k])
    ensures DigitPrefix(s) == s
  {
  }

  /** `parseInt` reads back the decimal rendering of any natural number. */
  lemma ParseIntOfDecimal(n: nat)
    ensures ParseInt(Decimal(n)) == Num(n)
  {
    var d := Decimal(n);
    assert TrimStart(d) == d by { assert !IsSpace(d[0]); }
    DigitPrefixOfDigits(d);
    DigitsValueOfDecimal(n);
  }

  /** ... and of its negation. */
  lemma ParseIntOfNegativeDecimal(n: nat)
    ensures ParseInt("-" + Decimal(n)) == Num(-(n as int))
  {
    var d := Decimal(n);
    var s := "-" + d;
    assert TrimStart(s) == s;
    assert s[1..] == d;
    DigitPrefixOfDigits(d);
    DigitsValueOfDecimal(n);
  }

  /** A string that starts with something other than whitespace, a sign or a digit parses to `NaN`. */
  lemma ParseIntOfNonNumeric(s: string)
    requires s != [] && !IsSpace(s[0]) && !IsDigit(s[0]) && s[0] != '-' && s[0] != '+'
    ensures ParseInt(s) == NaN
  {
  }

  // ---------------------------------------------------------------------------
  // page || 1, limit || 10, skip, take, totalPages

  /** JavaScript `q || default` on a number: `undefined`, `NaN` and `0` are falsy. */
  function OrDefault(q: QueryNumber, default: int): int {
    if q.Num? && q.value != 0 then q.value else default
  }

  /** The page actually served, the page size and the number of rows skipped. */
  datatype Window = Window(page: int, limit: int, skip: int)

  function WindowOf(page: QueryNumber, limit: QueryNumber): (w: Window)
    ensures w.page != 0 && w.limit != 0
    ensures w.skip == (w.page - 1) * w.limit
  {
    var p := OrDefault(page, DefaultPage);
    var l := OrDefault(limit, DefaultLimit);
    Window(p, l, (p - 1) * l)
  }

  /** A missing, `NaN` or zero page or limit falls back to 1 and 10; any other value is used as given. */
  lemma WindowDefaults(page: QueryNumber, limit: QueryNumber)
    ensures (page.Undefined? || page.NaN? || page == Num(0)) ==> WindowOf(page, limit).page == 1
    ensures page.Num? && page.value != 0 ==> WindowOf(page, limit).page == page.value
    ensures (limit.Undefined? || limit.NaN? || limit == Num(0)) ==> WindowOf(page, limit).limit == 10
    ensures limit.Num? && limit.value != 0 ==> WindowOf(page, limit).limit == limit.value
    ensures page.Undefined? ==> WindowOf(page, limit).skip == 0
  {
  }

  /** `Math.ceil(n / d)` for a positive divisor, by repeated subtraction. */
  function CeilDiv(n: nat, d: nat): (q: nat)
    requires d > 0
    ensures q == 0 <==> n == 0
    ensures q <= n
    decreases n
  {
    if n == 0 then 0
    else if n <= d then 1
    else CeilDiv(n - d, d) + 1
  }

  /** `CeilDiv(n, d)` is the least number of `d`-sized pages that hold `n` rows. */
  lemma {:induction false} CeilDivIsCeiling(n: nat, d: nat)
    requires d > 0
    ensures CeilDiv(n, d) * d >= n
    ensures CeilDiv(n, d) == 0 || (CeilDiv(n, d) - 1) * d < n
    decreases n
  {
    if n > d {
      var r := CeilDiv(n - d, d);
      assert CeilDiv(n, d) == r + 1;
      CeilDivIsCeiling(n - d, d);
      MulStep(r, d);
      if r > 0 {
        MulStep(r - 1, d);
      }
    }
  }

  lemma MulStep(a: int, c: int)
    ensures (a + 1) * c == a * c + c
  {
  }

  /**
   * `totalPages = Math.ceil(total / limit)` for any non-zero limit. A negative
   * limit gives a quotient of at most zero, rounded up towards zero
   * (`Math.ceil(-0)` is `-0`, which JSON writes as `0`).
   */
  function TotalPages(total: nat, limit: int): (pages: int)
    requires limit != 0
    ensures limit > 0 ==> pages == CeilDiv(total, limit)
    ensures limit < 0 ==> pages <= 0
  {
    if limit > 0 then CeilDiv(total, limit) else -(total / -limit)
  }

  /** `TotalPages` is the ceiling of the quotient: the least `q` with `q * limit >= total` (`<=` when `limit` is negative). */
  lemma TotalPagesIsCeiling(total: nat, limit: int)
    requires limit != 0
    ensures limit > 0 ==> TotalPages(total, limit) * limit >= total && (TotalPages(total, limit) - 1) * limit < total
    ensures limit < 0 ==> TotalPages(total, limit) * limit <= total && (TotalPages(total, limit) - 1) * limit > total
  {
    if limit > 0 {
      CeilDivIsCeiling(total, limit);
    } else {
      var e := -limit;
      var q := total / e;
      assert total == q * e + total % e;
      assert TotalPages(total, limit) * limit == q * e;
      assert (TotalPages(total, limit) - 1) * limit == q * e + e;
    }
  }

  /** The pagination block of a response. */
  function Meta(w: Window, total: nat): (m: PaginationMeta)
    requires w.limit != 0
    ensures m.page == w.page && m.limit == w.limit && m.total == total
    ensures m.totalPages == TotalPages(total, w.limit)
  {
    PaginationMeta(w.page, w.limit, total, TotalPages(total, w.limit))
  }

  /** `findMany({ skip, take })` with `take >= 0` over an ordered list of rows. */
  function PageOf<T>(rows: seq<T>, skip: nat, take: nat): (r: seq<T>)
    ensures |r| <= take
    ensures |r| == if skip >= |rows| then 0 else if skip + take <= |rows| then take else |rows| - skip
    ensures forall i :: 0 <= i < |r| ==> r[i] == rows[skip + i]
    ensures forall x :: x in r ==> x in rows
  {
    if skip >= |rows| then [] else rows[skip..if skip + take <= |rows| then skip + take else |rows|]
  }

  /** The rows in the opposite order. */
  function Reverse<T>(rows: seq<T>): (r: seq<T>)
    ensures |r| == |rows|
    ensures forall i :: 0 <= i < |rows| ==> r[i] == rows[|rows| - 1 - i]
  {
    seq(|rows|, i requires 0 <= i < |rows| => rows[|rows| - 1 - i])
  }

  function Abs(x: int): nat {
    if x < 0 then -x else x
  }

  /**
   * How many rows `findMany({ skip, take })` returns: at most `|take|`, and
   * fewer only when the rows run out.
   */
  function ServedCount(n: nat, skip: nat, take: int): (c: nat)
    ensures c <= Abs(take)
    ensures c < Abs(take) ==> skip + c >= n
  {
    if skip >= n then 0 else if skip + Abs(take) <= n then Abs(take) else n - skip
  }

  /**
   * Where the returned rows start: at `skip` for a non-negative `take`; for a
   * negative one, so that they end `skip` rows before the end of the list.
   */
  function ServedStart(n: nat, skip: nat, take: int): (s: nat)
    ensures ServedCount(n, skip, take) > 0 ==> s + ServedCount(n, skip, take) <= n
    ensures take >= 0 ==> s == skip
    ensures take < 0 && ServedCount(n, skip, take) > 0 ==> s + ServedCount(n, skip, take) == n - skip
  {
    if take >= 0 then skip else if skip >= n then 0 else n - skip - ServedCount(n, skip, take)
  }

  /**
   * `findMany({ skip, take })` for any `take`: the `ServedCount` rows from
   * `ServedStart` on, in list order.
   */
  function Served<T>(rows: seq<T>, skip: nat, take: int): (r: seq<T>)
    ensures |r| == ServedCount(|rows|, skip, take)
    ensures forall i :: 0 <= i < |r| ==> r[i] == rows[ServedStart(|rows|, skip, take) + i]
  {
    var start, count := ServedStart(|rows|, skip, take), ServedCount(|rows|, skip, take);
    seq(count, i requires 0 <= i < count && start + count <= |rows| => rows[start + i])
  }

  /**
   * `Served` is the database's reading of `skip` and `take`: a plain slice for
   * a non-negative `take`; for a negative one, reverse the order, skip `skip`
   * rows, take `-take` rows and restore the order.
   */
  lemma ServedIsFindMany<T>(rows: seq<T>, skip: nat, take: int)
    ensures take >= 0 ==> Served(rows, skip, take) == PageOf(rows, skip, take)
    ensures take < 0 ==> Served(rows, skip, take) == Reverse(PageOf(Reverse(rows), skip, -take))
  {
    var r := Served(rows, skip, take);
    if take >= 0 {
      var p := PageOf(rows, skip, take);
      assert |r| == |p|;
      forall i | 0 <= i < |r| ensures r[i] == p[i] { }
    } else {
      var p := PageOf(Reverse(rows), skip, -take);
      var rp := Reverse(p);
      assert |r| == |rp|;
      forall i | 0 <= i < |r| ensures r[i] == rp[i] {
        assert rp[i] == p[|p| - 1 - i] == Reverse(rows)[skip + |p| - 1 - i];
      }
    }
  }

  /** With a negative `take` the first page (`skip` 0) ends with the last row. */
  lemma NegativeTakeEndsAtLastRow<T>(rows: seq<T>, take: int)
    requires take < 0 && rows != []
    ensures var r := Served(rows, 0, take); r != [] && r[|r| - 1] == rows[|rows| - 1]
  {
  }

  /**
   * With a negative limit `totalPages` is zero or less while the first page
   * still serves rows: 7 rows and limit -5 give `totalPages` -1 and a first
   * page of 5 rows.
   */
  lemma NegativeLimitOutrunsTotalPages<T>(rows: seq<T>)
    requires |rows| == 7
    ensures TotalPages(|rows|, -5) == -1
    ensures |Served(rows, 0, -5)| == 5
  {
  }

  /** A page is full unless the rows run out before it is. */
  lemma PageOfSize<T>(rows: seq<T>, skip: nat, take: nat)
    ensures |PageOf(rows, skip, take)| <= take
    ensures |PageOf(rows, skip, take)| < take ==> skip + |PageOf(rows, skip, take)| >= |rows|
  {
  }

  lemma MulMonotone(a: int, b: int, c: nat)
    requires a <= b
    ensures a * c <= b * c
  {
  }

  /** A page past `totalPages` is empty. */
  lemma PageBeyondLastIsEmpty<T>(rows: seq<T>, w: Window)
    requires w.limit > 0 && w.page > CeilDiv(|rows|, w.limit)
    requires w.skip == (w.page - 1) * w.limit
    ensures w.skip >= 0
    ensures PageOf(rows, w.skip, w.limit) == []
  {
    var pages := CeilDiv(|rows|, w.limit);
    CeilDivIsCeiling(|rows|, w.limit);
    MulMonotone(pages, w.page - 1, w.limit);
  }

  /** Floor division splits `i` into whole pages and an offset within one. */
  lemma DivParts(i: nat, d: nat)
    requires d > 0
    ensures 0 <= (i / d) * d <= i
    ensures (i / d) * d + i % d == i && i % d < d
  {
  }

  /** A row before the `pages * d`-th lies on one of the first `pages` pages. */
  lemma RowBelowCeiling(i: nat, n: nat, d: nat, pages: nat)
    requires d > 0 && i < n <= pages * d
    ensures i / d < pages
  {
    DivParts(i, d);
    if i / d >= pages {
      MulMonotone(pages, i / d, d);
    }
  }

  /** The page that holds row `i` is one that `totalPages` counts. */
  lemma PageOfRowIsCounted(n: nat, limit: nat, i: nat)
    requires limit > 0 && i < n
    ensures 1 <= i / limit + 1 <= CeilDiv(n, limit)
  {
    CeilDivIsCeiling(n, limit);
    RowBelowCeiling(i, n, limit, CeilDiv(n, limit));
  }

  /**
   * Every row is served on exactly the page that `totalPages` counts for it:
   * row `i` is item `i % limit` of the page that skips `(i / limit) * limit` rows.
   */
  lemma RowOnItsPage<T>(rows: seq<T>, limit: nat, i: nat)
    requires limit > 0 && i < |rows|
    ensures 1 <= i / limit + 1 <= CeilDiv(|rows|, limit)
    ensures 0 <= (i / limit) * limit && (i / limit) * limit + i % limit == i
    ensures i % limit < |PageOf(rows, (i / limit) * limit, limit)|
    ensures PageOf(rows, (i / limit) * limit, limit)[i % limit] == rows[i]
  {
    PageOfRowIsCounted(|rows|, limit, i);
    DivParts(i, limit);
    var skip: nat, r := (i / limit) * limit, i % limit;
    RowInPage(rows, skip, limit, r);
  }

  /** Offset `r` of a page starting before the end is served when `r` is below both the limit and the rows left. */
  lemma RowInPage<T>(rows: seq<T>, skip: nat, take: nat, r: nat)
    requires r < take && skip + r < |rows|
    ensures r < |PageOf(rows, skip, take)| && PageOf(rows, skip, take)[r] == rows[skip + r]
  {
  }

  /**
   * The window of the query that asks for row `i`'s page, `i / limit + 1`, with
   * the same `limit` argument: it is counted by `totalPages` and serves row `i`
   * as its item `i % limit`.
   */
  lemma WindowServingRow<T>(rows: seq<T>, limit: QueryNumber, i: nat)
    requires OrDefault(limit, DefaultLimit) > 0 && i < |rows|
    ensures var l := OrDefault(limit, DefaultLimit);
      var w := WindowOf(Num(i / l + 1), limit);
      && w.page == i / l + 1 && w.limit == l && w.skip >= 0
      && w.page <= TotalPages(|rows|, l)
      && w.skip + i % l == i
      && i % l < ServedCount(|rows|, w.skip, l)
      && ServedStart(|rows|, w.skip, l) + i % l == i
  {
    var l := OrDefault(limit, DefaultLimit);
    var w := WindowOf(Num(i / l + 1), limit);
    assert w.skip == (i / l) * l;
    PageOfRowIsCounted(|rows|, l, i);
    DivParts(i, l);
  }
}
