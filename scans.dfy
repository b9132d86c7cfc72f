/** The `scans` table and its repository: one row per recorded visit of a redirect URL.
    The table is kept in ascending id order (ids come from an auto-increment counter), so the
    SQL `ORDER BY id` clauses are read off the row order. Times are UTC seconds; a row's day
    is its time divided by 86400. */
module Scans {
  import opened Wrappers

  const SecondsPerDay := 86400

  /** The default LIMIT of findByQrCode and of countryBreakdown, and the default window of
      dailyCounts. */
  const DefaultFindLimit: nat := 50
  const DefaultBreakdownLimit: nat := 10
  const DefaultDays: int := 30

  datatype Scan = Scan(
    id: Option<int>,
    qrCodeId: int,
    scannedAt: int,
    ip: Option<string>,
    userAgent: Option<string>,
    city: Option<string>,
    country: Option<string>)

  function DayOf(t: int): int { t / SecondsPerDay }

  /** Every row carries an id, ids strictly ascend, and all are below the counter. */
  ghost predicate WellFormedRows(rows: seq<Scan>, nextId: int) {
    && (forall i :: 0 <= i < |rows| ==> rows[i].id.Some? && rows[i].id.value < nextId)
    && (forall i, j :: 0 <= i < j < |rows| ==> rows[i].id.value < rows[j].id.value)
  }

  /** Number of rows of one QR code. */
  function CountOf(rows: seq<Scan>, q: int): (n: nat)
    ensures n <= |rows|
  {
    if |rows| == 0 then 0
    else CountOf(rows[..|rows| - 1], q) + (if rows[|rows| - 1].qrCodeId == q then 1 else 0)
  }

  lemma {:induction false} CountOfZero(rows: seq<Scan>, q: int)
    ensures CountOf(rows, q) == 0 <==> forall i :: 0 <= i < |rows| ==> rows[i].qrCodeId != q
  {
    if |rows| > 0 {
      var init := rows[..|rows| - 1];
      CountOfZero(init, q);
      assert forall i :: 0 <= i < |init| ==> init[i] == rows[i];
    }
  }

  // ---------------------------------------------------------------------------------------
  // findByQrCode: the latest `limit` rows of one QR code, newest first

  function Latest(rows: seq<Scan>, q: int, limit: nat): seq<Scan>
    decreases |rows|
  {
    if |rows| == 0 || limit == 0 then []
    else
      var last := rows[|rows| - 1];
      if last.qrCodeId == q then [last] + Latest(rows[..|rows| - 1], q, limit - 1)
      else Latest(rows[..|rows| - 1], q, limit)
  }

  /** The latest rows are rows of that QR code, at most `limit` of them (exactly `limit`
      when there are that many), in strictly descending id order, and every row of that QR
      code left out is older than every row returned. */
  lemma LatestProperties(rows: seq<Scan>, nextId: int, q: int, limit: nat)
    requires WellFormedRows(rows, nextId)
    ensures var r := Latest(rows, q, limit);
      && |r| == (if CountOf(rows, q) < limit then CountOf(rows, q) else limit)
      && (forall k :: 0 <= k < |r| ==> r[k] in rows && r[k].qrCodeId == q)
      && (forall k :: 0 <= k < |r| ==> r[k].id.Some?)
      && (forall k, l :: 0 <= k < l < |r| ==> r[k].id.value > r[l].id.value)
      && (forall i :: 0 <= i < |rows| && rows[i].qrCodeId == q && rows[i] !in r ==>
            forall k :: 0 <= k < |r| ==> rows[i].id.value < r[k].id.value)
  {
    LatestShape(rows, nextId, q, limit);
    LatestAreNewest(rows, nextId, q, limit);
  }

  /** Every row of the QR code that is left out is older than every row returned. */
  lemma {:induction false} LatestAreNewest(rows: seq<Scan>, nextId: int, q: int, limit: nat)
    requires WellFormedRows(rows, nextId)
    ensures var r := Latest(rows, q, limit);
      && (forall k :: 0 <= k < |r| ==> r[k].id.Some?)
      && (forall i :: 0 <= i < |rows| && rows[i].qrCodeId == q && rows[i] !in r ==>
            forall k :: 0 <= k < |r| ==> rows[i].id.value < r[k].id.value)
    decreases |rows|
  {
    LatestShape(rows, nextId, q, limit);
    if |rows| > 0 && limit > 0 {
      var init := rows[..|rows| - 1];
      var last := rows[|rows| - 1];
      var r := Latest(rows, q, limit);
      assert WellFormedRows(init, nextId) by {
        assert forall i :: 0 <= i < |init| ==> init[i] == rows[i];
      }
      if last.qrCodeId == q {
        LatestAreNewest(init, nextId, q, limit - 1);
        var tail := Latest(init, q, limit - 1);
        assert r == [last] + tail;
        forall i | 0 <= i < |rows| && rows[i].qrCodeId == q && rows[i] !in r
          ensures forall k :: 0 <= k < |r| ==> rows[i].id.value < r[k].id.value
        {
          assert i < |init| by { assert r[0] == last; }
          assert init[i] == rows[i];
          assert init[i] !in tail;
          forall k | 0 <= k < |r|
            ensures rows[i].id.value < r[k].id.value
          {
            if k > 0 {
              assert r[k] == tail[k - 1];
            }
          }
        }
      } else {
        LatestAreNewest(init, nextId, q, limit);
        forall i | 0 <= i < |rows| && rows[i].qrCodeId == q && rows[i] !in r
          ensures forall k :: 0 <= k < |r| ==> rows[i].id.value < r[k].id.value
        {
          assert i < |init|;
          assert init[i] == rows[i];
        }
      }
    }
  }

  /** The count, membership and order of the latest rows. */
  lemma {:induction false} LatestShape(rows: seq<Scan>, nextId: int, q: int, limit: nat)
    requires WellFormedRows(rows, nextId)
    ensures var r := Latest(rows, q, limit);
      && |r| == (if CountOf(rows, q) < limit then CountOf(rows, q) else limit)
      && (forall k :: 0 <= k < |r| ==> r[k] in rows && r[k].qrCodeId == q)
      && (forall k :: 0 <= k < |r| ==> r[k].id.Some?)
      && (forall k, l :: 0 <= k < l < |r| ==> r[k].id.value > r[l].id.value)
    decreases |rows|
  {
    if |rows| > 0 && limit > 0 {
      var init := rows[..|rows| - 1];
      var last := rows[|rows| - 1];
      assert WellFormedRows(init, nextId) by {
        assert forall i :: 0 <= i < |init| ==> init[i] == rows[i];
      }
      if last.qrCodeId == q {
        LatestShape(init, nextId, q, limit - 1);
        var tail := Latest(init, q, limit - 1);
        assert forall k :: 0 <= k < |tail| ==> tail[k] in rows && tail[k].id.value < last.id.value by {
          forall k | 0 <= k < |tail|
            ensures tail[k] in rows && tail[k].id.value < last.id.value
          {
            BelowLast(rows, nextId, tail[k]);
          }
        }
        ConsNewest(last, tail);
      } else {
        LatestShape(init, nextId, q, limit);
        InitRows(rows, Latest(init, q, limit));
      }
    }
  }

  /** A row before the last one has a smaller id. */
  lemma BelowLast(rows: seq<Scan>, nextId: int, x: Scan)
    requires |rows| > 0 && WellFormedRows(rows, nextId) && x in rows[..|rows| - 1]
    ensures x in rows && x.id.value < rows[|rows| - 1].id.value
  {
    var i :| 0 <= i < |rows| - 1 && rows[..|rows| - 1][i] == x;
    assert rows[i] == x;
  }

  /** Rows taken from all but the last row are rows. */
  lemma InitRows(rows: seq<Scan>, r: seq<Scan>)
    requires |rows| > 0 && forall k :: 0 <= k < |r| ==> r[k] in rows[..|rows| - 1]
    ensures forall k :: 0 <= k < |r| ==> r[k] in rows
  {
    forall k | 0 <= k < |r|
      ensures r[k] in rows
    {
      var i :| 0 <= i < |rows| - 1 && rows[..|rows| - 1][i] == r[k];
      assert rows[i] == r[k];
    }
  }

  /** A newer row in front of a descending list keeps it descending. */
  lemma ConsNewest(last: Scan, tail: seq<Scan>)
    requires last.id.Some?
    requires forall k :: 0 <= k < |tail| ==> tail[k].id.Some? && tail[k].id.value < last.id.value
    requires forall k, l :: 0 <= k < l < |tail| ==> tail[k].id.value > tail[l].id.value
    ensures var r := [last] + tail;
      && (forall k :: 0 <= k < |r| ==> r[k].id.Some?)
      && (forall k, l :: 0 <= k < l < |r| ==> r[k].id.value > r[l].id.value)
  {
    var r := [last] + tail;
    forall k, l | 0 <= k < l < |r|
      ensures r[k].id.value > r[l].id.value
    {
      assert r[l] == tail[l - 1];
      if k > 0 {
        assert r[k] == tail[k - 1];
      }
    }
  }

  // ---------------------------------------------------------------------------------------
  // dailyCounts: scans per day since a cut-off day, ascending by day

  datatype DayCount = DayCount(day: int, cnt: nat)

  ghost predicate DaysAscending(acc: seq<DayCount>) {
    forall i, j :: 0 <= i < j < |acc| ==> acc[i].day < acc[j].day
  }

  ghost predicate CountsPositive(acc: seq<DayCount>) {
    forall i :: 0 <= i < |acc| ==> acc[i].cnt >= 1
  }

  /** The count recorded for day `d`, 0 when the day is absent. */
  function CountForDay(acc: seq<DayCount>, d: int): nat
  {
    if |acc| == 0 then 0
    else if acc[0].day == d then acc[0].cnt
    else CountForDay(acc[1..], d)
  }

  /** Adds one scan on day `d` to an ascending list of day counts. */
  function AddDay(acc: seq<DayCount>, d: int): seq<DayCount>
  {
    if |acc| == 0 then [DayCount(d, 1)]
    else if acc[0].day == d then [acc[0].(cnt := acc[0].cnt + 1)] + acc[1..]
    else if d < acc[0].day then [DayCount(d, 1)] + acc
    else [acc[0]] + AddDay(acc[1..], d)
  }

  /** Adding a day above a bound keeps every day above it. */
  lemma {:induction false} AddDayAbove(acc: seq<DayCount>, d: int, m: int)
    requires forall i :: 0 <= i < |acc| ==> acc[i].day > m
    requires d > m
    ensures forall i :: 0 <= i < |AddDay(acc, d)| ==> AddDay(acc, d)[i].day > m
  {
    if |acc| > 0 && acc[0].day != d && d >= acc[0].day {
      AddDayAbove(acc[1..], d, m);
    }
  }

  lemma {:induction false} AddDayShape(acc: seq<DayCount>, d: int)
    requires DaysAscending(acc) && CountsPositive(acc)
    ensures DaysAscending(AddDay(acc, d)) && CountsPositive(AddDay(acc, d))
  {
    if |acc| > 0 && acc[0].day != d && d >= acc[0].day {
      AddDayShape(acc[1..], d);
      AddDayAbove(acc[1..], d, acc[0].day);
    }
  }

  lemma {:induction false} AddDayCount(acc: seq<DayCount>, d: int, e: int)
    requires DaysAscending(acc)
    ensures CountForDay(AddDay(acc, d), e) == CountForDay(acc, e) + (if e == d then 1 else 0)
  {
    if |acc| > 0 {
      var r := AddDay(acc, d);
      if acc[0].day == d {
        assert r[1..] == acc[1..];
      } else if d < acc[0].day {
        assert r[1..] == acc;
        if e == d {
          CountForDayAbsent(acc, d);
        }
      } else {
        AddDayCount(acc[1..], d, e);
        assert r[1..] == AddDay(acc[1..], d);
      }
    }
  }

  /** A day below the first day of an ascending list has no count. */
  lemma {:induction false} CountForDayAbsent(acc: seq<DayCount>, d: int)
    requires DaysAscending(acc)
    requires |acc| > 0 && d < acc[0].day
    ensures CountForDay(acc, d) == 0
    decreases |acc|
  {
    if |acc| > 1 {
      assert acc[1..][0] == acc[1];
      CountForDayAbsent(acc[1..], d);
    }
  }

  predicate InWindow(s: Scan, q: int, sinceDay: int) {
    s.qrCodeId == q && s.scannedAt >= sinceDay * SecondsPerDay
  }

  /** Number of rows of QR `q` scanned on day `d`, on or after the cut-off day. */
  function ScansOnDay(rows: seq<Scan>, q: int, sinceDay: int, d: int): nat
  {
    if |rows| == 0 then 0
    else
      var last := rows[|rows| - 1];
      ScansOnDay(rows[..|rows| - 1], q, sinceDay, d)
        + (if InWindow(last, q, sinceDay) && DayOf(last.scannedAt) == d then 1 else 0)
  }

  function DailyCountsOf(rows: seq<Scan>, q: int, sinceDay: int): seq<DayCount>
  {
    if |rows| == 0 then []
    else
      var acc := DailyCountsOf(rows[..|rows| - 1], q, sinceDay);
      var last := rows[|rows| - 1];
      if InWindow(last, q, sinceDay) then AddDay(acc, DayOf(last.scannedAt)) else acc
  }

  /** The daily counts list distinct days in ascending order, each with a count of at least 1
      that equals the number of that day's scans in the window; every listed day is a day on
      which the QR code was scanned. */
  lemma {:induction false} DailyCountsProperties(rows: seq<Scan>, q: int, sinceDay: int)
    ensures var r := DailyCountsOf(rows, q, sinceDay);
      && DaysAscending(r) && CountsPositive(r)
      && (forall d :: CountForDay(r, d) == ScansOnDay(rows, q, sinceDay, d))
      && (forall i :: 0 <= i < |r| ==> r[i].day >= sinceDay)
  {
    if |rows| > 0 {
      var init := rows[..|rows| - 1];
      var last := rows[|rows| - 1];
      DailyCountsProperties(init, q, sinceDay);
      var acc := DailyCountsOf(init, q, sinceDay);
      if InWindow(last, q, sinceDay) {
        var d := DayOf(last.scannedAt);
        AddDayShape(acc, d);
        DayOfWindow(last.scannedAt, sinceDay);
        AddDayAbove(acc, d, sinceDay - 1);
        forall e ensures CountForDay(AddDay(acc, d), e) == ScansOnDay(rows, q, sinceDay, e) {
          AddDayCount(acc, d, e);
        }
      }
    }
  }

  lemma DayOfWindow(t: int, sinceDay: int)
    requires t >= sinceDay * SecondsPerDay
    ensures DayOf(t) >= sinceDay
  {
  }

  // ---------------------------------------------------------------------------------------
  // countryBreakdown: scans per country, largest first, at most `limit` groups

  datatype CountryCount = CountryCount(country: Option<string>, cnt: nat)

  /** Adds one scan from `c` to the groups, in order of first appearance. */
  function AddCountry(acc: seq<CountryCount>, c: Option<string>): seq<CountryCount>
  {
    if |acc| == 0 then [CountryCount(c, 1)]
    else if acc[0].country == c then [acc[0].(cnt := acc[0].cnt + 1)] + acc[1..]
    else [acc[0]] + AddCountry(acc[1..], c)
  }

  function GroupByCountry(rows: seq<Scan>, q: int): seq<CountryCount>
  {
    if |rows| == 0 then []
    else
      var acc := GroupByCountry(rows[..|rows| - 1], q);
      var last := rows[|rows| - 1];
      if last.qrCodeId == q then AddCountry(acc, last.country) else acc
  }

  function SumCounts(g: seq<CountryCount>): nat
  {
    if |g| == 0 then 0 else g[0].cnt + SumCounts(g[1..])
  }

  /** Inserts a group after every group with a count at least as large (a stable order). */
  function InsertByCount(g: CountryCount, sorted: seq<CountryCount>): seq<CountryCount>
  {
    if |sorted| == 0 then [g]
    else if sorted[0].cnt >= g.cnt then [sorted[0]] + InsertByCount(g, sorted[1..])
    else [g] + sorted
  }

  function SortByCountDesc(g: seq<CountryCount>): seq<CountryCount>
  {
    if |g| == 0 then [] else InsertByCount(g[0], SortByCountDesc(g[1..]))
  }

  function Take<T>(s: seq<T>, n: nat): (r: seq<T>)
    ensures |r| <= n && |r| <= |s| && r == s[..|r|]
    ensures |s| >= n ==> |r| == n
  {
    if |s| <= n then s else s[..n]
  }

  function CountryBreakdownOf(rows: seq<Scan>, q: int, limit: nat): seq<CountryCount>
  {
    Take(SortByCountDesc(GroupByCountry(rows, q)), limit)
  }

  ghost predicate CountsDescending(g: seq<CountryCount>) {
    forall i, j :: 0 <= i < j < |g| ==> g[i].cnt >= g[j].cnt
  }

  ghost predicate GroupCountsPositive(g: seq<CountryCount>) {
    forall i :: 0 <= i < |g| ==> g[i].cnt >= 1
  }

  lemma {:induction false} AddCountryProperties(acc: seq<CountryCount>, c: Option<string>)
    requires GroupCountsPositive(acc)
    ensures GroupCountsPositive(AddCountry(acc, c))
    ensures SumCounts(AddCountry(acc, c)) == SumCounts(acc) + 1
  {
    if |acc| > 0 {
      var r := AddCountry(acc, c);
      if acc[0].country == c {
        assert r[1..] == acc[1..];
      } else {
        AddCountryProperties(acc[1..], c);
        assert r[1..] == AddCountry(acc[1..], c);
      }
    }
  }

  /** The groups have positive counts that add up to the QR code's total. */
  lemma {:induction false} GroupByCountryTotals(rows: seq<Scan>, q: int)
    ensures GroupCountsPositive(GroupByCountry(rows, q))
    ensures SumCounts(GroupByCountry(rows, q)) == CountOf(rows, q)
  {
    if |rows| > 0 {
      GroupByCountryTotals(rows[..|rows| - 1], q);
      if rows[|rows| - 1].qrCodeId == q {
        AddCountryProperties(GroupByCountry(rows[..|rows| - 1], q), rows[|rows| - 1].country);
      }
    }
  }

  /** Inserting a group no larger than a bound keeps every count under that bound. */
  lemma {:induction false} InsertByCountBelow(g: CountryCount, sorted: seq<CountryCount>, b: nat)
    requires forall i :: 0 <= i < |sorted| ==> sorted[i].cnt <= b
    requires g.cnt <= b
    ensures forall i :: 0 <= i < |InsertByCount(g, sorted)| ==> InsertByCount(g, sorted)[i].cnt <= b
  {
    if |sorted| > 0 && sorted[0].cnt >= g.cnt {
      InsertByCountBelow(g, sorted[1..], b);
    }
  }

  lemma {:induction false} InsertByCountDescending(g: CountryCount, sorted: seq<CountryCount>)
    requires CountsDescending(sorted)
    ensures CountsDescending(InsertByCount(g, sorted))
  {
    if |sorted| > 0 && sorted[0].cnt >= g.cnt {
      InsertByCountDescending(g, sorted[1..]);
      InsertByCountBelow(g, sorted[1..], sorted[0].cnt);
    }
  }

  lemma {:induction false} InsertByCountPermutes(g: CountryCount, sorted: seq<CountryCount>)
    ensures multiset(InsertByCount(g, sorted)) == multiset(sorted) + multiset{g}
  {
    if |sorted| > 0 && sorted[0].cnt >= g.cnt {
      InsertByCountPermutes(g, sorted[1..]);
      assert sorted == [sorted[0]] + sorted[1..];
    }
  }

  lemma {:induction false} InsertByCountSum(g: CountryCount, sorted: seq<CountryCount>)
    ensures SumCounts(InsertByCount(g, sorted)) == SumCounts(sorted) + g.cnt
  {
    if |sorted| > 0 {
      var r := InsertByCount(g, sorted);
      if sorted[0].cnt >= g.cnt {
        InsertByCountSum(g, sorted[1..]);
        assert r[1..] == InsertByCount(g, sorted[1..]);
      } else {
        assert r[1..] == sorted;
      }
    }
  }

  /** Sorting gives descending counts, a permutation of the groups, and the same total. */
  lemma SortProperties(g: seq<CountryCount>)
    ensures CountsDescending(SortByCountDesc(g))
    ensures multiset(SortByCountDesc(g)) == multiset(g)
    ensures SumCounts(SortByCountDesc(g)) == SumCounts(g)
  {
    SortDescending(g);
    SortPermutes(g);
    SortSum(g);
  }

  lemma {:induction false} SortDescending(g: seq<CountryCount>)
    ensures CountsDescending(SortByCountDesc(g))
  {
    if |g| > 0 {
      SortDescending(g[1..]);
      InsertByCountDescending(g[0], SortByCountDesc(g[1..]));
    }
  }

  lemma {:induction false} SortPermutes(g: seq<CountryCount>)
    ensures multiset(SortByCountDesc(g)) == multiset(g)
  {
    if |g| > 0 {
      SortPermutes(g[1..]);
      InsertByCountPermutes(g[0], SortByCountDesc(g[1..]));
      assert g == [g[0]] + g[1..];
    }
  }

  lemma {:induction false} SortSum(g: seq<CountryCount>)
    ensures SumCounts(SortByCountDesc(g)) == SumCounts(g)
  {
    if |g| > 0 {
      SortSum(g[1..]);
      InsertByCountSum(g[0], SortByCountDesc(g[1..]));
    }
  }

  lemma {:induction false} SumPrefix(g: seq<CountryCount>, n: nat)
    requires n <= |g|
    ensures SumCounts(g[..n]) <= SumCounts(g)
  {
    if n > 0 {
      assert g[..n][1..] == g[1..][..n - 1];
      SumPrefix(g[1..], n - 1);
    }
  }

  /** COUNT(*) of one country's group: the QR code's rows from country `c` (null is a group
      of its own, as GROUP BY makes it). */
  function ScansFromCountry(rows: seq<Scan>, q: int, c: Option<string>): (n: nat)
    ensures n <= CountOf(rows, q)
  {
    if |rows| == 0 then 0
    else
      var last := rows[|rows| - 1];
      ScansFromCountry(rows[..|rows| - 1], q, c) + (if last.qrCodeId == q && last.country == c then 1 else 0)
  }

  /** The set of countries of the QR code's rows. */
  ghost function CountriesOf(rows: seq<Scan>, q: int): set<Option<string>>
  {
    if |rows| == 0 then {}
    else
      var last := rows[|rows| - 1];
      CountriesOf(rows[..|rows| - 1], q) + (if last.qrCodeId == q then {last.country} else {})
  }

  /** A country is among the QR code's countries exactly when one of its rows is from there. */
  lemma {:induction false} CountriesOfMembers(rows: seq<Scan>, q: int, c: Option<string>)
    ensures c in CountriesOf(rows, q) <==> exists i :: 0 <= i < |rows| && rows[i].qrCodeId == q && rows[i].country == c
  {
    if |rows| > 0 {
      var init := rows[..|rows| - 1];
      CountriesOfMembers(init, q, c);
      if exists i :: 0 <= i < |rows| && rows[i].qrCodeId == q && rows[i].country == c {
        var i :| 0 <= i < |rows| && rows[i].qrCodeId == q && rows[i].country == c;
        if i < |init| {
          assert init[i] == rows[i];
        }
      }
      if exists i :: 0 <= i < |init| && init[i].qrCodeId == q && init[i].country == c {
        var i :| 0 <= i < |init| && init[i].qrCodeId == q && init[i].country == c;
        assert rows[i] == init[i];
      }
    }
  }

  /** The set of countries of a list of groups. */
  ghost function CountrySet(g: seq<CountryCount>): set<Option<string>>
  {
    if |g| == 0 then {} else {g[0].country} + CountrySet(g[1..])
  }

  lemma {:induction false} CountrySetHas(g: seq<CountryCount>, k: nat)
    requires k < |g|
    ensures g[k].country in CountrySet(g)
  {
    if k > 0 {
      assert g[1..][k - 1] == g[k];
      CountrySetHas(g[1..], k - 1);
    }
  }

  lemma {:induction false} CountrySetIndex(g: seq<CountryCount>, c: Option<string>) returns (k: nat)
    requires c in CountrySet(g)
    ensures k < |g| && g[k].country == c
  {
    if g[0].country == c {
      k := 0;
    } else {
      var k1 := CountrySetIndex(g[1..], c);
      k := k1 + 1;
    }
  }

  ghost predicate CountriesDistinct(g: seq<CountryCount>) {
    forall i, j :: 0 <= i < j < |g| ==> g[i].country != g[j].country
  }

  /** The first group's country is not among the others, and the others stay distinct. */
  lemma DistinctHead(g: seq<CountryCount>)
    requires |g| > 0 && CountriesDistinct(g)
    ensures g[0].country !in CountrySet(g[1..]) && CountriesDistinct(g[1..])
  {
    if g[0].country in CountrySet(g[1..]) {
      var k := CountrySetIndex(g[1..], g[0].country);
    }
  }

  /** A group of a new country in front of distinct groups keeps them distinct. */
  lemma DistinctCons(x: CountryCount, r: seq<CountryCount>)
    requires x.country !in CountrySet(r) && CountriesDistinct(r)
    ensures CountriesDistinct([x] + r)
  {
    var s := [x] + r;
    forall i, j | 0 <= i < j < |s| ensures s[i].country != s[j].country {
      assert s[j] == r[j - 1];
      CountrySetHas(r, j - 1);
      if i > 0 {
        assert s[i] == r[i - 1];
      }
    }
  }

  /** Every group counts exactly the QR code's scans from its country. */
  ghost predicate CountsExact(g: seq<CountryCount>, rows: seq<Scan>, q: int) {
    forall x :: x in g ==> x.cnt == ScansFromCountry(rows, q, x.country)
  }

  /** The count of the first group of country `c`, 0 when there is none. */
  function CountOfCountry(g: seq<CountryCount>, c: Option<string>): nat
  {
    if |g| == 0 then 0
    else if g[0].country == c then g[0].cnt
    else CountOfCountry(g[1..], c)
  }

  lemma {:induction false} AddCountryCount(acc: seq<CountryCount>, c: Option<string>, d: Option<string>)
    ensures CountOfCountry(AddCountry(acc, c), d) == CountOfCountry(acc, d) + (if d == c then 1 else 0)
  {
    if |acc| > 0 {
      var r := AddCountry(acc, c);
      if acc[0].country == c {
        assert r[1..] == acc[1..];
      } else {
        AddCountryCount(acc[1..], c, d);
        assert r[1..] == AddCountry(acc[1..], c);
      }
    }
  }

  lemma {:induction false} AddCountrySet(acc: seq<CountryCount>, c: Option<string>)
    ensures CountrySet(AddCountry(acc, c)) == CountrySet(acc) + {c}
  {
    if |acc| > 0 {
      var r := AddCountry(acc, c);
      if acc[0].country == c {
        assert r[1..] == acc[1..];
      } else {
        AddCountrySet(acc[1..], c);
        assert r[1..] == AddCountry(acc[1..], c);
      }
    }
  }

  lemma {:induction false} AddCountryDistinct(acc: seq<CountryCount>, c: Option<string>)
    requires CountriesDistinct(acc)
    ensures CountriesDistinct(AddCountry(acc, c))
  {
    if |acc| > 0 {
      var r := AddCountry(acc, c);
      DistinctHead(acc);
      if acc[0].country == c {
        assert r == [acc[0].(cnt := acc[0].cnt + 1)] + acc[1..];
        DistinctCons(acc[0].(cnt := acc[0].cnt + 1), acc[1..]);
      } else {
        AddCountryDistinct(acc[1..], c);
        AddCountrySet(acc[1..], c);
        assert r == [acc[0]] + AddCountry(acc[1..], c);
        DistinctCons(acc[0], AddCountry(acc[1..], c));
      }
    }
  }

  /** In groups of distinct countries, each group's count is its country's count. */
  lemma {:induction false} CountOfCountryAt(g: seq<CountryCount>, k: nat)
    requires CountriesDistinct(g) && k < |g|
    ensures CountOfCountry(g, g[k].country) == g[k].cnt
  {
    if k > 0 {
      assert g[0].country != g[k].country;
      assert g[1..][k - 1] == g[k];
      CountOfCountryAt(g[1..], k - 1);
    }
  }

  /** The grouping has one group per country of the QR code, with distinct countries, and the
      group of a country counts exactly that country's scans. */
  lemma {:induction false} GroupByCountryMeaning(rows: seq<Scan>, q: int)
    ensures var g := GroupByCountry(rows, q);
      && CountriesDistinct(g)
      && CountrySet(g) == CountriesOf(rows, q)
      && (forall c :: CountOfCountry(g, c) == ScansFromCountry(rows, q, c))
  {
    if |rows| > 0 {
      var init := rows[..|rows| - 1];
      var last := rows[|rows| - 1];
      GroupByCountryMeaning(init, q);
      if last.qrCodeId == q {
        var acc := GroupByCountry(init, q);
        AddCountryDistinct(acc, last.country);
        AddCountrySet(acc, last.country);
        forall c ensures CountOfCountry(AddCountry(acc, last.country), c) == ScansFromCountry(rows, q, c) {
          AddCountryCount(acc, last.country, c);
        }
      }
    }
  }

  /** Every group counts its country's scans. */
  lemma GroupByCountryExact(rows: seq<Scan>, q: int)
    ensures CountsExact(GroupByCountry(rows, q), rows, q)
  {
    var g := GroupByCountry(rows, q);
    GroupByCountryMeaning(rows, q);
    forall x | x in g ensures x.cnt == ScansFromCountry(rows, q, x.country) {
      var k :| 0 <= k < |g| && g[k] == x;
      CountOfCountryAt(g, k);
    }
  }

  /** Distinct countries make as many groups as countries. */
  lemma {:induction false} DistinctCountriesCount(g: seq<CountryCount>)
    requires CountriesDistinct(g)
    ensures |CountrySet(g)| == |g|
  {
    if |g| > 0 {
      DistinctHead(g);
      DistinctCountriesCount(g[1..]);
    }
  }

  lemma {:induction false} InsertByCountSet(x: CountryCount, sorted: seq<CountryCount>)
    ensures CountrySet(InsertByCount(x, sorted)) == CountrySet(sorted) + {x.country}
    ensures |InsertByCount(x, sorted)| == |sorted| + 1
  {
    var r := InsertByCount(x, sorted);
    if |sorted| > 0 {
      if sorted[0].cnt >= x.cnt {
        InsertByCountSet(x, sorted[1..]);
        assert r[1..] == InsertByCount(x, sorted[1..]);
      } else {
        assert r[1..] == sorted;
      }
    }
  }

  /** Inserting a group of a new country keeps the countries distinct. */
  lemma {:induction false} InsertByCountDistinct(x: CountryCount, sorted: seq<CountryCount>)
    requires CountriesDistinct(sorted) && x.country !in CountrySet(sorted)
    ensures CountriesDistinct(InsertByCount(x, sorted))
  {
    var r := InsertByCount(x, sorted);
    if |sorted| > 0 {
      if sorted[0].cnt >= x.cnt {
        var rest := sorted[1..];
        DistinctHead(sorted);
        InsertByCountDistinct(x, rest);
        InsertByCountSet(x, rest);
        assert r == [sorted[0]] + InsertByCount(x, rest);
        DistinctCons(sorted[0], InsertByCount(x, rest));
      } else {
        assert r == [x] + sorted;
        DistinctCons(x, sorted);
      }
    } else {
      assert r == [x];
    }
  }

  lemma {:induction false} SortCountries(g: seq<CountryCount>)
    ensures CountrySet(SortByCountDesc(g)) == CountrySet(g)
    ensures |SortByCountDesc(g)| == |g|
    ensures CountriesDistinct(g) ==> CountriesDistinct(SortByCountDesc(g))
  {
    if |g| > 0 {
      var rest := g[1..];
      SortCountries(rest);
      InsertByCountSet(g[0], SortByCountDesc(rest));
      if CountriesDistinct(g) {
        DistinctHead(g);
        InsertByCountDistinct(g[0], SortByCountDesc(rest));
      }
    }
  }

  /** Sorting keeps every group, so every group still counts its country's scans. */
  lemma SortKeepsExact(g: seq<CountryCount>, rows: seq<Scan>, q: int)
    requires CountsExact(g, rows, q)
    ensures CountsExact(SortByCountDesc(g), rows, q)
  {
    SortPermutes(g);
    var s := SortByCountDesc(g);
    forall x | x in s ensures x.cnt == ScansFromCountry(rows, q, x.country) {
      assert x in multiset(s);
    }
  }

  /** A prefix keeps distinct countries, exact counts and the countries it holds. */
  lemma TakeKeeps(s: seq<CountryCount>, n: nat, rows: seq<Scan>, q: int)
    requires CountriesDistinct(s) && CountsExact(s, rows, q)
    ensures var r := Take(s, n);
      && CountriesDistinct(r)
      && (forall k :: 0 <= k < |r| ==> r[k].country in CountrySet(s))
      && (forall k :: 0 <= k < |r| ==> r[k].cnt == ScansFromCountry(rows, q, r[k].country))
  {
    var r := Take(s, n);
    forall k | 0 <= k < |r|
      ensures r[k].country in CountrySet(s) && r[k].cnt == ScansFromCountry(rows, q, r[k].country)
    {
      assert r[k] == s[k];
      assert s[k] in s;
      CountrySetHas(s, k);
    }
  }

  /** A group of a country left out of the breakdown counts no more than any group kept. */
  lemma LeftOutNoLarger(s: seq<CountryCount>, limit: nat, c: Option<string>, rows: seq<Scan>, q: int)
    requires CountsDescending(s) && CountsExact(s, rows, q)
    requires c in CountrySet(s)
    requires forall k :: 0 <= k < |Take(s, limit)| ==> Take(s, limit)[k].country != c
    ensures forall k :: 0 <= k < |Take(s, limit)| ==> ScansFromCountry(rows, q, c) <= Take(s, limit)[k].cnt
  {
    var r := Take(s, limit);
    var j := CountrySetIndex(s, c);
    assert s[j].cnt == ScansFromCountry(rows, q, c) by {
      assert s[j] in s;
    }
    if j < |r| {
      assert false;
    }
    forall k | 0 <= k < |r| ensures ScansFromCountry(rows, q, c) <= r[k].cnt {
      assert r[k] == s[k];
    }
  }

  /** The breakdown is the largest country groups: one per country of the QR code, as many
      as there are countries up to `limit`, each counting exactly its country's scans, in
      descending order of count; a country left out has no more scans than any country kept. */
  lemma CountryBreakdownMeaning(rows: seq<Scan>, q: int, limit: nat)
    ensures var r := CountryBreakdownOf(rows, q, limit);
      var n := |CountriesOf(rows, q)|;
      && |r| == (if n < limit then n else limit)
      && CountriesDistinct(r)
      && (forall k :: 0 <= k < |r| ==> r[k].country in CountriesOf(rows, q))
      && (forall k :: 0 <= k < |r| ==> r[k].cnt == ScansFromCountry(rows, q, r[k].country))
      && (forall c :: c in CountriesOf(rows, q) && (forall k :: 0 <= k < |r| ==> r[k].country != c) ==>
            forall k :: 0 <= k < |r| ==> ScansFromCountry(rows, q, c) <= r[k].cnt)
  {
    var g := GroupByCountry(rows, q);
    GroupByCountryMeaning(rows, q);
    GroupByCountryExact(rows, q);
    DistinctCountriesCount(g);
    SortCountries(g);
    SortKeepsExact(g, rows, q);
    SortDescending(g);
    var s := SortByCountDesc(g);
    TakeKeeps(s, limit, rows, q);
    forall c | c in CountriesOf(rows, q) && (forall k :: 0 <= k < |Take(s, limit)| ==> Take(s, limit)[k].country != c)
      ensures forall k :: 0 <= k < |Take(s, limit)| ==> ScansFromCountry(rows, q, c) <= Take(s, limit)[k].cnt
    {
      LeftOutNoLarger(s, limit, c, rows, q);
    }
  }

  /** GROUP BY country: one group per country of the QR code, countries distinct, each
      group counting exactly that country's scans (so at least one), the counts adding up to
      the QR code's total. */
  lemma GroupByCountryProperties(rows: seq<Scan>, q: int)
    ensures var g := GroupByCountry(rows, q);
      && CountriesDistinct(g)
      && CountrySet(g) == CountriesOf(rows, q)
      && CountsExact(g, rows, q)
      && GroupCountsPositive(g)
      && SumCounts(g) == CountOf(rows, q)
  {
    GroupByCountryTotals(rows, q);
    GroupByCountryMeaning(rows, q);
    GroupByCountryExact(rows, q);
  }

  /** The breakdown is the largest country groups, in descending order of count: as many as
      there are countries up to `limit`, one per country, each counting exactly (and at least
      one of) its country's scans, adding up to no more than the QR code's total; a country
      left out has no more scans than any country kept. */
  lemma CountryBreakdownProperties(rows: seq<Scan>, q: int, limit: nat)
    ensures var r := CountryBreakdownOf(rows, q, limit);
      var n := |CountriesOf(rows, q)|;
      && |r| == (if n < limit then n else limit)
      && CountsDescending(r)
      && GroupCountsPositive(r)
      && SumCounts(r) <= CountOf(rows, q)
      && CountriesDistinct(r)
      && (forall k :: 0 <= k < |r| ==> r[k].country in CountriesOf(rows, q))
      && (forall k :: 0 <= k < |r| ==> r[k].cnt == ScansFromCountry(rows, q, r[k].country))
      && (forall c :: c in CountriesOf(rows, q) && (forall k :: 0 <= k < |r| ==> r[k].country != c) ==>
            forall k :: 0 <= k < |r| ==> ScansFromCountry(rows, q, c) <= r[k].cnt)
  {
    CountryBreakdownMeaning(rows, q, limit);
    CountryBreakdownShape(rows, q, limit);
  }

  /** Order, positive counts and the total of the breakdown. */
  lemma CountryBreakdownShape(rows: seq<Scan>, q: int, limit: nat)
    ensures var r := CountryBreakdownOf(rows, q, limit);
      && CountsDescending(r)
      && GroupCountsPositive(r)
      && SumCounts(r) <= CountOf(rows, q)
  {
    var g := GroupByCountry(rows, q);
    GroupByCountryTotals(rows, q);
    SortProperties(g);
    var s := SortByCountDesc(g);
    var r := Take(s, limit);
    SumPrefix(s, |r|);
    forall i | 0 <= i < |r| ensures r[i].cnt >= 1 {
      assert r[i] == s[i];
      assert s[i] in multiset(g);
      var j :| 0 <= j < |g| && g[j] == s[i];
    }
  }

  // ---------------------------------------------------------------------------------------
  // The table

  class ScanTable {
    var rows: seq<Scan>
    var nextId: int

    ghost predicate Valid()
      reads this
    {
      WellFormedRows(rows, nextId) && nextId >= 1
    }

    constructor ()
      ensures Valid() && rows == [] && nextId == 1
    {
      rows := [];
      nextId := 1;
    }

    /** INSERT: the row gets the next auto-increment id; it is returned with that id and
        every other field as given. */
    method Create(scan: Scan) returns (created: Scan)
      requires Valid()
      modifies this
      ensures Valid()
      ensures created == scan.(id := Some(old(nextId)))
      ensures rows == old(rows) + [created] && nextId == old(nextId) + 1
    {
      created := scan.(id := Some(nextId));
      rows := rows + [created];
      nextId := nextId + 1;
    }

    /** findByQrCode: the newest `limit` scans of one QR code, newest first. */
    method FindByQrCode(q: int, limit: nat) returns (items: seq<Scan>)
      requires Valid()
      ensures items == Latest(rows, q, limit)
      ensures |items| == (if CountOf(rows, q) < limit then CountOf(rows, q) else limit)
      ensures forall k :: 0 <= k < |items| ==> items[k] in rows && items[k].qrCodeId == q && items[k].id.Some?
      ensures forall i :: 0 <= i < |rows| && rows[i].qrCodeId == q && rows[i] !in items ==>
        forall k :: 0 <= k < |items| ==> rows[i].id.value < items[k].id.value
    {
      items := [];
      var i := |rows|;
      assert rows[..i] == rows;
      while i > 0 && |items| < limit
        invariant 0 <= i <= |rows| && |items| <= limit
        invariant items + Latest(rows[..i], q, limit - |items|) == Latest(rows, q, limit)
        decreases i
      {
        var row := rows[i - 1];
        assert rows[..i][..i - 1] == rows[..i - 1];
        if row.qrCodeId == q {
          items := items + [row];
        }
        i := i - 1;
      }
      LatestProperties(rows, nextId, q, limit);
    }

    /** totalCount: the number of rows of that QR code (0 when it has none). */
    function TotalCount(q: int): (n: nat)
      reads this
      ensures n <= |rows|
      ensures n == 0 <==> forall i :: 0 <= i < |rows| ==> rows[i].qrCodeId != q
    {
      CountOfZero(rows, q);
      CountOf(rows, q)
    }

    /** dailyCounts with CURRENT_DATE passed in as `today` (a day number). */
    method DailyCounts(q: int, days: int, today: int) returns (out: seq<DayCount>)
      ensures out == DailyCountsOf(rows, q, today - days)
    {
      out := [];
      for i := 0 to |rows|
        invariant out == DailyCountsOf(rows[..i], q, today - days)
      {
        assert rows[..i + 1][..i] == rows[..i];
        if InWindow(rows[i], q, today - days) {
          out := AddDay(out, DayOf(rows[i].scannedAt));
        }
      }
      assert rows[..|rows|] == rows;
    }

    /** countryBreakdown: groups by country, ordered by count descending, LIMIT `limit`. */
    method CountryBreakdown(q: int, limit: nat) returns (out: seq<CountryCount>)
      ensures out == CountryBreakdownOf(rows, q, limit)
    {
      var groups: seq<CountryCount> := [];
      for i := 0 to |rows|
        invariant groups == GroupByCountry(rows[..i], q)
      {
        assert rows[..i + 1][..i] == rows[..i];
        if rows[i].qrCodeId == q {
          groups := AddCountry(groups, rows[i].country);
        }
      }
      assert rows[..|rows|] == rows;
      out := Take(SortByCountDesc(groups), limit);
    }
  }
}
