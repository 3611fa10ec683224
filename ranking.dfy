/** Ordering of daily ranking rows as both the storefront and the landing
    page do it (src/components/PhotoShopSection.tsx:1588-1601, 1660-1686,
    2299-2311 and src/App.tsx:441-453, 484-505): keep today's rows, sort
    them stably by descending speed (a speed that is not a number counts as
    0), keep the first rows and number them from 1. */
module Ranking {
  import opened JsValues
  import opened ShopTypes
  import opened ShopUtils

  /** The comparator's key: `typeof speed_kmh === 'number' ? speed_kmh : 0`. */
  function Speed(e: LeaderboardEntry): real {
    e.speed_kmh.GetOr(0.0)
  }

  predicate SortedDesc(s: seq<LeaderboardEntry>) {
    forall i, j :: 0 <= i < j < |s| ==> Speed(s[i]) >= Speed(s[j])
  }

  /** The rows whose speed key is `v`, in order. */
  function WithSpeed(s: seq<LeaderboardEntry>, v: real): (r: seq<LeaderboardEntry>)
    ensures |r| <= |s|
  {
    if s == [] then []
    else (if Speed(s[0]) == v then [s[0]] else []) + WithSpeed(s[1..], v)
  }

  lemma {:induction false} WithSpeedAppend(a: seq<LeaderboardEntry>, b: seq<LeaderboardEntry>, v: real)
    ensures WithSpeed(a + b, v) == WithSpeed(a, v) + WithSpeed(b, v)
  {
    if a != [] {
      assert (a + b)[1..] == a[1..] + b;
      WithSpeedAppend(a[1..], b, v);
    } else {
      assert a + b == b;
    }
  }

  /** Rows all faster than `v` contain none with key `v`. */
  lemma {:induction false} WithSpeedNone(s: seq<LeaderboardEntry>, v: real)
    requires forall k :: 0 <= k < |s| ==> Speed(s[k]) < v
    ensures WithSpeed(s, v) == []
  {
    if s != [] { WithSpeedNone(s[1..], v); }
  }

  /** Puts `x` behind every row at least as fast: the step of a stable sort
      by descending speed. */
  function Insert(x: LeaderboardEntry, s: seq<LeaderboardEntry>): (r: seq<LeaderboardEntry>)
    ensures |r| == |s| + 1
  {
    if s == [] then [x]
    else if Speed(s[0]) >= Speed(x) then [s[0]] + Insert(x, s[1..])
    else [x] + s
  }

  /** Inserting adds exactly the one row. */
  lemma {:induction false} InsertPermutes(x: LeaderboardEntry, s: seq<LeaderboardEntry>)
    ensures multiset(Insert(x, s)) == multiset(s) + multiset{x}
  {
    if s != [] && Speed(s[0]) >= Speed(x) {
      InsertPermutes(x, s[1..]);
      assert s == [s[0]] + s[1..];
    }
  }

  lemma {:induction false} InsertSorted(x: LeaderboardEntry, s: seq<LeaderboardEntry>)
    requires SortedDesc(s)
    ensures SortedDesc(Insert(x, s))
  {
    if s != [] {
      if Speed(s[0]) >= Speed(x) {
        SortedTail(s);
        InsertSorted(x, s[1..]);
        var rest := Insert(x, s[1..]);
        assert Speed(rest[0]) <= Speed(s[0]) by {
          if |s| > 1 && Speed(s[1]) >= Speed(x) {
            assert rest[0] == s[1];
          } else {
            assert rest[0] == x;
          }
        }
        SortedCons(s[0], rest);
      } else {
        SortedCons(x, s);
      }
    }
  }

  /** A row no slower than the head of a sorted sequence can go in front. */
  lemma SortedCons(e: LeaderboardEntry, rest: seq<LeaderboardEntry>)
    requires SortedDesc(rest)
    requires rest == [] || Speed(e) >= Speed(rest[0])
    ensures SortedDesc([e] + rest)
  {
    var r := [e] + rest;
    forall i, j | 0 <= i < j < |r| ensures Speed(r[i]) >= Speed(r[j]) {
      assert r[j] == rest[j - 1];
      if i == 0 {
        assert j - 1 == 0 || Speed(rest[0]) >= Speed(rest[j - 1]);
      } else {
        assert r[i] == rest[i - 1];
      }
    }
  }

  /** `Array.prototype.sort` with `(a, b) => Speed(b) - Speed(a)`: a stable
      sort by descending speed. */
  function SortBySpeed(s: seq<LeaderboardEntry>): (r: seq<LeaderboardEntry>)
    ensures |r| == |s|
    ensures multiset(r) == multiset(s)
    ensures SortedDesc(r)
  {
    if s == [] then []
    else
      var sorted := SortBySpeed(s[..|s| - 1]);
      assert s == s[..|s| - 1] + [s[|s| - 1]];
      InsertSorted(s[|s| - 1], sorted);
      InsertPermutes(s[|s| - 1], sorted);
      Insert(s[|s| - 1], sorted)
  }

  lemma {:induction false} InsertStable(x: LeaderboardEntry, s: seq<LeaderboardEntry>, v: real)
    requires SortedDesc(s)
    ensures WithSpeed(Insert(x, s), v) == WithSpeed(s, v) + (if Speed(x) == v then [x] else [])
  {
    if s == [] {
      WithSpeedCons(x, [], v);
      assert Insert(x, s) == [x] + [];
    } else if Speed(s[0]) >= Speed(x) {
      SortedTail(s);
      InsertStable(x, s[1..], v);
      InsertStableBehind(x, s, v);
    } else {
      InsertStableFront(x, s, v);
    }
  }

  /** The step where `x` goes behind the head. */
  lemma InsertStableBehind(x: LeaderboardEntry, s: seq<LeaderboardEntry>, v: real)
    requires s != [] && Speed(s[0]) >= Speed(x)
    requires WithSpeed(Insert(x, s[1..]), v) == WithSpeed(s[1..], v) + (if Speed(x) == v then [x] else [])
    ensures WithSpeed(Insert(x, s), v) == WithSpeed(s, v) + (if Speed(x) == v then [x] else [])
  {
    assert Insert(x, s) == [s[0]] + Insert(x, s[1..]);
    WithSpeedCons(s[0], Insert(x, s[1..]), v);
    WithSpeedCons(s[0], s[1..], v);
    assert [s[0]] + s[1..] == s;
  }

  /** The step where `x` goes in front of a slower head. */
  lemma InsertStableFront(x: LeaderboardEntry, s: seq<LeaderboardEntry>, v: real)
    requires SortedDesc(s) && s != [] && Speed(s[0]) < Speed(x)
    ensures WithSpeed(Insert(x, s), v) == WithSpeed(s, v) + (if Speed(x) == v then [x] else [])
  {
    assert Insert(x, s) == [x] + s;
    WithSpeedCons(x, s, v);
    if Speed(x) == v {
      forall k | 0 <= k < |s| ensures Speed(s[k]) < v {
        assert k == 0 || Speed(s[0]) >= Speed(s[k]);
      }
      WithSpeedNone(s, v);
    }
  }

  lemma WithSpeedCons(e: LeaderboardEntry, rest: seq<LeaderboardEntry>, v: real)
    ensures WithSpeed([e] + rest, v) == (if Speed(e) == v then [e] else []) + WithSpeed(rest, v)
  {
    assert ([e] + rest)[0] == e;
    assert ([e] + rest)[1..] == rest;
  }

  lemma SortedTail(s: seq<LeaderboardEntry>)
    requires s != [] && SortedDesc(s)
    ensures SortedDesc(s[1..])
  {
    forall i, j | 0 <= i < j < |s| - 1 ensures Speed(s[1..][i]) >= Speed(s[1..][j]) {
      assert s[1..][i] == s[i + 1] && s[1..][j] == s[j + 1];
    }
  }

  /** The sort is stable: rows of equal speed keep their input order. */
  lemma {:induction false} SortStable(s: seq<LeaderboardEntry>, v: real)
    ensures WithSpeed(SortBySpeed(s), v) == WithSpeed(s, v)
  {
    if s != [] {
      var init := s[..|s| - 1];
      var last := s[|s| - 1];
      assert s == init + [last];
      var tail := if Speed(last) == v then [last] else [];
      assert WithSpeed(s, v) == WithSpeed(init, v) + tail by {
        WithSpeedAppend(init, [last], v);
        assert WithSpeed([last], v) == tail + WithSpeed([], v);
      }
      SortStable(init, v);
      assert SortBySpeed(s) == Insert(last, SortBySpeed(init));
      InsertStable(last, SortBySpeed(init), v);
    }
  }

  /** Sorting rows that are already in order changes nothing. */
  lemma {:induction false} SortSortedIdentity(s: seq<LeaderboardEntry>)
    requires SortedDesc(s)
    ensures SortBySpeed(s) == s
  {
    if s != [] {
      var init := s[..|s| - 1];
      var last := s[|s| - 1];
      SortSortedIdentity(init);
      InsertLast(last, init);
      assert init + [last] == s;
    }
  }

  /** A row no faster than every sorted row goes to the end. */
  lemma {:induction false} InsertLast(x: LeaderboardEntry, s: seq<LeaderboardEntry>)
    requires forall k :: 0 <= k < |s| ==> Speed(s[k]) >= Speed(x)
    ensures Insert(x, s) == s + [x]
  {
    if s != [] {
      InsertLast(x, s[1..]);
      assert [s[0]] + (s[1..] + [x]) == s + [x];
    }
  }

  /** `.slice(0, n)`. */
  function Take(s: seq<LeaderboardEntry>, n: nat): (r: seq<LeaderboardEntry>)
    ensures |r| == if |s| <= n then |s| else n
    ensures r == s[..|r|]
  {
    if |s| <= n then s else s[..n]
  }

  /** `.map((entry, index) => ({ ...entry, rank_position: index + 1 }))`. */
  function Ranked(s: seq<LeaderboardEntry>): (r: seq<LeaderboardEntry>)
    ensures |r| == |s|
    ensures forall i :: 0 <= i < |r| ==> r[i].rank_position == Some(i + 1)
    ensures forall i :: 0 <= i < |r| ==> r[i].(rank_position := s[i].rank_position) == s[i]
    ensures forall i :: 0 <= i < |r| ==> Speed(r[i]) == Speed(s[i])
  {
    seq(|s|, i requires 0 <= i < |s| => s[i].(rank_position := Some(i + 1)))
  }

  /** The day of a ranking row: `toDateKey(ride_date ?? created_at)`. */
  function EntryDayKey(e: LeaderboardEntry, parse: DateParser): Option<string> {
    ToDateKey(e.ride_date.OrElse(e.created_at), parse)
  }

  /** The rows of the given park day, in order. */
  function TodayRows(s: seq<LeaderboardEntry>, today: string, parse: DateParser): (r: seq<LeaderboardEntry>)
    ensures |r| <= |s|
    ensures forall e :: e in r <==> e in s && EntryDayKey(e, parse) == Some(today)
  {
    if s == [] then []
    else
      var rest := TodayRows(s[1..], today, parse);
      assert forall e :: e in s <==> e == s[0] || e in s[1..];
      if EntryDayKey(s[0], parse) == Some(today) then [s[0]] + rest else rest
  }

  /** Today's rows, fastest first, at most `cap` of them. */
  function TopToday(s: seq<LeaderboardEntry>, today: string, parse: DateParser, cap: nat): (r: seq<LeaderboardEntry>)
    ensures |r| <= cap
    ensures SortedDesc(r)
    ensures forall e :: e in r ==> e in s && EntryDayKey(e, parse) == Some(today)
  {
    var sorted := SortBySpeed(TodayRows(s, today, parse));
    var r := Take(sorted, cap);
    assert forall e :: e in r ==> e in multiset(sorted);
    r
  }

  /** No row of today that was left out is faster than a row kept. */
  lemma TopTodayKeepsFastest(s: seq<LeaderboardEntry>, today: string, parse: DateParser, cap: nat, e: LeaderboardEntry)
    requires e in s && EntryDayKey(e, parse) == Some(today)
    requires e !in TopToday(s, today, parse, cap)
    ensures |TopToday(s, today, parse, cap)| == cap
    ensures forall k :: 0 <= k < cap ==> Speed(TopToday(s, today, parse, cap)[k]) >= Speed(e)
  {
    var rows := TodayRows(s, today, parse);
    var sorted := SortBySpeed(rows);
    assert e in multiset(rows);
    assert e in sorted;
    var j :| 0 <= j < |sorted| && sorted[j] == e;
    assert j >= cap;
  }
}
