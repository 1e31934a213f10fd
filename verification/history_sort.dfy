/**
 * The backtest's `history.sort(key=date)`: a stable ascending sort of the
 * trade history by timestamp, written as an insertion sort over sequences.
 */
module HistorySort {

  /** One historical trade: its unix timestamp and its price. */
  datatype Trade = Trade(date: int, price: real)

  ghost predicate SortedByDate(s: seq<Trade>)
  {
    forall i, j :: 0 <= i < j < |s| ==> s[i].date <= s[j].date
  }

  /** The trades of `s` stamped `d`, in their order in `s`. */
  function WithDate(s: seq<Trade>, d: int): seq<Trade>
  {
    if |s| == 0 then []
    else if s[0].date == d then [s[0]] + WithDate(s[1..], d)
    else WithDate(s[1..], d)
  }

  /**
   * Stability: every group of equal timestamps keeps its input order, so
   * ties are resolved deterministically by position.
   */
  ghost predicate StableFor(r: seq<Trade>, s: seq<Trade>)
  {
    forall d :: WithDate(r, d) == WithDate(s, d)
  }

  /** The group of `[t] + s` for date `d` is that of `s`, led by `t` when `t` is stamped `d`. */
  lemma WithDateCons(t: Trade, s: seq<Trade>, d: int)
    ensures WithDate([t] + s, d) == (if t.date == d then [t] else []) + WithDate(s, d)
  {
    assert ([t] + s)[1..] == s;
  }

  /** Places `t` before the first trade that is not strictly earlier. */
  function Insert(t: Trade, s: seq<Trade>): (r: seq<Trade>)
    ensures multiset(r) == multiset([t] + s)
    ensures |s| > 0 ==> r[0] == t || r[0] == s[0]
    ensures |s| > 0 && t.date > s[0].date ==> r[0] == s[0]
  {
    if |s| == 0 || t.date <= s[0].date then [t] + s
    else
      assert s == [s[0]] + s[1..];
      [s[0]] + Insert(t, s[1..])
  }

  lemma {:induction false} InsertSorted(t: Trade, s: seq<Trade>)
    requires SortedByDate(s)
    ensures SortedByDate(Insert(t, s))
  {
    if |s| == 0 || t.date <= s[0].date {
    } else {
      var rest := Insert(t, s[1..]);
      InsertSorted(t, s[1..]);
      if |s[1..]| > 0 {
        assert rest[0] == t || rest[0] == s[1];
      }
      assert forall j :: 0 <= j < |rest| ==> s[0].date <= rest[j].date by {
        forall j | 0 <= j < |rest|
          ensures s[0].date <= rest[j].date
        {
          assert rest[0].date <= rest[j].date;
        }
      }
    }
  }

  lemma {:induction false} InsertKeepsGroups(t: Trade, s: seq<Trade>, d: int)
    ensures WithDate(Insert(t, s), d) == WithDate([t] + s, d)
  {
    if |s| == 0 || t.date <= s[0].date {
    } else {
      var rest := Insert(t, s[1..]);
      InsertKeepsGroups(t, s[1..], d);
      WithDateCons(s[0], rest, d);
      WithDateCons(t, s[1..], d);
      WithDateCons(t, s, d);
      WithDateCons(s[0], s[1..], d);
      assert s == [s[0]] + s[1..];
    }
  }

  /** The history sorted by date, keeping its length. */
  function SortByDate(s: seq<Trade>): (r: seq<Trade>)
    ensures |r| == |s|
  {
    if |s| == 0 then []
    else
      var rest := SortByDate(s[1..]);
      var r := Insert(s[0], rest);
      assert |r| == |multiset(r)| == |multiset([s[0]] + rest)| == |s|;
      r
  }

  /** `SortByDate` permutes its input, ascending by date and stable for equal dates. */
  lemma {:induction false} SortByDateSortedStable(s: seq<Trade>)
    ensures multiset(SortByDate(s)) == multiset(s)
    ensures SortedByDate(SortByDate(s))
    ensures StableFor(SortByDate(s), s)
  {
    if |s| > 0 {
      var rest := SortByDate(s[1..]);
      SortByDateSortedStable(s[1..]);
      InsertSorted(s[0], rest);
      assert s == [s[0]] + s[1..];
      forall d
        ensures WithDate(SortByDate(s), d) == WithDate(s, d)
      {
        InsertKeepsGroups(s[0], rest, d);
        WithDateCons(s[0], rest, d);
        WithDateCons(s[0], s[1..], d);
      }
    }
  }

  /** The three-trade history [(3, 10), (1, 8), (2, 9)] sorts to 8, 9, 10. */
  lemma SortExample()
    ensures SortByDate([Trade(3, 10.0), Trade(1, 8.0), Trade(2, 9.0)])
            == [Trade(1, 8.0), Trade(2, 9.0), Trade(3, 10.0)]
  {
    var a, b, c := Trade(3, 10.0), Trade(1, 8.0), Trade(2, 9.0);
    assert [c][1..] == [];
    assert SortByDate([]) == [];
    assert Insert(c, []) == [c];
    assert SortByDate([c]) == [c];
    assert [b, c][1..] == [c];
    assert Insert(b, [c]) == [b, c];
    assert SortByDate([b, c]) == [b, c];
    assert [a, b, c][1..] == [b, c];
    assert Insert(a, []) == [a];
    assert Insert(a, [c]) == [c, a];
    assert Insert(a, [b, c]) == [b, c, a];
  }
}
