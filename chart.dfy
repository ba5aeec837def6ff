/**
 * The data series of the productivity chart (`show_graph`): the activity
 * dates in ascending order and, aligned with them, each date's count.
 * Python orders strings by comparing code points left to right, a proper
 * prefix coming first; `LexLess` is that order.
 */
module Chart {
  import opened Wrappers
  import opened TaskStore

  /**
   * Python's `a < b` on strings: a proper prefix comes first, and otherwise
   * the first position where the two differ decides.
   */
  predicate LexLess(a: string, b: string)
    ensures |a| < |b| && a == b[..|a|] ==> LexLess(a, b)
    decreases |a|
  {
    if |a| == 0 then |b| > 0
    else if |b| == 0 then false
    else if a[0] != b[0] then a[0] < b[0]
    else LexLess(a[1..], b[1..])
  }

  /** Where two strings first differ, the smaller code point gives the smaller string. */
  lemma {:induction false} LexFirstDifference(a: string, b: string, i: nat)
    requires i < |a| && i < |b| && a[..i] == b[..i] && a[i] != b[i]
    ensures LexLess(a, b) <==> a[i] < b[i]
    decreases i
  {
    if i > 0 {
      assert a[0] == a[..i][0] == b[..i][0] == b[0];
      assert a[1..][..i - 1] == a[1..i] == b[1..i] == b[1..][..i - 1];
      LexFirstDifference(a[1..], b[1..], i - 1);
    }
  }

  lemma {:induction false} LexIrreflexive(a: string)
    ensures !LexLess(a, a)
    decreases |a|
  {
    if |a| > 0 {
      LexIrreflexive(a[1..]);
    }
  }

  lemma {:induction false} LexAsymmetric(a: string, b: string)
    requires LexLess(a, b)
    ensures !LexLess(b, a)
    decreases |a|
  {
    if |a| > 0 && |b| > 0 && a[0] == b[0] {
      LexAsymmetric(a[1..], b[1..]);
    }
  }

  lemma {:induction false} LexTransitive(a: string, b: string, c: string)
    requires LexLess(a, b) && LexLess(b, c)
    ensures LexLess(a, c)
    decreases |a|
  {
    if |a| > 0 && a[0] == b[0] && b[0] == c[0] {
      LexTransitive(a[1..], b[1..], c[1..]);
    }
  }

  lemma {:induction false} LexTotal(a: string, b: string)
    requires a != b
    ensures LexLess(a, b) || LexLess(b, a)
    decreases |a|
  {
    if |a| > 0 && |b| > 0 && a[0] == b[0] {
      assert a == [a[0]] + a[1..] && b == [b[0]] + b[1..];
      LexTotal(a[1..], b[1..]);
    }
  }

  /** `m` is the smallest of `keys`. */
  predicate IsLeast(m: string, keys: set<string>)
  {
    m in keys && forall x :: x in keys && x != m ==> LexLess(m, x)
  }

  lemma LeastExists(keys: set<string>)
    requires keys != {}
    ensures exists m :: IsLeast(m, keys)
    decreases keys
  {
    var x :| x in keys;
    if keys != {x} {
      LeastExists(keys - {x});
      var m :| IsLeast(m, keys - {x});
      if LexLess(x, m) {
        forall y | y in keys && y != x
          ensures LexLess(x, y)
        {
          if y != m {
            LexTransitive(x, m, y);
          }
        }
        assert IsLeast(x, keys);
      } else {
        LexTotal(x, m);
        assert IsLeast(m, keys);
      }
    } else {
      assert IsLeast(x, keys);
    }
  }

  lemma LeastUnique(keys: set<string>)
    ensures forall a, b :: IsLeast(a, keys) && IsLeast(b, keys) ==> a == b
  {
    forall a, b | IsLeast(a, keys) && IsLeast(b, keys)
      ensures a == b
    {
      if a != b {
        LexAsymmetric(a, b);
      }
    }
  }

  /** Every element is smaller than every later one: ascending, without repeats. */
  predicate StrictlySorted(s: seq<string>)
  {
    forall i, j :: 0 <= i < j < |s| ==> LexLess(s[i], s[j])
  }

  /** `sorted(keys)`: the elements of `keys` in ascending order. */
  function SortedKeys(keys: set<string>): (r: seq<string>)
    ensures StrictlySorted(r)
    ensures forall x :: x in r <==> x in keys
    ensures |r| == |keys|
    decreases keys
  {
    if keys == {} then []
    else
      LeastExists(keys);
      LeastUnique(keys);
      var m :| IsLeast(m, keys);
      [m] + SortedKeys(keys - {m})
  }

  /**
   * Ascending order determines a sequence by its elements: two strictly
   * sorted sequences with the same elements are equal, so the dates of the
   * chart are THE sorted list of activity dates.
   */
  lemma {:induction false} SortedUnique(a: seq<string>, b: seq<string>)
    requires StrictlySorted(a) && StrictlySorted(b)
    requires forall x :: x in a <==> x in b
    ensures a == b
    decreases |a|
  {
    if a != [] {
      assert a[0] in a;
      assert b != [];
      assert b[0] in b;
      if a[0] != b[0] {
        var k :| 0 <= k < |b| && b[k] == a[0];
        var m :| 0 <= m < |a| && a[m] == b[0];
        assert LexLess(b[0], b[k]) && LexLess(a[0], a[m]);
        LexAsymmetric(a[0], b[0]);
      }
      assert a == [a[0]] + a[1..] && b == [b[0]] + b[1..];
      forall x
        ensures x in a[1..] <==> x in b[1..]
      {
        if x in a[1..] {
          var i :| 0 <= i < |a[1..]| && a[1..][i] == x;
          assert LexLess(a[0], a[i + 1]);
          LexIrreflexive(a[0]);
          assert x in b && x != b[0];
        }
        if x in b[1..] {
          var i :| 0 <= i < |b[1..]| && b[1..][i] == x;
          assert LexLess(b[0], b[i + 1]);
          LexIrreflexive(b[0]);
          assert x in a && x != a[0];
        }
      }
      SortedUnique(a[1..], b[1..]);
    }
  }

  /** What `show_graph` plots: x-values and the aligned y-values. */
  datatype Series = Series(dates: seq<string>, counts: seq<int>)

  /**
   * The chart's data: the activity dates in ascending order, and each date's
   * count at the same position.
   */
  function ProductivitySeries(activity: map<string, int>): (r: Series)
    ensures |r.dates| == |r.counts| == |activity|
    ensures StrictlySorted(r.dates)
    ensures forall d :: d in r.dates <==> d in activity
    ensures forall i :: 0 <= i < |r.dates| ==> r.dates[i] in activity && r.counts[i] == activity[r.dates[i]]
  {
    var dates := SortedKeys(activity.Keys);
    Series(dates, seq(|dates|, i requires 0 <= i < |dates| => activity[dates[i]]))
  }

  /**
   * After an accepted add the chart has a point for today whose count is one
   * more than before, and gains a point only when today had none.
   */
  lemma SeriesAfterAdd(s: Store, text: string, category: Option<string>, reminderTime: Option<string>, today: string)
    requires Accepts(text)
    ensures var series := ProductivitySeries(Added(s, text, category, reminderTime, today).activity);
      && |series.dates| == |s.activity| + (if today in s.activity then 0 else 1)
      && exists i :: 0 <= i < |series.dates| && series.dates[i] == today && series.counts[i] == Count(s.activity, today) + 1
  {
    var after := Added(s, text, category, reminderTime, today).activity;
    var series := ProductivitySeries(after);
    assert today in series.dates;
    if today !in s.activity {
      assert |after.Keys| == |s.activity.Keys + {today}| == |s.activity.Keys| + 1;
    } else {
      assert after.Keys == s.activity.Keys;
    }
  }
}
