/**
 * The aggregations the metrics scripts ask of pandas, over exact reals:
 * sums and means that skip missing values, and grouping by a key column
 * in which every distinct key (the missing one included) forms a group.
 */
module Aggregates {
  import opened Wrappers

  /** A float result: an exact real, or NaN for the mean of no values. */
  datatype FloatValue = Num(x: real) | NaN

  /** The present values of a column, in row order. */
  function Present(vals: seq<Option<real>>): (xs: seq<real>)
    ensures |xs| <= |vals|
    ensures forall x :: x in xs <==> Some(x) in vals
  {
    if vals == [] then []
    else
      var init, last := vals[..|vals| - 1], vals[|vals| - 1];
      assert vals == init + [last];
      Present(init) + (if last.Some? then [last.value] else [])
  }

  /** The values added up from the first to the last, 0 for none. */
  function Sum(xs: seq<real>): real
  {
    if xs == [] then 0.0 else Sum(xs[..|xs| - 1]) + xs[|xs| - 1]
  }

  /** `series.sum()`: the present values added up, 0 when there are none. */
  function SumOf(vals: seq<Option<real>>): (s: real)
    ensures (forall i :: 0 <= i < |vals| ==> vals[i].None?) ==> s == 0.0
  {
    var xs := Present(vals);
    assert xs != [] ==> Some(xs[0]) in vals;
    Sum(xs)
  }

  /** `series.mean()`: the present values' sum over their number, NaN when there are none. */
  function MeanOf(vals: seq<Option<real>>): (m: FloatValue)
    ensures m.NaN? <==> Present(vals) == []
    ensures m.Num? ==> m.x == SumOf(vals) / (|Present(vals)| as real)
  {
    var xs := Present(vals);
    if |xs| == 0 then NaN else Num(Sum(xs) / (|xs| as real))
  }

  /** The value a cell adds to a sum. */
  function ValueOrZero(v: Option<real>): real
  {
    if v.Some? then v.value else 0.0
  }

  // ---------------------------------------------------------------------
  // Sums and means over present values only

  lemma PresentAppendOne(vals: seq<Option<real>>, v: Option<real>)
    ensures Present(vals + [v]) == Present(vals) + (if v.Some? then [v.value] else [])
  {
    assert (vals + [v])[..|vals|] == vals;
  }

  lemma {:induction false} PresentAppend(a: seq<Option<real>>, b: seq<Option<real>>)
    ensures Present(a + b) == Present(a) + Present(b)
  {
    if b == [] {
      assert a + b == a;
    } else {
      var init, last := b[..|b| - 1], b[|b| - 1];
      assert a + b == (a + init) + [last];
      assert b == init + [last];
      PresentAppend(a, init);
      PresentAppendOne(a + init, last);
      PresentAppendOne(init, last);
    }
  }


  lemma SumOfAppendOne(vals: seq<Option<real>>, v: Option<real>)
    ensures SumOf(vals + [v]) == SumOf(vals) + ValueOrZero(v)
  {
    PresentAppendOne(vals, v);
    if v.Some? {
      assert (Present(vals) + [v.value])[..|Present(vals)|] == Present(vals);
    } else {
      assert Present(vals) + [] == Present(vals);
    }
  }

  /**
   * A missing cell is left out of both the sum and the count: inserting one
   * anywhere changes neither the sum nor the mean.
   */
  lemma AbsentCellIgnored(a: seq<Option<real>>, b: seq<Option<real>>)
    ensures SumOf(a + [None] + b) == SumOf(a + b)
    ensures MeanOf(a + [None] + b) == MeanOf(a + b)
  {
    PresentAppend(a + [None], b);
    PresentAppendOne(a, None);
    PresentAppend(a, b);
    assert Present(a + [None]) == Present(a);
  }

  lemma {:induction false} SumBounds(xs: seq<real>, lo: real, hi: real)
    requires forall i :: 0 <= i < |xs| ==> lo <= xs[i] < hi
    ensures lo * (|xs| as real) <= Sum(xs)
    ensures xs != [] ==> Sum(xs) < hi * (|xs| as real)
  {
    if xs != [] {
      var init := xs[..|xs| - 1];
      SumBounds(init, lo, hi);
      assert (|xs| as real) == (|init| as real) + 1.0;
    }
  }

  lemma QuotientBounds(s: real, n: real, lo: real, hi: real)
    requires n > 0.0
    requires lo * n <= s < hi * n
    ensures lo <= s / n < hi
  {
  }

  lemma PresentWithin(vals: seq<Option<real>>, lo: real, hi: real)
    requires forall i :: 0 <= i < |vals| && vals[i].Some? ==> lo <= vals[i].value < hi
    requires exists i :: 0 <= i < |vals| && vals[i].Some?
    ensures Present(vals) != []
    ensures forall j :: 0 <= j < |Present(vals)| ==> lo <= Present(vals)[j] < hi
  {
    var xs := Present(vals);
    var i :| 0 <= i < |vals| && vals[i].Some?;
    assert Some(vals[i].value) in vals;
    assert vals[i].value in xs;
    forall j | 0 <= j < |xs|
      ensures lo <= xs[j] < hi
    {
      assert xs[j] in xs;
      assert Some(xs[j]) in vals;
    }
  }

  lemma AverageWithin(xs: seq<real>, lo: real, hi: real)
    requires xs != []
    requires forall j :: 0 <= j < |xs| ==> lo <= xs[j] < hi
    ensures lo <= Sum(xs) / (|xs| as real) < hi
  {
    SumBounds(xs, lo, hi);
    QuotientBounds(Sum(xs), |xs| as real, lo, hi);
  }

  /** The mean of present values that all lie in `[lo, hi)` lies there too. */
  lemma MeanWithin(vals: seq<Option<real>>, lo: real, hi: real)
    requires forall i :: 0 <= i < |vals| && vals[i].Some? ==> lo <= vals[i].value < hi
    requires exists i :: 0 <= i < |vals| && vals[i].Some?
    ensures MeanOf(vals).Num?
    ensures lo <= MeanOf(vals).x < hi
  {
    PresentWithin(vals, lo, hi);
    AverageWithin(Present(vals), lo, hi);
  }

  // ---------------------------------------------------------------------
  // Grouping by a key column

  /** The cells of `vals` in rows whose key is `k`, in row order. */
  function GroupValues<K(==)>(keys: seq<K>, vals: seq<Option<real>>, k: K): (g: seq<Option<real>>)
    requires |keys| == |vals|
    ensures |g| == multiset(keys)[k]
  {
    if keys == [] then []
    else
      var n := |keys| - 1;
      assert keys == keys[..n] + [keys[n]];
      GroupValues(keys[..n], vals[..n], k) + (if keys[n] == k then [vals[n]] else [])
  }

  lemma GroupValuesAppendOne<K>(keys: seq<K>, vals: seq<Option<real>>, c: K, v: Option<real>, k: K)
    requires |keys| == |vals|
    ensures GroupValues(keys + [c], vals + [v], k)
            == GroupValues(keys, vals, k) + (if c == k then [v] else [])
  {
    assert (keys + [c])[..|keys|] == keys;
    assert (vals + [v])[..|vals|] == vals;
  }

  /** A group holds exactly the cells of the rows whose key is `k`. */
  lemma {:induction false} GroupValuesMembers<K>(keys: seq<K>, vals: seq<Option<real>>, k: K, v: Option<real>)
    requires |keys| == |vals|
    ensures v in GroupValues(keys, vals, k) <==> exists i :: 0 <= i < |keys| && keys[i] == k && vals[i] == v
  {
    if keys != [] {
      var n := |keys| - 1;
      assert keys == keys[..n] + [keys[n]];
      assert vals == vals[..n] + [vals[n]];
      GroupValuesMembers(keys[..n], vals[..n], k, v);
      if exists i :: 0 <= i < |keys| && keys[i] == k && vals[i] == v {
        var i :| 0 <= i < |keys| && keys[i] == k && vals[i] == v;
        if i < n {
          assert keys[..n][i] == k && vals[..n][i] == v;
        }
      }
    }
  }

  lemma {:induction false} PresentNone(vals: seq<Option<real>>)
    requires forall i :: 0 <= i < |vals| ==> vals[i].None?
    ensures Present(vals) == []
  {
    if vals != [] {
      PresentNone(vals[..|vals| - 1]);
    }
  }

  /** The mean is NaN exactly when no value is present. */
  lemma MeanNaNIff(vals: seq<Option<real>>)
    ensures MeanOf(vals).NaN? <==> forall i :: 0 <= i < |vals| ==> vals[i].None?
  {
    if exists i :: 0 <= i < |vals| && vals[i].Some? {
      var i :| 0 <= i < |vals| && vals[i].Some?;
      assert Some(vals[i].value) in vals;
      assert vals[i].value in Present(vals);
      assert MeanOf(vals).Num?;
    } else {
      PresentNone(vals);
    }
  }

  /** A group's mean is NaN exactly when none of the group's rows has a value. */
  lemma GroupNaNIff<K>(labels: seq<K>, vals: seq<Option<real>>, k: K)
    requires |labels| == |vals|
    ensures MeanOf(GroupValues(labels, vals, k)).NaN?
            <==> forall i :: 0 <= i < |labels| && labels[i] == k ==> vals[i].None?
  {
    var g := GroupValues(labels, vals, k);
    MeanNaNIff(g);
    if forall i :: 0 <= i < |labels| && labels[i] == k ==> vals[i].None? {
      forall j | 0 <= j < |g|
        ensures g[j].None?
      {
        assert g[j] in g;
        GroupValuesMembers(labels, vals, k, g[j]);
      }
    } else {
      var i :| 0 <= i < |labels| && labels[i] == k && vals[i].Some?;
      GroupValuesMembers(labels, vals, k, vals[i]);
      var j :| 0 <= j < |g| && g[j] == vals[i];
    }
  }

  /** A group sees only its own rows: changing a row of another key leaves it as it was. */
  lemma {:induction false} GroupIgnoresOtherRows<K>(keys: seq<K>, vals: seq<Option<real>>, k: K, i: nat, v: Option<real>)
    requires |keys| == |vals| && i < |keys|
    requires keys[i] != k
    ensures GroupValues(keys, vals[i := v], k) == GroupValues(keys, vals, k)
  {
    var n := |keys| - 1;
    var vals' := vals[i := v];
    assert keys == keys[..n] + [keys[n]];
    assert vals == vals[..n] + [vals[n]];
    assert vals' == vals'[..n] + [vals'[n]];
    GroupValuesAppendOne(keys[..n], vals[..n], keys[n], vals[n], k);
    GroupValuesAppendOne(keys[..n], vals'[..n], keys[n], vals'[n], k);
    if i < n {
      assert vals'[..n] == vals[..n][i := v];
      GroupIgnoresOtherRows(keys[..n], vals[..n], k, i, v);
    } else {
      assert vals'[..n] == vals[..n];
    }
  }

  predicate NoDuplicates<K(==)>(s: seq<K>)
  {
    forall i, j :: 0 <= i < j < |s| ==> s[i] != s[j]
  }

  /**
   * The distinct keys of `s`, each once (here in order of first appearance;
   * `groupby` sorts them, missing key last, which the sums below do not see).
   */
  function Distinct<K(==)>(s: seq<K>): (d: seq<K>)
    ensures NoDuplicates(d)
    ensures forall i :: 0 <= i < |d| ==> d[i] in s
    ensures forall i :: 0 <= i < |s| ==> s[i] in d
  {
    if s == [] then []
    else
      var init, last := s[..|s| - 1], s[|s| - 1];
      assert s == init + [last];
      var d := Distinct(init);
      if last in d then d else d + [last]
  }

  /** Group sizes added up over the keys `ks`. */
  function CountOver<K(==)>(ks: seq<K>, keys: seq<K>): nat
  {
    if ks == [] then 0 else CountOver(ks[..|ks| - 1], keys) + multiset(keys)[ks[|ks| - 1]]
  }

  /** Group sums added up over the keys `ks`. */
  function TotalOver<K(==)>(ks: seq<K>, keys: seq<K>, vals: seq<Option<real>>): real
    requires |keys| == |vals|
  {
    if ks == [] then 0.0
    else TotalOver(ks[..|ks| - 1], keys, vals) + SumOf(GroupValues(keys, vals, ks[|ks| - 1]))
  }

  lemma {:induction false} CountOverAppendOne<K>(ks: seq<K>, keys: seq<K>, c: K)
    requires NoDuplicates(ks)
    ensures CountOver(ks, keys + [c]) == CountOver(ks, keys) + (if c in ks then 1 else 0)
  {
    if ks != [] {
      var init, last := ks[..|ks| - 1], ks[|ks| - 1];
      assert ks == init + [last];
      assert NoDuplicates(init);
      CountOverAppendOne(init, keys, c);
      assert multiset(keys + [c]) == multiset(keys) + multiset{c};
    }
  }

  /** The groups partition the rows: their sizes add up to the row count. */
  lemma {:induction false} GroupSizesPartition<K>(ks: seq<K>, keys: seq<K>)
    requires NoDuplicates(ks)
    requires forall i :: 0 <= i < |keys| ==> keys[i] in ks
    ensures CountOver(ks, keys) == |keys|
  {
    if keys == [] {
      CountOverEmpty(ks, keys);
    } else {
      var init, last := keys[..|keys| - 1], keys[|keys| - 1];
      assert keys == init + [last];
      GroupSizesPartition(ks, init);
      CountOverAppendOne(ks, init, last);
    }
  }

  lemma {:induction false} CountOverEmpty<K>(ks: seq<K>, keys: seq<K>)
    requires keys == []
    ensures CountOver(ks, keys) == 0
  {
    if ks != [] {
      CountOverEmpty(ks[..|ks| - 1], keys);
    }
  }

  lemma {:induction false} TotalOverAppendOne<K>(ks: seq<K>, keys: seq<K>, vals: seq<Option<real>>, c: K, v: Option<real>)
    requires |keys| == |vals|
    requires NoDuplicates(ks)
    ensures TotalOver(ks, keys + [c], vals + [v])
            == TotalOver(ks, keys, vals) + (if c in ks then ValueOrZero(v) else 0.0)
  {
    if ks != [] {
      var init, last := ks[..|ks| - 1], ks[|ks| - 1];
      assert ks == init + [last];
      assert NoDuplicates(init);
      TotalOverAppendOne(init, keys, vals, c, v);
      GroupValuesAppendOne(keys, vals, c, v, last);
      if c == last {
        SumOfAppendOne(GroupValues(keys, vals, last), v);
      } else {
        assert GroupValues(keys, vals, last) + [] == GroupValues(keys, vals, last);
      }
    }
  }

  lemma {:induction false} TotalOverEmpty<K>(ks: seq<K>, keys: seq<K>, vals: seq<Option<real>>)
    requires keys == [] && vals == []
    ensures TotalOver(ks, keys, vals) == 0.0
  {
    if ks != [] {
      TotalOverEmpty(ks[..|ks| - 1], keys, vals);
    }
  }

  /** The group sums add up to the column's sum. */
  lemma {:induction false} GroupSumsPartition<K>(ks: seq<K>, keys: seq<K>, vals: seq<Option<real>>)
    requires |keys| == |vals|
    requires NoDuplicates(ks)
    requires forall i :: 0 <= i < |keys| ==> keys[i] in ks
    ensures TotalOver(ks, keys, vals) == SumOf(vals)
  {
    if keys == [] {
      TotalOverEmpty(ks, keys, vals);
    } else {
      var n := |keys| - 1;
      assert keys == keys[..n] + [keys[n]];
      assert vals == vals[..n] + [vals[n]];
      GroupSumsPartition(ks, keys[..n], vals[..n]);
      TotalOverAppendOne(ks, keys[..n], vals[..n], keys[n], vals[n]);
      SumOfAppendOne(vals[..n], vals[n]);
    }
  }
}
