/** The count and aggregate steps: a reducer over the metric column of the
    filtered rows, either once for all rows or once per distinct value of
    the group-by column. Numbers are exact reals; `NaN` is what pandas
    returns for min, max or mean of no values. */
module Aggregation {
  import opened Wrappers
  import opened Frames
  import opened Plans
  import opened Faults
  import opened Filtering

  datatype Number = Finite(x: real) | NaN

  /** A grouped result as an ordered association list: Python's dict keeps
      insertion order. */
  type Entries = seq<(Value, real)>

  ghost predicate Distinct<T>(s: seq<T>) {
    forall i, j :: 0 <= i < j < |s| ==> s[i] != s[j]
  }

  /** The distinct cells of column `g`, in order of first appearance. */
  function KeysOf(rows: seq<Row>, g: string): (ks: seq<Value>)
    requires HasColumn(rows, g)
    ensures Distinct(ks)
    ensures forall k :: k in ks <==> exists x :: x in rows && x[g] == k
    decreases |rows|
  {
    if rows == [] then []
    else
      var init := rows[..|rows| - 1];
      assert forall x :: x in rows <==> x in init || x == rows[|rows| - 1] by {
        assert rows == init + [rows[|rows| - 1]];
      }
      var ks := KeysOf(init, g);
      var k := rows[|rows| - 1][g];
      if k in ks then ks else ks + [k]
  }

  /** The rows of one group, in their order. */
  function Members(rows: seq<Row>, g: string, k: Value): (r: seq<Row>)
    requires HasColumn(rows, g)
    ensures forall x :: x in r <==> x in rows && x[g] == k
  {
    FilterRows(rows, g, "==", Single(k))
  }

  /** A group holds every copy of each of its rows. */
  lemma MembersCounts(rows: seq<Row>, g: string, k: Value)
    requires HasColumn(rows, g)
    ensures forall x :: multiset(Members(rows, g, k))[x] == if x in rows && x[g] == k then multiset(rows)[x] else 0
  {
    FilterRowsCounts(rows, g, "==", Single(k));
  }

  /** Every row has an int cell in column `m`. */
  predicate IntColumn(rows: seq<Row>, m: string) {
    forall x: Row | x in rows :: m in x && x[m].IntVal?
  }

  function MetricInts(rows: seq<Row>, m: string): (xs: seq<int>)
    requires IntColumn(rows, m)
    ensures |xs| == |rows| && forall i :: 0 <= i < |rows| ==> xs[i] == rows[i][m].i
  {
    if rows == [] then []
    else
      assert forall x :: x in rows[1..] ==> x in rows;
      [rows[0][m].i] + MetricInts(rows[1..], m)
  }

  function Sum(xs: seq<int>): int {
    if xs == [] then 0 else xs[0] + Sum(xs[1..])
  }

  function Min(xs: seq<int>): (r: int)
    requires |xs| > 0
    ensures r in xs && forall x :: x in xs ==> r <= x
  {
    if |xs| == 1 then xs[0]
    else
      var rest := Min(xs[1..]);
      assert xs == [xs[0]] + xs[1..];
      if xs[0] <= rest then xs[0] else rest
  }

  function Max(xs: seq<int>): (r: int)
    requires |xs| > 0
    ensures r in xs && forall x :: x in xs ==> x <= r
  {
    if |xs| == 1 then xs[0]
    else
      var rest := Max(xs[1..]);
      assert xs == [xs[0]] + xs[1..];
      if xs[0] >= rest then xs[0] else rest
  }

  /** Mean as exact division (the executor computes it in floating point). */
  function Mean(xs: seq<int>): real
    requires |xs| > 0
  {
    Sum(xs) as real / |xs| as real
  }

  /** One of the five reducers on a group that has at least one row. */
  function GroupValue(agg: string, group: seq<Row>, m: string): real
    requires |group| > 0 && agg in AllowedAggregations
    requires agg != "count" ==> IntColumn(group, m)
  {
    if agg == "count" then |group| as real
    else
      var xs := MetricInts(group, m);
      if agg == "sum" then Sum(xs) as real
      else if agg == "mean" then Mean(xs)
      else if agg == "min" then Min(xs) as real
      else Max(xs) as real
  }

  /** `df[metric].<agg>()` over all filtered rows. An aggregation outside
      the five assigns no result. */
  function Reduce(agg: string, rows: seq<Row>, m: string): (r: Result<Number, Fault>)
    requires HasColumn(rows, m)
    ensures agg == "count" ==> r == Ok(Finite(|rows| as real))
    ensures agg == "sum" && IntColumn(rows, m) ==> r == Ok(Finite(Sum(MetricInts(rows, m)) as real))
  {
    if agg !in AllowedAggregations then Err(UnboundResult)
    else if agg != "count" && !IntColumn(rows, m) then Err(NonNumeric)
    else if rows == [] then
      Ok(if agg == "sum" || agg == "count" then Finite(0.0) else NaN)
    else Ok(Finite(GroupValue(agg, rows, m)))
  }

  /** One entry per key of `ks`, in that order, each the reducer applied
      to that key's group. */
  function Groups(agg: string, rows: seq<Row>, g: string, m: string, ks: seq<Value>): (r: Entries)
    requires HasColumn(rows, g) && agg in AllowedAggregations
    requires agg != "count" ==> IntColumn(rows, m)
    requires forall k :: k in ks ==> exists x :: x in rows && x[g] == k
    ensures |r| == |ks| && forall i :: 0 <= i < |ks| ==> r[i].0 == ks[i]
  {
    if ks == [] then []
    else
      var group := Members(rows, g, ks[0]);
      assert ks[0] in ks && forall k :: k in ks[1..] ==> k in ks;
      assert |group| > 0 by {
        var w :| w in rows && w[g] == ks[0];
        assert w in group;
      }
      [(ks[0], GroupValue(agg, group, m))] + Groups(agg, rows, g, m, ks[1..])
  }

  /** `df.groupby(g)[m].<agg>().to_dict()`. */
  function GroupedReduce(agg: string, rows: seq<Row>, g: string, m: string): (r: Result<Entries, Fault>)
    requires HasColumn(rows, g)
    ensures r.Ok? <==> agg in AllowedAggregations && (agg == "count" || IntColumn(rows, m))
    ensures r.Err? ==> r.error == UnboundResult || r.error == NonNumeric
    ensures r.Ok? ==> |r.value| == |KeysOf(rows, g)|
  {
    if agg !in AllowedAggregations then Err(UnboundResult)
    else if agg != "count" && !IntColumn(rows, m) then Err(NonNumeric)
    else Ok(Groups(agg, rows, g, m, KeysOf(rows, g)))
  }

  /** The size of each group of `ks`, in that order. */
  function Sizes(rows: seq<Row>, g: string, ks: seq<Value>): (r: Entries)
    requires HasColumn(rows, g)
    ensures |r| == |ks| && forall i :: 0 <= i < |ks| ==> r[i].0 == ks[i]
  {
    if ks == [] then []
    else [(ks[0], |Members(rows, g, ks[0])| as real)] + Sizes(rows, g, ks[1..])
  }

  /** `df.groupby(g).size().to_dict()`. */
  function GroupedCount(rows: seq<Row>, g: string): (r: Entries)
    requires HasColumn(rows, g)
    ensures |r| == |KeysOf(rows, g)| && forall i :: 0 <= i < |r| ==> r[i].0 == KeysOf(rows, g)[i]
  {
    Sizes(rows, g, KeysOf(rows, g))
  }

  /** The sum of a mapping's values. */
  function Total(es: Entries): real {
    if es == [] then 0.0 else es[0].1 + Total(es[1..])
  }

  lemma MembersCons(r: Row, rest: seq<Row>, g: string, k: Value)
    requires HasColumn([r] + rest, g)
    ensures HasColumn(rest, g)
    ensures Members([r] + rest, g, k) == (if r[g] == k then [r] else []) + Members(rest, g, k)
  {
    assert forall x :: x in rest ==> x in [r] + rest;
    assert ([r] + rest)[1..] == rest;
  }

  lemma MetricCons(r: Row, rest: seq<Row>, m: string)
    requires IntColumn([r] + rest, m)
    ensures IntColumn(rest, m)
    ensures Sum(MetricInts([r] + rest, m)) == r[m].i + Sum(MetricInts(rest, m))
  {
    assert forall x :: x in rest ==> x in [r] + rest;
    assert ([r] + rest)[1..] == rest;
  }

  /** Dropping the first of distinct keys leaves distinct keys. */
  lemma DistinctTail(ks: seq<Value>)
    requires Distinct(ks) && ks != []
    ensures Distinct(ks[1..])
  {
    forall i, j | 0 <= i < j < |ks[1..]| ensures ks[1..][i] != ks[1..][j] {
      assert ks[1..][i] == ks[i + 1] && ks[1..][j] == ks[j + 1];
    }
  }

  /** Group sizes over distinct keys: one more row adds one to the size
      of its key's group, if that key is listed. */
  lemma {:induction false} SizesCons(r: Row, rest: seq<Row>, g: string, ks: seq<Value>)
    requires HasColumn([r] + rest, g) && Distinct(ks)
    ensures HasColumn(rest, g)
    ensures Total(Sizes([r] + rest, g, ks)) == (if r[g] in ks then 1.0 else 0.0) + Total(Sizes(rest, g, ks))
  {
    MembersCons(r, rest, g, if ks == [] then r[g] else ks[0]);
    if ks != [] {
      DistinctTail(ks);
      SizesCons(r, rest, g, ks[1..]);
      assert Total(Sizes([r] + rest, g, ks)) ==
               |Members([r] + rest, g, ks[0])| as real + Total(Sizes([r] + rest, g, ks[1..]));
      assert Total(Sizes(rest, g, ks)) ==
               |Members(rest, g, ks[0])| as real + Total(Sizes(rest, g, ks[1..]));
      assert r[g] in ks <==> r[g] == ks[0] || r[g] in ks[1..] by {
        assert ks == [ks[0]] + ks[1..];
      }
    }
  }

  /** Over distinct keys that cover every row, the group sizes add up to
      the number of rows. */
  lemma {:induction false} SizesCover(rows: seq<Row>, g: string, ks: seq<Value>)
    requires HasColumn(rows, g) && Distinct(ks)
    requires forall x :: x in rows ==> x[g] in ks
    ensures Total(Sizes(rows, g, ks)) == |rows| as real
    decreases |rows|
  {
    if rows == [] {
      SizesOfNothing(g, ks);
    } else {
      assert rows == [rows[0]] + rows[1..];
      SizesCons(rows[0], rows[1..], g, ks);
      assert forall x :: x in rows[1..] ==> x in rows;
      SizesCover(rows[1..], g, ks);
    }
  }

  lemma {:induction false} SizesOfNothing(g: string, ks: seq<Value>)
    ensures Total(Sizes([], g, ks)) == 0.0
  {
    if ks != [] { SizesOfNothing(g, ks[1..]); }
  }

  /** Grouped `count`: one entry per distinct key, and the counts add up
      to the ungrouped count. */
  lemma GroupedCountTotal(rows: seq<Row>, g: string)
    requires HasColumn(rows, g)
    ensures Total(GroupedCount(rows, g)) == |rows| as real
  {
    SizesCover(rows, g, KeysOf(rows, g));
  }

  /** The sum over `ks` of each key's group sum. */
  function GroupSums(rows: seq<Row>, g: string, m: string, ks: seq<Value>): int
    requires HasColumn(rows, g) && IntColumn(rows, m)
  {
    if ks == [] then 0
    else Sum(MetricInts(Members(rows, g, ks[0]), m)) + GroupSums(rows, g, m, ks[1..])
  }

  lemma {:induction false} GroupSumsCons(r: Row, rest: seq<Row>, g: string, m: string, ks: seq<Value>)
    requires HasColumn([r] + rest, g) && IntColumn([r] + rest, m) && Distinct(ks)
    ensures HasColumn(rest, g) && IntColumn(rest, m)
    ensures GroupSums([r] + rest, g, m, ks) == (if r[g] in ks then r[m].i else 0) + GroupSums(rest, g, m, ks)
  {
    MetricCons(r, rest, m);
    MembersCons(r, rest, g, if ks == [] then r[g] else ks[0]);
    if ks != [] {
      var k := ks[0];
      if r[g] == k {
        assert Members([r] + rest, g, k) == [r] + Members(rest, g, k);
        MetricCons(r, Members(rest, g, k), m);
      }
      assert Distinct(ks[1..]) by {
        forall i, j | 0 <= i < j < |ks[1..]| ensures ks[1..][i] != ks[1..][j] {
          assert ks[1..][i] == ks[i + 1] && ks[1..][j] == ks[j + 1];
        }
      }
      GroupSumsCons(r, rest, g, m, ks[1..]);
      assert r[g] in ks <==> r[g] == ks[0] || r[g] in ks[1..] by {
        assert ks == [ks[0]] + ks[1..];
      }
    }
  }

  lemma {:induction false} GroupSumsOfNothing(g: string, m: string, ks: seq<Value>)
    ensures GroupSums([], g, m, ks) == 0
  {
    if ks != [] { GroupSumsOfNothing(g, m, ks[1..]); }
  }

  /** Over distinct keys that cover every row, the group sums add up to the
      sum of the whole column. */
  lemma {:induction false} GroupSumsCover(rows: seq<Row>, g: string, m: string, ks: seq<Value>)
    requires HasColumn(rows, g) && IntColumn(rows, m) && Distinct(ks)
    requires forall x :: x in rows ==> x[g] in ks
    ensures GroupSums(rows, g, m, ks) == Sum(MetricInts(rows, m))
    decreases |rows|
  {
    if rows == [] {
      GroupSumsOfNothing(g, m, ks);
    } else {
      assert rows == [rows[0]] + rows[1..];
      GroupSumsCons(rows[0], rows[1..], g, m, ks);
      MetricCons(rows[0], rows[1..], m);
      assert forall x :: x in rows[1..] ==> x in rows;
      GroupSumsCover(rows[1..], g, m, ks);
    }
  }

  lemma {:induction false} TotalOfSumGroups(rows: seq<Row>, g: string, m: string, ks: seq<Value>)
    requires HasColumn(rows, g) && IntColumn(rows, m)
    requires forall k :: k in ks ==> exists x :: x in rows && x[g] == k
    ensures Total(Groups("sum", rows, g, m, ks)) == GroupSums(rows, g, m, ks) as real
  {
    if ks != [] {
      assert forall k :: k in ks[1..] ==> k in ks;
      TotalOfSumGroups(rows, g, m, ks[1..]);
    }
  }

  /** Grouped `sum`: the group sums add up to the ungrouped sum. */
  lemma GroupedSumTotal(rows: seq<Row>, g: string, m: string)
    requires HasColumn(rows, g) && HasColumn(rows, m)
    requires IntColumn(rows, m)
    ensures GroupedReduce("sum", rows, g, m).Ok?
    ensures Reduce("sum", rows, m) == Ok(Finite(Total(GroupedReduce("sum", rows, g, m).value)))
  {
    var ks := KeysOf(rows, g);
    TotalOfSumGroups(rows, g, m, ks);
    GroupSumsCover(rows, g, m, ks);
  }

  /** The entry at position `i` is the reducer applied to the group of the
      `i`-th key. */
  lemma {:induction false} GroupsAt(agg: string, rows: seq<Row>, g: string, m: string, ks: seq<Value>, i: nat)
    requires HasColumn(rows, g) && agg in AllowedAggregations
    requires agg != "count" ==> IntColumn(rows, m)
    requires forall k :: k in ks ==> exists x :: x in rows && x[g] == k
    requires i < |ks|
    ensures |Members(rows, g, ks[i])| > 0
    ensures agg != "count" ==> IntColumn(Members(rows, g, ks[i]), m)
    ensures Groups(agg, rows, g, m, ks)[i].1 == GroupValue(agg, Members(rows, g, ks[i]), m)
  {
    assert ks[i] in ks;
    var w :| w in rows && w[g] == ks[i];
    assert w in Members(rows, g, ks[i]);
    if i > 0 {
      assert forall k :: k in ks[1..] ==> k in ks;
      GroupsAt(agg, rows, g, m, ks[1..], i - 1);
    }
  }

  /** The keys of a mapping, in order. */
  function EntryKeys(es: Entries): (ks: seq<Value>)
    ensures |ks| == |es| && forall i :: 0 <= i < |es| ==> ks[i] == es[i].0
  {
    if es == [] then [] else [es[0].0] + EntryKeys(es[1..])
  }

  /** A grouped result has exactly one entry per distinct value of the
      group-by column. */
  lemma OneEntryPerKey(agg: string, rows: seq<Row>, g: string, m: string)
    requires HasColumn(rows, g)
    requires GroupedReduce(agg, rows, g, m).Ok?
    ensures var ks := EntryKeys(GroupedReduce(agg, rows, g, m).value);
            Distinct(ks) && forall k :: k in ks <==> exists x :: x in rows && x[g] == k
  {
    assert EntryKeys(GroupedReduce(agg, rows, g, m).value) == KeysOf(rows, g);
  }

  /** Grouped `count`, too, has one entry per distinct key. */
  lemma GroupedCountKeys(rows: seq<Row>, g: string)
    requires HasColumn(rows, g)
    ensures var ks := EntryKeys(GroupedCount(rows, g));
            Distinct(ks) && forall k :: k in ks <==> exists x :: x in rows && x[g] == k
  {
    assert EntryKeys(GroupedCount(rows, g)) == KeysOf(rows, g);
  }

  /** `min` (`max`) of a group is the metric value of one of its rows and
      is no greater (no less) than any other. */
  lemma ExtremeOfGroup(agg: string, group: seq<Row>, m: string)
    requires agg == "min" || agg == "max"
    requires |group| > 0 && IntColumn(group, m)
    ensures exists x: Row :: x in group && x[m].i as real == GroupValue(agg, group, m)
    ensures forall x: Row :: x in group ==>
              if agg == "min" then GroupValue(agg, group, m) <= x[m].i as real
              else x[m].i as real <= GroupValue(agg, group, m)
  {
    var xs := MetricInts(group, m);
    var j :| 0 <= j < |xs| && xs[j] == (if agg == "min" then Min(xs) else Max(xs));
    assert group[j] in group;
    forall x: Row | x in group
      ensures if agg == "min" then GroupValue(agg, group, m) <= x[m].i as real
              else x[m].i as real <= GroupValue(agg, group, m)
    {
      var n :| 0 <= n < |group| && group[n] == x;
      assert xs[n] in xs;
    }
  }

  /** Grouped `min` and `max`: each key's value is a metric value of its
      group, and no metric value of the group is below (above) it. */
  lemma GroupedMinMax(agg: string, rows: seq<Row>, g: string, m: string, i: nat)
    requires agg == "min" || agg == "max"
    requires HasColumn(rows, g) && IntColumn(rows, m)
    requires i < |KeysOf(rows, g)|
    ensures GroupedReduce(agg, rows, g, m).Ok?
    ensures var e := GroupedReduce(agg, rows, g, m).value[i];
            && (exists x: Row :: x in rows && x[g] == e.0 && x[m].i as real == e.1)
            && (forall x: Row :: x in rows && x[g] == e.0 ==>
                  if agg == "min" then e.1 <= x[m].i as real else x[m].i as real <= e.1)
  {
    var ks := KeysOf(rows, g);
    GroupsAt(agg, rows, g, m, ks, i);
    ExtremeOfGroup(agg, Members(rows, g, ks[i]), m);
  }

  /** Without missing values, the non-null `count` of each group equals its
      size: grouped `aggregate`/`count` and grouped `count` agree. */
  lemma {:induction false} CountEqualsSize(rows: seq<Row>, g: string, m: string, ks: seq<Value>)
    requires HasColumn(rows, g)
    requires forall k :: k in ks ==> exists x :: x in rows && x[g] == k
    ensures Groups("count", rows, g, m, ks) == Sizes(rows, g, ks)
  {
    if ks != [] {
      assert forall k :: k in ks[1..] ==> k in ks;
      CountEqualsSize(rows, g, m, ks[1..]);
    }
  }
}
