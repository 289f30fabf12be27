/** The sort and limit steps on a mapping result:
    `dict(sorted(result.items(), key=value, reverse=desc))` and
    `dict(list(result.items())[:limit])`. */
module Ordering {
  import opened Frames
  import opened Aggregation

  /** `a` may come before `b` in the sorted order. */
  predicate InOrder(a: real, b: real, desc: bool) {
    if desc then a >= b else a <= b
  }

  ghost predicate Sorted(s: Entries, desc: bool) {
    forall i, j :: 0 <= i < j < |s| ==> InOrder(s[i].1, s[j].1, desc)
  }

  /** Places `e` after every entry it may follow, so that entries with equal
      values keep their relative order. */
  function Insert(s: Entries, e: (Value, real), desc: bool): (r: Entries)
    ensures multiset(r) == multiset(s) + multiset{e}
  {
    if s == [] then [e]
    else if InOrder(s[0].1, e.1, desc) then
      assert s == [s[0]] + s[1..];
      [s[0]] + Insert(s[1..], e, desc)
    else [e] + s
  }

  /** Python's `sorted` by value, ascending or, with `reverse=True`,
      descending; stable in both directions. */
  function SortByValue(es: Entries, desc: bool): (r: Entries)
    ensures multiset(r) == multiset(es)
  {
    if es == [] then []
    else
      assert es == es[..|es| - 1] + [es[|es| - 1]];
      Insert(SortByValue(es[..|es| - 1], desc), es[|es| - 1], desc)
  }

  /** The entries whose value is `v`, in order. */
  function WithValue(s: Entries, v: real): Entries {
    if s == [] then [] else (if s[0].1 == v then [s[0]] else []) + WithValue(s[1..], v)
  }

  lemma {:induction false} InsertSorted(s: Entries, e: (Value, real), desc: bool)
    requires Sorted(s, desc)
    ensures Sorted(Insert(s, e, desc), desc)
  {
    if s != [] && InOrder(s[0].1, e.1, desc) {
      var t := Insert(s[1..], e, desc);
      InsertSorted(s[1..], e, desc);
      forall x | x in t ensures InOrder(s[0].1, x.1, desc) {
        assert x in multiset(t);
        if x != e {
          assert x in s[1..];
          var j :| 0 <= j < |s[1..]| && s[1..][j] == x;
          assert s[j + 1] == x;
        }
      }
      var r := [s[0]] + t;
      forall i, j | 0 <= i < j < |r| ensures InOrder(r[i].1, r[j].1, desc) {
        if i == 0 { assert r[j] == t[j - 1] && t[j - 1] in t; }
        else { assert r[i] == t[i - 1] && r[j] == t[j - 1]; }
      }
    }
  }

  lemma {:induction false} WithValueAbsent(s: Entries, v: real)
    requires forall i :: 0 <= i < |s| ==> s[i].1 != v
    ensures WithValue(s, v) == []
  {
    if s != [] {
      assert forall i :: 0 <= i < |s[1..]| ==> s[1..][i] == s[i + 1];
      WithValueAbsent(s[1..], v);
    }
  }

  lemma WithValueCons(x: (Value, real), t: Entries, v: real)
    ensures WithValue([x] + t, v) == (if x.1 == v then [x] else []) + WithValue(t, v)
  {
    assert ([x] + t)[1..] == t;
  }

  lemma {:induction false} WithValueSnoc(s: Entries, x: (Value, real), v: real)
    ensures WithValue(s + [x], v) == WithValue(s, v) + (if x.1 == v then [x] else [])
  {
    if s == [] {
      assert [] + [x] == [x] + [];
      WithValueCons(x, [], v);
    } else {
      assert s + [x] == [s[0]] + (s[1..] + [x]);
      WithValueCons(s[0], s[1..] + [x], v);
      WithValueSnoc(s[1..], x, v);
      assert s == [s[0]] + s[1..];
      WithValueCons(s[0], s[1..], v);
    }
  }

  /** An entry placed before a sorted list that it may not follow carries
      a value no entry of that list carries. */
  lemma FrontValueAbsent(s: Entries, e: (Value, real), desc: bool)
    requires Sorted(s, desc) && s != [] && !InOrder(s[0].1, e.1, desc)
    ensures WithValue(s, e.1) == []
  {
    forall i | 0 <= i < |s| ensures s[i].1 != e.1 {
      if i > 0 { assert InOrder(s[0].1, s[i].1, desc); }
    }
    WithValueAbsent(s, e.1);
  }

  /** The tail of a sorted list is sorted. */
  lemma SortedTail(s: Entries, desc: bool)
    requires Sorted(s, desc) && s != []
    ensures Sorted(s[1..], desc)
  {
    forall i, j | 0 <= i < j < |s[1..]| ensures InOrder(s[1..][i].1, s[1..][j].1, desc) {
      assert s[1..][i] == s[i + 1] && s[1..][j] == s[j + 1];
    }
  }

  /** Inserting into a sorted list appends the new entry to the entries
      with its value: it goes after all of them. */
  lemma {:induction false} InsertStable(s: Entries, e: (Value, real), desc: bool, v: real)
    requires Sorted(s, desc)
    ensures WithValue(Insert(s, e, desc), v) == WithValue(s, v) + (if e.1 == v then [e] else [])
  {
    if s == [] {
      WithValueCons(e, [], v);
    } else if InOrder(s[0].1, e.1, desc) {
      SortedTail(s, desc);
      InsertStable(s[1..], e, desc, v);
      InsertStableStep(s, e, desc, v);
    } else {
      WithValueCons(e, s, v);
      if e.1 == v {
        FrontValueAbsent(s, e, desc);
      }
    }
  }

  /** An entry that may follow the head is inserted into the tail. */
  lemma InsertPastHead(s: Entries, e: (Value, real), desc: bool)
    requires s != [] && InOrder(s[0].1, e.1, desc)
    ensures Insert(s, e, desc) == [s[0]] + Insert(s[1..], e, desc)
  {
  }

  lemma WithValueHead(s: Entries, v: real)
    requires s != []
    ensures WithValue(s, v) == (if s[0].1 == v then [s[0]] else []) + WithValue(s[1..], v)
  {
  }

  /** The inductive step of `InsertStable`: `e` goes past the first entry. */
  lemma {:induction false} InsertStableStep(s: Entries, e: (Value, real), desc: bool, v: real)
    requires s != [] && InOrder(s[0].1, e.1, desc)
    requires WithValue(Insert(s[1..], e, desc), v) == WithValue(s[1..], v) + (if e.1 == v then [e] else [])
    ensures WithValue(Insert(s, e, desc), v) == WithValue(s, v) + (if e.1 == v then [e] else [])
  {
    var head: Entries := if s[0].1 == v then [s[0]] else [];
    var tail: Entries := if e.1 == v then [e] else [];
    var rest := Insert(s[1..], e, desc);
    InsertPastHead(s, e, desc);
    WithValueCons(s[0], rest, v);
    WithValueHead(s, v);
    Regroup(WithValue(Insert(s, e, desc), v), WithValue(s, v), head, WithValue(rest, v),
            WithValue(s[1..], v), tail);
  }

  /** `h + r` with `r == m + t` is `(h + m) + t`. */
  lemma Regroup<T>(whole: seq<T>, front: seq<T>, h: seq<T>, r: seq<T>, m: seq<T>, t: seq<T>)
    requires whole == h + r && r == m + t && front == h + m
    ensures whole == front + t
  {
  }

  /** Sorting orders the entries by value and is stable: for every value,
      the entries carrying it appear in their original order. Together
      with the multiset equality of `SortByValue`, the result is a
      permutation of the input. */
  lemma {:induction false} SortSortedAndStable(es: Entries, desc: bool)
    ensures Sorted(SortByValue(es, desc), desc)
    ensures forall v :: WithValue(SortByValue(es, desc), v) == WithValue(es, v)
    decreases |es|
  {
    if es != [] {
      var init, last := es[..|es| - 1], es[|es| - 1];
      assert es == init + [last];
      var sortedInit := SortByValue(init, desc);
      assert SortByValue(es, desc) == Insert(sortedInit, last, desc);
      SortSortedAndStable(init, desc);
      InsertSorted(sortedInit, last, desc);
      forall v ensures WithValue(SortByValue(es, desc), v) == WithValue(es, v) {
        InsertStable(sortedInit, last, desc, v);
        WithValueSnoc(init, last, v);
      }
    }
  }

  lemma DistinctCons(k: Value, ks: seq<Value>)
    ensures Distinct([k] + ks) <==> k !in ks && Distinct(ks)
  {
    var s := [k] + ks;
    if k !in ks && Distinct(ks) {
      forall i, j | 0 <= i < j < |s| ensures s[i] != s[j] {
        if i == 0 { assert s[j] == ks[j - 1]; }
        else { assert s[i] == ks[i - 1] && s[j] == ks[j - 1]; }
      }
    }
    if Distinct(s) {
      forall j | 0 <= j < |ks| ensures ks[j] != k {
        assert s[0] != s[j + 1];
      }
      forall i, j | 0 <= i < j < |ks| ensures ks[i] != ks[j] {
        assert s[i + 1] == ks[i] && s[j + 1] == ks[j];
      }
    }
  }

  lemma EntryKeysCons(x: (Value, real), t: Entries)
    ensures EntryKeys([x] + t) == [x.0] + EntryKeys(t)
  {
    assert ([x] + t)[1..] == t;
  }

  /** Inserting an entry whose key is new keeps the keys distinct. */
  lemma {:induction false} InsertKeepsKeysDistinct(s: Entries, e: (Value, real), desc: bool)
    requires Distinct(EntryKeys(s)) && e.0 !in EntryKeys(s)
    ensures Distinct(EntryKeys(Insert(s, e, desc)))
    ensures forall k :: k in EntryKeys(Insert(s, e, desc)) <==> k in EntryKeys(s) || k == e.0
  {
    if s == [] {
      EntryKeysCons(e, []);
      DistinctCons(e.0, []);
    } else {
      assert s == [s[0]] + s[1..];
      EntryKeysCons(s[0], s[1..]);
      DistinctCons(s[0].0, EntryKeys(s[1..]));
      if InOrder(s[0].1, e.1, desc) {
        InsertKeepsKeysDistinct(s[1..], e, desc);
        EntryKeysCons(s[0], Insert(s[1..], e, desc));
        DistinctCons(s[0].0, EntryKeys(Insert(s[1..], e, desc)));
      } else {
        EntryKeysCons(e, s);
        DistinctCons(e.0, EntryKeys(s));
      }
    }
  }

  lemma EntryKeysSnoc(s: Entries, x: (Value, real))
    ensures EntryKeys(s + [x]) == EntryKeys(s) + [x.0]
  {
    var a, b := EntryKeys(s + [x]), EntryKeys(s) + [x.0];
    assert |a| == |b|;
    forall i | 0 <= i < |a| ensures a[i] == b[i] {
      assert (s + [x])[i] == if i < |s| then s[i] else x;
    }
  }

  /** Sorting a mapping keeps one entry per key, so the `dict(...)` around
      the sorted items loses nothing. */
  lemma {:induction false} SortKeepsKeysDistinct(es: Entries, desc: bool)
    requires Distinct(EntryKeys(es))
    ensures Distinct(EntryKeys(SortByValue(es, desc)))
    ensures forall k :: k in EntryKeys(SortByValue(es, desc)) <==> k in EntryKeys(es)
    decreases |es|
  {
    if es != [] {
      var init, last := es[..|es| - 1], es[|es| - 1];
      assert es == init + [last];
      EntryKeysSnoc(init, last);
      var ks := EntryKeys(init);
      assert Distinct(ks) && last.0 !in ks by {
        assert EntryKeys(es) == ks + [last.0];
        forall j | 0 <= j < |ks| ensures ks[j] != last.0 {
          assert EntryKeys(es)[j] != EntryKeys(es)[|ks|];
        }
        forall i, j | 0 <= i < j < |ks| ensures ks[i] != ks[j] {
          assert EntryKeys(es)[i] == ks[i] && EntryKeys(es)[j] == ks[j];
        }
      }
      SortKeepsKeysDistinct(init, desc);
      InsertKeepsKeysDistinct(SortByValue(init, desc), last, desc);
    }
  }

  /** Where Python's `items[:k]` ends, negative `k` counting from the end. */
  function SliceEnd(n: nat, k: int): (r: nat)
    ensures r <= n
  {
    if k >= 0 then (if k < n then k else n)
    else if n + k > 0 then n + k else 0
  }

  /** `list(items)[:k]`. */
  function Take(es: Entries, k: int): (r: Entries)
    ensures r <= es
  {
    es[..SliceEnd(|es|, k)]
  }

  /** A positive limit keeps the first `min(k, n)` entries; a negative one
      drops the last `-k` (or all of them). Either way the kept entries are
      a prefix, in order, with distinct keys if the input's were. */
  lemma TakeKeepsPrefix(es: Entries, k: int)
    ensures k >= 0 ==> |Take(es, k)| == if k < |es| then k else |es|
    ensures k < 0 ==> |Take(es, k)| == if |es| + k > 0 then |es| + k else 0
    ensures forall i :: 0 <= i < |Take(es, k)| ==> Take(es, k)[i] == es[i]
    ensures Distinct(EntryKeys(es)) ==> Distinct(EntryKeys(Take(es, k)))
  {
    var t := Take(es, k);
    if Distinct(EntryKeys(es)) {
      forall i, j | 0 <= i < j < |t| ensures EntryKeys(t)[i] != EntryKeys(t)[j] {
        assert EntryKeys(t)[i] == EntryKeys(es)[i] && EntryKeys(t)[j] == EntryKeys(es)[j];
      }
    }
  }
}
