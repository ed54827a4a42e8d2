/** `sortDataFrame`: reorders every column of a frame by the values of one key column. */
module Sorting {
  import opened Values
  import opened Text
  import opened Inference

  // ------------------------------------------------------------- comparison

  /** How keys are compared: as text or as numbers, ascending or descending. */
  datatype Order = Order(byText: bool, descending: bool)

  /** The comparison for a key column: its declared type decides, and a column
      without one is compared as text when its first non-missing value is a
      string. */
  function OrderFor(key: Field, descending: bool): Order {
    var byText := match key.typ
      case Some(t) => t == String
      case None => FirstNonNull(key.values).Some? && key.values[FirstNonNull(key.values).value].Str?;
    Order(byText, descending)
  }

  /** A key column is compared as text exactly when it is declared `string`,
      or is undeclared and its first present value is a string. */
  lemma OrderForSpec(key: Field, descending: bool)
    ensures OrderFor(key, descending).descending == descending
    ensures key.typ.Some? ==> (OrderFor(key, descending).byText <==> key.typ == Some(String))
    ensures key.typ.None? ==>
      (OrderFor(key, descending).byText <==> exists k :: IsFirstPresent(key.values, k) && key.values[k].Str?)
  {
    if key.typ.None? {
      if k :| IsFirstPresent(key.values, k) && key.values[k].Str? {
        FirstPresentUnique(key.values, k);
      }
    }
  }

  /** A key the comparison can place: a string under a text order, a number
      otherwise. Anything else (missing values, objects, mixed kinds) is
      indeterminate. */
  predicate Determinate(o: Order, v: Value) {
    if o.byText then v.Str? else v.Num?
  }

  /** Ascending comparison of two determinate keys. */
  predicate Ascends(o: Order, a: Value, b: Value)
    requires Determinate(o, a) && Determinate(o, b)
  {
    if o.byText then StrLess(a.s, b.s) else a.n < b.n
  }

  /** `a` goes strictly before `b`: determinate keys come first in either
      direction, and among them the ascending comparison decides, reversed when
      descending. Indeterminate keys are all equivalent. */
  predicate Before(o: Order, a: Value, b: Value) {
    Determinate(o, a) && (!Determinate(o, b) || (if o.descending then Ascends(o, b, a) else Ascends(o, a, b)))
  }

  lemma BeforeIrreflexive(o: Order, a: Value)
    ensures !Before(o, a, a)
  {
    if a.Str? {
      StrLessIrreflexive(a.s);
    }
  }

  lemma BeforeTransitive(o: Order, a: Value, b: Value, c: Value)
    requires Before(o, a, b) && Before(o, b, c)
    ensures Before(o, a, c)
  {
    if o.byText && Determinate(o, c) {
      if o.descending {
        StrLessTransitive(c.s, b.s, a.s);
      } else {
        StrLessTransitive(a.s, b.s, c.s);
      }
    }
  }

  /** Being unordered is transitive: if `a` goes before `c`, every `b` goes
      after `a` or before `c`. With irreflexivity and transitivity this makes
      `Before` a strict weak order. */
  lemma BeforeSplits(o: Order, a: Value, b: Value, c: Value)
    requires Before(o, a, c)
    ensures Before(o, a, b) || Before(o, b, c)
  {
    if Determinate(o, b) && Determinate(o, c) && o.byText && b.s != a.s && b.s != c.s {
      StrLessTotal(a.s, b.s);
      StrLessTotal(b.s, c.s);
      if o.descending {
        if StrLess(b.s, a.s) && StrLess(c.s, b.s) {
        } else if StrLess(a.s, b.s) {
          StrLessTransitive(c.s, a.s, b.s);
        } else {
          StrLessTransitive(b.s, c.s, a.s);
        }
      } else {
        if StrLess(a.s, b.s) && StrLess(b.s, c.s) {
        } else if StrLess(b.s, a.s) {
          StrLessTransitive(b.s, a.s, c.s);
        } else {
          StrLessTransitive(a.s, c.s, b.s);
        }
      }
    }
  }

  // ------------------------------------------------------ the row ordering

  /** Row `i` goes strictly before row `j` by their keys. */
  predicate RowBefore(o: Order, keys: seq<Value>, i: int, j: int) {
    Before(o, At(keys, i), At(keys, j))
  }

  /** No row is placed after one it should come after. */
  predicate Sorted(o: Order, keys: seq<Value>, p: seq<nat>) {
    forall a, b :: 0 <= a < b < |p| ==> !RowBefore(o, keys, p[b], p[a])
  }

  /** Rows whose keys are equivalent keep their original relative order. */
  predicate Stable(o: Order, keys: seq<Value>, p: seq<nat>) {
    forall a, b :: 0 <= a < b < |p| && !RowBefore(o, keys, p[a], p[b]) ==> p[a] < p[b]
  }

  function Range(n: nat): (r: seq<nat>)
    ensures |r| == n && forall i :: 0 <= i < n ==> r[i] == i
  {
    seq(n, i requires 0 <= i < n => i)
  }

  lemma RangeSnoc(n: nat)
    requires n > 0
    ensures var m: nat := n - 1; multiset(Range(n)) == multiset(Range(m)) + multiset{m}
  {
    var m: nat := n - 1;
    assert Range(n) == Range(m) + [m];
  }

  /** Where row `i` goes when inserted into the sorted index list `s`: after the
      last entry it does not go strictly before. */
  function InsertPos(o: Order, keys: seq<Value>, s: seq<nat>, i: nat): (r: nat)
    ensures r <= |s|
    decreases |s|
  {
    if s == [] || !RowBefore(o, keys, i, s[|s| - 1]) then |s|
    else InsertPos(o, keys, s[..|s| - 1], i)
  }

  /** Row `i` goes strictly before every entry after its insertion point, and
      not before the entry just ahead of it. */
  lemma {:induction false} InsertPosSplits(o: Order, keys: seq<Value>, s: seq<nat>, i: nat)
    ensures var r := InsertPos(o, keys, s, i);
      && (forall k :: r <= k < |s| ==> RowBefore(o, keys, i, s[k]))
      && (r == 0 || !RowBefore(o, keys, i, s[r - 1]))
    decreases |s|
  {
    if s != [] && RowBefore(o, keys, i, s[|s| - 1]) {
      var t := s[..|s| - 1];
      InsertPosSplits(o, keys, t, i);
      var r := InsertPos(o, keys, s, i);
      forall k | r <= k < |s|
        ensures RowBefore(o, keys, i, s[k])
      {
        if k < |s| - 1 {
          assert s[k] == t[k];
        }
      }
      if r > 0 {
        assert s[r - 1] == t[r - 1];
      }
    }
  }

  function Insert(o: Order, keys: seq<Value>, s: seq<nat>, i: nat): (r: seq<nat>)
    ensures |r| == |s| + 1
  {
    var p := InsertPos(o, keys, s, i);
    s[..p] + [i] + s[p..]
  }

  /** The row order a stable insertion sort of the first `n` rows produces. */
  function SortOrder(o: Order, keys: seq<Value>, n: nat): (r: seq<nat>)
    ensures |r| == n
  {
    if n == 0 then [] else Insert(o, keys, SortOrder(o, keys, n - 1), n - 1)
  }

  lemma InsertSorted(o: Order, keys: seq<Value>, s: seq<nat>, i: nat)
    requires Sorted(o, keys, s)
    ensures Sorted(o, keys, Insert(o, keys, s, i))
  {
    var p := InsertPos(o, keys, s, i);
    var r := Insert(o, keys, s, i);
    InsertPosSplits(o, keys, s, i);
    forall a, b | 0 <= a < b < |r|
      ensures !RowBefore(o, keys, r[b], r[a])
    {
      if a < p && b == p {
        // r[a] == s[a] and s[p - 1] is not after i
        if a < p - 1 {
          if RowBefore(o, keys, i, s[a]) {
            BeforeSplits(o, At(keys, i), At(keys, s[p - 1]), At(keys, s[a]));
          }
        }
      } else if a == p && b > p {
        assert r[b] == s[b - 1];
        if RowBefore(o, keys, s[b - 1], i) {
          BeforeTransitive(o, At(keys, i), At(keys, s[b - 1]), At(keys, i));
          BeforeIrreflexive(o, At(keys, i));
        }
      } else if a < p && b > p {
        assert r[a] == s[a] && r[b] == s[b - 1];
      } else if b < p {
        assert r[a] == s[a] && r[b] == s[b];
      } else {
        assert r[a] == s[a - 1] && r[b] == s[b - 1];
      }
    }
  }

  lemma InsertStable(o: Order, keys: seq<Value>, s: seq<nat>, i: nat)
    requires Stable(o, keys, s)
    requires forall k :: 0 <= k < |s| ==> s[k] < i
    ensures Stable(o, keys, Insert(o, keys, s, i))
  {
    var p := InsertPos(o, keys, s, i);
    var r := Insert(o, keys, s, i);
    InsertPosSplits(o, keys, s, i);
    forall a, b | 0 <= a < b < |r| && !RowBefore(o, keys, r[a], r[b])
      ensures r[a] < r[b]
    {
      if b == p {
        assert r[a] == s[a];
      } else if a == p {
        assert false;
      } else if a < p && b > p {
        assert r[a] == s[a] && r[b] == s[b - 1];
      } else if b < p {
        assert r[a] == s[a] && r[b] == s[b];
      } else {
        assert r[a] == s[a - 1] && r[b] == s[b - 1];
      }
    }
  }

  lemma InsertMultiset(o: Order, keys: seq<Value>, s: seq<nat>, i: nat)
    ensures multiset(Insert(o, keys, s, i)) == multiset(s) + multiset{i}
  {
    var p := InsertPos(o, keys, s, i);
    assert s == s[..p] + s[p..];
  }

  /** Every entry of the sort order of `n` rows names one of those rows. */
  lemma {:induction false} SortOrderBound(o: Order, keys: seq<Value>, n: nat)
    ensures forall k :: 0 <= k < n ==> SortOrder(o, keys, n)[k] < n
  {
    if n > 0 {
      var s := SortOrder(o, keys, n - 1);
      SortOrderBound(o, keys, n - 1);
      var q := InsertPos(o, keys, s, n - 1);
      var r := SortOrder(o, keys, n);
      assert r == s[..q] + [n - 1] + s[q..];
      forall k | 0 <= k < n
        ensures r[k] < n
      {
        if k < q {
          assert r[k] == s[k];
        } else if q < k {
          assert r[k] == s[k - 1];
        }
      }
    }
  }

  /** The sort order of `n` rows holds each of the rows `0 .. n-1` exactly once. */
  lemma {:induction false} SortOrderPermutes(o: Order, keys: seq<Value>, n: nat)
    ensures multiset(SortOrder(o, keys, n)) == multiset(Range(n))
  {
    if n > 0 {
      var m: nat := n - 1;
      var s := SortOrder(o, keys, m);
      SortOrderPermutes(o, keys, m);
      InsertMultiset(o, keys, s, m);
      RangeSnoc(n);
    }
  }

  /** The sort order places no row before one it should follow, and keeps rows
      with equivalent keys in their original order. */
  lemma {:induction false} SortOrderSorted(o: Order, keys: seq<Value>, n: nat)
    ensures Sorted(o, keys, SortOrder(o, keys, n)) && Stable(o, keys, SortOrder(o, keys, n))
  {
    if n > 0 {
      var s := SortOrder(o, keys, n - 1);
      SortOrderSorted(o, keys, n - 1);
      SortOrderBound(o, keys, n - 1);
      InsertSorted(o, keys, s, n - 1);
      InsertStable(o, keys, s, n - 1);
    }
  }

  /** The sort order is a permutation of the rows `0 .. n-1`, sorted by key,
      and stable. */
  lemma SortOrderSpec(o: Order, keys: seq<Value>, n: nat)
    ensures var p := SortOrder(o, keys, n);
      multiset(p) == multiset(Range(n)) && Sorted(o, keys, p) && Stable(o, keys, p)
    ensures forall k :: 0 <= k < n ==> SortOrder(o, keys, n)[k] < n
  {
    SortOrderPermutes(o, keys, n);
    SortOrderSorted(o, keys, n);
    SortOrderBound(o, keys, n);
  }

  /** One step of the insertion loop: while row `i` goes before the entry to
      the left, its insertion point lies further left. */
  lemma InsertPosShrinks(o: Order, keys: seq<Value>, s: seq<nat>, j: nat, i: nat)
    requires 0 < j <= |s| && RowBefore(o, keys, i, s[j - 1])
    ensures InsertPos(o, keys, s[..j], i) == InsertPos(o, keys, s[..j - 1], i)
  {
    assert s[..j][..j - 1] == s[..j - 1];
  }

  /** Where the insertion loop stops is the insertion point. */
  lemma InsertPosStops(o: Order, keys: seq<Value>, s: seq<nat>, j: nat, i: nat)
    requires j <= |s| && (j == 0 || !RowBefore(o, keys, i, s[j - 1]))
    ensures InsertPos(o, keys, s[..j], i) == j
  {
  }

  // ---------------------------------------------------- applying the order

  /** The values of one column read in the order `p`. */
  function Permuted(values: seq<Value>, p: seq<nat>): (r: seq<Value>)
    ensures |r| == |p|
  {
    seq(|p|, i requires 0 <= i < |p| => At(values, p[i]))
  }

  lemma PermutedConcat(values: seq<Value>, a: seq<nat>, b: seq<nat>)
    ensures Permuted(values, a + b) == Permuted(values, a) + Permuted(values, b)
  {
  }

  /** Reading a column through an order with one more entry adds that entry's value. */
  lemma PermutedInsert(values: seq<Value>, s: seq<nat>, q: nat, i: nat)
    requires q <= |s|
    ensures multiset(Permuted(values, s[..q] + [i] + s[q..])) == multiset(Permuted(values, s)) + multiset{At(values, i)}
  {
    assert s == s[..q] + s[q..];
    PermutedConcat(values, s[..q], s[q..]);
    PermutedConcat(values, s[..q] + [i], s[q..]);
    PermutedConcat(values, s[..q], [i]);
  }

  /** Reordering a column by the sort order keeps exactly the values it had. */
  lemma {:induction false} PermutedMultiset(o: Order, keys: seq<Value>, values: seq<Value>, n: nat)
    requires n <= |values|
    ensures multiset(Permuted(values, SortOrder(o, keys, n))) == multiset(values[..n])
  {
    if n > 0 {
      var m: nat := n - 1;
      var s := SortOrder(o, keys, m);
      var q := InsertPos(o, keys, s, m);
      assert SortOrder(o, keys, n) == s[..q] + [m] + s[q..];
      PermutedMultiset(o, keys, values, m);
      PermutedInsert(values, s, q, m);
      assert values[..n] == values[..m] + [values[m]];
    }
  }

  // ---------------------------------------------------------- the frame sort

  datatype SortError = IndexOutOfRange

  /** The frame with every column reordered by one sort order of its rows. */
  function SortFrame(f: Frame, k: int, descending: bool): Result<Frame, SortError> {
    if !(0 <= k < |f.fields|) then Err(IndexOutOfRange)
    else
      var p := SortOrder(OrderFor(f.fields[k], descending), f.fields[k].values, f.length);
      Ok(f.(fields := seq(|f.fields|, j requires 0 <= j < |f.fields| =>
                            f.fields[j].(values := Permuted(f.fields[j].values, p)))))
  }

  /** Sorting fails exactly on an out-of-range key index; otherwise it keeps the
      frame's length, metadata and fields, and one permutation of the rows is
      applied to every field, so each field keeps the same multiset of values. */
  lemma SortFrameKeepsRows(f: Frame, k: int, descending: bool)
    requires WellFormed(f)
    ensures SortFrame(f, k, descending).Err? <==> !(0 <= k < |f.fields|)
    ensures SortFrame(f, k, descending).Ok? ==>
      var r := SortFrame(f, k, descending).value;
      var p := SortOrder(OrderFor(f.fields[k], descending), f.fields[k].values, f.length);
      && WellFormed(r) && r.length == f.length && |r.fields| == |f.fields|
      && r.name == f.name && r.refId == f.refId && r.meta == f.meta
      && multiset(p) == multiset(Range(f.length))
      && (forall j :: 0 <= j < |f.fields| ==>
            r.fields[j].name == f.fields[j].name && r.fields[j].typ == f.fields[j].typ
            && r.fields[j].config == f.fields[j].config
            && multiset(r.fields[j].values) == multiset(f.fields[j].values))
      && (forall j, i :: 0 <= j < |f.fields| && 0 <= i < f.length ==>
            p[i] < f.length && r.fields[j].values[i] == f.fields[j].values[p[i]])
  {
    if 0 <= k < |f.fields| {
      var o := OrderFor(f.fields[k], descending);
      var keys := f.fields[k].values;
      SortOrderSpec(o, keys, f.length);
      forall j | 0 <= j < |f.fields|
        ensures multiset(Permuted(f.fields[j].values, SortOrder(o, keys, f.length))) == multiset(f.fields[j].values)
      {
        PermutedMultiset(o, keys, f.fields[j].values, f.length);
        assert f.fields[j].values[..f.length] == f.fields[j].values;
      }
    }
  }

  /** The sorted key column is in order: no value precedes an earlier one,
      and rows with equivalent keys keep their original order. */
  lemma SortFrameOrdersKey(f: Frame, k: int, descending: bool)
    requires WellFormed(f) && 0 <= k < |f.fields|
    ensures var r := SortFrame(f, k, descending).value;
      var o := OrderFor(f.fields[k], descending);
      var p := SortOrder(o, f.fields[k].values, f.length);
      && (forall a, b :: 0 <= a < b < f.length ==> !Before(o, r.fields[k].values[b], r.fields[k].values[a]))
      && (forall a, b :: 0 <= a < b < f.length && !Before(o, r.fields[k].values[a], r.fields[k].values[b])
            ==> p[a] < p[b])
  {
    var o := OrderFor(f.fields[k], descending);
    SortOrderSpec(o, f.fields[k].values, f.length);
  }

  // ------------------------------------------------------------ the methods

  /** One pass of insertion sort: row `i` is moved left past every entry it
      goes strictly before, so the first `i + 1` slots hold `Insert(s, i)`. */
  method InsertLast(o: Order, keys: seq<Value>, idx: array<nat>, i: nat, ghost s: seq<nat>)
    requires i < idx.Length && idx[..i] == s
    modifies idx
    ensures idx[..i + 1] == Insert(o, keys, s, i)
    ensures forall m :: i < m < idx.Length ==> idx[m] == old(idx[m])
  {
    var j := i;
    assert s[..i] == s;
    while j > 0 && RowBefore(o, keys, i, idx[j - 1])
      invariant 0 <= j <= i
      invariant forall m :: 0 <= m < j ==> idx[m] == s[m]
      invariant forall m :: j < m <= i ==> idx[m] == s[m - 1]
      invariant forall m :: i < m < idx.Length ==> idx[m] == old(idx[m])
      invariant InsertPos(o, keys, s, i) == InsertPos(o, keys, s[..j], i)
    {
      InsertPosShrinks(o, keys, s, j, i);
      idx[j] := idx[j - 1];
      j := j - 1;
    }
    InsertPosStops(o, keys, s, j, i);
    idx[j] := i;
    Shifted(idx[..i + 1], s, j, i);
  }

  /** A sequence that agrees with `s` before `j`, holds `i` at `j` and `s`
      shifted one place right after it, is `s` with `i` inserted at `j`. */
  lemma Shifted(t: seq<nat>, s: seq<nat>, j: nat, i: nat)
    requires |t| == |s| + 1 && j <= |s|
    requires forall m :: 0 <= m < j ==> t[m] == s[m]
    requires t[j] == i
    requires forall m :: j < m < |t| ==> t[m] == s[m - 1]
    ensures t == s[..j] + [i] + s[j..]
  {
  }

  /** Stable insertion sort of the row indices by key, in an index array. */
  method SortIndex(o: Order, keys: seq<Value>) returns (idx: array<nat>)
    ensures idx.Length == |keys| && idx[..] == SortOrder(o, keys, |keys|)
    ensures multiset(idx[..]) == multiset(Range(|keys|))
    ensures Sorted(o, keys, idx[..]) && Stable(o, keys, idx[..])
    ensures forall k :: 0 <= k < idx.Length ==> idx[k] < |keys|
  {
    var n := |keys|;
    idx := new nat[n];
    var i := 0;
    while i < n
      invariant 0 <= i <= n
      invariant idx[..i] == SortOrder(o, keys, i)
    {
      InsertLast(o, keys, idx, i, idx[..i]);
      i := i + 1;
    }
    assert idx[..] == idx[..n];
    SortOrderSpec(o, keys, n);
  }

  /** One more row read through the order `p`. */
  lemma PermutedStep(values: seq<Value>, p: seq<nat>, i: nat)
    requires i < |p|
    ensures Permuted(values, p[..i + 1]) == Permuted(values, p[..i]) + [At(values, p[i])]
  {
  }

  /** One column's values read in the order of the index array. */
  method Reorder(column: seq<Value>, idx: array<nat>) returns (values: seq<Value>)
    requires forall k :: 0 <= k < idx.Length ==> idx[k] < |column|
    ensures values == Permuted(column, idx[..])
  {
    values := [];
    for i := 0 to idx.Length
      invariant values == Permuted(column, idx[..i])
    {
      PermutedStep(column, idx[..], i);
      assert idx[..][..i] == idx[..i] && idx[..][..i + 1] == idx[..i + 1];
      values := values + [column[idx[i]]];
    }
    assert idx[..idx.Length] == idx[..];
  }

  /** `sortDataFrame(frame, k, descending)`: sorts the row indices by field
      `k`, then rebuilds every field's values in that order. */
  method SortDataFrame(f: Frame, k: int, descending: bool) returns (r: Result<Frame, SortError>)
    requires WellFormed(f)
    ensures r == SortFrame(f, k, descending)
  {
    if !(0 <= k < |f.fields|) {
      return Err(IndexOutOfRange);
    }
    assert |f.fields[k].values| == f.length;
    var idx := SortIndex(OrderFor(f.fields[k], descending), f.fields[k].values);
    ghost var p := idx[..];
    assert p == SortOrder(OrderFor(f.fields[k], descending), f.fields[k].values, f.length);
    var fields: seq<Field> := [];
    for j := 0 to |f.fields|
      invariant |fields| == j && idx[..] == p
      invariant forall m :: 0 <= m < j ==> fields[m] == f.fields[m].(values := Permuted(f.fields[m].values, p))
    {
      assert |f.fields[j].values| == f.length;
      var values := Reorder(f.fields[j].values, idx);
      fields := fields + [f.fields[j].(values := values)];
    }
    assert fields == seq(|f.fields|, j requires 0 <= j < |f.fields| =>
                           f.fields[j].(values := Permuted(f.fields[j].values, p)));
    r := Ok(f.(fields := fields));
  }
}
