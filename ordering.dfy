/**
 * Orders and sorting as Python does them: `sorted(...)` on a list, the
 * sorted distinct values of `sorted(set(...))` / `np.unique(...)`, and
 * the lexicographic comparison of strings and of lists of strings.
 */
module Ordering {

  /** The set of values in a sequence. */
  function Elems<T>(s: seq<T>): set<T>
  {
    set x | x in s
  }

  /** `lt` is a strict total order: irreflexive, transitive, and any two distinct values compare. */
  ghost predicate StrictTotal<T(!new)>(lt: (T, T) -> bool)
  {
    && (forall a :: !lt(a, a))
    && (forall a, b, c :: lt(a, b) && lt(b, c) ==> lt(a, c))
    && (forall a, b :: a != b ==> lt(a, b) || lt(b, a))
  }

  /** No element is greater than one that follows it. */
  ghost predicate Sorted<T>(s: seq<T>, lt: (T, T) -> bool)
  {
    forall i, j :: 0 <= i < j < |s| ==> !lt(s[j], s[i])
  }

  /** Every element is smaller than every one that follows it (so none repeats). */
  ghost predicate StrictlySorted<T>(s: seq<T>, lt: (T, T) -> bool)
  {
    forall i, j :: 0 <= i < j < |s| ==> lt(s[i], s[j])
  }

  /** Inserts `x` before the first element that is not smaller than it. */
  function Insert<T>(x: T, s: seq<T>, lt: (T, T) -> bool): (r: seq<T>)
    ensures multiset(r) == multiset(s) + multiset{x}
  {
    if s == [] then [x]
    else if lt(s[0], x) then
      assert s == [s[0]] + s[1..];
      [s[0]] + Insert(x, s[1..], lt)
    else [x] + s
  }

  /** Python's `sorted(s)`, as an insertion sort. */
  function Sort<T>(s: seq<T>, lt: (T, T) -> bool): (r: seq<T>)
    ensures multiset(r) == multiset(s)
  {
    if s == [] then []
    else
      assert s == [s[0]] + s[1..];
      Insert(s[0], Sort(s[1..], lt), lt)
  }

  lemma {:induction false} InsertSorted<T(!new)>(x: T, s: seq<T>, lt: (T, T) -> bool)
    requires StrictTotal(lt) && Sorted(s, lt)
    ensures Sorted(Insert(x, s, lt), lt)
    decreases |s|
  {
    if s != [] && lt(s[0], x) {
      InsertSorted(x, s[1..], lt);
      var r := Insert(x, s, lt);
      var t := Insert(x, s[1..], lt);
      assert r == [s[0]] + t;
      forall k | 0 <= k < |t| ensures !lt(t[k], s[0]) {
        assert t[k] in multiset(t);
        assert t[k] in multiset(s[1..]) + multiset{x};
        if t[k] != x {
          var m :| 0 <= m < |s[1..]| && s[1..][m] == t[k];
          assert s[m + 1] == t[k];
        }
      }
    } else if s != [] {
      var r := [x] + s;
      forall i, j | 0 <= i < j < |r| ensures !lt(r[j], r[i]) {
        if i == 0 {
          if j > 1 { assert !lt(s[j - 1], s[0]); }
        }
      }
    }
  }

  /** `Sort` orders its result. */
  lemma {:induction false} SortSorted<T(!new)>(s: seq<T>, lt: (T, T) -> bool)
    requires StrictTotal(lt)
    ensures Sorted(Sort(s, lt), lt)
    decreases |s|
  {
    if s != [] {
      SortSorted(s[1..], lt);
      InsertSorted(s[0], Sort(s[1..], lt), lt);
    }
  }

  /** Inserts `x` into a strictly sorted sequence unless it is already there. */
  function InsertDistinct<T(==)>(x: T, s: seq<T>, lt: (T, T) -> bool): (r: seq<T>)
    ensures Elems(r) == Elems(s) + {x}
  {
    if s == [] then [x]
    else if s[0] == x then s
    else if lt(s[0], x) then
      assert Elems(s) == {s[0]} + Elems(s[1..]);
      var t := InsertDistinct(x, s[1..], lt);
      assert Elems([s[0]] + t) == {s[0]} + Elems(t);
      [s[0]] + t
    else [x] + s
  }

  /** Python's `sorted(set(s))`, which is also what `np.unique(s)` returns. */
  function SortedDistinct<T(==)>(s: seq<T>, lt: (T, T) -> bool): (r: seq<T>)
    ensures Elems(r) == Elems(s)
  {
    if s == [] then []
    else
      assert Elems(s) == {s[0]} + Elems(s[1..]);
      InsertDistinct(s[0], SortedDistinct(s[1..], lt), lt)
  }

  lemma {:induction false} InsertDistinctStrictlySorted<T(!new)>(x: T, s: seq<T>, lt: (T, T) -> bool)
    requires StrictTotal(lt) && StrictlySorted(s, lt)
    ensures StrictlySorted(InsertDistinct(x, s, lt), lt)
    decreases |s|
  {
    if s != [] && s[0] != x && lt(s[0], x) {
      InsertDistinctStrictlySorted(x, s[1..], lt);
      var t := InsertDistinct(x, s[1..], lt);
      forall k | 0 <= k < |t| ensures lt(s[0], t[k]) {
        assert t[k] in Elems(t);
        if t[k] != x {
          assert t[k] in Elems(s[1..]);
          var m :| 0 <= m < |s[1..]| && s[1..][m] == t[k];
          assert s[m + 1] == t[k];
        }
      }
    } else if s != [] && s[0] != x {
      var r := [x] + s;
      forall i, j | 0 <= i < j < |r| ensures lt(r[i], r[j]) {
        if i == 0 && j > 1 {
          assert lt(s[0], s[j - 1]);
        }
      }
    }
  }

  /** `SortedDistinct` lists each value once, in increasing order. */
  lemma {:induction false} SortedDistinctStrictlySorted<T(!new)>(s: seq<T>, lt: (T, T) -> bool)
    requires StrictTotal(lt)
    ensures StrictlySorted(SortedDistinct(s, lt), lt)
    decreases |s|
  {
    if s != [] {
      SortedDistinctStrictlySorted(s[1..], lt);
      InsertDistinctStrictlySorted(s[0], SortedDistinct(s[1..], lt), lt);
    }
  }

  /** A strictly sorted sequence holds no value twice. */
  lemma StrictlySortedDistinct<T(!new)>(s: seq<T>, lt: (T, T) -> bool, i: int, j: int)
    requires StrictTotal(lt) && StrictlySorted(s, lt)
    requires 0 <= i < |s| && 0 <= j < |s| && i != j
    ensures s[i] != s[j]
  {
    if i < j { assert lt(s[i], s[j]); } else { assert lt(s[j], s[i]); }
  }

  // ----- concrete orders -----

  predicate IntLess(a: int, b: int)
  {
    a < b
  }

  lemma IntLessStrictTotal()
    ensures StrictTotal(IntLess)
  {
  }

  /** Python's `a < b` on strings: code point by code point, a proper prefix first. */
  predicate StringLess(a: string, b: string)
    decreases |a|
  {
    if a == [] then b != []
    else if b == [] then false
    else if a[0] != b[0] then a[0] < b[0]
    else StringLess(a[1..], b[1..])
  }

  lemma {:induction false} StringLessIrreflexive(a: string)
    ensures !StringLess(a, a)
    decreases |a|
  {
    if a != [] { StringLessIrreflexive(a[1..]); }
  }

  lemma {:induction false} StringLessTransitive(a: string, b: string, c: string)
    requires StringLess(a, b) && StringLess(b, c)
    ensures StringLess(a, c)
    decreases |a|
  {
    if a != [] && a[0] == b[0] && b[0] == c[0] {
      StringLessTransitive(a[1..], b[1..], c[1..]);
    }
  }

  lemma {:induction false} StringLessTotal(a: string, b: string)
    requires a != b
    ensures StringLess(a, b) || StringLess(b, a)
    decreases |a|
  {
    if a != [] && b != [] && a[0] == b[0] {
      assert a == [a[0]] + a[1..] && b == [b[0]] + b[1..];
      StringLessTotal(a[1..], b[1..]);
    }
  }

  lemma StringLessStrictTotal()
    ensures StrictTotal(StringLess)
  {
    forall a: string ensures !StringLess(a, a) { StringLessIrreflexive(a); }
    forall a: string, b: string, c: string | StringLess(a, b) && StringLess(b, c)
      ensures StringLess(a, c) { StringLessTransitive(a, b, c); }
    forall a: string, b: string | a != b ensures StringLess(a, b) || StringLess(b, a) {
      StringLessTotal(a, b);
    }
  }

  /** Python's `a < b` on lists of strings: element by element, a proper prefix first. */
  predicate RowLess(a: seq<string>, b: seq<string>)
    decreases |a|
  {
    if a == [] then b != []
    else if b == [] then false
    else if a[0] != b[0] then StringLess(a[0], b[0])
    else RowLess(a[1..], b[1..])
  }

  lemma {:induction false} RowLessIrreflexive(a: seq<string>)
    ensures !RowLess(a, a)
    decreases |a|
  {
    if a != [] { RowLessIrreflexive(a[1..]); }
  }

  lemma {:induction false} RowLessTransitive(a: seq<string>, b: seq<string>, c: seq<string>)
    requires RowLess(a, b) && RowLess(b, c)
    ensures RowLess(a, c)
    decreases |a|
  {
    if a != [] && b != [] && c != [] {
      if a[0] == b[0] && b[0] == c[0] {
        RowLessTransitive(a[1..], b[1..], c[1..]);
      } else if a[0] != b[0] && b[0] != c[0] {
        StringLessTransitive(a[0], b[0], c[0]);
        if a[0] == c[0] { StringLessIrreflexive(a[0]); StringLessTransitive(a[0], b[0], a[0]); }
      }
    }
  }

  lemma {:induction false} RowLessTotal(a: seq<string>, b: seq<string>)
    requires a != b
    ensures RowLess(a, b) || RowLess(b, a)
    decreases |a|
  {
    if a != [] && b != [] {
      if a[0] == b[0] {
        assert a == [a[0]] + a[1..] && b == [b[0]] + b[1..];
        RowLessTotal(a[1..], b[1..]);
      } else {
        StringLessTotal(a[0], b[0]);
      }
    }
  }

  lemma RowLessStrictTotal()
    ensures StrictTotal(RowLess)
  {
    forall a: seq<string> ensures !RowLess(a, a) { RowLessIrreflexive(a); }
    forall a: seq<string>, b: seq<string>, c: seq<string> | RowLess(a, b) && RowLess(b, c)
      ensures RowLess(a, c) { RowLessTransitive(a, b, c); }
    forall a: seq<string>, b: seq<string> | a != b ensures RowLess(a, b) || RowLess(b, a) {
      RowLessTotal(a, b);
    }
  }
}
