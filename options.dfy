/**
 The option lists of the two dropdowns: `sorted(column.unique())` of the
 `Winners` column and of the `Year` column.
 */
module Options {
  import opened Finals

  ghost predicate IsStrictOrder<T(!new)>(less: (T, T) -> bool) {
    && (forall a :: !less(a, a))
    && (forall a, b, c :: less(a, b) && less(b, c) ==> less(a, c))
    && (forall a, b :: a != b ==> less(a, b) || less(b, a))
  }

  ghost predicate StrictlyAscending<T>(xs: seq<T>, less: (T, T) -> bool) {
    forall i, j :: 0 <= i < j < |xs| ==> less(xs[i], xs[j])
  }

  /** Python's ordering of `str` values: lexicographic by code point, a proper prefix first. */
  predicate LexLess(a: string, b: string) {
    if a == [] then b != []
    else b != [] && (a[0] < b[0] || (a[0] == b[0] && LexLess(a[1..], b[1..])))
  }

  predicate IntLess(a: int, b: int) {
    a < b
  }

  lemma {:induction false} LexLessIrreflexive(a: string)
    ensures !LexLess(a, a)
  {
    if a != [] { LexLessIrreflexive(a[1..]); }
  }

  lemma {:induction false} LexLessTransitive(a: string, b: string, c: string)
    requires LexLess(a, b) && LexLess(b, c)
    ensures LexLess(a, c)
  {
    if a != [] && a[0] == b[0] && b[0] == c[0] {
      LexLessTransitive(a[1..], b[1..], c[1..]);
    }
  }

  lemma {:induction false} LexLessTotal(a: string, b: string)
    requires a != b
    ensures LexLess(a, b) || LexLess(b, a)
  {
    if a != [] && b != [] && a[0] == b[0] {
      assert a == [a[0]] + a[1..] && b == [b[0]] + b[1..];
      LexLessTotal(a[1..], b[1..]);
    }
  }

  lemma LexLessIsStrictOrder()
    ensures IsStrictOrder(LexLess)
  {
    forall a ensures !LexLess(a, a) { LexLessIrreflexive(a); }
    forall a, b, c | LexLess(a, b) && LexLess(b, c) ensures LexLess(a, c) {
      LexLessTransitive(a, b, c);
    }
    forall a, b | a != b ensures LexLess(a, b) || LexLess(b, a) { LexLessTotal(a, b); }
  }

  /** Puts `x` into a strictly ascending list unless it is already there. */
  function InsertDistinct<T(==, !new)>(xs: seq<T>, x: T, less: (T, T) -> bool): (r: seq<T>)
    requires IsStrictOrder(less) && StrictlyAscending(xs, less)
    ensures StrictlyAscending(r, less)
    ensures forall y :: y in r <==> y in xs || y == x
  {
    if xs == [] then [x]
    else if x == xs[0] then xs
    else if less(x, xs[0]) then [x] + xs
    else
      var rest := InsertDistinct(xs[1..], x, less);
      assert forall y :: y in rest ==> less(xs[0], y) by {
        forall y | y in rest ensures less(xs[0], y) {
          if y != x {
            var j :| 1 <= j < |xs| && xs[j] == y;
          }
        }
      }
      [xs[0]] + rest
  }

  /** `sorted(unique(s))`: the distinct values of `s`, each once, in ascending order. */
  function SortedDistinct<T(==, !new)>(s: seq<T>, less: (T, T) -> bool): (r: seq<T>)
    requires IsStrictOrder(less)
    ensures StrictlyAscending(r, less)
    ensures forall y :: y in r <==> y in s
  {
    if s == [] then []
    else
      assert s == s[..|s| - 1] + [s[|s| - 1]];
      InsertDistinct(SortedDistinct(s[..|s| - 1], less), s[|s| - 1], less)
  }

  /** A strictly ascending list is determined by its set of elements. */
  lemma {:induction false} AscendingIsUnique<T(!new)>(xs: seq<T>, ys: seq<T>, less: (T, T) -> bool)
    requires IsStrictOrder(less)
    requires StrictlyAscending(xs, less) && StrictlyAscending(ys, less)
    requires forall y :: y in xs <==> y in ys
    ensures xs == ys
  {
    // Name both heads, so that an empty list facing a non-empty one is seen to break the requires.
    ghost var xsHeadShared := xs != [] ==> xs[0] in xs && xs[0] in ys;
    ghost var ysHeadShared := ys != [] ==> ys[0] in ys && ys[0] in xs;
    if xs != [] && ys != [] {
      if xs[0] != ys[0] {
        assert false;
      }
      forall y ensures y in xs[1..] <==> y in ys[1..] {
        if y in xs[1..] {
          var i :| 1 <= i < |xs| && xs[i] == y;
          assert y in ys && y != ys[0];
          var k :| 0 <= k < |ys| && ys[k] == y;
          assert ys[1..][k - 1] == y;
        }
        if y in ys[1..] {
          var i :| 1 <= i < |ys| && ys[i] == y;
          assert y in xs && y != xs[0];
          var k :| 0 <= k < |xs| && xs[k] == y;
          assert xs[1..][k - 1] == y;
        }
      }
      AscendingIsUnique(xs[1..], ys[1..], less);
    }
  }

  /** The country dropdown's options: the distinct original winners in ascending order. */
  function WinnerOptions(t: seq<FinalRecord>): (r: seq<string>)
    ensures forall i, j :: 0 <= i < j < |r| ==> LexLess(r[i], r[j]) && r[i] != r[j]
    ensures forall c :: c in r <==> exists k :: 0 <= k < |t| && t[k].winners == c
  {
    LexLessIsStrictOrder();
    var col := Winners(t);
    assert forall c :: c in col <==> exists k :: 0 <= k < |t| && t[k].winners == c by {
      forall c | c in col ensures exists k :: 0 <= k < |t| && t[k].winners == c {
        var k :| 0 <= k < |col| && col[k] == c;
      }
      forall c | exists k :: 0 <= k < |t| && t[k].winners == c ensures c in col {
        var k :| 0 <= k < |t| && t[k].winners == c;
        assert col[k] == c;
      }
    }
    var r := SortedDistinct(col, LexLess);
    assert forall i :: 0 <= i < |r| ==> !LexLess(r[i], r[i]);
    r
  }

  /** The year dropdown's options: the distinct years in ascending order. */
  function YearOptions(t: seq<FinalRecord>): (r: seq<int>)
    ensures forall i, j :: 0 <= i < j < |r| ==> r[i] < r[j]
    ensures forall y :: y in r <==> exists k :: 0 <= k < |t| && t[k].year == y
  {
    var col := Years(t);
    assert forall y :: y in col <==> exists k :: 0 <= k < |t| && t[k].year == y by {
      forall y | y in col ensures exists k :: 0 <= k < |t| && t[k].year == y {
        var k :| 0 <= k < |col| && col[k] == y;
      }
      forall y | exists k :: 0 <= k < |t| && t[k].year == y ensures y in col {
        var k :| 0 <= k < |t| && t[k].year == y;
        assert col[k] == y;
      }
    }
    SortedDistinct(col, IntLess)
  }
}
