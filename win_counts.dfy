/**
 The `win_counts` table: one row per distinct aliased winner with the number
 of finals that country won, as the map colours it.
 */
module WinCounts {
  import opened Finals

  /** One row of `win_counts`: the columns `Country` and `Wins`. */
  datatype WinCount = WinCount(country: string, wins: nat)

  ghost predicate DistinctCountries(vc: seq<WinCount>) {
    forall i, j :: 0 <= i < j < |vc| ==> vc[i].country != vc[j].country
  }

  /** `vc` is the value count of `s`: one row per distinct value, each with its multiplicity. */
  ghost predicate IsValueCounts(vc: seq<WinCount>, s: seq<string>) {
    && DistinctCountries(vc)
    && (forall i :: 0 <= i < |vc| ==> vc[i].country in s)
    && (forall i :: 0 <= i < |vc| ==> vc[i].wins == multiset(s)[vc[i].country])
    && (forall c :: c in s ==> exists i :: 0 <= i < |vc| && vc[i].country == c)
  }

  /** The sum of the `Wins` column. */
  function SumWins(vc: seq<WinCount>): nat {
    if vc == [] then 0 else SumWins(vc[..|vc| - 1]) + vc[|vc| - 1].wins
  }

  /** Position of the row for `c`, or `|vc|` when there is none. */
  function IndexOf(vc: seq<WinCount>, c: string): (k: nat)
    ensures k <= |vc|
    ensures k < |vc| ==> vc[k].country == c
    ensures forall j :: 0 <= j < k ==> vc[j].country != c
  {
    if vc == [] then 0 else if vc[0].country == c then 0 else 1 + IndexOf(vc[1..], c)
  }

  /** Counts one more occurrence of `c`: its row gains a win, or a new row with one win is added. */
  function Bump(vc: seq<WinCount>, c: string): (r: seq<WinCount>)
    requires DistinctCountries(vc)
    ensures DistinctCountries(r)
    ensures |r| >= |vc|
    ensures forall i :: 0 <= i < |vc| ==>
      (r[i].country == vc[i].country && r[i].wins == if vc[i].country == c then vc[i].wins + 1 else vc[i].wins)
    ensures (exists i :: 0 <= i < |vc| && vc[i].country == c) ==> |r| == |vc|
    ensures (forall i :: 0 <= i < |vc| ==> vc[i].country != c) ==> r == vc + [WinCount(c, 1)]
  {
    var k := IndexOf(vc, c);
    if k == |vc| then vc + [WinCount(c, 1)] else vc[k := WinCount(c, vc[k].wins + 1)]
  }

  lemma {:induction false} SumWinsUpdate(vc: seq<WinCount>, k: nat, w: WinCount)
    requires k < |vc|
    ensures SumWins(vc[k := w]) == SumWins(vc) - vc[k].wins + w.wins
    decreases |vc|
  {
    var n := |vc| - 1;
    if k < n {
      assert vc[k := w][..n] == vc[..n][k := w];
      SumWinsUpdate(vc[..n], k, w);
    } else {
      assert vc[k := w][..n] == vc[..n];
    }
  }

  lemma BumpKeepsValueCounts(vc: seq<WinCount>, s: seq<string>, c: string)
    requires IsValueCounts(vc, s)
    ensures IsValueCounts(Bump(vc, c), s + [c])
  {
    var r := Bump(vc, c);
    assert multiset(s + [c]) == multiset(s) + multiset{c};
    var known := exists i :: 0 <= i < |vc| && vc[i].country == c;
    forall i | 0 <= i < |r|
      ensures r[i].country in s + [c] && r[i].wins == multiset(s + [c])[r[i].country]
    {
      if i == |vc| {
        assert !known && r[i] == WinCount(c, 1);
        assert c !in s;
      }
    }
    forall x | x in s + [c] ensures exists i :: 0 <= i < |r| && r[i].country == x {
      if x == c && !known {
        assert r[|vc|].country == c;
      } else if x == c {
        var i :| 0 <= i < |vc| && vc[i].country == c;
        assert r[i].country == x;
      } else {
        assert x in s;
        var i :| 0 <= i < |vc| && vc[i].country == x;
        assert r[i].country == x;
      }
    }
  }

  lemma BumpAddsOneWin(vc: seq<WinCount>, c: string)
    requires DistinctCountries(vc)
    ensures SumWins(Bump(vc, c)) == SumWins(vc) + 1
  {
    var k := IndexOf(vc, c);
    if k == |vc| {
      assert Bump(vc, c)[..|vc|] == vc;
    } else {
      SumWinsUpdate(vc, k, WinCount(c, vc[k].wins + 1));
    }
  }

  /** `value_counts` of a column: every distinct value once, with its number of occurrences. */
  function ValueCounts(s: seq<string>): (vc: seq<WinCount>)
    ensures IsValueCounts(vc, s)
    ensures SumWins(vc) == |s|
  {
    if s == [] then []
    else
      var prefix := s[..|s| - 1];
      assert s == prefix + [s[|s| - 1]];
      var prev := ValueCounts(prefix);
      BumpKeepsValueCounts(prev, prefix, s[|s| - 1]);
      BumpAddsOneWin(prev, s[|s| - 1]);
      Bump(prev, s[|s| - 1])
  }

  /** The `win_counts` table of a loaded table of finals. */
  function WinCountsOf(t: seq<FinalRecord>): (vc: seq<WinCount>)
    ensures DistinctCountries(vc)
    ensures forall i :: 0 <= i < |vc| ==>
      1 <= vc[i].wins == multiset(MapWinners(WithMapColumns(t)))[vc[i].country]
    ensures forall j :: 0 <= j < |t| ==>
      exists i :: 0 <= i < |vc| && vc[i].country == Alias(t[j].winners)
    ensures forall i :: 0 <= i < |vc| ==> vc[i].country !in AliasTable
    ensures SumWins(vc) == |t|
  {
    MapWinnersColumn(t);
    ValueCounts(MapWinners(WithMapColumns(t)))
  }

  /** The column `win_counts` counts holds the aliased winner of every final and no historical name. */
  lemma MapWinnersColumn(t: seq<FinalRecord>)
    ensures forall j :: 0 <= j < |t| ==> Alias(t[j].winners) in MapWinners(WithMapColumns(t))
    ensures forall c :: c in MapWinners(WithMapColumns(t)) ==> c !in AliasTable
  {
    var col := MapWinners(WithMapColumns(t));
    forall j | 0 <= j < |t| ensures Alias(t[j].winners) in col {
      assert col[j] == Alias(t[j].winners);
    }
    forall c | c in col ensures c !in AliasTable {
      var j :| 0 <= j < |col| && col[j] == c;
      MapColumnsAreAliasFree(t, j);
    }
  }

  /** The count the map shows for `c`, computed from the counts of the original
      names: "Germany" also counts "West Germany", "United Kingdom" also counts
      "England", the two historical names count nothing, and every other name
      counts exactly its own occurrences. */
  ghost function MapCountFromOriginal(m: multiset<string>, c: string): nat {
    if c in AliasTable then 0
    else if c == "Germany" then m[c] + m["West Germany"]
    else if c == "United Kingdom" then m[c] + m["England"]
    else m[c]
  }

  lemma {:induction false} MapWinsVersusOriginal(t: seq<FinalRecord>, c: string)
    ensures multiset(MapWinners(WithMapColumns(t)))[c] == MapCountFromOriginal(multiset(Winners(t)), c)
  {
    if t != [] {
      var rest := MapWinners(WithMapColumns(t[1..]));
      MapWinsVersusOriginal(t[1..], c);
      assert WithMapColumns(t)[1..] == WithMapColumns(t[1..]);
      assert MapWinners(WithMapColumns(t)) == [Alias(t[0].winners)] + rest;
      assert Winners(t) == [t[0].winners] + Winners(t[1..]);
      AliasPreimage(t[0].winners, c);
      MapCountFromOriginalAdds(multiset{t[0].winners}, multiset(Winners(t[1..])), c);
    }
  }

  lemma MapCountFromOriginalAdds(m1: multiset<string>, m2: multiset<string>, c: string)
    ensures MapCountFromOriginal(m1 + m2, c) == MapCountFromOriginal(m1, c) + MapCountFromOriginal(m2, c)
  {
  }

  /** The names that alias to `c`. */
  lemma AliasPreimage(name: string, c: string)
    ensures multiset{Alias(name)}[c] == MapCountFromOriginal(multiset{name}, c)
  {
  }
}
