/**
 The two text callbacks of the dashboard. Both read the ORIGINAL `Winners`
 and `Runners-up` names, not the alias columns the map uses.
 */
module Lookups {
  import opened Wrappers
  import opened Finals
  import opened Decimal
  import opened WinCounts

  /** Raised by `iloc[0]` when the filtered table has no row. */
  datatype LookupError = IndexError

  /** `df[df["Winners"] == country]`: the rows won by `country`, in table order. */
  function RowsWonBy(t: seq<FinalRecord>, country: string): (r: seq<FinalRecord>)
    ensures forall x :: x in r <==> x in t && x.winners == country
    ensures |r| == multiset(Winners(t))[country]
  {
    if t == [] then []
    else
      assert Winners(t) == [t[0].winners] + Winners(t[1..]);
      (if t[0].winners == country then [t[0]] else []) + RowsWonBy(t[1..], country)
  }

  /** `t[i]` is the first row, in table order, whose year is `year`. */
  ghost predicate FirstOfYear(t: seq<FinalRecord>, year: int, i: int) {
    0 <= i < |t| && t[i].year == year && forall j :: 0 <= j < i ==> t[j].year != year
  }

  /** `df[df["Year"] == year]`: the rows of `year`, in table order. */
  function RowsOfYear(t: seq<FinalRecord>, year: int): (r: seq<FinalRecord>)
    ensures forall x :: x in r <==> x in t && x.year == year
    ensures r != [] ==> exists i :: FirstOfYear(t, year, i) && r[0] == t[i]
  {
    if t == [] then []
    else if t[0].year == year then
      assert FirstOfYear(t, year, 0);
      [t[0]] + RowsOfYear(t[1..], year)
    else
      var rest := RowsOfYear(t[1..], year);
      assert rest != [] ==> exists i :: FirstOfYear(t, year, i) && rest[0] == t[i] by {
        if rest != [] {
          var i :| FirstOfYear(t[1..], year, i) && rest[0] == t[1..][i];
          assert FirstOfYear(t, year, i + 1);
        }
      }
      rest
  }

  /** The country callback's f-string, with the count printed in decimal. */
  function WinsSentence(country: string, count: nat): (r: string)
    ensures exists digits ::
      (IsDecimalOf(digits, count) && r == country + " has won the World Cup " + digits + " time(s).")
  {
    var digits := NatToString(count);
    NatToStringRoundTrip(count);
    assert IsDecimalOf(digits, count);
    country + " has won the World Cup " + digits + " time(s)."
  }

  /** The year callback's f-string, with the year printed in decimal and the row's
      original names. */
  function FinalSentence(year: int, row: FinalRecord): (r: string)
    ensures exists y ::
      (IsSignedDecimalOf(y, year)
       && r == "In " + y + ", the winner was " + row.winners + " and the runner-up was " + row.runnersUp + ".")
  {
    var y := IntToString(year);
    IntToStringIsSignedDecimal(year);
    "In " + y + ", the winner was " + row.winners + " and the runner-up was " + row.runnersUp + "."
  }

  /** The country callback. No selection (`None` or the empty string) gives the empty
      text; otherwise the sentence reports how many rows name the selection, unaliased,
      as their winner. */
  function DisplayCountryWins(t: seq<FinalRecord>, country: Option<string>): (r: string)
    ensures country == None || country == Some("") ==> r == ""
    ensures country != None && country != Some("") ==>
      r == WinsSentence(country.value, multiset(Winners(t))[country.value])
  {
    if country == None || country.value == "" then ""
    else WinsSentence(country.value, |RowsWonBy(t, country.value)|)
  }

  /** The year callback. No selection (`None` or the falsy year 0) gives the empty text;
      a year no row has raises `IndexError`; otherwise the sentence names the winner and
      runner-up of the first row of that year. */
  function DisplayFinal(t: seq<FinalRecord>, year: Option<int>): (r: Result<string, LookupError>)
    ensures year == None || year == Some(0) ==> r == Ok("")
    ensures year != None && year != Some(0) ==>
      (r == Err(IndexError) <==> forall i :: 0 <= i < |t| ==> t[i].year != year.value)
    ensures year != None && year != Some(0) && r.Ok? ==>
      exists i :: FirstOfYear(t, year.value, i) && r.value == FinalSentence(year.value, t[i])
  {
    if year == None || year.value == 0 then Ok("")
    else
      var rows := RowsOfYear(t, year.value);
      if rows == [] then
        assert forall i :: 0 <= i < |t| ==> t[i].year != year.value by {
          forall i | 0 <= i < |t| ensures t[i].year != year.value {
            assert t[i] in t;
          }
        }
        Err(IndexError)
      else
        Ok(FinalSentence(year.value, rows[0]))
  }

  /** With one final per year, as the data has, the year callback reports the final of
      that year. */
  lemma DisplayFinalOfUniqueYear(t: seq<FinalRecord>, i: nat)
    requires i < |t| && t[i].year != 0
    requires forall j, k :: 0 <= j < k < |t| ==> t[j].year != t[k].year
    ensures DisplayFinal(t, Some(t[i].year)) == Ok(FinalSentence(t[i].year, t[i]))
  {
  }

  /** The country text never reports more wins than the map shows for the aliased
      name. For a historical name ("West Germany", "England") the map shows nothing
      under that name, and under its alias it shows the historical name's rows plus
      the alias's own, while the text reports the historical name's rows only. */
  lemma {:induction false} CountryTextUsesOriginalNames(t: seq<FinalRecord>, c: string)
    ensures multiset(Winners(t))[c] <= multiset(MapWinners(WithMapColumns(t)))[Alias(c)]
    ensures c in AliasTable ==> multiset(MapWinners(WithMapColumns(t)))[c] == 0
    ensures c in AliasTable ==>
      multiset(MapWinners(WithMapColumns(t)))[Alias(c)] == multiset(Winners(t))[c] + multiset(Winners(t))[Alias(c)]
  {
    MapWinsVersusOriginal(t, c);
    MapWinsVersusOriginal(t, Alias(c));
  }

  /** The 1966 final is reported under its historical names, not the alias-column ones. */
  lemma Final1966Example()
    ensures IntToString(1966) == "1966"
    ensures DisplayFinal([FinalRecord(1966, "England", "West Germany")], Some(1966))
      == Ok(FinalSentence(1966, FinalRecord(1966, "England", "West Germany")))
  {
  }

  /** Two finals: one won as "West Germany", one as "Germany". */
  const TwoGermanWins := [FinalRecord(1954, "West Germany", "Hungary"), FinalRecord(2014, "Germany", "Argentina")]

  /** With one "West Germany" and one "Germany" win, a selection of "West Germany"
      reports one win while the map shows two under "Germany". */
  lemma WestGermanyExample()
    ensures DisplayCountryWins(TwoGermanWins, Some("West Germany"))
      == "West Germany has won the World Cup 1 time(s)."
    ensures multiset(MapWinners(WithMapColumns(TwoGermanWins)))["Germany"] == 2
  {
    WestGermanyCount();
    OneWinSentence("West Germany");
    WestGermanySentenceText();
    GermanyMapCount();
  }

  lemma GermanyMapCount()
    ensures multiset(MapWinners(WithMapColumns(TwoGermanWins)))["Germany"] == 2
  {
    assert WithMapColumns(TwoGermanWins)[0].mapWinners == "Germany";
    assert WithMapColumns(TwoGermanWins)[1].mapWinners == "Germany";
    assert MapWinners(WithMapColumns(TwoGermanWins)) == ["Germany", "Germany"];
  }

  lemma WestGermanyCount()
    ensures DisplayCountryWins(TwoGermanWins, Some("West Germany")) == WinsSentence("West Germany", 1)
  {
    assert Winners(TwoGermanWins) == ["West Germany", "Germany"];
    assert multiset(Winners(TwoGermanWins))["West Germany"] == 1;
  }

  lemma WestGermanySentenceText()
    ensures "West Germany" + " has won the World Cup 1 time(s)." == "West Germany has won the World Cup 1 time(s)."
  {
  }

  lemma OneWinSentence(country: string)
    ensures WinsSentence(country, 1) == country + " has won the World Cup 1 time(s)."
  {
    assert NatToString(1) == "1";
    assert " has won the World Cup " + "1" + " time(s)." == " has won the World Cup 1 time(s).";
  }
}
