/**
 The table of World Cup finals as it is loaded, and the two alias columns
 derived from it so that historical country names match current map regions.
 */
module Finals {

  /** One row of the loaded table: one final. */
  datatype FinalRecord = FinalRecord(year: int, winners: string, runnersUp: string)

  /** A row after the two alias columns have been added next to the original ones. */
  datatype MappedRow = MappedRow(record: FinalRecord, mapWinners: string, mapRunnersUp: string)

  /** The fixed substitution used for both the winners and the runners-up column. */
  const AliasTable: map<string, string> := map["West Germany" := "Germany", "England" := "United Kingdom"]

  /** Whole-value replacement: a name that is a key of the table is replaced, any other passes through. */
  function Alias(name: string): (r: string)
    ensures name == "West Germany" ==> r == "Germany"
    ensures name == "England" ==> r == "United Kingdom"
    ensures name != "West Germany" && name != "England" ==> r == name
    ensures r !in AliasTable
    ensures r == name <==> name !in AliasTable
  {
    if name in AliasTable then AliasTable[name] else name
  }

  /** Replacing twice is replacing once: no replacement is itself a key of the table. */
  lemma AliasIdempotent(name: string)
    ensures Alias(Alias(name)) == Alias(name)
  {
  }

  /** The table with its `Map_Winners` and `Map_RunnersUp` columns added. */
  function WithMapColumns(t: seq<FinalRecord>): (rows: seq<MappedRow>)
    ensures |rows| == |t|
    ensures forall i :: 0 <= i < |t| ==> rows[i].record == t[i]
    ensures forall i :: 0 <= i < |t| ==>
      rows[i].mapWinners == Alias(t[i].winners) && rows[i].mapRunnersUp == Alias(t[i].runnersUp)
  {
    if t == [] then []
    else [MappedRow(t[0], Alias(t[0].winners), Alias(t[0].runnersUp))] + WithMapColumns(t[1..])
  }

  /** No historical name survives in either alias column, and aliasing the alias
      columns again would leave them as they are. */
  lemma {:induction false} MapColumnsAreAliasFree(t: seq<FinalRecord>, i: nat)
    requires i < |t|
    ensures WithMapColumns(t)[i].mapWinners !in AliasTable
    ensures WithMapColumns(t)[i].mapRunnersUp !in AliasTable
    ensures Alias(WithMapColumns(t)[i].mapWinners) == WithMapColumns(t)[i].mapWinners
    ensures Alias(WithMapColumns(t)[i].mapRunnersUp) == WithMapColumns(t)[i].mapRunnersUp
  {
  }

  /** The `Winners` column, in table order. */
  function Winners(t: seq<FinalRecord>): (col: seq<string>)
    ensures |col| == |t|
    ensures forall i :: 0 <= i < |t| ==> col[i] == t[i].winners
  {
    if t == [] then [] else [t[0].winners] + Winners(t[1..])
  }

  /** The `Year` column, in table order. */
  function Years(t: seq<FinalRecord>): (col: seq<int>)
    ensures |col| == |t|
    ensures forall i :: 0 <= i < |t| ==> col[i] == t[i].year
  {
    if t == [] then [] else [t[0].year] + Years(t[1..])
  }

  /** The `Map_Winners` column, in table order. */
  function MapWinners(rows: seq<MappedRow>): (col: seq<string>)
    ensures |col| == |rows|
    ensures forall i :: 0 <= i < |rows| ==> col[i] == rows[i].mapWinners
  {
    if rows == [] then [] else [rows[0].mapWinners] + MapWinners(rows[1..])
  }
}
