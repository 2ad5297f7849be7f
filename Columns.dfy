/**
 * Header-driven field access shared by the two loaders of scripts/seed-data.js:
 * `headers.findIndex(h => h === name)`, `parts[index]` (undefined when the index
 * is -1 or past the end), the `|| ''` default and `parseFloat(...) || 0`.
 */
module Columns {
  import opened Wrappers

  /** Why a run of the pipeline stops without writing anything. */
  datatype RunError =
    | MissingCsvDirectory  // the csv_files directory does not exist
    | MissingCsvFiles      // one of the three input files was not found
    | UndefinedGeographyId // `parts[colIndices.geographyId].padStart` on undefined: a TypeError

  /** What a loader makes of one data line. */
  datatype Row<T> =
    | Skipped          // filtered out: the line leaves the loader's state as it was
    | Aborted          // the line throws, which ends the run
    | Accepted(value: T)

  /** The values of the accepted rows, in order. */
  function AcceptedValues<T>(rows: seq<Row<T>>): seq<T>
  {
    if rows == [] then []
    else (if rows[0].Accepted? then [rows[0].value] else []) + AcceptedValues(rows[1..])
  }

  /** Every accepted value comes from an accepted row. */
  lemma {:induction false} AcceptedValueAt<T>(rows: seq<Row<T>>, v: T) returns (j: nat)
    requires v in AcceptedValues(rows)
    ensures j < |rows| && rows[j] == Accepted(v)
  {
    if rows[0] == Accepted(v) {
      j := 0;
    } else {
      assert v in AcceptedValues(rows[1..]);
      var j' := AcceptedValueAt(rows[1..], v);
      j := j' + 1;
    }
  }

  /** `headers.findIndex(h => h === name)`. */
  function FindIndex(headers: seq<string>, name: string): (r: int)
    ensures -1 <= r < |headers|
    ensures r == -1 <==> name !in headers
    ensures r >= 0 ==> headers[r] == name && forall j :: 0 <= j < r ==> headers[j] != name
  {
    if headers == [] then -1
    else if headers[0] == name then 0
    else
      var k := FindIndex(headers[1..], name);
      if k == -1 then -1 else k + 1
  }

  /** `parts[index]`, with JavaScript's `undefined` as `None`. */
  function Field(parts: seq<string>, index: int): (r: Option<string>)
    ensures r.Some? <==> 0 <= index < |parts|
    ensures r.Some? ==> r.value == parts[index]
  {
    if 0 <= index < |parts| then Some(parts[index]) else None
  }

  /** `x || ''` for a string or undefined `x`. */
  function OrEmpty(x: Option<string>): string
  {
    if x.Some? then x.value else ""
  }

  /** A string or undefined that JavaScript treats as true (a non-empty string). */
  predicate Truthy(x: Option<string>) {
    x.Some? && x.value != ""
  }

  /**
   * `parseFloat(x) || 0`, given the number `parse` reads from the text (`None`
   * where `parseFloat` gives NaN); `parseFloat(undefined)` is NaN.
   */
  function NumberOr0(parse: string -> Option<real>, x: Option<string>): real
  {
    match x
    case None => 0.0
    case Some(s) => match parse(s) { case None => 0.0 case Some(v) => v }
  }
}
