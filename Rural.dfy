/**
 * `loadRuralCounties` of scripts/seed-data.js: the set of county FIPS codes in
 * the first column of the rural-designation list, zero-padded to five digits.
 */
module Rural {
  import opened Wrappers
  import opened Text
  import opened Csv
  import opened Columns

  /** What one data line contributes: its first field, padded, when that field is non-empty. */
  function RuralEntry(line: string): (r: Option<string>)
    ensures r.Some? <==> Truthy(Field(Fields(line), 0))
    ensures r.Some? ==> r.value == PadStart(Field(Fields(line), 0).value, 5, '0')
    ensures r.Some? ==> |r.value| >= 5
  {
    var first := Field(Fields(line), 0);
    if Truthy(first) then Some(PadStart(first.value, 5, '0')) else None
  }

  /** The codes one line contributes. */
  function EntrySet(line: string): set<string> {
    var e := RuralEntry(line);
    if e.Some? then {e.value} else {}
  }

  /** The codes the data lines contribute, collected line by line. */
  function RuralSet(dataLines: seq<string>): set<string>
  {
    if dataLines == [] then {}
    else RuralSet(dataLines[..|dataLines| - 1]) + EntrySet(dataLines[|dataLines| - 1])
  }

  /** What `loadRuralCounties` returns for a file with the given lines: the first one is a header and is skipped. */
  function RuralCountiesOf(lines: seq<string>): set<string>
  {
    if lines == [] then {} else RuralSet(lines[1..])
  }

  /** Adding a line at the end adds what it contributes. */
  lemma RuralSetSnoc(dataLines: seq<string>, line: string)
    ensures RuralSet(dataLines + [line]) == RuralSet(dataLines) + EntrySet(line)
  {
    var ls := dataLines + [line];
    assert ls[..|ls| - 1] == dataLines;
  }

  /** A code is in the set exactly when some data line contributes it. */
  lemma {:induction false} RuralSetMembers(dataLines: seq<string>, x: string)
    ensures x in RuralSet(dataLines) <==> exists i :: 0 <= i < |dataLines| && x in EntrySet(dataLines[i])
  {
    if dataLines != [] {
      var init, last := dataLines[..|dataLines| - 1], dataLines[|dataLines| - 1];
      assert dataLines == init + [last];
      RuralSetSnoc(init, last);
      RuralSetMembers(init, x);
      if x in RuralSet(dataLines) && x !in EntrySet(last) {
        var i :| 0 <= i < |init| && x in EntrySet(init[i]);
        assert dataLines[i] == init[i];
      }
      if exists i :: 0 <= i < |dataLines| && x in EntrySet(dataLines[i]) {
        var i :| 0 <= i < |dataLines| && x in EntrySet(dataLines[i]);
        if i < |init| {
          assert init[i] == dataLines[i];
        }
      }
    }
  }

  /**
   * What `loadRuralCounties` returns, stated against the file: a code is in
   * the set exactly when some line after the header has a non-empty first
   * field that pads to it.
   */
  lemma RuralCodes(lines: seq<string>, x: string)
    ensures x in RuralCountiesOf(lines) <==>
      exists k :: 1 <= k < |lines| && Truthy(Field(Fields(lines[k]), 0)) && x == PadStart(Field(Fields(lines[k]), 0).value, 5, '0')
  {
    if lines != [] {
      var data := lines[1..];
      RuralSetMembers(data, x);
      if x in RuralCountiesOf(lines) {
        var i :| 0 <= i < |data| && x in EntrySet(data[i]);
        assert data[i] == lines[i + 1];
      }
      if exists k :: 1 <= k < |lines| && Truthy(Field(Fields(lines[k]), 0)) && x == PadStart(Field(Fields(lines[k]), 0).value, 5, '0') {
        var k :| 1 <= k < |lines| && Truthy(Field(Fields(lines[k]), 0)) && x == PadStart(Field(Fields(lines[k]), 0).value, 5, '0');
        assert data[k - 1] == lines[k] && x in EntrySet(data[k - 1]);
      }
    }
  }

  /** Every code in the set is at least five characters long. */
  lemma {:induction false} RuralSetPadded(dataLines: seq<string>)
    ensures forall x :: x in RuralSet(dataLines) ==> |x| >= 5
  {
    if dataLines != [] {
      RuralSetPadded(dataLines[..|dataLines| - 1]);
    }
  }

  /** What the data line at `n` adds to the set collected before it. */
  lemma RuralStep(lines: seq<string>, n: nat, parts: seq<string>)
    requires 1 <= n < |lines| && parts == Fields(lines[n])
    ensures RuralSet(lines[1..n + 1]) == RuralSet(lines[1..n]) + (if Truthy(Field(parts, 0)) then {PadStart(parts[0], 5, '0')} else {})
  {
    assert lines[1..n + 1] == lines[1..n] + [lines[n]];
    RuralSetSnoc(lines[1..n], lines[n]);
  }

  /** The streaming loop of `loadRuralCounties`, over `isFirst` and the `ruralFips` set. */
  method LoadRuralCounties(lines: seq<string>) returns (ruralFips: set<string>)
    ensures ruralFips == RuralCountiesOf(lines)
  {
    ruralFips := {};
    var isFirst := true;
    for n := 0 to |lines|
      invariant isFirst <==> n == 0
      invariant n == 0 ==> ruralFips == {}
      invariant n > 0 ==> ruralFips == RuralSet(lines[1..n])
    {
      if isFirst {
        isFirst := false;
        assert lines[1..1] == [];
        continue;
      }
      var parts := ParseCsvLine(lines[n]);
      var first := Field(parts, 0);
      RuralStep(lines, n, parts);
      if Truthy(first) {
        ruralFips := ruralFips + {PadStart(first.value, 5, '0')};
      }
    }
    if |lines| > 0 {
      assert lines[1..|lines|] == lines[1..];
    }
  }
}
