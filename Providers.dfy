/**
 * `loadProviders` of scripts/seed-data.js: streams the provider summary, keeps
 * the County rows, and keeps one winning provider per county by the rule that a
 * terrestrial provider beats a satellite one and, within one class, strictly
 * greater residential coverage beats the incumbent.
 */
module Providers {
  import opened Wrappers
  import opened Text
  import opened Csv
  import opened Columns

  /** The value stored per county: `{ name, coverage, id }` (`id` is undefined when the column is absent). */
  datatype ProviderRecord = ProviderRecord(name: string, coverage: real, id: Option<string>)

  /** The provider ids the resolver treats as satellite (`SATELLITE_IDS`, as written). */
  const SatelliteIds: seq<string> := ["130627", "130235", "290111", "430076"]

  /** `SATELLITE_IDS.includes(id)`; undefined is never included. */
  predicate IsSatellite(id: Option<string>) {
    id.Some? && id.value in SatelliteIds
  }

  /** The text JavaScript makes of the id, in a property key or a template: undefined reads "undefined". */
  function IdText(id: Option<string>): string {
    if id.Some? then id.value else "undefined"
  }

  /** `PROVIDER_NAMES[providerId] || \`Local ISP #${providerId}\``. */
  function DisplayName(names: map<string, string>, id: Option<string>): (r: string)
    ensures IdText(id) in names && names[IdText(id)] != "" ==> r == names[IdText(id)]
    ensures !(IdText(id) in names && names[IdText(id)] != "") ==> r == "Local ISP #" + IdText(id)
  {
    var key := IdText(id);
    if key in names && names[key] != "" then names[key] else "Local ISP #" + key
  }

  /** The column positions read from the header line. */
  datatype ProviderColumns = ProviderColumns(geographyType: int, geographyId: int, providerId: int, resStPct: int)

  function ProviderColumnsOf(headers: seq<string>): ProviderColumns
  {
    ProviderColumns(
      FindIndex(headers, "geography_type"),
      FindIndex(headers, "geography_id"),
      FindIndex(headers, "provider_id"),
      FindIndex(headers, "res_st_pct"))
  }

  /** A County row, ready for the winner rule. */
  datatype Candidate = Candidate(fips: string, record: ProviderRecord)

  /** What `loadProviders` makes of the fields of one data line. */
  function ProviderRow(cols: ProviderColumns, names: map<string, string>, parse: string -> Option<real>,
                       parts: seq<string>): (r: Row<Candidate>)
    ensures Field(parts, cols.geographyType) != Some("County") ==> r == Skipped
    ensures r == Aborted <==> Field(parts, cols.geographyType) == Some("County") && Field(parts, cols.geographyId) == None
    ensures r.Accepted? <==> Field(parts, cols.geographyType) == Some("County") && Field(parts, cols.geographyId).Some?
    ensures r.Accepted? ==>
      && Field(parts, cols.geographyId).Some?
      && r.value.fips == PadStart(Field(parts, cols.geographyId).value, 5, '0')
      && r.value.record.name == DisplayName(names, Field(parts, cols.providerId))
      && r.value.record.coverage == NumberOr0(parse, Field(parts, cols.resStPct))
      && r.value.record.id == Field(parts, cols.providerId)
    ensures r.Accepted? ==> |r.value.fips| >= 5
  {
    if Field(parts, cols.geographyType) != Some("County") then Skipped
    else match Field(parts, cols.geographyId)
      case None => Aborted
      case Some(geographyId) =>
        var id := Field(parts, cols.providerId);
        var coverage := NumberOr0(parse, Field(parts, cols.resStPct));
        Accepted(Candidate(PadStart(geographyId, 5, '0'), ProviderRecord(DisplayName(names, id), coverage, id)))
  }

  /** The four-branch winner rule: whether `candidate` takes the place of what is stored for its county. */
  predicate Replaces(incumbent: Option<ProviderRecord>, candidate: ProviderRecord) {
    match incumbent
    case None => true
    case Some(current) =>
      if IsSatellite(current.id) && !IsSatellite(candidate.id) then true
      else if !IsSatellite(current.id) && IsSatellite(candidate.id) then false
      else current.coverage < candidate.coverage
  }

  /** `providers.get(fips)`. */
  function Get(m: map<string, ProviderRecord>, fips: string): Option<ProviderRecord> {
    if fips in m then Some(m[fips]) else None
  }

  /** One County row applied to the map. */
  function Step(m: map<string, ProviderRecord>, c: Candidate): map<string, ProviderRecord>
  {
    if Replaces(Get(m, c.fips), c.record) then m[c.fips := c.record] else m
  }

  /** The rule applied to a sequence of County rows, in order. */
  function ResolveAll(m: map<string, ProviderRecord>, cs: seq<Candidate>): map<string, ProviderRecord>
    decreases |cs|
  {
    if cs == [] then m else ResolveAll(Step(m, cs[0]), cs[1..])
  }

  /** What the resolver makes of each data line. */
  function RowsOf(cols: ProviderColumns, names: map<string, string>, parse: string -> Option<real>,
                  lines: seq<string>): seq<Row<Candidate>>
  {
    if lines == [] then [] else [ProviderRow(cols, names, parse, Fields(lines[0]))] + RowsOf(cols, names, parse, lines[1..])
  }

  /** The rows applied to the map in order; a row that throws ends the run. */
  function ResolveRows(m: map<string, ProviderRecord>, rows: seq<Row<Candidate>>): Result<map<string, ProviderRecord>, RunError>
    decreases |rows|
  {
    if rows == [] then Success(m)
    else match rows[0]
      case Skipped => ResolveRows(m, rows[1..])
      case Aborted => Failure(UndefinedGeographyId)
      case Accepted(c) => ResolveRows(Step(m, c), rows[1..])
  }

  lemma ResolveRowsCons(m: map<string, ProviderRecord>, r: Row<Candidate>, rows: seq<Row<Candidate>>)
    ensures ResolveRows(m, [r] + rows) ==
      match r
      case Skipped => ResolveRows(m, rows)
      case Aborted => Failure(UndefinedGeographyId)
      case Accepted(c) => ResolveRows(Step(m, c), rows)
  {
    assert ([r] + rows)[0] == r && ([r] + rows)[1..] == rows;
  }

  /** What `loadProviders` returns for a file with the given lines (the first one is the header). */
  function ProvidersOf(names: map<string, string>, parse: string -> Option<real>, lines: seq<string>): Result<map<string, ProviderRecord>, RunError>
  {
    if lines == [] then Success(map[])
    else ResolveRows(map[], RowsOf(ProviderColumnsOf(Fields(lines[0])), names, parse, lines[1..]))
  }

  /** The resolver fails exactly when some data line throws, and otherwise folds the County rows. */
  lemma {:induction false} ResolveRowsFolds(m: map<string, ProviderRecord>, rows: seq<Row<Candidate>>)
    ensures ResolveRows(m, rows) ==
      if Aborted in rows then Failure(UndefinedGeographyId) else Success(ResolveAll(m, AcceptedValues(rows)))
    decreases |rows|
  {
    if rows != [] {
      assert rows == [rows[0]] + rows[1..];
      assert Aborted in rows <==> rows[0] == Aborted || Aborted in rows[1..];
      match rows[0]
      case Skipped =>
        ResolveRowsFolds(m, rows[1..]);
        assert [] + AcceptedValues(rows[1..]) == AcceptedValues(rows[1..]);
      case Aborted =>
      case Accepted(c) =>
        ResolveRowsFolds(Step(m, c), rows[1..]);
        var rest := AcceptedValues(rows[1..]);
        assert ([c] + rest)[0] == c && ([c] + rest)[1..] == rest;
    }
  }

  // ---- What the stored record is, stated without the fold ----

  /** Same satellite classification. */
  predicate SameClass(a: ProviderRecord, b: ProviderRecord) {
    IsSatellite(a.id) == IsSatellite(b.id)
  }

  /**
   * `w` is row `i` for county `k`, and no earlier row of that county in the
   * same class has coverage as high as `w`'s.
   */
  ghost predicate FirstAt(cs: seq<Candidate>, k: string, w: ProviderRecord, i: int) {
    && 0 <= i < |cs| && cs[i] == Candidate(k, w)
    && forall j :: 0 <= j < i && cs[j].fips == k && SameClass(cs[j].record, w) ==> cs[j].record.coverage < w.coverage
  }

  /**
   * `w` is terrestrial if county `k` has any terrestrial row, and has at least
   * the coverage of every row of county `k` in its class.
   */
  ghost predicate Dominates(cs: seq<Candidate>, k: string, w: ProviderRecord) {
    forall j :: 0 <= j < |cs| && cs[j].fips == k ==>
      && (!IsSatellite(cs[j].record.id) ==> !IsSatellite(w.id))
      && (SameClass(cs[j].record, w) ==> cs[j].record.coverage <= w.coverage)
  }

  /** The winner for county `k`: the first row, of the best class present, with the greatest coverage in that class. */
  ghost predicate IsBest(cs: seq<Candidate>, k: string, w: ProviderRecord) {
    (exists i :: FirstAt(cs, k, w, i)) && Dominates(cs, k, w)
  }

  /** The map holds exactly the counties that have rows, each with its winner. */
  ghost predicate Summarizes(cs: seq<Candidate>, m: map<string, ProviderRecord>) {
    && (forall k :: k in m <==> exists j :: 0 <= j < |cs| && cs[j].fips == k)
    && (forall k :: k in m ==> IsBest(cs, k, m[k]))
  }

  /** At most one record can be the winner: the characterisation fixes the stored record. */
  lemma BestIsUnique(cs: seq<Candidate>, k: string, w1: ProviderRecord, w2: ProviderRecord)
    requires IsBest(cs, k, w1) && IsBest(cs, k, w2)
    ensures w1 == w2
  {
    var i1 :| FirstAt(cs, k, w1, i1);
    var i2 :| FirstAt(cs, k, w2, i2);
    assert cs[i1].fips == k && cs[i2].fips == k;
    assert SameClass(w1, w2);
    assert w1.coverage == w2.coverage;
    assert i1 == i2;
  }

  /** Rows of other counties do not affect what county `k` holds. */
  lemma StepOtherCounty(cs: seq<Candidate>, m: map<string, ProviderRecord>, c: Candidate, k: string)
    requires Summarizes(cs, m) && k != c.fips
    ensures (k in Step(m, c) <==> k in m) && (k in m ==> Step(m, c)[k] == m[k])
    ensures (exists j :: 0 <= j < |cs + [c]| && (cs + [c])[j].fips == k) <==> (exists j :: 0 <= j < |cs| && cs[j].fips == k)
    ensures k in m ==> IsBest(cs + [c], k, m[k])
  {
    var cs' := cs + [c];
    if exists j :: 0 <= j < |cs'| && cs'[j].fips == k {
      var j :| 0 <= j < |cs'| && cs'[j].fips == k;
      assert j < |cs| && cs[j].fips == k;
    }
    if exists j :: 0 <= j < |cs| && cs[j].fips == k {
      var j :| 0 <= j < |cs| && cs[j].fips == k;
      assert cs'[j].fips == k;
    }
    if k in m {
      OtherCountyStaysBest(cs, m[k], c, k);
    }
  }

  /** A row of another county keeps the winner of county `k` the winner. */
  lemma OtherCountyStaysBest(cs: seq<Candidate>, w: ProviderRecord, c: Candidate, k: string)
    requires IsBest(cs, k, w) && k != c.fips
    ensures IsBest(cs + [c], k, w)
  {
    var cs' := cs + [c];
    var i :| FirstAt(cs, k, w, i);
    assert forall j :: 0 <= j < |cs| ==> cs'[j] == cs[j];
    assert FirstAt(cs', k, w, i);
  }

  /** The new row's county afterwards holds its winner. */
  lemma StepSameCounty(cs: seq<Candidate>, m: map<string, ProviderRecord>, c: Candidate)
    requires Summarizes(cs, m)
    ensures c.fips in Step(m, c) && IsBest(cs + [c], c.fips, Step(m, c)[c.fips])
  {
    var cs' := cs + [c];
    var n := |cs|;
    var k := c.fips;
    assert cs'[n] == c;
    assert forall j :: 0 <= j < n ==> cs'[j] == cs[j];
    if k !in m {
      assert forall j :: 0 <= j < n ==> cs[j].fips != k;
      assert FirstAt(cs', k, c.record, n);
    } else {
      var w := m[k];
      var i :| FirstAt(cs, k, w, i);
      if Replaces(Some(w), c.record) {
        assert FirstAt(cs', k, c.record, n);
      } else {
        assert FirstAt(cs', k, w, i);
      }
    }
  }

  lemma StepSummarizes(cs: seq<Candidate>, m: map<string, ProviderRecord>, c: Candidate)
    requires Summarizes(cs, m)
    ensures Summarizes(cs + [c], Step(m, c))
  {
    var cs' := cs + [c];
    var m' := Step(m, c);
    forall k ensures k in m' <==> exists j :: 0 <= j < |cs'| && cs'[j].fips == k {
      if k == c.fips {
        StepSameCounty(cs, m, c);
        assert cs'[|cs|].fips == k;
      } else {
        StepOtherCounty(cs, m, c, k);
      }
    }
    forall k | k in m' ensures IsBest(cs', k, m'[k]) {
      if k == c.fips {
        StepSameCounty(cs, m, c);
      } else {
        StepOtherCounty(cs, m, c, k);
      }
    }
  }

  lemma {:induction false} ResolveAllSummarizes(cs: seq<Candidate>, m: map<string, ProviderRecord>, rest: seq<Candidate>)
    requires Summarizes(cs, m)
    ensures Summarizes(cs + rest, ResolveAll(m, rest))
    decreases |rest|
  {
    if rest == [] {
      assert cs + rest == cs;
    } else {
      StepSummarizes(cs, m, rest[0]);
      ResolveAllSummarizes(cs + [rest[0]], Step(m, rest[0]), rest[1..]);
      assert (cs + [rest[0]]) + rest[1..] == cs + rest;
    }
  }

  /**
   * The resolver's result, stated without the fold: exactly the counties that
   * have County rows, one record each, and that record is the first row of the
   * best class present (terrestrial over satellite) with the greatest coverage
   * in that class.
   */
  lemma ResolvedProviders(cs: seq<Candidate>)
    ensures Summarizes(cs, ResolveAll(map[], cs))
  {
    ResolveAllSummarizes([], map[], cs);
    assert [] + cs == cs;
  }

  /**
   * What `loadProviders` returns, stated against the file: it fails exactly
   * when a data line throws; otherwise every stored county holds the record
   * some data line gives for it, and the map is the winner rule's summary of
   * the County rows.
   */
  lemma ProvidersFromLines(names: map<string, string>, parse: string -> Option<real>, lines: seq<string>)
    requires lines != []
    ensures var rows := RowsOf(ProviderColumnsOf(Fields(lines[0])), names, parse, lines[1..]);
      ProvidersOf(names, parse, lines).Failure? <==> Aborted in rows
    ensures var cols := ProviderColumnsOf(Fields(lines[0]));
      var res := ProvidersOf(names, parse, lines);
      res.Success? ==>
        && Summarizes(AcceptedValues(RowsOf(cols, names, parse, lines[1..])), res.value)
        && forall k :: k in res.value ==>
             exists j :: 1 <= j < |lines| && ProviderRow(cols, names, parse, Fields(lines[j])) == Accepted(Candidate(k, res.value[k]))
  {
    var cols := ProviderColumnsOf(Fields(lines[0]));
    var rows := RowsOf(cols, names, parse, lines[1..]);
    ResolveRowsFolds(map[], rows);
    if Aborted !in rows {
      var cs := AcceptedValues(rows);
      var m := ResolveAll(map[], cs);
      ResolvedProviders(cs);
      forall k | k in m
        ensures exists j :: 1 <= j < |lines| && ProviderRow(cols, names, parse, Fields(lines[j])) == Accepted(Candidate(k, m[k]))
      {
        var i :| FirstAt(cs, k, m[k], i);
        assert cs[i] in cs;
        CandidateFromLine(names, parse, lines, cs[i]);
      }
    }
  }

  /** A County row's candidate is what some data line gives. */
  lemma CandidateFromLine(names: map<string, string>, parse: string -> Option<real>, lines: seq<string>, c: Candidate)
    requires lines != [] && c in AcceptedValues(RowsOf(ProviderColumnsOf(Fields(lines[0])), names, parse, lines[1..]))
    ensures exists j :: 1 <= j < |lines| && ProviderRow(ProviderColumnsOf(Fields(lines[0])), names, parse, Fields(lines[j])) == Accepted(c)
  {
    var cols := ProviderColumnsOf(Fields(lines[0]));
    var rows := RowsOf(cols, names, parse, lines[1..]);
    var j := AcceptedValueAt(rows, c);
    RowsOfLength(cols, names, parse, lines[1..]);
    RowsOfAt(cols, names, parse, lines[1..], j);
    assert lines[1..][j] == lines[j + 1];
    assert ProviderRow(cols, names, parse, Fields(lines[j + 1])) == Accepted(c);
  }

  /**
   * Satellite never displaces terrestrial: once a county's stored provider is
   * terrestrial it stays terrestrial, and its coverage never drops, whatever rows follow.
   */
  lemma {:induction false} TerrestrialStays(m: map<string, ProviderRecord>, rest: seq<Candidate>, k: string)
    requires k in m && !IsSatellite(m[k].id)
    ensures k in ResolveAll(m, rest) && !IsSatellite(ResolveAll(m, rest)[k].id)
    ensures m[k].coverage <= ResolveAll(m, rest)[k].coverage
    decreases |rest|
  {
    if rest != [] {
      TerrestrialStays(Step(m, rest[0]), rest[1..], k);
    }
  }

  /** The winner rule on one row, branch by branch, as the resolver applies it. */
  lemma StepRule(m: map<string, ProviderRecord>, c: Candidate)
    ensures c.fips !in m ==> Step(m, c) == m[c.fips := c.record]
    ensures c.fips in m && IsSatellite(m[c.fips].id) && !IsSatellite(c.record.id) ==> Step(m, c)[c.fips] == c.record
    ensures c.fips in m && !IsSatellite(m[c.fips].id) && IsSatellite(c.record.id) ==> Step(m, c) == m
    ensures c.fips in m && SameClass(m[c.fips], c.record) ==>
      Step(m, c) == if m[c.fips].coverage < c.record.coverage then m[c.fips := c.record] else m
    ensures forall k :: k != c.fips ==> Get(Step(m, c), k) == Get(m, k)
  {
  }

  /**
   * Two County rows of county 8031, read with the columns in the order
   * geography_type, geography_id, provider_id, res_st_pct: satellite id
   * 130627 at 95% and an id missing from the name table at 40%. With the
   * script's name for 130627, the rows resolve to the named satellite record
   * and to "Local ISP #999999", and the county ends with the terrestrial one,
   * in either row order.
   */
  lemma TerrestrialBeatsSatelliteExample(names: map<string, string>, parse: string -> Option<real>)
    requires "130627" in names && names["130627"] == "Hughes Network Systems" && "999999" !in names
    requires parse("0.95") == Some(0.95) && parse("0.40") == Some(0.40)
    ensures var cols := ProviderColumns(0, 1, 2, 3);
      var satRow := ProviderRow(cols, names, parse, ["County", "8031", "130627", "0.95"]);
      var localRow := ProviderRow(cols, names, parse, ["County", "8031", "999999", "0.40"]);
      var local := ProviderRecord("Local ISP #999999", 0.40, Some("999999"));
      && satRow == Accepted(Candidate("08031", ProviderRecord("Hughes Network Systems", 0.95, Some("130627"))))
      && localRow == Accepted(Candidate("08031", local))
      && ResolveAll(map[], [satRow.value, localRow.value]) == map["08031" := local]
      && ResolveAll(map[], [localRow.value, satRow.value]) == map["08031" := local]
  {
    SatelliteExampleRow(names, parse);
    LocalExampleRow(names, parse);
    ExampleResolution();
  }

  /** The satellite example row reads to the named satellite record. */
  lemma SatelliteExampleRow(names: map<string, string>, parse: string -> Option<real>)
    requires "130627" in names && names["130627"] == "Hughes Network Systems"
    requires parse("0.95") == Some(0.95)
    ensures ProviderRow(ProviderColumns(0, 1, 2, 3), names, parse, ["County", "8031", "130627", "0.95"])
      == Accepted(Candidate("08031", ProviderRecord("Hughes Network Systems", 0.95, Some("130627"))))
  {
    PadCounty8031();
    ExampleRow(names, parse, "130627", "0.95", 0.95);
  }

  /** The terrestrial example row reads to an unnamed local record. */
  lemma LocalExampleRow(names: map<string, string>, parse: string -> Option<real>)
    requires "999999" !in names
    requires parse("0.40") == Some(0.40)
    ensures ProviderRow(ProviderColumns(0, 1, 2, 3), names, parse, ["County", "8031", "999999", "0.40"])
      == Accepted(Candidate("08031", ProviderRecord("Local ISP #999999", 0.40, Some("999999"))))
  {
    PadCounty8031();
    UnnamedExampleName(names);
    ExampleRow(names, parse, "999999", "0.40", 0.40);
  }

  /** An id missing from the table is shown as `Local ISP #` and the id. */
  lemma UnnamedExampleName(names: map<string, string>)
    requires "999999" !in names
    ensures DisplayName(names, Some("999999")) == "Local ISP #999999"
  {
  }

  /** `'8031'.padStart(5, '0')`. */
  lemma PadCounty8031()
    ensures PadStart("8031", 5, '0') == "08031"
  {
    assert PadStart("8031", 5, '0') == PadStart("08031", 5, '0');
  }

  /** A County row of county 8031 for provider `id` at coverage `pct`. */
  lemma ExampleRow(names: map<string, string>, parse: string -> Option<real>, id: string, pct: string, v: real)
    requires parse(pct) == Some(v) && PadStart("8031", 5, '0') == "08031"
    ensures ProviderRow(ProviderColumns(0, 1, 2, 3), names, parse, ["County", "8031", id, pct])
      == Accepted(Candidate("08031", ProviderRecord(DisplayName(names, Some(id)), v, Some(id))))
  {
    var parts: seq<string> := ["County", "8031", id, pct];
    assert Field(parts, 0) == Some("County") && Field(parts, 1) == Some("8031");
    assert Field(parts, 2) == Some(id) && Field(parts, 3) == Some(pct);
  }

  /** The two example candidates resolve to the terrestrial one in either order. */
  lemma ExampleResolution()
    ensures var sat := Candidate("08031", ProviderRecord("Hughes Network Systems", 0.95, Some("130627")));
      var local := Candidate("08031", ProviderRecord("Local ISP #999999", 0.40, Some("999999")));
      && ResolveAll(map[], [sat, local]) == map["08031" := local.record]
      && ResolveAll(map[], [local, sat]) == map["08031" := local.record]
  {
    var sat := Candidate("08031", ProviderRecord("Hughes Network Systems", 0.95, Some("130627")));
    var local := Candidate("08031", ProviderRecord("Local ISP #999999", 0.40, Some("999999")));
    assert IsSatellite(sat.record.id);
    assert !IsSatellite(local.record.id);
    var m1 := Step(map[], sat);
    assert m1 == map["08031" := sat.record];
    assert Step(m1, local) == map["08031" := local.record];
    assert ResolveAll(map[], [sat, local]) == ResolveAll(m1, [sat, local][1..]);
    assert [sat, local][1..] == [local];
    assert ResolveAll(m1, [local]) == ResolveAll(Step(m1, local), [local][1..]);
    var m2 := Step(map[], local);
    assert m2 == map["08031" := local.record];
    assert Step(m2, sat) == m2;
    assert ResolveAll(map[], [local, sat]) == ResolveAll(m2, [local, sat][1..]);
    assert [local, sat][1..] == [sat];
    assert ResolveAll(m2, [sat]) == ResolveAll(Step(m2, sat), [sat][1..]);
    assert [local][1..] == [] && [sat][1..] == [];
  }

  lemma {:induction false} RowsOfAt(cols: ProviderColumns, names: map<string, string>, parse: string -> Option<real>, lines: seq<string>, k: nat)
    requires k < |lines|
    ensures |RowsOf(cols, names, parse, lines)| == |lines|
    ensures RowsOf(cols, names, parse, lines)[k] == ProviderRow(cols, names, parse, Fields(lines[k]))
  {
    RowsOfLength(cols, names, parse, lines);
    var rows := RowsOf(cols, names, parse, lines);
    var rest := RowsOf(cols, names, parse, lines[1..]);
    assert rows == [ProviderRow(cols, names, parse, Fields(lines[0]))] + rest;
    if k > 0 {
      RowsOfAt(cols, names, parse, lines[1..], k - 1);
      assert rows[k] == rest[k - 1];
      assert lines[1..][k - 1] == lines[k];
    }
  }

  lemma {:induction false} RowsOfLength(cols: ProviderColumns, names: map<string, string>, parse: string -> Option<real>, lines: seq<string>)
    ensures |RowsOf(cols, names, parse, lines)| == |lines|
  {
    if lines != [] {
      RowsOfLength(cols, names, parse, lines[1..]);
    }
  }

  /** Peels the first row off a suffix of the rows. */
  lemma ResolveRowsAt(m: map<string, ProviderRecord>, rows: seq<Row<Candidate>>, k: nat)
    requires k < |rows|
    ensures ResolveRows(m, rows[k..]) ==
      match rows[k]
      case Skipped => ResolveRows(m, rows[k + 1..])
      case Aborted => Failure(UndefinedGeographyId)
      case Accepted(c) => ResolveRows(Step(m, c), rows[k + 1..])
  {
    var t := rows[k..];
    assert t[0] == rows[k] && t[1..] == rows[k + 1..];
  }

  /** Facts about each data line's row, for the loop below. */
  lemma {:induction false} RowsOfEach(cols: ProviderColumns, names: map<string, string>, parse: string -> Option<real>, lines: seq<string>)
    ensures |RowsOf(cols, names, parse, lines)| == |lines|
    ensures forall k :: 0 <= k < |lines| ==> RowsOf(cols, names, parse, lines)[k] == ProviderRow(cols, names, parse, Fields(lines[k]))
  {
    RowsOfLength(cols, names, parse, lines);
    forall k | 0 <= k < |lines|
      ensures RowsOf(cols, names, parse, lines)[k] == ProviderRow(cols, names, parse, Fields(lines[k]))
    {
      RowsOfAt(cols, names, parse, lines, k);
    }
  }

  /** What the header line sets up for the loop below. */
  lemma LoadHeader(cols: ProviderColumns, names: map<string, string>, parse: string -> Option<real>, lines: seq<string>)
    requires lines != [] && cols == ProviderColumnsOf(Fields(lines[0]))
    ensures |RowsOf(cols, names, parse, lines[1..])| == |lines| - 1
    ensures forall k :: 0 <= k < |lines| - 1 ==> RowsOf(cols, names, parse, lines[1..])[k] == ProviderRow(cols, names, parse, Fields(lines[k + 1]))
    ensures ResolveRows(map[], RowsOf(cols, names, parse, lines[1..])[0..]) == ProvidersOf(names, parse, lines)
  {
    var rows := RowsOf(cols, names, parse, lines[1..]);
    RowsOfEach(cols, names, parse, lines[1..]);
    assert rows[0..] == rows;
  }

  /** One step of the resolver over the remaining rows. */
  lemma LoadStep(providers: map<string, ProviderRecord>, rows: seq<Row<Candidate>>, k: nat, target: Result<map<string, ProviderRecord>, RunError>)
    requires k < |rows|
    requires ResolveRows(providers, rows[k..]) == target
    ensures rows[k].Aborted? ==> target == Failure(UndefinedGeographyId)
    ensures rows[k].Skipped? ==> ResolveRows(providers, rows[k + 1..]) == target
    ensures rows[k].Accepted? ==> ResolveRows(Step(providers, rows[k].value), rows[k + 1..]) == target
  {
    ResolveRowsAt(providers, rows, k);
  }

  /** The streaming loop of `loadProviders`, over `headers`, `colIndices` and the `providers` map. */
  method LoadProviders(names: map<string, string>, parse: string -> Option<real>, lines: seq<string>)
    returns (result: Result<map<string, ProviderRecord>, RunError>)
    ensures result == ProvidersOf(names, parse, lines)
  {
    var providers: map<string, ProviderRecord> := map[];
    var headers: Option<seq<string>> := None;
    var cols := ProviderColumns(-1, -1, -1, -1);
    ghost var rows: seq<Row<Candidate>> := [];
    ghost var target := ProvidersOf(names, parse, lines);
    for n := 0 to |lines|
      invariant headers.None? <==> n == 0
      invariant n == 0 ==> providers == map[]
      invariant n > 0 ==> |rows| == |lines| - 1
      invariant n > 0 ==> forall k :: 0 <= k < |rows| ==> rows[k] == ProviderRow(cols, names, parse, Fields(lines[k + 1]))
      invariant n > 0 ==> ResolveRows(providers, rows[n - 1..]) == target
    {
      var parts := ParseCsvLine(lines[n]);
      if headers.None? {
        headers := Some(parts);
        cols := ProviderColumnsOf(parts);
        rows := RowsOf(cols, names, parse, lines[1..]);
        LoadHeader(cols, names, parse, lines);
        continue;
      }
      var row := ProviderRow(cols, names, parse, parts);
      assert row == rows[n - 1];
      LoadStep(providers, rows, n - 1, target);
      match row {
        case Skipped =>
        case Aborted =>
          return Failure(UndefinedGeographyId);
        case Accepted(c) =>
          if Replaces(Get(providers, c.fips), c.record) {
            providers := providers[c.fips := c.record];
          }
      }
    }
    if |lines| > 0 {
      assert rows[|lines| - 1..] == [];
    }
    result := Success(providers);
  }
}
