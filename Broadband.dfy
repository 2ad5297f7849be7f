/**
 * `loadBroadbandData` of scripts/seed-data.js: streams the broadband summary,
 * keeps the County / Total / All Wired rows of known states, derives each
 * county's record (speeds, rating, score, provider, rural status) and keeps the
 * first accepted row per FIPS code.
 */
module Broadband {
  import opened Wrappers
  import opened Text
  import opened Csv
  import opened Columns
  import opened Slug
  import opened Scoring
  import opened OrderedMaps
  import Providers

  /** The column positions read from the header line. */
  datatype BroadbandColumns = BroadbandColumns(
    areaDataType: int, geographyType: int, geographyId: int, geographyDesc: int, geographyName: int,
    techType: int, speed10_1: int, speed25_3: int, speed100_20: int, speed250_25: int, speed1000_100: int)

  function BroadbandColumnsOf(headers: seq<string>): BroadbandColumns
  {
    BroadbandColumns(
      FindIndex(headers, "area_data_type"),
      FindIndex(headers, "geography_type"),
      FindIndex(headers, "geography_id"),
      FindIndex(headers, "geography_desc"),
      FindIndex(headers, "geography_name"),
      FindIndex(headers, "tech_type"),
      FindIndex(headers, "speed_10_1"),
      FindIndex(headers, "speed_25_3"),
      FindIndex(headers, "speed_100_20"),
      FindIndex(headers, "speed_250_25"),
      FindIndex(headers, "speed_1000_100"))
  }

  /** Coverage percentages per speed tier, rounded to whole percent. */
  datatype Coverage = Coverage(speed10_1: int, speed25_3: int, speed100_20: int, speed250_25: int, speed1000_100: int)

  /** One county of the generated dataset. */
  datatype CountyRecord = CountyRecord(
    fips: string, state: string, stateSlug: string, county: string, countySlug: string,
    maxAvailableSpeed: int, estimatedSpeed: int, topProvider: string, ruralStatus: bool,
    costOfLivingIndex: int, speedRating: SpeedRating, remoteWorkScore: int, coverage: Coverage)

  /** What the loader joins against: the state tables, the rural set and the provider map. */
  datatype Lookups = Lookups(
    stateFips: map<string, string>, colIndex: map<string, int>,
    ruralFips: set<string>, providers: map<string, Providers.ProviderRecord>)

  /** The characters JavaScript's `.` does not match. */
  predicate IsLineTerminator(c: char) {
    c == '\n' || c == '\r' || c == '\U{2028}' || c == '\U{2029}'
  }

  predicate NoLineTerminator(s: string) {
    forall i :: 0 <= i < |s| ==> !IsLineTerminator(s[i])
  }

  /**
   * `s.replace(/,.*$/, '')`: the match starts at the first comma after which
   * no line terminator follows, and runs to the end.
   */
  function StripCommaTail(s: string): string
  {
    if s == [] then []
    else if s[0] == ',' && NoLineTerminator(s[1..]) then []
    else [s[0]] + StripCommaTail(s[1..])
  }

  /**
   * The regular expression's meaning: what is kept is a prefix; the cut is at
   * a comma with no line terminator after it; no earlier comma qualifies.
   */
  lemma {:induction false} StripCommaTailCuts(s: string)
    ensures var r := StripCommaTail(s);
      && |r| <= |s| && r == s[..|r|]
      && (|r| < |s| ==> s[|r|] == ',' && NoLineTerminator(s[|r| + 1..]))
      && (forall j :: 0 <= j < |r| && s[j] == ',' ==> !NoLineTerminator(s[j + 1..]))
  {
    if s != [] && !(s[0] == ',' && NoLineTerminator(s[1..])) {
      StripCommaTailCuts(s[1..]);
      assert forall j :: 1 <= j <= |s| ==> s[j..] == s[1..][j - 1..];
    }
  }

  /** On a single line the tail goes from the first comma on: the name keeps no comma. */
  lemma StripCommaTailOneLine(s: string)
    requires NoLineTerminator(s)
    ensures ',' !in StripCommaTail(s)
  {
    StripCommaTailCuts(s);
    var r := StripCommaTail(s);
    forall j | 0 <= j < |r| ensures r[j] != ',' {
      assert NoLineTerminator(s[j + 1..]);
    }
  }

  /** A comma followed by a line with no terminator cuts there, when nothing before it is a comma. */
  lemma {:induction false} StripCommaTailAt(a: string, t: string)
    requires ',' !in a && NoLineTerminator(t)
    ensures StripCommaTail(a + [','] + t) == a
    decreases |a|
  {
    var s := a + [','] + t;
    if a == [] {
      assert s[1..] == t;
    } else {
      assert s[0] == a[0] && s[1..] == a[1..] + [','] + t;
      StripCommaTailAt(a[1..], t);
      assert [a[0]] + a[1..] == a;
    }
  }

  /** The text the county name is cut from: `desc || name || ''`. */
  function RawCountyName(desc: Option<string>, name: Option<string>): string {
    if Truthy(desc) then desc.value else OrEmpty(name)
  }

  /** The three steps after the comma tail is gone never bring a comma back. */
  lemma CountyNameHasNoComma(raw: string)
    requires NoLineTerminator(raw)
    ensures ',' !in Trim(RemoveFirst(StripCommaTail(raw), " County"))
  {
    StripCommaTailOneLine(raw);
    var named := RemoveFirst(StripCommaTail(raw), " County");
    TrimIsPiece(named);
    var k :| WhitespaceAround(named, k, Trim(named));
    assert forall c :: c in Trim(named) ==> c in named;
  }

  /**
   * `(desc || name || '').replace(/,.*$/, '').replace(' County', '').trim()`:
   * trimmed, and on a single line no comma survives.
   */
  function CountyName(desc: Option<string>, name: Option<string>): (r: string)
    ensures IsTrimmed(r)
    ensures NoLineTerminator(RawCountyName(desc, name)) ==> ',' !in r
  {
    var raw := RawCountyName(desc, name);
    assert NoLineTerminator(raw) ==> ',' !in Trim(RemoveFirst(StripCommaTail(raw), " County")) by {
      if NoLineTerminator(raw) { CountyNameHasNoComma(raw); }
    }
    Trim(RemoveFirst(StripCommaTail(raw), " County"))
  }

  /**
   * An occurrence of `w` in `s + w` that starts inside `s` would lie wholly in
   * `s`, or would put `w`'s first character at a later position of `w`.
   */
  lemma NoEarlierOccurrence(s: string, w: string, j: int)
    requires w != [] && forall q :: 1 <= q < |w| ==> w[q] != w[0]
    requires forall i :: !OccursAt(s, w, i)
    requires 0 <= j < |s|
    ensures !OccursAt(s + w, w, j)
  {
    var a := s + w;
    if j + |w| <= |s| {
      assert a[j..j + |w|] == s[j..j + |w|];
      assert !OccursAt(s, w, j);
    } else if j + |w| <= |a| {
      var q := |s| - j;
      assert a[|s|] == w[0];
      assert a[j..j + |w|][q] == a[|s|] != w[q];
    }
  }

  /** The first occurrence of `w` in `s + w` is the appended one when `s` holds none. */
  lemma AppendedIsFirst(s: string, w: string)
    requires w != [] && forall q :: 1 <= q < |w| ==> w[q] != w[0]
    requires IndexOf(s, w) == -1
    ensures IndexOf(s + w, w) == |s|
  {
    var a := s + w;
    assert a[|s|..|s| + |w|] == w;
    assert OccursAt(a, w, |s|);
    var r := IndexOf(a, w);
    if r < |s| {
      NoEarlierOccurrence(s, w, r);
    }
  }

  /** The pieces of "<Name> County, <ST>": no comma before the one after "County", one line after it. */
  lemma DescPieces(county: string, st: string)
    requires ',' !in county && NoLineTerminator(st)
    ensures county + " County, " + st == (county + " County") + [','] + (" " + st)
    ensures ',' !in county + " County"
    ensures NoLineTerminator(" " + st)
  {
    var a := county + " County";
    forall i | 0 <= i < |a| ensures a[i] != ',' {
      if i < |county| { assert a[i] == county[i]; }
    }
    forall i | 0 <= i < |" " + st| ensures !IsLineTerminator((" " + st)[i]) {
      if i > 0 { assert (" " + st)[i] == st[i - 1]; }
    }
  }

  /** Removing the appended " County" gives the name back. */
  lemma RemoveAppendedCounty(county: string)
    requires IndexOf(county, " County") == -1
    ensures RemoveFirst(county + " County", " County") == county
  {
    var a := county + " County";
    assert " County" == [' ', 'C', 'o', 'u', 'n', 't', 'y'];
    AppendedIsFirst(county, " County");
    var r := RemoveFirst(a, " County");
    assert a[..|county|] == county;
    assert r[..|county|] == county;
    assert r == r[..|county|];
  }

  /** The three steps applied to "<Name> County, <ST>". */
  lemma CutDesc(county: string, st: string)
    requires IsTrimmed(county) && ',' !in county && NoLineTerminator(st)
    requires IndexOf(county, " County") == -1
    ensures Trim(RemoveFirst(StripCommaTail(county + " County, " + st), " County")) == county
  {
    DescPieces(county, st);
    StripCommaTailAt(county + " County", " " + st);
    RemoveAppendedCounty(county);
  }

  /**
   * A `geography_desc` in the "<Name> County, <ST>" form gives back <Name>,
   * whatever `geography_name` holds; without a usable `geography_desc`, the
   * `geography_name` in that form gives the same.
   */
  lemma CountyNameOfDesc(county: string, st: string, other: Option<string>)
    requires IsTrimmed(county) && ',' !in county && NoLineTerminator(st)
    requires IndexOf(county, " County") == -1
    ensures CountyName(Some(county + " County, " + st), other) == county
    ensures CountyName(None, Some(county + " County, " + st)) == county
    ensures CountyName(Some(""), Some(county + " County, " + st)) == county
  {
    var desc := county + " County, " + st;
    assert desc != "" by { assert |desc| >= 9; }
    assert RawCountyName(Some(desc), other) == desc;
    assert RawCountyName(None, Some(desc)) == desc;
    assert RawCountyName(Some(""), Some(desc)) == desc;
    CutDesc(county, st);
  }

  /** `fips.substring(0, 2)`. */
  function StatePrefix(fips: string): string {
    if |fips| >= 2 then fips[..2] else fips
  }

  /** `STATE_FIPS[prefix]`, when it names a state. */
  function StateName(stateFips: map<string, string>, fips: string): (r: Option<string>)
    ensures r.Some? <==> StatePrefix(fips) in stateFips && stateFips[StatePrefix(fips)] != ""
    ensures r.Some? ==> r.value == stateFips[StatePrefix(fips)]
  {
    var key := StatePrefix(fips);
    if key in stateFips && stateFips[key] != "" then Some(stateFips[key]) else None
  }

  /** `STATE_COL_INDEX[stateName] || 100`. */
  function CostOfLivingIndex(colIndex: map<string, int>, state: string): int {
    if state in colIndex && colIndex[state] != 0 then colIndex[state] else 100
  }

  /** `providerData ? providerData.name : 'Local ISP'`. */
  function TopProvider(providers: map<string, Providers.ProviderRecord>, fips: string): string {
    if fips in providers then providers[fips].name else "Local ISP"
  }

  /** The record built for an accepted row. */
  function MakeRecord(lk: Lookups, fips: string, state: string, county: string,
                      s10: real, s25: real, s100: real, s250: real, s1000: real): CountyRecord
  {
    var maxSpeed := MaxAvailableSpeed(s10, s25, s100, s250, s1000);
    var estimated := EstimatedSpeed(maxSpeed);
    var rural := fips in lk.ruralFips;
    var cost := CostOfLivingIndex(lk.colIndex, state);
    CountyRecord(
      fips, state, CreateSlug(state), county, CreateSlug(county),
      maxSpeed, estimated, TopProvider(lk.providers, fips), rural, cost,
      GetSpeedRating(estimated), RemoteWorkScore(estimated, cost, rural),
      Coverage(Round(s10 * 100.0), Round(s25 * 100.0), Round(s100 * 100.0), Round(s250 * 100.0), Round(s1000 * 100.0)))
  }

  /** How the fields of a record hang together, and how they agree with the lookups. */
  predicate ConsistentRecord(lk: Lookups, r: CountyRecord) {
    && |r.fips| >= 5
    && StateName(lk.stateFips, r.fips) == Some(r.state)
    && r.stateSlug == CreateSlug(r.state) && r.countySlug == CreateSlug(r.county)
    && r.county != "" && IsTrimmed(r.county)
    && r.maxAvailableSpeed % 5 == 0
    && r.estimatedSpeed == EstimatedSpeed(r.maxAvailableSpeed)
    && r.speedRating == GetSpeedRating(r.estimatedSpeed)
    && r.costOfLivingIndex == CostOfLivingIndex(lk.colIndex, r.state)
    && r.ruralStatus == (r.fips in lk.ruralFips)
    && r.topProvider == TopProvider(lk.providers, r.fips)
    && r.remoteWorkScore == RemoteWorkScore(r.estimatedSpeed, r.costOfLivingIndex, r.ruralStatus)
    && 10 <= r.remoteWorkScore <= 100
  }

  /**
   * The fields of a record read off its row: the padded FIPS code, the county
   * name, the maximum available speed and the rounded coverage percentages,
   * each tier being `parseFloat(...) || 0` of its column.
   */
  predicate FromRow(cols: BroadbandColumns, parse: string -> Option<real>, parts: seq<string>, r: CountyRecord) {
    var s10 := NumberOr0(parse, Field(parts, cols.speed10_1));
    var s25 := NumberOr0(parse, Field(parts, cols.speed25_3));
    var s100 := NumberOr0(parse, Field(parts, cols.speed100_20));
    var s250 := NumberOr0(parse, Field(parts, cols.speed250_25));
    var s1000 := NumberOr0(parse, Field(parts, cols.speed1000_100));
    && Field(parts, cols.geographyId).Some?
    && r.fips == PadStart(Field(parts, cols.geographyId).value, 5, '0')
    && r.county == CountyName(Field(parts, cols.geographyDesc), Field(parts, cols.geographyName))
    && r.maxAvailableSpeed == MaxAvailableSpeed(s10, s25, s100, s250, s1000)
    && r.coverage == Coverage(Round(s10 * 100.0), Round(s25 * 100.0), Round(s100 * 100.0), Round(s250 * 100.0), Round(s1000 * 100.0))
  }

  /** What the row fixes and what the lookups fix leave no freedom: one record fits both. */
  lemma RecordDetermined(cols: BroadbandColumns, lk: Lookups, parse: string -> Option<real>, parts: seq<string>,
                         r1: CountyRecord, r2: CountyRecord)
    requires FromRow(cols, parse, parts, r1) && ConsistentRecord(lk, r1)
    requires FromRow(cols, parse, parts, r2) && ConsistentRecord(lk, r2)
    ensures r1 == r2
  {
    assert r1.fips == r2.fips;
    assert Some(r1.state) == StateName(lk.stateFips, r1.fips) == Some(r2.state);
  }

  /** The three row filters that come before the FIPS code is read. */
  predicate PassesFilters(cols: BroadbandColumns, parts: seq<string>) {
    var tech := OrEmpty(Field(parts, cols.techType));
    && Field(parts, cols.geographyType) == Some("County")
    && Field(parts, cols.areaDataType) == Some("Total")
    && (tech == "" || tech == "All Wired")
  }

  /** What `loadBroadbandData` makes of the fields of one data line, before the duplicate check. */
  function BroadbandRow(cols: BroadbandColumns, lk: Lookups, parse: string -> Option<real>,
                        parts: seq<string>): (r: Row<CountyRecord>)
    ensures !PassesFilters(cols, parts) ==> r == Skipped
    ensures r == Aborted <==> PassesFilters(cols, parts) && Field(parts, cols.geographyId) == None
    ensures r.Accepted? ==> FromRow(cols, parse, parts, r.value) && ConsistentRecord(lk, r.value)
    ensures PassesFilters(cols, parts) && Field(parts, cols.geographyId).Some? ==>
      var fips := PadStart(Field(parts, cols.geographyId).value, 5, '0');
      var county := CountyName(Field(parts, cols.geographyDesc), Field(parts, cols.geographyName));
      (r.Accepted? <==> StateName(lk.stateFips, fips).Some? && county != "")
  {
    if !PassesFilters(cols, parts) then Skipped
    else match Field(parts, cols.geographyId)
      case None => Aborted
      case Some(geographyId) =>
        var fips := PadStart(geographyId, 5, '0');
        match StateName(lk.stateFips, fips)
        case None => Skipped
        case Some(state) =>
          var county := CountyName(Field(parts, cols.geographyDesc), Field(parts, cols.geographyName));
          if county == "" then Skipped
          else
            Accepted(MakeRecord(lk, fips, state, county,
              NumberOr0(parse, Field(parts, cols.speed10_1)),
              NumberOr0(parse, Field(parts, cols.speed25_3)),
              NumberOr0(parse, Field(parts, cols.speed100_20)),
              NumberOr0(parse, Field(parts, cols.speed250_25)),
              NumberOr0(parse, Field(parts, cols.speed1000_100))))
  }

  // ---- The duplicate check and the values of the map ----

  /** `if (countiesMap.has(fips)) continue; ... countiesMap.set(fips, record)`. */
  function AddFirst(m: OrderedMap<CountyRecord>, c: CountyRecord): OrderedMap<CountyRecord> {
    if m.Has(c.fips) then m else m.Set(c.fips, c)
  }

  /** The data rows applied to the map in order; a row that throws ends the run. */
  function Collect(m: OrderedMap<CountyRecord>, rows: seq<Row<CountyRecord>>): Result<OrderedMap<CountyRecord>, RunError>
    decreases |rows|
  {
    if rows == [] then Success(m)
    else match rows[0]
      case Skipped => Collect(m, rows[1..])
      case Aborted => Failure(UndefinedGeographyId)
      case Accepted(c) => Collect(AddFirst(m, c), rows[1..])
  }

  /** The duplicate check applied to a sequence of accepted records. */
  function KeepFirst(m: OrderedMap<CountyRecord>, cs: seq<CountyRecord>): OrderedMap<CountyRecord>
    decreases |cs|
  {
    if cs == [] then m else KeepFirst(AddFirst(m, cs[0]), cs[1..])
  }

  /** The loader fails exactly when some data line throws, and otherwise folds the accepted records. */
  lemma {:induction false} CollectFolds(m: OrderedMap<CountyRecord>, rows: seq<Row<CountyRecord>>)
    ensures Collect(m, rows) ==
      if Aborted in rows then Failure(UndefinedGeographyId) else Success(KeepFirst(m, AcceptedValues(rows)))
    decreases |rows|
  {
    if rows != [] {
      assert rows == [rows[0]] + rows[1..];
      assert Aborted in rows <==> rows[0] == Aborted || Aborted in rows[1..];
      match rows[0]
      case Skipped =>
        CollectFolds(m, rows[1..]);
        assert [] + AcceptedValues(rows[1..]) == AcceptedValues(rows[1..]);
      case Aborted =>
      case Accepted(c) =>
        CollectFolds(AddFirst(m, c), rows[1..]);
        var rest := AcceptedValues(rows[1..]);
        assert ([c] + rest)[0] == c && ([c] + rest)[1..] == rest;
    }
  }

  // ---- What the output is, stated without the fold ----

  /** Record `j` is the first one with its FIPS code. */
  ghost predicate IsFirstFor(cs: seq<CountyRecord>, j: int) {
    0 <= j < |cs| && forall k :: 0 <= k < j ==> cs[k].fips != cs[j].fips
  }

  /**
   * `r` is the subsequence of `cs` at positions `idx`, and those are exactly
   * the positions where a FIPS code first appears, in increasing order.
   */
  ghost predicate FirstOccurrences(cs: seq<CountyRecord>, r: seq<CountyRecord>, idx: seq<int>) {
    && |idx| == |r|
    && (forall i :: 0 <= i < |idx| ==> IsFirstFor(cs, idx[i]) && cs[idx[i]] == r[i])
    && (forall i, i' :: 0 <= i < i' < |idx| ==> idx[i] < idx[i'])
    && (forall j :: IsFirstFor(cs, j) ==> j in idx)
  }

  /** The map after the records `cs`: keyed by FIPS, holding each code's first record, in first-appearance order. */
  ghost predicate Tracks(cs: seq<CountyRecord>, m: OrderedMap<CountyRecord>, idx: seq<int>) {
    && m.Valid()
    && (forall k :: k in m.entries ==> m.entries[k].fips == k)
    && (forall j :: 0 <= j < |cs| ==> m.Has(cs[j].fips))
    && FirstOccurrences(cs, m.Values(), idx)
  }

  lemma FirstForPrefix(cs: seq<CountyRecord>, c: CountyRecord, j: int)
    requires 0 <= j < |cs|
    ensures IsFirstFor(cs + [c], j) <==> IsFirstFor(cs, j)
  {
    var cs' := cs + [c];
    assert forall k :: 0 <= k <= j ==> cs'[k] == cs[k];
  }

  /** A record whose code is already in the map changes nothing. */
  lemma AddFirstSeen(cs: seq<CountyRecord>, m: OrderedMap<CountyRecord>, idx: seq<int>, c: CountyRecord)
    requires Tracks(cs, m, idx) && m.Has(c.fips)
    ensures Tracks(cs + [c], AddFirst(m, c), idx)
  {
    var cs' := cs + [c];
    var vs := m.Values();
    assert c.fips in m.order;
    var i :| 0 <= i < |m.order| && m.order[i] == c.fips;
    assert vs[i] == cs[idx[i]] && vs[i].fips == c.fips;
    assert cs'[idx[i]] == cs[idx[i]];
    assert !IsFirstFor(cs', |cs|);
    forall j | IsFirstFor(cs', j) ensures j in idx {
      FirstForPrefix(cs, c, j);
    }
    forall i | 0 <= i < |idx| ensures IsFirstFor(cs', idx[i]) && cs'[idx[i]] == vs[i] {
      FirstForPrefix(cs, c, idx[i]);
    }
    forall j | 0 <= j < |cs'| ensures m.Has(cs'[j].fips) {
      if j < |cs| { assert cs'[j] == cs[j]; }
    }
  }

  /** A record whose code is not yet in the map is the first with that code. */
  lemma NewCodeIsFirst(cs: seq<CountyRecord>, m: OrderedMap<CountyRecord>, idx: seq<int>, c: CountyRecord)
    requires Tracks(cs, m, idx) && !m.Has(c.fips)
    ensures IsFirstFor(cs + [c], |cs|)
  {
    var cs' := cs + [c];
    forall k | 0 <= k < |cs| ensures cs'[k].fips != c.fips {
      assert cs'[k] == cs[k] && m.Has(cs[k].fips);
    }
  }

  /** The positions of the first occurrences grow by the new record's own position. */
  lemma NewCodeOccurrences(cs: seq<CountyRecord>, vs: seq<CountyRecord>, idx: seq<int>, c: CountyRecord)
    requires FirstOccurrences(cs, vs, idx) && IsFirstFor(cs + [c], |cs|)
    ensures FirstOccurrences(cs + [c], vs + [c], idx + [|cs|])
  {
    var cs', vs', idx' := cs + [c], vs + [c], idx + [|cs|];
    forall i | 0 <= i < |idx'| ensures IsFirstFor(cs', idx'[i]) && cs'[idx'[i]] == vs'[i] {
      if i < |idx| { FirstForPrefix(cs, c, idx[i]); }
    }
    forall j | IsFirstFor(cs', j) ensures j in idx' {
      if j < |cs| { FirstForPrefix(cs, c, j); assert j in idx; }
    }
  }

  /** A record with a new code is appended, at a position beyond all earlier ones. */
  lemma AddFirstNew(cs: seq<CountyRecord>, m: OrderedMap<CountyRecord>, idx: seq<int>, c: CountyRecord)
    requires Tracks(cs, m, idx) && !m.Has(c.fips)
    ensures Tracks(cs + [c], AddFirst(m, c), idx + [|cs|])
  {
    var cs' := cs + [c];
    var m' := AddFirst(m, c);
    SetNewValues(m, c.fips, c);
    NewCodeIsFirst(cs, m, idx, c);
    NewCodeOccurrences(cs, m.Values(), idx, c);
    forall j | 0 <= j < |cs'| ensures m'.Has(cs'[j].fips) {
      if j < |cs| { assert cs'[j] == cs[j]; }
    }
  }

  lemma {:induction false} KeepFirstTracks(cs: seq<CountyRecord>, m: OrderedMap<CountyRecord>, idx: seq<int>, rest: seq<CountyRecord>)
    returns (idx': seq<int>)
    requires Tracks(cs, m, idx)
    ensures Tracks(cs + rest, KeepFirst(m, rest), idx')
    decreases |rest|
  {
    if rest == [] {
      assert cs + rest == cs;
      idx' := idx;
    } else {
      var c := rest[0];
      assert cs + [c] + rest[1..] == cs + rest;
      if m.Has(c.fips) {
        AddFirstSeen(cs, m, idx, c);
        idx' := KeepFirstTracks(cs + [c], AddFirst(m, c), idx, rest[1..]);
      } else {
        AddFirstNew(cs, m, idx, c);
        idx' := KeepFirstTracks(cs + [c], AddFirst(m, c), idx + [|cs|], rest[1..]);
      }
    }
  }

  /**
   * Without a throwing line, the loader keeps, for every FIPS code, the first
   * accepted record with that code, in the order the codes first appear; rows
   * that were skipped claim nothing.
   */
  lemma CollectKeepsFirst(rows: seq<Row<CountyRecord>>) returns (idx: seq<int>)
    requires Aborted !in rows
    ensures Collect(EmptyMap(), rows).Success?
    ensures FirstOccurrences(AcceptedValues(rows), Collect(EmptyMap(), rows).value.Values(), idx)
  {
    CollectFolds(EmptyMap(), rows);
    assert Tracks([], EmptyMap(), []);
    idx := KeepFirstTracks([], EmptyMap(), [], AcceptedValues(rows));
    assert [] + AcceptedValues(rows) == AcceptedValues(rows);
  }

  /** At most one record per FIPS code. */
  lemma {:induction false} FirstOccurrencesDistinct(cs: seq<CountyRecord>, r: seq<CountyRecord>, idx: seq<int>)
    requires FirstOccurrences(cs, r, idx)
    ensures forall i, i' :: 0 <= i < i' < |r| ==> r[i].fips != r[i'].fips
  {
    forall i, i' | 0 <= i < i' < |r| ensures r[i].fips != r[i'].fips {
      assert idx[i] < idx[i'] && IsFirstFor(cs, idx[i']);
    }
  }

  /** The first position of a code that appears at `j`. */
  lemma {:induction false} FirstPositionExists(cs: seq<CountyRecord>, j: int) returns (j0: int)
    requires 0 <= j < |cs|
    ensures j0 <= j && IsFirstFor(cs, j0) && cs[j0].fips == cs[j].fips
    decreases j
  {
    if IsFirstFor(cs, j) {
      j0 := j;
    } else {
      var k :| 0 <= k < j && cs[k].fips == cs[j].fips;
      j0 := FirstPositionExists(cs, k);
    }
  }

  /** Every accepted code is represented in the output. */
  lemma FirstOccurrencesCover(cs: seq<CountyRecord>, r: seq<CountyRecord>, idx: seq<int>, j: int)
    requires FirstOccurrences(cs, r, idx) && 0 <= j < |cs|
    ensures exists i :: 0 <= i < |r| && r[i].fips == cs[j].fips
  {
    var j0 := FirstPositionExists(cs, j);
    assert j0 in idx;
    var i :| 0 <= i < |idx| && idx[i] == j0;
    assert r[i] == cs[j0];
  }

  // ---- The file as a whole ----

  /** What the loader makes of each data line. */
  function BroadbandRowsOf(cols: BroadbandColumns, lk: Lookups, parse: string -> Option<real>,
                           lines: seq<string>): seq<Row<CountyRecord>>
  {
    if lines == [] then [] else [BroadbandRow(cols, lk, parse, Fields(lines[0]))] + BroadbandRowsOf(cols, lk, parse, lines[1..])
  }

  /** The rows of the data lines of a file, read with the columns of its header line. */
  function DataRows(lk: Lookups, parse: string -> Option<real>, lines: seq<string>): seq<Row<CountyRecord>>
  {
    if lines == [] then [] else BroadbandRowsOf(BroadbandColumnsOf(Fields(lines[0])), lk, parse, lines[1..])
  }

  /** `Array.from(countiesMap.values())`, unless the run failed. */
  function Finish(res: Result<OrderedMap<CountyRecord>, RunError>): Result<seq<CountyRecord>, RunError>
  {
    match res
    case Success(m) => Success(m.Values())
    case Failure(e) => Failure(e)
  }

  /** What `loadBroadbandData` returns for a file with the given lines. */
  function BroadbandOf(lk: Lookups, parse: string -> Option<real>, lines: seq<string>): Result<seq<CountyRecord>, RunError>
  {
    Finish(Collect(EmptyMap(), DataRows(lk, parse, lines)))
  }

  lemma {:induction false} BroadbandRowsOfEach(cols: BroadbandColumns, lk: Lookups, parse: string -> Option<real>, lines: seq<string>)
    ensures |BroadbandRowsOf(cols, lk, parse, lines)| == |lines|
    ensures forall k :: 0 <= k < |lines| ==> BroadbandRowsOf(cols, lk, parse, lines)[k] == BroadbandRow(cols, lk, parse, Fields(lines[k]))
    decreases |lines|
  {
    if lines != [] {
      BroadbandRowsOfEach(cols, lk, parse, lines[1..]);
      var rows := BroadbandRowsOf(cols, lk, parse, lines);
      forall k | 0 <= k < |lines| ensures rows[k] == BroadbandRow(cols, lk, parse, Fields(lines[k])) {
        if k > 0 { assert lines[1..][k - 1] == lines[k]; }
      }
    }
  }

  /** Every record an accepted row carries is what one of the lines gives. */
  lemma AcceptedRecordsConsistent(cols: BroadbandColumns, lk: Lookups, parse: string -> Option<real>, lines: seq<string>)
    ensures forall c :: c in AcceptedValues(BroadbandRowsOf(cols, lk, parse, lines)) ==>
      exists k :: 0 <= k < |lines| && BroadbandRow(cols, lk, parse, Fields(lines[k])) == Accepted(c)
  {
    var rows := BroadbandRowsOf(cols, lk, parse, lines);
    BroadbandRowsOfEach(cols, lk, parse, lines);
    forall c | c in AcceptedValues(rows)
      ensures exists k :: 0 <= k < |lines| && BroadbandRow(cols, lk, parse, Fields(lines[k])) == Accepted(c)
    {
      var j := AcceptedValueAt(rows, c);
      assert BroadbandRow(cols, lk, parse, Fields(lines[j])) == Accepted(c);
    }
  }

  /**
   * The output of `loadBroadbandData`: it fails exactly when a data line
   * throws; otherwise it holds, in first-appearance order, the first accepted
   * record of every FIPS code, one record per code, each consistent with the
   * lookups.
   */
  lemma BroadbandOutput(lk: Lookups, parse: string -> Option<real>, lines: seq<string>)
    ensures BroadbandOf(lk, parse, lines).Failure? <==> Aborted in DataRows(lk, parse, lines)
    ensures BroadbandOf(lk, parse, lines).Success? ==>
      var r := BroadbandOf(lk, parse, lines).value;
      && (exists idx :: FirstOccurrences(AcceptedValues(DataRows(lk, parse, lines)), r, idx))
      && (forall i, i' :: 0 <= i < i' < |r| ==> r[i].fips != r[i'].fips)
      && (forall i :: 0 <= i < |r| ==> ConsistentRecord(lk, r[i]))
      && (lines == [] ==> r == [])
      && (lines != [] ==> forall i :: 0 <= i < |r| ==>
            exists k :: 1 <= k < |lines| && FromRow(BroadbandColumnsOf(Fields(lines[0])), parse, Fields(lines[k]), r[i]))
  {
    var rows := DataRows(lk, parse, lines);
    CollectFolds(EmptyMap(), rows);
    if Aborted !in rows {
      var idx := CollectKeepsFirst(rows);
      var cs := AcceptedValues(rows);
      var r := Collect(EmptyMap(), rows).value.Values();
      FirstOccurrencesDistinct(cs, r, idx);
      if lines == [] {
        assert rows == [] && cs == [] && |r| == |idx| == 0;
      } else {
        OutputFromLines(lk, parse, lines, r, idx);
      }
    }
  }

  /** An accepted record of the file is consistent and is read off a data line. */
  lemma AcceptedFromLine(lk: Lookups, parse: string -> Option<real>, lines: seq<string>, c: CountyRecord)
    requires lines != [] && c in AcceptedValues(DataRows(lk, parse, lines))
    ensures ConsistentRecord(lk, c)
    ensures exists k :: 1 <= k < |lines| && FromRow(BroadbandColumnsOf(Fields(lines[0])), parse, Fields(lines[k]), c)
  {
    var cols := BroadbandColumnsOf(Fields(lines[0]));
    var rows := DataRows(lk, parse, lines);
    var j := AcceptedValueAt(rows, c);
    BroadbandRowsOfEach(cols, lk, parse, lines[1..]);
    assert lines[1..][j] == lines[j + 1];
    assert BroadbandRow(cols, lk, parse, Fields(lines[j + 1])) == Accepted(c);
    assert FromRow(cols, parse, Fields(lines[j + 1]), c);
  }

  /** Each kept record is consistent and is read off a data line. */
  lemma OutputFromLines(lk: Lookups, parse: string -> Option<real>, lines: seq<string>, r: seq<CountyRecord>, idx: seq<int>)
    requires lines != [] && FirstOccurrences(AcceptedValues(DataRows(lk, parse, lines)), r, idx)
    ensures forall i :: 0 <= i < |r| ==>
      && ConsistentRecord(lk, r[i])
      && exists k :: 1 <= k < |lines| && FromRow(BroadbandColumnsOf(Fields(lines[0])), parse, Fields(lines[k]), r[i])
  {
    var cs := AcceptedValues(DataRows(lk, parse, lines));
    forall i | 0 <= i < |r|
      ensures
        && ConsistentRecord(lk, r[i])
        && exists k :: 1 <= k < |lines| && FromRow(BroadbandColumnsOf(Fields(lines[0])), parse, Fields(lines[k]), r[i])
    {
      assert r[i] == cs[idx[i]] && cs[idx[i]] in cs;
      AcceptedFromLine(lk, parse, lines, r[i]);
    }
  }

  /** What the header line sets up for the loop below. */
  lemma LoadHeader(cols: BroadbandColumns, lk: Lookups, parse: string -> Option<real>, lines: seq<string>)
    requires lines != [] && cols == BroadbandColumnsOf(Fields(lines[0]))
    ensures |BroadbandRowsOf(cols, lk, parse, lines[1..])| == |lines| - 1
    ensures forall k :: 0 <= k < |lines| - 1 ==> BroadbandRowsOf(cols, lk, parse, lines[1..])[k] == BroadbandRow(cols, lk, parse, Fields(lines[k + 1]))
    ensures Finish(Collect(EmptyMap(), BroadbandRowsOf(cols, lk, parse, lines[1..])[0..])) == BroadbandOf(lk, parse, lines)
  {
    var rows := BroadbandRowsOf(cols, lk, parse, lines[1..]);
    BroadbandRowsOfEach(cols, lk, parse, lines[1..]);
    assert rows[0..] == rows;
  }

  /** One step of the loader over the remaining rows. */
  lemma LoadStep(m: OrderedMap<CountyRecord>, rows: seq<Row<CountyRecord>>, k: nat, target: Result<seq<CountyRecord>, RunError>)
    requires k < |rows|
    requires Finish(Collect(m, rows[k..])) == target
    ensures rows[k].Aborted? ==> target == Failure(UndefinedGeographyId)
    ensures rows[k].Skipped? ==> Finish(Collect(m, rows[k + 1..])) == target
    ensures rows[k].Accepted? ==> Finish(Collect(AddFirst(m, rows[k].value), rows[k + 1..])) == target
  {
    var t := rows[k..];
    assert t[0] == rows[k] && t[1..] == rows[k + 1..];
  }

  /** The streaming loop of `loadBroadbandData`, over `headers`, `colIndices` and the `countiesMap` map. */
  method LoadBroadbandData(lk: Lookups, parse: string -> Option<real>, lines: seq<string>)
    returns (result: Result<seq<CountyRecord>, RunError>)
    ensures result == BroadbandOf(lk, parse, lines)
  {
    var countiesMap: OrderedMap<CountyRecord> := EmptyMap();
    var headers: Option<seq<string>> := None;
    var cols := BroadbandColumnsOf([]);
    ghost var rows: seq<Row<CountyRecord>> := [];
    ghost var target := BroadbandOf(lk, parse, lines);
    for n := 0 to |lines|
      invariant headers.None? <==> n == 0
      invariant n == 0 ==> countiesMap == EmptyMap()
      invariant n > 0 ==> |rows| == |lines| - 1
      invariant n > 0 ==> forall k :: 0 <= k < |rows| ==> rows[k] == BroadbandRow(cols, lk, parse, Fields(lines[k + 1]))
      invariant n > 0 ==> Finish(Collect(countiesMap, rows[n - 1..])) == target
    {
      var parts := ParseCsvLine(lines[n]);
      if headers.None? {
        headers := Some(parts);
        cols := BroadbandColumnsOf(parts);
        rows := BroadbandRowsOf(cols, lk, parse, lines[1..]);
        LoadHeader(cols, lk, parse, lines);
        continue;
      }
      var row := BroadbandRow(cols, lk, parse, parts);
      assert row == rows[n - 1];
      LoadStep(countiesMap, rows, n - 1, target);
      match row {
        case Skipped =>
        case Aborted =>
          return Failure(UndefinedGeographyId);
        case Accepted(record) =>
          if !countiesMap.Has(record.fips) {
            countiesMap := countiesMap.Set(record.fips, record);
          }
      }
    }
    if |lines| > 0 {
      assert rows[|lines| - 1..] == [];
    }
    result := Success(countiesMap.Values());
  }
}
