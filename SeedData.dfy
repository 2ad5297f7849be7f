/**
 * `findCSVFiles` and `main` of scripts/seed-data.js: locate the three input
 * files, run the three loaders, sort the counties by remote-work score and
 * collect the sorted distinct state names. The directory listing and the
 * file contents are inputs; the timestamp and the console report are not
 * modelled.
 */
module SeedData {
  import opened Wrappers
  import Csv
  import opened OrderedMaps
  import opened Text
  import opened Columns
  import opened Tables
  import Rural
  import Providers
  import opened Broadband
  import opened Sorting

  /** What `findCSVFiles` returns: a file name for each input, or `undefined`. */
  datatype CsvFiles = CsvFiles(broadband: Option<string>, provider: Option<string>, rural: Option<string>)

  /** `f` is the name at some position `i` that satisfies `p`, and no name before `i` does. */
  ghost predicate FirstMatch(files: seq<string>, p: string -> bool, f: string) {
    exists i :: 0 <= i < |files| && files[i] == f && p(f) && forall j :: 0 <= j < i ==> !p(files[j])
  }

  /** At most one name is the first match. */
  lemma FirstMatchUnique(files: seq<string>, p: string -> bool, f1: string, f2: string)
    requires FirstMatch(files, p, f1) && FirstMatch(files, p, f2)
    ensures f1 == f2
  {
    var i1 :| 0 <= i1 < |files| && files[i1] == f1 && p(f1) && forall j :: 0 <= j < i1 ==> !p(files[j]);
    var i2 :| 0 <= i2 < |files| && files[i2] == f2 && p(f2) && forall j :: 0 <= j < i2 ==> !p(files[j]);
    assert !(i1 < i2) && !(i2 < i1);
  }

  /** `files.find(p)`: the first name satisfying `p`. */
  function FindFirst(files: seq<string>, p: string -> bool): (r: Option<string>)
    ensures r.Some? <==> exists i :: 0 <= i < |files| && p(files[i])
    ensures r.Some? ==> FirstMatch(files, p, r.value)
  {
    if files == [] then None
    else if p(files[0]) then Some(files[0])
    else
      var r := FindFirst(files[1..], p);
      assert forall i :: 1 <= i < |files| ==> files[i] == files[1..][i - 1];
      assert r.Some? ==> exists i :: 0 <= i < |files| && files[i] == r.value && p(r.value) && forall j :: 0 <= j < i ==> !p(files[j]) by {
        if r.Some? {
          var i :| 0 <= i < |files[1..]| && files[1..][i] == r.value && p(r.value) && forall j :: 0 <= j < i ==> !p(files[1..][j]);
          assert files[i + 1] == r.value && forall j :: 0 <= j < i + 1 ==> !p(files[j]);
        }
      }
      r
  }

  const BroadbandPattern := "fixed_broadband_summary"
  const ProviderPattern := "provider_summary"
  const RuralPatterns := ["rural", "cfpb"]
  predicate IsBroadbandFile(f: string) { Contains(f, BroadbandPattern) }
  predicate IsProviderFile(f: string) { Contains(f, ProviderPattern) }
  predicate IsRuralFile(f: string) { Contains(f, RuralPatterns[0]) || Contains(f, RuralPatterns[1]) }

  /** `findCSVFiles` over the directory listing `files`. */
  function FindCsvFiles(files: seq<string>): (r: CsvFiles)
    ensures r.broadband.Some? <==> exists i :: 0 <= i < |files| && IsBroadbandFile(files[i])
    ensures r.provider.Some? <==> exists i :: 0 <= i < |files| && IsProviderFile(files[i])
    ensures r.rural.Some? <==> exists i :: 0 <= i < |files| && IsRuralFile(files[i])
    ensures r.broadband.Some? ==> IsBroadbandFile(r.broadband.value) && r.broadband.value in files
    ensures r.provider.Some? ==> IsProviderFile(r.provider.value) && r.provider.value in files
    ensures r.rural.Some? ==> IsRuralFile(r.rural.value) && r.rural.value in files
    ensures r.broadband.Some? ==> FirstMatch(files, IsBroadbandFile, r.broadband.value)
    ensures r.provider.Some? ==> FirstMatch(files, IsProviderFile, r.provider.value)
    ensures r.rural.Some? ==> FirstMatch(files, IsRuralFile, r.rural.value)
  {
    CsvFiles(FindFirst(files, IsBroadbandFile), FindFirst(files, IsProviderFile), FindFirst(files, IsRuralFile))
  }

  /** The three static tables `main` consults. */
  datatype StaticTables = StaticTables(stateFips: map<string, string>, colIndex: map<string, int>, providerNames: map<string, string>)

  /**
   * The tables as scripts/seed-data.js defines them. `Run` and `Seed` take the
   * tables as a parameter, and the script's own run is the one with these.
   */
  const SourceTables := StaticTables(StateFips, StateColIndex, ProviderNames)

  /** The `output` object of `main`, without its timestamp. */
  datatype Dataset = Dataset(totalCounties: nat, totalStates: nat, states: seq<string>, counties: seq<CountyRecord>)

  /** The sort key of `(a, b) => b.remoteWorkScore - a.remoteWorkScore`. */
  function Score(c: CountyRecord): int { c.remoteWorkScore }

  /** `counties.map(c => c.state)`. */
  function StatesOf(counties: seq<CountyRecord>): (r: seq<string>)
    ensures |r| == |counties| && forall i :: 0 <= i < |counties| ==> r[i] == counties[i].state
  {
    seq(|counties|, i requires 0 <= i < |counties| => counties[i].state)
  }

  /** The dataset built from sorted counties. */
  function Output(counties: seq<CountyRecord>): Dataset
  {
    var states := SortedUnique(StatesOf(counties));
    Dataset(|counties|, |states|, states, counties)
  }

  /** The counties the three loaders build from the three named files. */
  function LoadAll(tables: StaticTables, broadband: string, provider: string, rural: string,
                   read: string -> seq<string>, parse: string -> Option<real>): Result<seq<CountyRecord>, RunError>
  {
    var ruralFips := Rural.RuralCountiesOf(read(rural));
    var providers := Providers.ProvidersOf(tables.providerNames, parse, read(provider));
    if providers.Failure? then Failure(providers.error)
    else BroadbandOf(Lookups(tables.stateFips, tables.colIndex, ruralFips, providers.value), parse, read(broadband))
  }

  /**
   * What `main` produces, given its tables, whether the csv_files directory
   * exists, its listing, the lines of each file and `parseFloat`.
   */
  function Run(tables: StaticTables, dirExists: bool, files: seq<string>, read: string -> seq<string>, parse: string -> Option<real>): Result<Dataset, RunError>
  {
    if !dirExists then Failure(MissingCsvDirectory)
    else
      var csvFiles := FindCsvFiles(files);
      if csvFiles.broadband.None? || csvFiles.provider.None? || csvFiles.rural.None? then Failure(MissingCsvFiles)
      else
        var loaded := LoadAll(tables, csvFiles.broadband.value, csvFiles.provider.value, csvFiles.rural.value, read, parse);
        if loaded.Failure? then Failure(loaded.error)
        else Success(Output(SortDesc(loaded.value, Score)))
  }

  /**
   * The published dataset: the loaded counties reordered by non-increasing
   * score, equal scores in load order, with the sorted distinct states of
   * those counties and the two totals.
   */
  lemma OutputProperties(loaded: seq<CountyRecord>)
    ensures var d := Output(SortDesc(loaded, Score));
      && d.totalCounties == |d.counties| == |loaded| && d.totalStates == |d.states|
      && SortedDesc(d.counties, Score)
      && multiset(d.counties) == multiset(loaded)
      && (forall k :: WithKey(d.counties, Score, k) == WithKey(loaded, Score, k))
      && StrictlyIncreasing(d.states)
      && (forall x :: x in d.states <==> exists i :: 0 <= i < |d.counties| && d.counties[i].state == x)
  {
    var d := Output(SortDesc(loaded, Score));
    SortDescCorrect(loaded, Score);
    assert |d.counties| == |multiset(d.counties)| == |multiset(loaded)| == |loaded|;
    forall x ensures x in d.states <==> exists i :: 0 <= i < |d.counties| && d.counties[i].state == x {
      var ss := StatesOf(d.counties);
      if x in ss {
        var i :| 0 <= i < |ss| && ss[i] == x;
        assert d.counties[i].state == x;
      }
      if exists i :: 0 <= i < |d.counties| && d.counties[i].state == x {
        var i :| 0 <= i < |d.counties| && d.counties[i].state == x;
        assert ss[i] == x;
      }
    }
  }

  /** A loader only ever fails on an undefined geography id. */
  lemma LoadAllFailure(tables: StaticTables, broadband: string, provider: string, rural: string,
                       read: string -> seq<string>, parse: string -> Option<real>)
    ensures LoadAll(tables, broadband, provider, rural, read, parse).Failure? ==>
      LoadAll(tables, broadband, provider, rural, read, parse).error == UndefinedGeographyId
  {
    var lines := read(provider);
    if lines != [] {
      Providers.ResolveRowsFolds(map[], Providers.RowsOf(Providers.ProviderColumnsOf(Csv.Fields(lines[0])), tables.providerNames, parse, lines[1..]));
    }
    var providers := Providers.ProvidersOf(tables.providerNames, parse, lines);
    if providers.Success? {
      var lk := Lookups(tables.stateFips, tables.colIndex, Rural.RuralCountiesOf(read(rural)), providers.value);
      CollectFolds(EmptyMap(), DataRows(lk, parse, read(broadband)));
    }
  }

  /** The run stops with MissingCsvDirectory exactly when the directory is absent. */
  lemma RunMissingDirectory(tables: StaticTables, dirExists: bool, files: seq<string>, read: string -> seq<string>, parse: string -> Option<real>)
    ensures Run(tables, dirExists, files, read, parse) == Failure(MissingCsvDirectory) <==> !dirExists
  {
    var f := FindCsvFiles(files);
    if dirExists && f.broadband.Some? && f.provider.Some? && f.rural.Some? {
      LoadAllFailure(tables, f.broadband.value, f.provider.value, f.rural.value, read, parse);
    }
  }

  /** With the directory present, it stops with MissingCsvFiles exactly when one of the three files is not in the listing. */
  lemma RunMissingFiles(tables: StaticTables, files: seq<string>, read: string -> seq<string>, parse: string -> Option<real>)
    ensures Run(tables, true, files, read, parse) == Failure(MissingCsvFiles) <==>
      || !(exists i :: 0 <= i < |files| && IsBroadbandFile(files[i]))
      || !(exists i :: 0 <= i < |files| && IsProviderFile(files[i]))
      || !(exists i :: 0 <= i < |files| && IsRuralFile(files[i]))
  {
    var f := FindCsvFiles(files);
    if f.broadband.Some? && f.provider.Some? && f.rural.Some? {
      LoadAllFailure(tables, f.broadband.value, f.provider.value, f.rural.value, read, parse);
    }
  }

  /** Otherwise it fails only where a loader fails, and publishes the sorted loader output. */
  lemma RunPublishes(tables: StaticTables, dirExists: bool, files: seq<string>, read: string -> seq<string>, parse: string -> Option<real>)
    requires Run(tables, dirExists, files, read, parse).Success?
    ensures var f := FindCsvFiles(files);
      && f.broadband.Some? && f.provider.Some? && f.rural.Some?
      && var loaded := LoadAll(tables, f.broadband.value, f.provider.value, f.rural.value, read, parse);
      && loaded.Success?
      && Run(tables, dirExists, files, read, parse).value == Output(SortDesc(loaded.value, Score))
  {
  }

  /** The loaders in turn, as `main` awaits them. */
  method LoadInputs(tables: StaticTables, broadband: string, provider: string, rural: string,
                    read: string -> seq<string>, parse: string -> Option<real>) returns (result: Result<seq<CountyRecord>, RunError>)
    ensures result == LoadAll(tables, broadband, provider, rural, read, parse)
  {
    var ruralFips := Rural.LoadRuralCounties(read(rural));
    var providers := Providers.LoadProviders(tables.providerNames, parse, read(provider));
    if providers.Failure? {
      return Failure(providers.error);
    }
    result := LoadBroadbandData(Lookups(tables.stateFips, tables.colIndex, ruralFips, providers.value), parse, read(broadband));
  }

  /** `counties.sort((a, b) => b.remoteWorkScore - a.remoteWorkScore)` on an array holding the loaded counties. */
  method SortCounties(loaded: seq<CountyRecord>) returns (counties: seq<CountyRecord>)
    ensures counties == SortDesc(loaded, Score)
  {
    var a := new CountyRecord[|loaded|](i requires 0 <= i < |loaded| => loaded[i]);
    assert a[..] == loaded;
    SortInPlace(a, Score);
    counties := a[..];
  }

  /** `main`: find the files, load, sort the counties in place and list the states. */
  method Seed(tables: StaticTables, dirExists: bool, files: seq<string>, read: string -> seq<string>, parse: string -> Option<real>)
    returns (result: Result<Dataset, RunError>)
    ensures result == Run(tables, dirExists, files, read, parse)
  {
    if !dirExists {
      return Failure(MissingCsvDirectory);
    }
    var csvFiles := FindCsvFiles(files);
    if csvFiles.broadband.None? || csvFiles.provider.None? || csvFiles.rural.None? {
      return Failure(MissingCsvFiles);
    }
    var loaded := LoadInputs(tables, csvFiles.broadband.value, csvFiles.provider.value, csvFiles.rural.value, read, parse);
    if loaded.Failure? {
      return Failure(loaded.error);
    }
    var counties := SortCounties(loaded.value);
    result := Success(Output(counties));
  }
}
