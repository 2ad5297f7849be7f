/**
 * scripts/find-unnamed-providers.js: the counties whose top provider is an
 * unnamed "Local ISP #<id>", grouped by id in first-appearance order, then
 * sorted by how many counties each id serves and projected into the report.
 * The dataset is the `counties` sequence seed-data.js publishes; reading and
 * writing the JSON files and the console summary are not modelled.
 */
module UnnamedProviders {
  import opened Wrappers
  import opened Text
  import opened OrderedMaps
  import opened Sorting
  import Providers
  import opened Broadband

  const LocalIspPrefix := "Local ISP #"

  /** `\d`: an ASCII digit. */
  predicate IsDigit(c: char) {
    '0' <= c <= '9'
  }

  predicate AllDigits(s: string) {
    forall i :: 0 <= i < |s| ==> IsDigit(s[i])
  }

  /** `s.match(/^Local ISP #(\d+)$/)`: the captured digits, or no match. */
  function MatchLocalIsp(s: string): (r: Option<string>)
    ensures r.Some? ==> s == LocalIspPrefix + r.value && r.value != [] && AllDigits(r.value)
  {
    var n := |LocalIspPrefix|;
    if |s| > n && s[..n] == LocalIspPrefix && AllDigits(s[n..]) then
      assert s == s[..n] + s[n..];
      Some(s[n..])
    else None
  }

  /** The match is complete: every prefix-plus-digits name yields its digits. */
  lemma MatchLocalIspComplete(d: string)
    requires d != [] && AllDigits(d)
    ensures MatchLocalIsp(LocalIspPrefix + d) == Some(d)
  {
    var s := LocalIspPrefix + d;
    assert s[..|LocalIspPrefix|] == LocalIspPrefix && s[|LocalIspPrefix|..] == d;
  }

  /**
   * The names seed-data.js gives unnamed providers are the ones matched: a
   * digit id missing from the name table comes back out of the match, and
   * a county without any provider ("Local ISP") is not matched.
   */
  lemma DisplayNameRoundTrip(names: map<string, string>, id: string, providers: map<string, Providers.ProviderRecord>, fips: string)
    requires id != [] && AllDigits(id) && (id !in names || names[id] == "")
    ensures MatchLocalIsp(Providers.DisplayName(names, Some(id))) == Some(id)
    ensures fips !in providers ==> MatchLocalIsp(TopProvider(providers, fips)) == None
  {
    assert Providers.DisplayName(names, Some(id)) == LocalIspPrefix + id;
    MatchLocalIspComplete(id);
  }

  /** The id a county is counted under, if any. */
  function IdOf(c: CountyRecord): Option<string> {
    MatchLocalIsp(c.topProvider)
  }

  /** `{ county, state, fips }`: what the group keeps of a county. */
  datatype Sample = Sample(county: string, state: string, fips: string)

  function SampleOf(c: CountyRecord): Sample {
    Sample(c.county, c.state, c.fips)
  }

  /** The matched id of every matching county, in dataset order. */
  function IdList(cs: seq<CountyRecord>): seq<string> {
    if cs == [] then []
    else
      var c := cs[|cs| - 1];
      IdList(cs[..|cs| - 1]) + (if IdOf(c).Some? then [IdOf(c).value] else [])
  }

  /** The distinct ids, in order of first appearance. */
  function MatchedIds(cs: seq<CountyRecord>): seq<string> {
    Distinct(IdList(cs))
  }

  /** The counties carrying `id`, in dataset order. */
  function Matching(cs: seq<CountyRecord>, id: string): seq<Sample> {
    if cs == [] then []
    else
      var c := cs[|cs| - 1];
      Matching(cs[..|cs| - 1], id) + (if IdOf(c) == Some(id) then [SampleOf(c)] else [])
  }

  /** The states `provider.states.add(county.state)` is called with, one per pushed county. */
  function StateList(ss: seq<Sample>): (r: seq<string>)
    ensures |r| == |ss| && forall i :: 0 <= i < |ss| ==> r[i] == ss[i].state
  {
    if ss == [] then []
    else
      var init := StateList(ss[..|ss| - 1]);
      assert forall i :: 0 <= i < |ss| - 1 ==> ss[..|ss| - 1][i] == ss[i];
      init + [ss[|ss| - 1].state]
  }

  /** One entry of the `unnamedProviders` map: the id, its counties and its `Set` of states in insertion order. */
  datatype Group = Group(id: string, counties: seq<Sample>, states: seq<string>)

  /** The group the scan builds for `id`. */
  function GroupFor(cs: seq<CountyRecord>, id: string): Group {
    var ss := Matching(cs, id);
    Group(id, ss, Distinct(StateList(ss)))
  }

  /** The groups of the listed ids, in that order. */
  function GroupsFor(cs: seq<CountyRecord>, ids: seq<string>): (r: seq<Group>)
    ensures |r| == |ids| && forall i :: 0 <= i < |ids| ==> r[i] == GroupFor(cs, ids[i])
  {
    if ids == [] then [] else [GroupFor(cs, ids[0])] + GroupsFor(cs, ids[1..])
  }

  /** `[...unnamedProviders.values()]`: one group per matched id, in first-appearance order. */
  function GroupsOf(cs: seq<CountyRecord>): seq<Group> {
    GroupsFor(cs, MatchedIds(cs))
  }

  /** A county with a given id makes that id appear. */
  lemma {:induction false} MatchingHasId(cs: seq<CountyRecord>, id: string)
    ensures Matching(cs, id) != [] ==> id in IdList(cs)
  {
    if cs != [] {
      MatchingHasId(cs[..|cs| - 1], id);
    }
  }

  /** `s` is among the samples of `id` exactly when some county with that id produced it. */
  lemma {:induction false} MatchingMembers(cs: seq<CountyRecord>, id: string, s: Sample)
    ensures s in Matching(cs, id) <==> exists j :: 0 <= j < |cs| && IdOf(cs[j]) == Some(id) && SampleOf(cs[j]) == s
  {
    if cs != [] {
      var init := cs[..|cs| - 1];
      MatchingMembers(init, id, s);
      assert forall j :: 0 <= j < |init| ==> init[j] == cs[j];
    }
  }

  /** An id is matched exactly when some county carries it. */
  lemma {:induction false} IdListMembers(cs: seq<CountyRecord>, id: string)
    ensures id in IdList(cs) <==> exists j :: 0 <= j < |cs| && IdOf(cs[j]) == Some(id)
  {
    if cs != [] {
      var init := cs[..|cs| - 1];
      IdListMembers(init, id);
      assert forall j :: 0 <= j < |init| ==> init[j] == cs[j];
    }
  }

  /** The scan so far: the map holds the group of every id matched in `cs`, in first-appearance order. */
  ghost predicate Grouped(cs: seq<CountyRecord>, m: OrderedMap<Group>) {
    && m.Valid()
    && m.order == MatchedIds(cs)
    && forall k :: k in m.entries ==> m.entries[k] == GroupFor(cs, k)
  }

  /** `Set` insertion order: adding a value to the end of a list appends it to its distinct values when it is new. */
  lemma DistinctSnoc(xs: seq<string>, x: string)
    ensures Distinct(xs + [x]) == if x in Distinct(xs) then Distinct(xs) else Distinct(xs) + [x]
  {
    var ys := xs + [x];
    assert ys[..|ys| - 1] == xs;
  }

  /** A county without a match leaves the scan's state as it was. */
  lemma GroupStepOther(cs: seq<CountyRecord>, c: CountyRecord, m: OrderedMap<Group>)
    requires Grouped(cs, m) && IdOf(c).None?
    ensures Grouped(cs + [c], m)
  {
    var cs' := cs + [c];
    assert cs'[..|cs'| - 1] == cs;
    assert IdList(cs') == IdList(cs);
    forall k ensures Matching(cs', k) == Matching(cs, k) {
    }
  }

  /** A matching county is appended to its group, and its state to the group's states when new. */
  lemma GroupGrows(cs: seq<CountyRecord>, c: CountyRecord, id: string)
    requires IdOf(c) == Some(id)
    ensures var g := GroupFor(cs, id);
      GroupFor(cs + [c], id) == Group(id, g.counties + [SampleOf(c)], if c.state in g.states then g.states else g.states + [c.state])
  {
    var cs' := cs + [c];
    assert cs'[..|cs'| - 1] == cs;
    var ss := Matching(cs, id);
    assert Matching(cs', id) == ss + [SampleOf(c)];
    assert StateList(ss + [SampleOf(c)]) == StateList(ss) + [c.state];
    DistinctSnoc(StateList(ss), c.state);
  }

  /** A matching county changes no other group, and adds its id in last place when the id is new. */
  lemma OthersStay(cs: seq<CountyRecord>, c: CountyRecord, id: string)
    requires IdOf(c) == Some(id)
    ensures MatchedIds(cs + [c]) == if id in MatchedIds(cs) then MatchedIds(cs) else MatchedIds(cs) + [id]
    ensures forall k :: k != id ==> GroupFor(cs + [c], k) == GroupFor(cs, k)
    ensures id !in MatchedIds(cs) ==> GroupFor(cs, id) == Group(id, [], [])
  {
    MatchedIdsSnoc(cs, c, id);
    OtherGroupsStay(cs, c, id);
    MatchingHasId(cs, id);
  }

  lemma MatchedIdsSnoc(cs: seq<CountyRecord>, c: CountyRecord, id: string)
    requires IdOf(c) == Some(id)
    ensures MatchedIds(cs + [c]) == if id in MatchedIds(cs) then MatchedIds(cs) else MatchedIds(cs) + [id]
  {
    var cs' := cs + [c];
    assert cs'[..|cs'| - 1] == cs;
    assert IdList(cs') == IdList(cs) + [id];
    DistinctSnoc(IdList(cs), id);
  }

  lemma OtherGroupsStay(cs: seq<CountyRecord>, c: CountyRecord, id: string)
    requires IdOf(c) == Some(id)
    ensures forall k :: k != id ==> GroupFor(cs + [c], k) == GroupFor(cs, k)
  {
    var cs' := cs + [c];
    assert cs'[..|cs'| - 1] == cs;
    forall k | k != id ensures Matching(cs', k) == Matching(cs, k) {
    }
  }

  /** A matching county starts its id's group if needed and is appended to it. */
  lemma GroupStepMatch(cs: seq<CountyRecord>, c: CountyRecord, m: OrderedMap<Group>, id: string)
    requires Grouped(cs, m) && IdOf(c) == Some(id)
    ensures var m0 := if m.Has(id) then m else m.Set(id, Group(id, [], []));
      var g := m0.entries[id];
      Grouped(cs + [c], m0.Set(id, Group(id, g.counties + [SampleOf(c)], if c.state in g.states then g.states else g.states + [c.state])))
  {
    OthersStay(cs, c, id);
    GroupGrows(cs, c, id);
    var cs' := cs + [c];
    var m0 := if m.Has(id) then m else m.Set(id, Group(id, [], []));
    var g := m0.entries[id];
    assert m.Has(id) <==> id in MatchedIds(cs);
    assert g == GroupFor(cs, id);
    var m1 := m0.Set(id, Group(id, g.counties + [SampleOf(c)], if c.state in g.states then g.states else g.states + [c.state]));
    assert m1.entries[id] == GroupFor(cs', id);
    assert m1.order == MatchedIds(cs');
    assert m1.Valid();
    forall k | k in m1.entries ensures m1.entries[k] == GroupFor(cs', k) {
      if k != id {
        assert m1.entries[k] == m.entries[k];
      }
    }
  }

  /** The scan of the `for...of` loop: the `unnamedProviders` map, then its values. */
  method GroupUnnamed(counties: seq<CountyRecord>) returns (groups: seq<Group>)
    ensures groups == GroupsOf(counties)
  {
    var unnamed: OrderedMap<Group> := EmptyMap();
    for n := 0 to |counties|
      invariant Grouped(counties[..n], unnamed)
    {
      var county := counties[n];
      assert counties[..n + 1] == counties[..n] + [county];
      var found := MatchLocalIsp(county.topProvider);
      if found.Some? {
        var providerId := found.value;
        GroupStepMatch(counties[..n], county, unnamed, providerId);
        if !unnamed.Has(providerId) {
          unnamed := unnamed.Set(providerId, Group(providerId, [], []));
        }
        var provider := unnamed.entries[providerId];
        var states := if county.state in provider.states then provider.states else provider.states + [county.state];
        unnamed := unnamed.Set(providerId, Group(providerId, provider.counties + [SampleOf(county)], states));
      } else {
        GroupStepOther(counties[..n], county, unnamed);
      }
    }
    assert counties[..|counties|] == counties;
    groups := unnamed.Values();
  }

  // ---- The report ----

  /** `${c.county}, ${c.state}`. */
  function SampleText(s: Sample): string {
    s.county + ", " + s.state
  }

  /** One element of `providers` in unnamed-providers.json. */
  datatype ReportEntry = ReportEntry(id: string, frequency: nat, states: seq<string>, sampleCounties: seq<string>)

  /** The sort key `p.counties.length`. */
  function Frequency(g: Group): int {
    |g.counties|
  }

  /** The projection of a group: its sorted states and `p.counties.slice(0, 5)` as text. */
  function EntryOf(g: Group): (e: ReportEntry)
    ensures e.id == g.id && e.frequency == |g.counties|
    ensures StrictlyIncreasing(e.states) && forall x :: x in e.states <==> x in g.states
    ensures |e.sampleCounties| == (if |g.counties| < 5 then |g.counties| else 5)
    ensures forall i :: 0 <= i < |e.sampleCounties| ==> e.sampleCounties[i] == SampleText(g.counties[i])
  {
    var n := if |g.counties| < 5 then |g.counties| else 5;
    ReportEntry(g.id, |g.counties|, SortedUnique(g.states), seq(n, i requires 0 <= i < n => SampleText(g.counties[i])))
  }

  /** `sorted.map(...)`. */
  function Entries(gs: seq<Group>): (r: seq<ReportEntry>)
    ensures |r| == |gs| && forall i :: 0 <= i < |gs| ==> r[i] == EntryOf(gs[i])
  {
    seq(|gs|, i requires 0 <= i < |gs| => EntryOf(gs[i]))
  }

  /** The `output` object, without its timestamp. */
  datatype UnnamedReport = UnnamedReport(totalUnnamed: nat, providers: seq<ReportEntry>)

  /** What the script reports for the dataset's counties. */
  function ReportOf(cs: seq<CountyRecord>): UnnamedReport {
    var sorted := SortDesc(GroupsOf(cs), Frequency);
    UnnamedReport(|sorted|, Entries(sorted))
  }

  /** `main` without the file I/O: scan, sort by frequency, project. */
  method FindUnnamedProviders(counties: seq<CountyRecord>) returns (report: UnnamedReport)
    ensures report == ReportOf(counties)
  {
    var groups := GroupUnnamed(counties);
    var a := new Group[|groups|](i requires 0 <= i < |groups| => groups[i]);
    assert a[..] == groups;
    SortInPlace(a, Frequency);
    var sorted := a[..];
    report := UnnamedReport(|sorted|, Entries(sorted));
  }

  /** The sorted groups are the matched ids' groups, each id exactly once. */
  lemma SortedGroups(cs: seq<CountyRecord>)
    ensures var sorted := SortDesc(GroupsOf(cs), Frequency);
      && |sorted| == |MatchedIds(cs)|
      && (forall i :: 0 <= i < |sorted| ==> sorted[i].id in MatchedIds(cs) && sorted[i] == GroupFor(cs, sorted[i].id))
      && (forall i, j :: 0 <= i < j < |sorted| ==> sorted[i].id != sorted[j].id)
      && (forall id :: id in MatchedIds(cs) ==> exists i :: 0 <= i < |sorted| && sorted[i].id == id)
  {
    var gs := GroupsOf(cs);
    var ids := MatchedIds(cs);
    var sorted := SortDesc(gs, Frequency);
    SortDescCorrect(gs, Frequency);
    assert |sorted| == |multiset(sorted)| == |multiset(gs)| == |gs|;
    forall i | 0 <= i < |sorted| ensures sorted[i].id in ids && sorted[i] == GroupFor(cs, sorted[i].id) {
      assert sorted[i] in multiset(gs);
      var k :| 0 <= k < |gs| && gs[k] == sorted[i];
      assert gs[k] == GroupFor(cs, ids[k]);
    }
    assert AllDistinct(gs) by {
      forall i, j | 0 <= i < j < |gs| ensures gs[i] != gs[j] {
        assert gs[i].id == ids[i] && gs[j].id == ids[j];
      }
    }
    PermutationDistinct(gs, sorted);
    forall id | id in ids ensures exists i :: 0 <= i < |sorted| && sorted[i].id == id {
      var k :| 0 <= k < |ids| && ids[k] == id;
      assert gs[k] in multiset(sorted);
      var i :| 0 <= i < |sorted| && sorted[i] == gs[k];
      assert sorted[i].id == id;
    }
  }

  /**
   * `totalUnnamed` is the number of distinct ids; the report lists each id
   * once, and an id is listed exactly when some county's top provider
   * matches with it.
   */
  lemma ReportIds(cs: seq<CountyRecord>)
    ensures var r := ReportOf(cs);
      && r.totalUnnamed == |r.providers| == |MatchedIds(cs)|
      && (forall i, j :: 0 <= i < j < |r.providers| ==> r.providers[i].id != r.providers[j].id)
      && (forall id :: (exists i :: 0 <= i < |r.providers| && r.providers[i].id == id) <==>
                       (exists j :: 0 <= j < |cs| && IdOf(cs[j]) == Some(id)))
  {
    SortedGroups(cs);
    forall id ensures (exists i :: 0 <= i < |ReportOf(cs).providers| && ReportOf(cs).providers[i].id == id) <==>
                      (exists j :: 0 <= j < |cs| && IdOf(cs[j]) == Some(id)) {
      ReportListsId(cs, id);
    }
  }

  /** The entries list exactly the ids of the groups. */
  lemma EntriesListId(sorted: seq<Group>, ids: seq<string>, id: string)
    requires forall i :: 0 <= i < |sorted| ==> sorted[i].id in ids
    requires forall x :: x in ids ==> exists i :: 0 <= i < |sorted| && sorted[i].id == x
    ensures (exists i :: 0 <= i < |Entries(sorted)| && Entries(sorted)[i].id == id) <==> id in ids
  {
    var es := Entries(sorted);
    if exists i :: 0 <= i < |es| && es[i].id == id {
      var i :| 0 <= i < |es| && es[i].id == id;
      assert sorted[i].id == id;
    }
    if id in ids {
      var i :| 0 <= i < |sorted| && sorted[i].id == id;
      assert es[i].id == id;
    }
  }

  /** One id is reported exactly when some county carries it. */
  lemma ReportListsId(cs: seq<CountyRecord>, id: string)
    ensures (exists i :: 0 <= i < |ReportOf(cs).providers| && ReportOf(cs).providers[i].id == id) <==>
            (exists j :: 0 <= j < |cs| && IdOf(cs[j]) == Some(id))
  {
    var sorted := SortDesc(GroupsOf(cs), Frequency);
    var ids := MatchedIds(cs);
    SortedGroups(cs);
    IdListMembers(cs, id);
    assert id in ids <==> id in IdList(cs);
    EntriesListId(sorted, ids, id);
    assert ReportOf(cs).providers == Entries(sorted);
  }

  /**
   * Each entry counts the counties matching its id, lists the sorted
   * distinct states of those counties, and samples the first five of them in
   * dataset order.
   */
  lemma ReportEntries(cs: seq<CountyRecord>)
    ensures var r := ReportOf(cs);
      forall i :: 0 <= i < |r.providers| ==>
        var p := r.providers[i];
        var ss := Matching(cs, p.id);
        && p.frequency == |ss|
        && StrictlyIncreasing(p.states)
        && (forall x :: x in p.states <==> exists j :: 0 <= j < |cs| && IdOf(cs[j]) == Some(p.id) && cs[j].state == x)
        && |p.sampleCounties| == (if |ss| < 5 then |ss| else 5)
        && (forall k :: 0 <= k < |p.sampleCounties| ==> p.sampleCounties[k] == SampleText(ss[k]))
  {
    var r := ReportOf(cs);
    var sorted := SortDesc(GroupsOf(cs), Frequency);
    SortedGroups(cs);
    forall i, x | 0 <= i < |r.providers|
      ensures x in r.providers[i].states <==> exists j :: 0 <= j < |cs| && IdOf(cs[j]) == Some(r.providers[i].id) && cs[j].state == x
    {
      var id := r.providers[i].id;
      assert r.providers[i] == EntryOf(GroupFor(cs, id));
      var ss := Matching(cs, id);
      var st := StateList(ss);
      if x in st {
        var k :| 0 <= k < |st| && st[k] == x;
        MatchingMembers(cs, id, ss[k]);
      }
      if exists j :: 0 <= j < |cs| && IdOf(cs[j]) == Some(id) && cs[j].state == x {
        var j :| 0 <= j < |cs| && IdOf(cs[j]) == Some(id) && cs[j].state == x;
        MatchingMembers(cs, id, SampleOf(cs[j]));
        var k :| 0 <= k < |ss| && ss[k] == SampleOf(cs[j]);
        assert st[k] == x;
      }
    }
  }

  // ---- Order of the report ----

  /** The ids of the entries with frequency `f`, in report order. */
  function FrequencyTier(es: seq<ReportEntry>, f: int): seq<string> {
    if es == [] then [] else (if es[0].frequency == f then [es[0].id] else []) + FrequencyTier(es[1..], f)
  }

  /** The ids among `ids` served in exactly `f` counties, in the order of `ids`. */
  function IdsWithCount(cs: seq<CountyRecord>, ids: seq<string>, f: int): seq<string> {
    if ids == [] then [] else (if |Matching(cs, ids[0])| == f then [ids[0]] else []) + IdsWithCount(cs, ids[1..], f)
  }

  function GroupIds(gs: seq<Group>): seq<string> {
    if gs == [] then [] else [gs[0].id] + GroupIds(gs[1..])
  }

  lemma {:induction false} TierOfEntries(gs: seq<Group>, f: int)
    ensures FrequencyTier(Entries(gs), f) == GroupIds(WithKey(gs, Frequency, f))
  {
    if gs != [] {
      TierOfEntries(gs[1..], f);
      assert Entries(gs)[1..] == Entries(gs[1..]);
      var w := WithKey(gs[1..], Frequency, f);
      if Frequency(gs[0]) == f {
        assert GroupIds([gs[0]] + w) == [gs[0].id] + GroupIds(w);
      } else {
        assert [] + w == w;
      }
    }
  }

  lemma {:induction false} TierOfGroups(cs: seq<CountyRecord>, ids: seq<string>, f: int)
    ensures GroupIds(WithKey(GroupsFor(cs, ids), Frequency, f)) == IdsWithCount(cs, ids, f)
  {
    if ids != [] {
      TierOfGroups(cs, ids[1..], f);
      var gs := GroupsFor(cs, ids);
      assert gs[1..] == GroupsFor(cs, ids[1..]);
      var w := WithKey(gs[1..], Frequency, f);
      if Frequency(gs[0]) == f {
        assert GroupIds([gs[0]] + w) == [gs[0].id] + GroupIds(w);
      } else {
        assert [] + w == w;
      }
    }
  }

  /**
   * `providers` runs from the most frequent id down; ids with the same
   * frequency keep the order in which they first appear in the dataset.
   */
  lemma ReportOrder(cs: seq<CountyRecord>)
    ensures var r := ReportOf(cs);
      && (forall i, j :: 0 <= i < j < |r.providers| ==> r.providers[i].frequency >= r.providers[j].frequency)
      && (forall f :: FrequencyTier(r.providers, f) == IdsWithCount(cs, MatchedIds(cs), f))
  {
    var gs := GroupsOf(cs);
    var sorted := SortDesc(gs, Frequency);
    SortDescCorrect(gs, Frequency);
    forall i, j | 0 <= i < j < |sorted| ensures Frequency(sorted[i]) >= Frequency(sorted[j]) {
    }
    forall f ensures FrequencyTier(Entries(sorted), f) == IdsWithCount(cs, MatchedIds(cs), f) {
      TierOfEntries(sorted, f);
      TierOfGroups(cs, MatchedIds(cs), f);
    }
  }

  // ---- Frequencies add up ----

  /** The sum of the entries' frequencies. */
  function FrequencySum(es: seq<ReportEntry>): int {
    if es == [] then 0 else es[0].frequency + FrequencySum(es[1..])
  }

  /** How many counties the listed ids serve together. */
  function CountSum(cs: seq<CountyRecord>, ids: seq<string>): int {
    if ids == [] then 0 else |Matching(cs, ids[0])| + CountSum(cs, ids[1..])
  }

  lemma {:induction false} FrequencySumOfEntries(gs: seq<Group>)
    ensures FrequencySum(Entries(gs)) == KeySum(gs, Frequency)
  {
    if gs != [] {
      FrequencySumOfEntries(gs[1..]);
      assert Entries(gs)[1..] == Entries(gs[1..]);
    }
  }

  lemma {:induction false} KeySumOfGroups(cs: seq<CountyRecord>, ids: seq<string>)
    ensures KeySum(GroupsFor(cs, ids), Frequency) == CountSum(cs, ids)
  {
    if ids != [] {
      KeySumOfGroups(cs, ids[1..]);
      assert GroupsFor(cs, ids)[1..] == GroupsFor(cs, ids[1..]);
    }
  }

  lemma {:induction false} CountSumAppend(cs: seq<CountyRecord>, ids: seq<string>, x: string)
    ensures CountSum(cs, ids + [x]) == CountSum(cs, ids) + |Matching(cs, x)|
  {
    if ids != [] {
      CountSumAppend(cs, ids[1..], x);
      assert (ids + [x])[1..] == ids[1..] + [x];
    }
  }

  /** A county that does not match changes no count. */
  lemma {:induction false} CountSumOther(cs: seq<CountyRecord>, c: CountyRecord, ids: seq<string>)
    requires IdOf(c).None?
    ensures CountSum(cs + [c], ids) == CountSum(cs, ids)
  {
    if ids != [] {
      CountSumOther(cs, c, ids[1..]);
      var cs' := cs + [c];
      assert cs'[..|cs'| - 1] == cs;
      assert Matching(cs', ids[0]) == Matching(cs, ids[0]);
    }
  }

  /** A matching county adds one to its id's count. */
  lemma {:induction false} CountSumMatch(cs: seq<CountyRecord>, c: CountyRecord, id: string, ids: seq<string>)
    requires IdOf(c) == Some(id) && NoDuplicates(ids)
    ensures CountSum(cs + [c], ids) == CountSum(cs, ids) + (if id in ids then 1 else 0)
  {
    if ids != [] {
      assert NoDuplicates(ids[1..]) by {
        forall i, j | 0 <= i < j < |ids[1..]| ensures ids[1..][i] != ids[1..][j] {
          assert ids[1..][i] == ids[i + 1] && ids[1..][j] == ids[j + 1];
        }
      }
      CountSumMatch(cs, c, id, ids[1..]);
      var cs' := cs + [c];
      assert cs'[..|cs'| - 1] == cs;
      assert id in ids <==> id == ids[0] || id in ids[1..];
      assert ids[0] == id ==> id !in ids[1..];
    }
  }

  /** The frequencies of the distinct ids add up to the number of matching counties. */
  lemma {:induction false} CountsAddUp(cs: seq<CountyRecord>)
    ensures CountSum(cs, MatchedIds(cs)) == |IdList(cs)|
  {
    if cs != [] {
      var init, c := cs[..|cs| - 1], cs[|cs| - 1];
      assert cs == init + [c];
      CountsAddUp(init);
      var ids := MatchedIds(init);
      if IdOf(c).None? {
        assert IdList(cs) == IdList(init);
        CountSumOther(init, c, ids);
      } else {
        var id := IdOf(c).value;
        OthersStay(init, c, id);
        CountSumMatch(init, c, id, ids);
        if id !in ids {
          CountSumAppend(cs, ids, id);
          assert Matching(cs, id) == Matching(init, id) + [SampleOf(c)];
          assert GroupFor(init, id).counties == [];
        }
      }
    }
  }

  /** The `frequency` fields add up to the number of counties whose top provider matches. */
  lemma ReportSum(cs: seq<CountyRecord>)
    ensures FrequencySum(ReportOf(cs).providers) == |IdList(cs)|
  {
    var gs := GroupsOf(cs);
    FrequencySumOfEntries(SortDesc(gs, Frequency));
    SortDescKeySum(gs, Frequency);
    KeySumOfGroups(cs, MatchedIds(cs));
    CountsAddUp(cs);
  }
}
