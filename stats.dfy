/**
 * The aggregation pass (`calculate_stats`): a person-by-month count table
 * with a total column, and a per-person summary that adds meeting-type
 * weights, the "早上飽" bonus and the three special-role counters, and
 * derives the role weight and the grand total from them.
 */
module Stats {
  import opened Counting
  import opened Text
  import opened Expander

  /** One entry of the meeting-type registry: a type, its weight, and the keywords that identify it in a meeting name. */
  datatype MeetingType = MeetingType(name: string, weight: nat, keywords: seq<string>)

  const PrayerMeeting: MeetingType := MeetingType("禱告會", 3, ["禱告會"])
  const YouthSunday: MeetingType := MeetingType("青年主日", 4, ["青年主日"])
  const SundayWorship: MeetingType := MeetingType("主日崇拜", 4, ["三民早堂", "美河堂"])
  const QQ: MeetingType := MeetingType("QQ", 1, ["QQ"])
  const EnglishWorship: MeetingType := MeetingType("英文崇拜", 1, ["英文崇拜"])
  const BigQ: MeetingType := MeetingType("大Q", 1, ["大Q"])

  /** The registry of stat_calculator.py, in the iteration order of its keyword table. */
  const DefaultRegistry: seq<MeetingType> :=
    [PrayerMeeting, YouthSunday, SundayWorship, QQ, EnglishWorship, BigQ]

  const NameColumn: string := "姓名"
  const BonusMarker: string := "早上飽"
  const BonusWeight: int := 2
  const MdMarker: string := "MD"
  const BandLeaderMarker: string := "Band Leader"
  const VocalLeaderMarker: string := "Vocal Leader"
  const RoleFactor: real := 0.5

  /** `any(k in meeting for k in keywords)`: some keyword of the type occurs in the meeting name. */
  predicate Matches(t: MeetingType, meeting: string) {
    exists k :: k in t.keywords && Contains(meeting, k)
  }

  /** The weight a meeting earns: the weights of every registry type it matches, added up. */
  function TypeScore(registry: seq<MeetingType>, meeting: string): nat
    decreases |registry|
  {
    if registry == [] then 0
    else
      var n := |registry| - 1;
      TypeScore(registry[..n], meeting) + (if Matches(registry[n], meeting) then registry[n].weight else 0)
  }

  /** The sum of all weights of a registry. */
  function TotalWeight(registry: seq<MeetingType>): nat
    decreases |registry|
  {
    if registry == [] then 0 else TotalWeight(registry[..|registry| - 1]) + registry[|registry| - 1].weight
  }

  // ---------------------------------------------------------------------
  // What the accumulators mean, per person, over a list of records.
  // ---------------------------------------------------------------------

  /** The person column of the records. */
  function Names(records: seq<Record>): (names: seq<string>)
    ensures |names| == |records|
    ensures forall i :: 0 <= i < |records| ==> names[i] == records[i].person
  {
    seq(|records|, i requires 0 <= i < |records| => records[i].person)
  }

  /** The month column of the records. */
  function MonthColumnOf(records: seq<Record>): (months: seq<string>)
    ensures |months| == |records|
    ensures forall i :: 0 <= i < |records| ==> months[i] == records[i].month
  {
    seq(|records|, i requires 0 <= i < |records| => records[i].month)
  }

  /** The distinct people, in order of first appearance; it keys both output tables. */
  function Persons(records: seq<Record>): seq<string> {
    Distinct(Names(records))
  }

  /** The distinct months, in order of first appearance: the columns of the monthly table. */
  function Months(records: seq<Record>): seq<string> {
    Distinct(MonthColumnOf(records))
  }

  /** How many records a person has. */
  function PersonCount(records: seq<Record>, p: string): nat {
    Count(Names(records), p)
  }

  /** The month of each of `p`'s records, one entry per record. */
  function PersonMonths(records: seq<Record>, p: string): seq<string>
    decreases |records|
  {
    if records == [] then []
    else
      var n := |records| - 1;
      PersonMonths(records[..n], p) + (if records[n].person == p then [records[n].month] else [])
  }

  /** The sum of the type weights of `p`'s records. */
  function WeightedScore(registry: seq<MeetingType>, records: seq<Record>, p: string): nat
    decreases |records|
  {
    if records == [] then 0
    else
      var n := |records| - 1;
      WeightedScore(registry, records[..n], p)
        + (if records[n].person == p then TypeScore(registry, records[n].meeting) else 0)
  }

  /** How many of `p`'s records are at a meeting whose name holds the bonus marker. */
  function BonusCount(records: seq<Record>, p: string): nat
    decreases |records|
  {
    if records == [] then 0
    else
      var n := |records| - 1;
      BonusCount(records[..n], p)
        + (if records[n].person == p && Contains(records[n].meeting, BonusMarker) then 1 else 0)
  }

  /** How many of `p`'s records have a role that contains `marker`. */
  function RoleCount(records: seq<Record>, p: string, marker: string): nat
    decreases |records|
  {
    if records == [] then 0
    else
      var n := |records| - 1;
      RoleCount(records[..n], p, marker)
        + (if records[n].person == p && Contains(records[n].role, marker) then 1 else 0)
  }

  // ---------------------------------------------------------------------
  // The accumulation loop.
  // ---------------------------------------------------------------------

  /** The five counters, keyed by person; a person absent from a map has 0, as in a Counter. */
  datatype Tallies = Tallies(
    weighted: map<string, int>,
    bonus: map<string, int>,
    md: map<string, int>,
    bandLeader: map<string, int>,
    vocalLeader: map<string, int>)

  /** The counters hold, for every person, exactly what the records so far give them. */
  ghost predicate TalliesOf(registry: seq<MeetingType>, records: seq<Record>, t: Tallies) {
    forall p ::
      && Get(t.weighted, p) == WeightedScore(registry, records, p)
      && Get(t.bonus, p) == BonusWeight * BonusCount(records, p)
      && Get(t.md, p) == RoleCount(records, p, MdMarker)
      && Get(t.bandLeader, p) == RoleCount(records, p, BandLeaderMarker)
      && Get(t.vocalLeader, p) == RoleCount(records, p, VocalLeaderMarker)
  }

  /** What one record adds to each counter of person `p`. */
  ghost predicate AddsRecord(registry: seq<MeetingType>, r: Record, t: Tallies, t': Tallies) {
    forall p ::
      var mine := r.person == p;
      && Get(t'.weighted, p) == Get(t.weighted, p) + (if mine then TypeScore(registry, r.meeting) else 0)
      && Get(t'.bonus, p) == Get(t.bonus, p) + (if mine && Contains(r.meeting, BonusMarker) then BonusWeight else 0)
      && Get(t'.md, p) == Get(t.md, p) + (if mine && Contains(r.role, MdMarker) then 1 else 0)
      && Get(t'.bandLeader, p) == Get(t.bandLeader, p) + (if mine && Contains(r.role, BandLeaderMarker) then 1 else 0)
      && Get(t'.vocalLeader, p) == Get(t.vocalLeader, p) + (if mine && Contains(r.role, VocalLeaderMarker) then 1 else 0)
  }

  /**
   * The loop over the records: every matching registry type adds its weight,
   * a bonus-marker meeting adds the bonus, and each of the three role markers
   * found in the role adds one to its counter, all for the record's person.
   */
  method Accumulate(registry: seq<MeetingType>, records: seq<Record>) returns (t: Tallies)
    ensures forall p :: Get(t.weighted, p) == WeightedScore(registry, records, p)
    ensures forall p :: Get(t.bonus, p) == BonusWeight * BonusCount(records, p)
    ensures forall p :: Get(t.md, p) == RoleCount(records, p, MdMarker)
    ensures forall p :: Get(t.bandLeader, p) == RoleCount(records, p, BandLeaderMarker)
    ensures forall p :: Get(t.vocalLeader, p) == RoleCount(records, p, VocalLeaderMarker)
  {
    t := Tallies(map[], map[], map[], map[], map[]);
    var i := 0;
    while i < |records|
      invariant 0 <= i <= |records|
      invariant TalliesOf(registry, records[..i], t)
    {
      var t' := AddRecord(registry, records[i], t);
      TalliesStep(registry, records, i, t, t');
      t := t';
      i := i + 1;
    }
    assert records[..i] == records;
  }

  /** The body of the loop over the records: one record's contribution to the five counters. */
  method AddRecord(registry: seq<MeetingType>, r: Record, t: Tallies) returns (t': Tallies)
    ensures AddsRecord(registry, r, t, t')
  {
    var name, role, meeting := r.person, r.role, r.meeting;
    var weighted := AddTypeWeights(t.weighted, registry, name, meeting);
    var bonus := CountIf(t.bonus, name, Contains(meeting, BonusMarker), BonusWeight);
    var md := CountIf(t.md, name, Contains(role, MdMarker), 1);
    var bl := CountIf(t.bandLeader, name, Contains(role, BandLeaderMarker), 1);
    var vl := CountIf(t.vocalLeader, name, Contains(role, VocalLeaderMarker), 1);
    t' := Tallies(weighted, bonus, md, bl, vl);
  }

  /** `if hit: counter[name] += d`: only `name` changes, and only when `hit` holds. */
  method CountIf(counter: map<string, int>, name: string, hit: bool, d: int) returns (updated: map<string, int>)
    ensures forall p :: Get(updated, p) == Get(counter, p) + (if hit && p == name then d else 0)
  {
    updated := counter;
    if hit {
      updated := Bump(counter, name, d);
    }
  }

  /** Adding record `i` to counters that describe the records before it gives counters that describe one more record. */
  lemma TalliesStep(registry: seq<MeetingType>, records: seq<Record>, i: nat, t: Tallies, t': Tallies)
    requires i < |records|
    requires TalliesOf(registry, records[..i], t)
    requires AddsRecord(registry, records[i], t, t')
    ensures TalliesOf(registry, records[..i + 1], t')
  {
    WeightedStep(registry, records, i);
    BonusStep(records, i);
    RoleStep(records, i, MdMarker);
    RoleStep(records, i, BandLeaderMarker);
    RoleStep(records, i, VocalLeaderMarker);
  }

  /** The loop over the registry for one record: each type whose keywords match adds its weight to `name`. */
  method AddTypeWeights(weighted: map<string, int>, registry: seq<MeetingType>, name: string, meeting: string)
    returns (updated: map<string, int>)
    ensures Get(updated, name) == Get(weighted, name) + TypeScore(registry, meeting)
    ensures forall p :: p != name ==> Get(updated, p) == Get(weighted, p)
  {
    updated := weighted;
    var k := 0;
    while k < |registry|
      invariant 0 <= k <= |registry|
      invariant Get(updated, name) == Get(weighted, name) + TypeScore(registry[..k], meeting)
      invariant forall p :: p != name ==> Get(updated, p) == Get(weighted, p)
    {
      assert registry[..k + 1][..k] == registry[..k];
      if Matches(registry[k], meeting) {
        updated := Bump(updated, name, registry[k].weight);
      }
      k := k + 1;
    }
    assert registry[..k] == registry;
  }

  lemma WeightedStep(registry: seq<MeetingType>, records: seq<Record>, i: nat)
    requires i < |records|
    ensures forall p :: (WeightedScore(registry, records[..i + 1], p)
      == WeightedScore(registry, records[..i], p) + (if records[i].person == p then TypeScore(registry, records[i].meeting) else 0))
  {
    assert records[..i + 1][..i] == records[..i];
  }

  lemma BonusStep(records: seq<Record>, i: nat)
    requires i < |records|
    ensures forall p :: (BonusCount(records[..i + 1], p)
      == BonusCount(records[..i], p) + (if records[i].person == p && Contains(records[i].meeting, BonusMarker) then 1 else 0))
  {
    assert records[..i + 1][..i] == records[..i];
  }

  lemma RoleStep(records: seq<Record>, i: nat, marker: string)
    requires i < |records|
    ensures forall p :: (RoleCount(records[..i + 1], p, marker)
      == RoleCount(records[..i], p, marker) + (if records[i].person == p && Contains(records[i].role, marker) then 1 else 0))
  {
    assert records[..i + 1][..i] == records[..i];
  }

  // ---------------------------------------------------------------------
  // The two output tables.
  // ---------------------------------------------------------------------

  /** One row of the monthly table: a person's count per month column, and their total. */
  datatype MonthlyRow = MonthlyRow(person: string, counts: seq<nat>, total: int)

  datatype MonthlyTable = MonthlyTable(months: seq<string>, rows: seq<MonthlyRow>)

  /** The cross-tabulation of person against month, with the row-wise sum appended as the total. */
  function CrossTab(records: seq<Record>, persons: seq<string>, months: seq<string>): MonthlyTable {
    MonthlyTable(
      months,
      seq(|persons|, i requires 0 <= i < |persons| =>
        var counts := CountsOf(PersonMonths(records, persons[i]), months);
        MonthlyRow(persons[i], counts, Sum(counts))))
  }

  /** The total column. */
  function Totals(table: MonthlyTable): (totals: seq<int>)
    ensures |totals| == |table.rows|
    ensures forall i :: 0 <= i < |table.rows| ==> totals[i] == table.rows[i].total
  {
    seq(|table.rows|, i requires 0 <= i < |table.rows| => table.rows[i].total)
  }

  /** One row of the summary table. */
  datatype SummaryRow = SummaryRow(
    person: string,
    weighted: int,
    bonus: int,
    md: int,
    bandLeader: int,
    vocalLeader: int,
    roleWeight: real,
    total: real)

  /** A person's summary row, read off the counters, with the two derived columns. */
  function SummaryRowOf(p: string, t: Tallies): SummaryRow {
    var weighted, bonus := Get(t.weighted, p), Get(t.bonus, p);
    var md, bl, vl := Get(t.md, p), Get(t.bandLeader, p), Get(t.vocalLeader, p);
    var roleWeight := RoleFactor * (md + bl + vl) as real;
    SummaryRow(p, weighted, bonus, md, bl, vl, roleWeight, weighted as real + bonus as real + roleWeight)
  }

  /** One summary row per person, every column read for that same person. */
  function Summarize(persons: seq<string>, t: Tallies): seq<SummaryRow> {
    seq(|persons|, i requires 0 <= i < |persons| => SummaryRowOf(persons[i], t))
  }
  /**
   * The summary as stat_calculator.py assembles it: the name column is
   * `nameColumn`, the people in the order a Python set yields them, while
   * every score column is read in order of first appearance.
   */
  function SummaryAsWritten(nameColumn: seq<string>, persons: seq<string>, t: Tallies): (rows: seq<SummaryRow>)
    requires multiset(nameColumn) == multiset(persons)
    ensures |rows| == |nameColumn| == |persons|
    ensures forall i :: 0 <= i < |persons| ==> rows[i].person == nameColumn[i]
    ensures forall i :: 0 <= i < |persons| ==>
              && rows[i].weighted == Get(t.weighted, persons[i])
              && rows[i].bonus == Get(t.bonus, persons[i])
              && rows[i].md == Get(t.md, persons[i])
              && rows[i].bandLeader == Get(t.bandLeader, persons[i])
              && rows[i].vocalLeader == Get(t.vocalLeader, persons[i])
    ensures forall i :: 0 <= i < |persons| ==>
              && rows[i].roleWeight == RoleFactor * (rows[i].md + rows[i].bandLeader + rows[i].vocalLeader) as real
              && rows[i].total == rows[i].weighted as real + rows[i].bonus as real + rows[i].roleWeight
  {
    assert |nameColumn| == |multiset(nameColumn)| == |persons|;
    seq(|persons|, i requires 0 <= i < |persons| => SummaryRowOf(persons[i], t).(person := nameColumn[i]))
  }


  /** A monthly row for `p`: one count per month column, each the number of `p`'s records in that month, and the person's record count as total. */
  ghost predicate MonthlyRowOf(records: seq<Record>, months: seq<string>, row: MonthlyRow, p: string) {
    && row.person == p
    && |row.counts| == |months|
    && (forall j :: 0 <= j < |months| ==> row.counts[j] == Count(PersonMonths(records, p), months[j]))
    && row.total == PersonCount(records, p)
  }

  /** What the monthly table promises about the records it was built from. */
  ghost predicate MonthlyTableOf(records: seq<Record>, table: MonthlyTable) {
    var persons := Persons(records);
    && table.months == Months(records)
    && |table.rows| == |persons|
    && forall i :: 0 <= i < |persons| ==> MonthlyRowOf(records, table.months, table.rows[i], persons[i])
  }

  /** What the summary table promises: every column of a row is about the row's person, and the derived columns follow. */
  ghost predicate SummaryOf(registry: seq<MeetingType>, records: seq<Record>, summary: seq<SummaryRow>) {
    var persons := Persons(records);
    && |summary| == |persons|
    && forall i :: 0 <= i < |persons| ==>
         var row := summary[i];
         && row.person == persons[i]
         && row.weighted == WeightedScore(registry, records, row.person)
         && row.bonus == BonusWeight * BonusCount(records, row.person)
         && row.md == RoleCount(records, row.person, MdMarker)
         && row.bandLeader == RoleCount(records, row.person, BandLeaderMarker)
         && row.vocalLeader == RoleCount(records, row.person, VocalLeaderMarker)
         && row.roleWeight == RoleFactor * (row.md + row.bandLeader + row.vocalLeader) as real
         && row.total == row.weighted as real + row.bonus as real + row.roleWeight
  }

  datatype StatsError = MissingColumn(column: string)

  datatype Stats = Stats(monthly: MonthlyTable, summary: seq<SummaryRow>)

  datatype Result<T> = Success(value: T) | Failure(error: StatsError)

  /**
   * `calculate_stats`. An empty record list has no person column, so the
   * lookup of that column fails; otherwise both tables are built over the one
   * list of distinct people.
   */
  method CalculateStats(registry: seq<MeetingType>, records: seq<Record>) returns (result: Result<Stats>)
    ensures result.Failure? <==> records == []
    ensures result.Failure? ==> result.error == MissingColumn(NameColumn)
    ensures result.Success? ==> MonthlyTableOf(records, result.value.monthly)
    ensures result.Success? ==> Sum(Totals(result.value.monthly)) == |records|
    ensures result.Success? ==> SummaryOf(registry, records, result.value.summary)
  {
    if records == [] {
      return Failure(MissingColumn(NameColumn));
    }
    var persons := Persons(records);
    var monthly := CrossTab(records, persons, Months(records));
    CrossTabMeaning(records);
    CrossTabGrandTotal(records);
    var t := Accumulate(registry, records);
    SummarizeAligned(registry, records, t);
    var summary := Summarize(persons, t);
    result := Success(Stats(monthly, summary));
  }

  // ---------------------------------------------------------------------
  // Properties.
  // ---------------------------------------------------------------------

  /** Reading every column for the same person gives a summary whose rows are about their own person. */
  lemma SummarizeAligned(registry: seq<MeetingType>, records: seq<Record>, t: Tallies)
    requires TalliesOf(registry, records, t)
    ensures SummaryOf(registry, records, Summarize(Persons(records), t))
  {
    var persons := Persons(records);
    var summary := Summarize(persons, t);
    forall i | 0 <= i < |persons|
      ensures summary[i] == SummaryRowOf(persons[i], t)
    {
    }
  }

  /** A person has one month entry per record. */
  lemma {:induction false} PersonMonthsLength(records: seq<Record>, p: string)
    ensures |PersonMonths(records, p)| == PersonCount(records, p)
    decreases |records|
  {
    if records != [] {
      PersonMonthsLength(records[..|records| - 1], p);
      PersonCountStep(records, p);
    }
  }

  /** A person's months are months of the records. */
  lemma {:induction false} PersonMonthsWithin(records: seq<Record>, p: string)
    ensures forall m :: m in PersonMonths(records, p) ==> m in MonthColumnOf(records)
    decreases |records|
  {
    if records != [] {
      var n := |records| - 1;
      PersonMonthsWithin(records[..n], p);
      assert MonthColumnOf(records) == MonthColumnOf(records[..n]) + [records[n].month];
    }
  }

  /** A person's monthly counts add up to the person's number of records. */
  lemma RowTotal(records: seq<Record>, p: string)
    ensures Sum(CountsOf(PersonMonths(records, p), Months(records))) == PersonCount(records, p)
  {
    var months := Months(records);
    PersonMonthsLength(records, p);
    PersonMonthsWithin(records, p);
    forall m | m in PersonMonths(records, p)
      ensures m in months
    {
      var j :| 0 <= j < |records| && MonthColumnOf(records)[j] == m;
    }
    SumCountsCover(PersonMonths(records, p), months);
  }

  /** Each monthly row counts its person's records per month, and its total is the person's number of records. */
  lemma CrossTabMeaning(records: seq<Record>)
    ensures MonthlyTableOf(records, CrossTab(records, Persons(records), Months(records)))
  {
    var persons, months := Persons(records), Months(records);
    var table := CrossTab(records, persons, months);
    forall i | 0 <= i < |persons|
      ensures MonthlyRowOf(records, months, table.rows[i], persons[i])
    {
      RowTotal(records, persons[i]);
    }
  }

  /** The totals of the monthly table add up to the number of records. */
  lemma CrossTabGrandTotal(records: seq<Record>)
    ensures Sum(Totals(CrossTab(records, Persons(records), Months(records)))) == |records|
  {
    var persons := Persons(records);
    var table := CrossTab(records, persons, Months(records));
    CrossTabMeaning(records);
    forall x | x in Names(records)
      ensures x in persons
    {
      var j :| 0 <= j < |records| && Names(records)[j] == x;
    }
    SumCountsCover(Names(records), persons);
    var totals, counts := Totals(table), CountsOf(Names(records), persons);
    forall i | 0 <= i < |persons|
      ensures totals[i] == counts[i]
    {
      assert totals[i] == table.rows[i].total;
      assert table.rows[i].person == persons[i];
    }
    SumPointwise(totals, counts);
  }

  /** The people of both tables are exactly the people of the records, each once, including those who score nothing. */
  lemma PersonsExact(records: seq<Record>, p: string)
    ensures NoDup(Persons(records))
    ensures p in Persons(records) <==> exists k :: 0 <= k < |records| && records[k].person == p
  {
    var names := Names(records);
    if exists k :: 0 <= k < |records| && records[k].person == p {
      var k :| 0 <= k < |records| && records[k].person == p;
      assert names[k] == p;
    }
    if p in Persons(records) {
      var j :| 0 <= j < |Persons(records)| && Persons(records)[j] == p;
      var k :| 0 <= k < |names| && names[k] == p;
      assert records[k].person == p;
    }
  }

  /** Adding registry entries adds their scores: every matching type counts, not only the first. */
  lemma {:induction false} TypeScoreAppend(first: seq<MeetingType>, second: seq<MeetingType>, meeting: string)
    ensures TypeScore(first + second, meeting) == TypeScore(first, meeting) + TypeScore(second, meeting)
    decreases |second|
  {
    if second == [] {
      assert first + second == first;
    } else {
      var n := |second| - 1;
      TypeScoreAppend(first, second[..n], meeting);
      assert (first + second)[..|first| + n] == first + second[..n];
    }
  }

  /** A meeting earns at least the weight of every type it matches. */
  lemma TypeScoreAtLeast(registry: seq<MeetingType>, meeting: string, i: nat)
    requires i < |registry| && Matches(registry[i], meeting)
    ensures TypeScore(registry, meeting) >= registry[i].weight
  {
    assert registry == registry[..i] + [registry[i]] + registry[i + 1..];
    TypeScoreAppend(registry[..i] + [registry[i]], registry[i + 1..], meeting);
    TypeScoreAppend(registry[..i], [registry[i]], meeting);
  }

  /** A meeting that matches no type earns nothing; one never earns more than all weights together. */
  lemma {:induction false} TypeScoreRange(registry: seq<MeetingType>, meeting: string)
    ensures (forall i :: 0 <= i < |registry| ==> !Matches(registry[i], meeting)) ==> TypeScore(registry, meeting) == 0
    ensures TypeScore(registry, meeting) <= TotalWeight(registry)
    decreases |registry|
  {
    if registry != [] {
      var n := |registry| - 1;
      TypeScoreRange(registry[..n], meeting);
      assert forall i :: 0 <= i < n ==> registry[..n][i] == registry[i];
    }
  }

  /** With the default registry a single record earns at most 14 type points. */
  lemma DefaultScoreBound(meeting: string)
    ensures TypeScore(DefaultRegistry, meeting) <= 14
  {
    TypeScoreRange(DefaultRegistry, meeting);
    var r := DefaultRegistry;
    assert r[..0] == [];
    TotalWeightStep(r, 0);
    TotalWeightStep(r, 1);
    TotalWeightStep(r, 2);
    TotalWeightStep(r, 3);
    TotalWeightStep(r, 4);
    TotalWeightStep(r, 5);
    assert r[..6] == r;
  }

  lemma TotalWeightStep(registry: seq<MeetingType>, k: nat)
    requires k < |registry|
    ensures TotalWeight(registry[..k + 1]) == TotalWeight(registry[..k]) + registry[k].weight
  {
    assert registry[..k + 1][..k] == registry[..k];
  }

  lemma PersonCountStep(records: seq<Record>, p: string)
    requires records != []
    ensures PersonCount(records, p)
      == PersonCount(records[..|records| - 1], p) + (if records[|records| - 1].person == p then 1 else 0)
  {
    var n := |records| - 1;
    assert Names(records) == Names(records[..n]) + [records[n].person];
    CountAppend(Names(records[..n]), records[n].person, p);
  }

  /** The bonus counter never exceeds the person's number of records. */
  lemma {:induction false} BonusBounded(records: seq<Record>, p: string)
    ensures BonusCount(records, p) <= PersonCount(records, p)
    decreases |records|
  {
    if records != [] {
      BonusBounded(records[..|records| - 1], p);
      PersonCountStep(records, p);
    }
  }

  /** A role counter never exceeds the person's number of records. */
  lemma {:induction false} RoleBounded(records: seq<Record>, p: string, marker: string)
    ensures RoleCount(records, p, marker) <= PersonCount(records, p)
    decreases |records|
  {
    if records != [] {
      RoleBounded(records[..|records| - 1], p, marker);
      PersonCountStep(records, p);
    }
  }

  /** Each record adds at most the registry's total weight to its person's type score. */
  lemma {:induction false} WeightedBounded(registry: seq<MeetingType>, records: seq<Record>, p: string)
    ensures WeightedScore(registry, records, p) <= TotalWeight(registry) * PersonCount(records, p)
    decreases |records|
  {
    if records != [] {
      var n := |records| - 1;
      WeightedBounded(registry, records[..n], p);
      PersonCountStep(records, p);
      TypeScoreRange(registry, records[n].meeting);
      if records[n].person == p {
        MulSucc(TotalWeight(registry), PersonCount(records[..n], p));
      }
    }
  }

  lemma MulSucc(a: nat, c: nat)
    ensures a * (c + 1) == a * c + a
  {
  }
}
