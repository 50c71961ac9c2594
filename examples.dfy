/**
 * Concrete cases of the pipeline: how one cell is split, which cells yield
 * nothing, how a meeting name is scored by the default registry, and how the
 * summary as stat_calculator.py assembles it can pair a name with another
 * person's scores.
 */
module Examples {
  import opened Counting
  import opened Text
  import opened Expander
  import opened Stats

  /** "A / B" splits into "A " and " B". */
  lemma SplitTwo(text: string)
    requires text == "A / B"
    ensures Split(text, Delimiter) == ["A "] + [" B"]
  {
    assert text == "A " + [Delimiter] + " B";
    SplitPiece(" B", Delimiter);
    SplitPieceThen("A ", Delimiter, " B");
  }

  /** The two pieces trim to the two names. */
  lemma TrimTwo(a: string, b: string)
    requires a == "A " && b == " B"
    ensures Trim(a) == "A" && Trim(b) == "B"
  {
    assert a == [] + "A" + " ";
    TrimPadded([], "A", " ");
    assert b == " " + "B" + [];
    TrimPadded(" ", "B", []);
  }

  /** Two pieces whose trimmed forms are both kept yield those two names, in order. */
  lemma KeptPair(a: string, b: string)
    requires Keep(Trim(a)) && Keep(Trim(b))
    ensures KeptNames([a] + [b]) == [Trim(a)] + [Trim(b)]
  {
    KeptNamesAppend([], a);
    assert [] + [a] == [a];
    KeptNamesAppend([a], b);
  }

  /** Two names stamp two records, in order. */
  lemma StampPair(a: string, b: string, row: Row, role: string)
    ensures Stamp([a] + [b], row, role)
         == [Record(a, row.meeting, row.month, role)] + [Record(b, row.meeting, row.month, role)]
  {
  }

  /** A cell naming two people yields one record each, with the column as role. */
  lemma TwoNamesInOneCell(row: Row, text: string)
    requires text == "A / B"
    ensures CellRecords(row, Cell("MD", Some(text)))
         == [Record("A", row.meeting, row.month, "MD")] + [Record("B", row.meeting, row.month, "MD")]
  {
    SplitTwo(text);
    var pieces := Split(text, Delimiter);
    TrimTwo(pieces[0], pieces[1]);
    KeptPair(pieces[0], pieces[1]);
    assert pieces == [pieces[0]] + [pieces[1]];
    StampPair("A", "B", row, "MD");
  }

  /** "NaN/暫停/ " splits into the two sentinels and a blank piece. */
  lemma SplitSentinels(text: string)
    requires text == "NaN/暫停/ "
    ensures Split(text, Delimiter) == [NaNToken] + ([PausedToken] + [" "])
  {
    var tail := PausedToken + [Delimiter] + " ";
    assert text == NaNToken + [Delimiter] + tail;
    SplitPiece(" ", Delimiter);
    SplitPieceThen(PausedToken, Delimiter, " ");
    SplitPieceThen(NaNToken, Delimiter, tail);
  }

  /** None of those pieces survives trimming and the sentinel filter. */
  lemma TrimSentinels(a: string, b: string, c: string)
    requires a == NaNToken && b == PausedToken && c == " "
    ensures !Keep(Trim(a)) && !Keep(Trim(b)) && !Keep(Trim(c))
  {
    TrimOfTrimmed(a);
    TrimOfTrimmed(b);
    assert c == c + [] + [];
    TrimPadded(c, [], []);
  }

  /** Three pieces none of which survives give no names. */
  lemma NoneKept(a: string, b: string, c: string)
    requires !Keep(Trim(a)) && !Keep(Trim(b)) && !Keep(Trim(c))
    ensures KeptNames([a] + ([b] + [c])) == []
  {
    KeptNamesAppend([], a);
    assert [] + [a] == [a];
    KeptNamesAppend([a], b);
    KeptNamesAppend([a] + [b], c);
    assert [a] + ([b] + [c]) == [a] + [b] + [c];
  }

  /** A cell holding only separators, white space and the sentinels yields nothing. */
  lemma SentinelsOnly(row: Row, text: string)
    requires text == "NaN/暫停/ "
    ensures CellRecords(row, Cell("Vocal", Some(text))) == []
  {
    SplitSentinels(text);
    var pieces := Split(text, Delimiter);
    TrimSentinels(pieces[0], pieces[1], pieces[2]);
    NoneKept(pieces[0], pieces[1], pieces[2]);
    assert pieces == [pieces[0]] + ([pieces[1]] + [pieces[2]]);
  }

  /** The meeting-name column is never expanded, whatever it holds. */
  lemma MeetingColumnSkipped(row: Row, v: Option<string>)
    ensures CellRecords(row, Cell(MeetingColumn, v)) == []
  {
  }

  /** Of the default keywords, this meeting name holds only the Sunday-worship one. */
  lemma SundayMorningKeywords(m: string)
    requires m == "三民早堂 早上飽"
    ensures !Contains(m, "禱告會") && !Contains(m, "青年主日") && Contains(m, "三民早堂")
    ensures !Contains(m, "QQ") && !Contains(m, "英文崇拜") && !Contains(m, "大Q")
  {
    NotContainsFirstAbsent(m, "禱告會");
    NotContainsFirstAbsent(m, "青年主日");
    ContainsAt(m, "三民早堂", 0);
    NotContainsFirstAbsent(m, "QQ");
    NotContainsFirstAbsent(m, "英文崇拜");
    NotContainsFirstAbsent(m, "大Q");
  }

  /** A morning Sunday service: the Sunday-worship keyword matches, so it earns weight 4. */
  lemma SundayMorningScore(m: string)
    requires m == "三民早堂 早上飽"
    ensures TypeScore(DefaultRegistry, m) == 4
  {
    SundayMorningKeywords(m);
    ScoreDefault(m);
  }

  /** The same meeting also carries the bonus marker. */
  lemma SundayMorningBonus()
    ensures Contains("三民早堂 早上飽", BonusMarker)
  {
    ContainsAt("三民早堂 早上飽", BonusMarker, 5);
  }

  /** A name holding two keywords earns both weights, 3 + 1: the registry is not first-match. */
  lemma TwoTypesAdd(m: string)
    requires m == "禱告會 QQ"
    ensures TypeScore(DefaultRegistry, m) == 4
  {
    TwoTypesKeywords(m);
    ScoreDefault(m);
  }

  /** This meeting name holds the prayer-meeting and the QQ keywords and no other default keyword. */
  lemma TwoTypesKeywords(m: string)
    requires m == "禱告會 QQ"
    ensures Contains(m, "禱告會") && !Contains(m, "青年主日") && !Contains(m, "三民早堂") && !Contains(m, "美河堂")
    ensures Contains(m, "QQ") && !Contains(m, "英文崇拜") && !Contains(m, "大Q")
  {
    ContainsAt(m, "禱告會", 0);
    NotContainsFirstAbsent(m, "青年主日");
    NotContainsFirstAbsent(m, "三民早堂");
    NotContainsFirstAbsent(m, "美河堂");
    ContainsAt(m, "QQ", 4);
    NotContainsFirstAbsent(m, "英文崇拜");
    NotContainsFirstAbsent(m, "大Q");
  }

  /** A one-entry registry scores the entry's weight when it matches, nothing otherwise. */
  lemma TypeScoreSingle(t: MeetingType, m: string)
    ensures TypeScore([t], m) == if Matches(t, m) then t.weight else 0
  {
    assert [t][..0] == [];
  }

  /** The default registry's score spelled out type by type. */
  lemma ScoreDefault(m: string)
    ensures TypeScore(DefaultRegistry, m)
         == (if Contains(m, "禱告會") then 3 else 0)
          + (if Contains(m, "青年主日") then 4 else 0)
          + (if Contains(m, "三民早堂") || Contains(m, "美河堂") then 4 else 0)
          + (if Contains(m, "QQ") then 1 else 0)
          + (if Contains(m, "英文崇拜") then 1 else 0)
          + (if Contains(m, "大Q") then 1 else 0)
  {
    var r1 := [PrayerMeeting] + [YouthSunday];
    var r2 := r1 + [SundayWorship];
    var r3 := r2 + [QQ];
    var r4 := r3 + [EnglishWorship];
    assert DefaultRegistry == r4 + [BigQ];
    TypeScoreAppend([PrayerMeeting], [YouthSunday], m);
    TypeScoreAppend(r1, [SundayWorship], m);
    TypeScoreAppend(r2, [QQ], m);
    TypeScoreAppend(r3, [EnglishWorship], m);
    TypeScoreAppend(r4, [BigQ], m);
    TypeScoreSingle(PrayerMeeting, m);
    TypeScoreSingle(YouthSunday, m);
    TypeScoreSingle(SundayWorship, m);
    TypeScoreSingle(QQ, m);
    TypeScoreSingle(EnglishWorship, m);
    TypeScoreSingle(BigQ, m);
    MatchesOne(PrayerMeeting, m);
    MatchesOne(YouthSunday, m);
    MatchesOne(QQ, m);
    MatchesOne(EnglishWorship, m);
    MatchesOne(BigQ, m);
    MatchesTwo(SundayWorship, m);
  }

  lemma MatchesOne(t: MeetingType, m: string)
    requires |t.keywords| == 1
    ensures Matches(t, m) <==> Contains(m, t.keywords[0])
  {
    assert t.keywords == [t.keywords[0]];
  }

  lemma MatchesTwo(t: MeetingType, m: string)
    requires |t.keywords| == 2
    ensures Matches(t, m) <==> Contains(m, t.keywords[0]) || Contains(m, t.keywords[1])
  {
    assert t.keywords == [t.keywords[0]] + [t.keywords[1]];
  }

  /** Two different names are already distinct. */
  lemma DistinctPair(a: string, b: string)
    requires a != b
    ensures Distinct([a] + [b]) == [a] + [b]
  {
    assert ([a] + [b])[..1] == [a];
    assert [a][..0] == [];
  }

  /** Counting the role marker over two records, one for each of two different people. */
  lemma RoleCountPair(r0: Record, r1: Record, marker: string)
    requires r0.person != r1.person
    ensures RoleCount([r0] + [r1], r0.person, marker) == (if Contains(r0.role, marker) then 1 else 0)
    ensures RoleCount([r0] + [r1], r1.person, marker) == (if Contains(r1.role, marker) then 1 else 0)
  {
    var records := [r0] + [r1];
    assert records[..1] == [r0] && records[1] == r1;
    assert [r0][..0] == [];
    assert RoleCount([r0], r0.person, marker) == (if Contains(r0.role, marker) then 1 else 0);
    assert RoleCount([r0], r1.person, marker) == 0;
  }

  /** Two records of different people: the distinct people are those two, in record order. */
  lemma PersonsPair(r0: Record, r1: Record)
    requires r0.person != r1.person
    ensures Persons([r0] + [r1]) == [r0.person] + [r1.person]
  {
    assert Names([r0] + [r1]) == [r0.person] + [r1.person];
    DistinctPair(r0.person, r1.person);
  }

  /**
   * The summary as assembled by stat_calculator.py can pair a name with
   * another person's scores: when the first person of the records holds an
   * MD role and the second does not, a set order that lists the second
   * person first puts that name on the first person's row, next to the
   * first person's MD count.
   */
  lemma SummaryMisaligned(registry: seq<MeetingType>, r0: Record, r1: Record, t: Tallies)
    requires r0.person != r1.person
    requires Contains(r0.role, MdMarker) && !Contains(r1.role, MdMarker)
    requires TalliesOf(registry, [r0] + [r1], t)
    ensures Persons([r0] + [r1]) == [r0.person] + [r1.person]
    ensures !SummaryOf(registry, [r0] + [r1], SummaryAsWritten([r1.person] + [r0.person], Persons([r0] + [r1]), t))
  {
    var records := [r0] + [r1];
    PersonsPair(r0, r1);
    RoleCountPair(r0, r1, MdMarker);
    var rows := SummaryAsWritten([r1.person] + [r0.person], Persons(records), t);
    assert rows[0].person == r1.person;
    assert rows[0].md == Get(t.md, r0.person) == 1;
    assert RoleCount(records, r1.person, MdMarker) == 0;
  }

  /** The same, for one record of "A" as MD and one of "B" as vocalist. */
  lemma SummaryMisalignedExample(registry: seq<MeetingType>, r0: Record, r1: Record, t: Tallies)
    requires r0 == Record("A", "x", "1", "MD") && r1 == Record("B", "x", "1", "Vocal")
    requires TalliesOf(registry, [r0] + [r1], t)
    ensures Persons([r0] + [r1]) == ["A"] + ["B"]
    ensures !SummaryOf(registry, [r0] + [r1], SummaryAsWritten(["B"] + ["A"], Persons([r0] + [r1]), t))
  {
    ContainsAt(r0.role, MdMarker, 0);
    NotContainsFirstAbsent(r1.role, MdMarker);
    SummaryMisaligned(registry, r0, r1, t);
  }
}
