/** Worked runs of the engine on small inputs. */
module Scenarios {
  import opened Wrappers
  import opened Dicts
  import opened RosterSpec
  import Mung

  const Sid := "StudentID"
  const Clicker := "ClickerID"
  const Schema1: Schema := [(Sid, Flags(true, true)), (Clicker, Flags(true, false))]

  const A1 := Mung.Text("A12345678")
  const C9 := Mung.Text("C9")
  const Quiz := Grade(Points(10), None)

  /** A clicker export row: it names the student only by clicker id. */
  const ClickerRow := Record([(Clicker, C9)], [("quiz1", Quiz)])
  /** A roster row linking the student id to the clicker id. */
  const RosterRow := Record([(Sid, A1), (Clicker, C9)], [])

  /** Both rows only use attributes of the schema. */
  lemma SchemaFacts()
    ensures Sid != Clicker
    ensures FlagsOf(Schema1, Sid) == Flags(true, true) && FlagsOf(Schema1, Clicker) == Flags(true, false)
    ensures HasKey(Schema1, Sid) && HasKey(Schema1, Clicker)
    ensures AllKnown(Schema1, [ClickerRow, RosterRow])
  {
    assert Sid[0] != Clicker[0];
    assert Schema1[0].0 == Sid && Schema1[1].0 == Clicker;
    assert Schema1[1..] == [(Clicker, Flags(true, false))];
    assert KeysKnown(Schema1, ClickerRow.info) by { assert ClickerRow.info[0].0 == Clicker; }
    assert KeysKnown(Schema1, RosterRow.info) by { assert RosterRow.info[0].0 == Sid && RosterRow.info[1].0 == Clicker; }
  }

  const Held1: map<AttrName, InfoVal> := map[Clicker := Many({C9})]
  const Index1: Index := map[(Clicker, C9) := A1]
  /** The roster after the first pass: the student from the roster row, no grade yet. */
  const AfterFirst := RosterState(map[A1 := Entry(Held1, map[])], Index1, [])
  /** The roster after the second pass: the deferred grade recorded. */
  const AfterSecond := RosterState(map[A1 := Entry(Held1, map["quiz1" := Quiz])], Index1, [])

  /** The first pass defers the clicker row (nothing is indexed yet) and merges the
      roster row, which indexes the clicker id. */
  lemma FirstPass()
    requires AllKnown(Schema1, [ClickerRow, RosterRow])
    ensures OnePass(Schema1, Sid, EmptyRoster, [ClickerRow, RosterRow]) == Ok(PassState(AfterFirst, [ClickerRow], true))
  {
    var data := [ClickerRow, RosterRow];
    SchemaFacts();
    var acc0 := PassState(EmptyRoster, [], false);
    assert GetStudentID(Schema1, Sid, map[], ClickerRow.info) == None;
    var acc1 := PassState(EmptyRoster, [ClickerRow], false);
    assert [] + [ClickerRow] == [ClickerRow];
    assert PassStep(Schema1, Sid, acc0, ClickerRow) == Ok(acc1);
    assert GetStudentID(Schema1, Sid, map[], RosterRow.info) == Some(A1);
    assert CheckMerge(Schema1, Sid, EmptyRoster, RosterRow.info, A1) == Pass;
    assert ApplyItem(Schema1, Sid, A1, map[], map[], (Sid, A1)) == Ok((map[], map[]));
    assert ApplyItem(Schema1, Sid, A1, map[], map[], (Clicker, C9)) == Ok((Held1, Index1));
    assert ApplyItems(Schema1, Sid, A1, Held1, Index1, []) == Ok((Held1, Index1));
    assert RosterRow.info[0] == (Sid, A1) && RosterRow.info[1..] == [(Clicker, C9)] && [(Clicker, C9)][1..] == [];
    assert ApplyItems(Schema1, Sid, A1, map[], map[], [(Clicker, C9)]) == Ok((Held1, Index1));
    assert ApplyItems(Schema1, Sid, A1, map[], map[], RosterRow.info) == Ok((Held1, Index1));
    assert Merge(Schema1, Sid, EmptyRoster, RosterRow.info, A1) == Ok(AfterFirst);
    assert MergeGrades(AfterFirst, A1, RosterRow.info, [], []) == Ok(AfterFirst);
    var acc2 := PassState(AfterFirst, [ClickerRow], true);
    assert PassStep(Schema1, Sid, acc1, RosterRow) == Ok(acc2);
    assert data[0] == ClickerRow && data[1..] == [RosterRow] && [RosterRow][1..] == [];
    assert PassFrom(Schema1, Sid, acc2, []) == Ok(acc2);
    assert PassFrom(Schema1, Sid, acc1, [RosterRow]) == Ok(acc2);
  }

  /** The second pass resolves the deferred row through the clicker index; merging its
      info changes nothing and its grade is recorded. */
  lemma SecondPass()
    requires AllKnown(Schema1, [ClickerRow])
    ensures OnePass(Schema1, Sid, AfterFirst, [ClickerRow]) == Ok(PassState(AfterSecond, [], true))
  {
    SchemaFacts();
    var s1 := AfterFirst;
    assert GetStudentID(Schema1, Sid, Index1, ClickerRow.info) == Some(A1);
    assert CheckMerge(Schema1, Sid, s1, ClickerRow.info, A1) == Pass;
    assert {C9} + {C9} == {C9};
    assert Held1[Clicker := Many({C9} + {C9})] == Held1;
    assert ApplyItem(Schema1, Sid, A1, Held1, Index1, (Clicker, C9)) == Ok((Held1, Index1));
    assert ApplyItems(Schema1, Sid, A1, Held1, Index1, ClickerRow.info) == Ok((Held1, Index1));
    assert s1.students[A1].(info := Held1) == s1.students[A1];
    assert s1.students[A1 := s1.students[A1]] == s1.students;
    assert Merge(Schema1, Sid, s1, ClickerRow.info, A1) == Ok(s1);
    assert CombineGrade("quiz1", None, Quiz) == Ok(Quiz);
    assert s1.students[A1 := Entry(Held1, map[]).(grades := map[]["quiz1" := Quiz])] == AfterSecond.students;
    assert AddGrade(s1, A1, ("quiz1", Quiz), ClickerRow.info, ClickerRow.grades) == Ok(AfterSecond);
    assert MergeGrades(s1, A1, ClickerRow.info, ClickerRow.grades, ClickerRow.grades) == Ok(AfterSecond);
    assert PassStep(Schema1, Sid, PassState(s1, [], false), ClickerRow) == Ok(PassState(AfterSecond, [], true));
    assert [ClickerRow][0] == ClickerRow && [ClickerRow][1..] == [];
    assert PassFrom(Schema1, Sid, PassState(AfterSecond, [], true), []) == Ok(PassState(AfterSecond, [], true));
  }

  /** A record that names the student only by a secondary id, listed before the roster
      row that links that id, is deferred by the first pass and merged by the second:
      the student ends with the clicker id and the grade, and nothing is left over. */
  lemma DeferredRecordResolves()
    requires AllKnown(Schema1, [ClickerRow, RosterRow])
    ensures Run(Schema1, [ClickerRow, RosterRow]).Ok?
    ensures var (s, failed) := Run(Schema1, [ClickerRow, RosterRow]).value;
      && failed == [] && s.students.Keys == {A1}
      && s.students[A1].info == map[Clicker := Many({C9})]
      && s.students[A1].grades == map["quiz1" := Quiz]
      && s.index == map[(Clicker, C9) := A1]
  {
    SchemaFacts();
    assert FindPrimaryAttr(Schema1) == Some(Sid);
    FirstPass();
    SecondPass();
    assert Gather(Schema1, Sid, AfterFirst, [ClickerRow]) == Ok((AfterSecond, []));
    assert Gather(Schema1, Sid, EmptyRoster, [ClickerRow, RosterRow]) == Ok((AfterSecond, []));
  }

  /** A record refused for a student not yet in the table crashes the grade step when
      it carries grades: the refusal creates no entry to record them in. */
  lemma RefusedFirstMergeCrashes()
    requires HasKey(Schema1, Sid) && HasKey(Schema1, Clicker)
    ensures var st := RosterState(map[], map[(Clicker, C9) := A1], []);
      var info := [(Sid, Mung.Text("U00000000")), (Clicker, C9)];
      var id := Mung.Text("U00000000");
      && CheckMerge(Schema1, Sid, st, info, id).Fail?
      && Merge(Schema1, Sid, st, info, id) == Ok(st.(log := st.log + [MergeRefused(CheckMerge(Schema1, Sid, st, info, id).error)]))
      && MergeGrades(Merge(Schema1, Sid, st, info, id).value, id, info, [("quiz1", Quiz)], [("quiz1", Quiz)])
           == Err(MissingEntry(id))
  {
    var st := RosterState(map[], map[(Clicker, C9) := A1], []);
    var info := [(Sid, Mung.Text("U00000000")), (Clicker, C9)];
    var id := Mung.Text("U00000000");
    SchemaFacts();
    assert !Consistent(Schema1, Sid, map[], st.index, id, info[1]);
  }

  const Section := "Section"
  const Schema2: Schema := [(Sid, Flags(true, true)), (Section, Flags(false, true))]
  const Hw1 := Grade(Points(5), None)
  const Hw2 := Grade(Points(7), None)
  /** Two records for one student that disagree on a one-per-student attribute. */
  const FirstRow := Record([(Sid, A1), (Section, Mung.Text("101"))], [("hw1", Hw1)])
  const SecondRow := Record([(Sid, A1), (Section, Mung.Text("102"))], [("hw2", Hw2)])
  const Held2: map<AttrName, InfoVal> := map[Section := Single(Mung.Text("101"))]
  const Refusal := MergeRefused(SingletonConflict(Section, Single(Mung.Text("101")), Mung.Text("102")))

  lemma Schema2Facts()
    ensures Sid != Section
    ensures FlagsOf(Schema2, Sid) == Flags(true, true) && FlagsOf(Schema2, Section) == Flags(false, true)
    ensures AllKnown(Schema2, [FirstRow, SecondRow])
  {
    assert Sid[1] != Section[1];
    assert Schema2[0].0 == Sid && Schema2[1].0 == Section;
    assert Schema2[1..] == [(Section, Flags(false, true))];
    assert KeysKnown(Schema2, FirstRow.info) by { assert FirstRow.info[0].0 == Sid && FirstRow.info[1].0 == Section; }
    assert KeysKnown(Schema2, SecondRow.info) by { assert SecondRow.info[0].0 == Sid && SecondRow.info[1].0 == Section; }
  }

  /** The first record creates the student with its section and its grade. */
  lemma FirstWriter()
    requires AllKnown(Schema2, [FirstRow, SecondRow])
    ensures PassStep(Schema2, Sid, PassState(EmptyRoster, [], false), FirstRow)
      == Ok(PassState(RosterState(map[A1 := Entry(Held2, map["hw1" := Hw1])], map[], []), [], true))
  {
    Schema2Facts();
    assert GetStudentID(Schema2, Sid, map[], FirstRow.info) == Some(A1);
    assert CheckMerge(Schema2, Sid, EmptyRoster, FirstRow.info, A1) == Pass;
    var rest := [(Section, Mung.Text("101"))];
    assert FirstRow.info[0] == (Sid, A1) && FirstRow.info[1..] == rest && rest[1..] == [];
    assert ApplyItem(Schema2, Sid, A1, map[], map[], (Sid, A1)) == Ok((map[], map[]));
    assert ApplyItem(Schema2, Sid, A1, map[], map[], rest[0]) == Ok((Held2, map[]));
    assert ApplyItems(Schema2, Sid, A1, map[], map[], rest) == Ok((Held2, map[]));
    var s1 := RosterState(map[A1 := Entry(Held2, map[])], map[], []);
    assert Merge(Schema2, Sid, EmptyRoster, FirstRow.info, A1) == Ok(s1);
    assert CombineGrade("hw1", None, Hw1) == Ok(Hw1);
    var s2 := RosterState(map[A1 := Entry(Held2, map["hw1" := Hw1])], map[], []);
    assert s1.students[A1 := Entry(Held2, map[]).(grades := map[]["hw1" := Hw1])] == s2.students;
    assert AddGrade(s1, A1, ("hw1", Hw1), FirstRow.info, FirstRow.grades) == Ok(s2);
    assert FirstRow.grades[0] == ("hw1", Hw1) && FirstRow.grades[1..] == [];
    assert MergeGrades(s1, A1, FirstRow.info, FirstRow.grades, FirstRow.grades)
      == Ok(RosterState(map[A1 := Entry(Held2, map["hw1" := Hw1])], map[], []));
  }

  /** The second record is refused on its section, a warning logged, yet its grade is
      recorded for the student all the same. */
  lemma SecondWriterRefused()
    requires AllKnown(Schema2, [FirstRow, SecondRow])
    ensures var st := RosterState(map[A1 := Entry(Held2, map["hw1" := Hw1])], map[], []);
      PassStep(Schema2, Sid, PassState(st, [], true), SecondRow)
      == Ok(PassState(RosterState(map[A1 := Entry(Held2, map["hw1" := Hw1, "hw2" := Hw2])], map[], [Refusal]), [], true))
  {
    Schema2Facts();
    var st := RosterState(map[A1 := Entry(Held2, map["hw1" := Hw1])], map[], []);
    assert GetStudentID(Schema2, Sid, map[], SecondRow.info) == Some(A1);
    assert SecondRow.info[0] == (Sid, A1) && SecondRow.info[1..] == [(Section, Mung.Text("102"))];
    assert Mung.Text("101") != Mung.Text("102") by { assert "101"[2] != "102"[2]; }
    assert HeldInfo(st, A1) == Held2;
    var conflict := SingletonConflict(Section, Single(Mung.Text("101")), Mung.Text("102"));
    assert CheckItems(Schema2, Sid, Held2, map[], A1, [(Section, Mung.Text("102"))]) == Fail(conflict);
    assert CheckItems(Schema2, Sid, Held2, map[], A1, SecondRow.info) == Fail(conflict);
    assert CheckMerge(Schema2, Sid, st, SecondRow.info, A1) == Fail(SingletonConflict(Section, Single(Mung.Text("101")), Mung.Text("102")));
    var s1 := st.(log := [Refusal]);
    assert st.log + [MergeRefused(conflict)] == [Refusal];
    assert Merge(Schema2, Sid, st, SecondRow.info, A1) == Ok(s1);
    assert "hw2" != "hw1" by { assert "hw2"[2] != "hw1"[2]; }
    assert CombineGrade("hw2", None, Hw2) == Ok(Hw2);
    var s2 := RosterState(map[A1 := Entry(Held2, map["hw1" := Hw1, "hw2" := Hw2])], map[], [Refusal]);
    assert "hw2" !in st.students[A1].grades;
    assert s1.students[A1 := st.students[A1].(grades := map["hw1" := Hw1]["hw2" := Hw2])] == s2.students;
    assert AddGrade(s1, A1, ("hw2", Hw2), SecondRow.info, SecondRow.grades) == Ok(s2);
    assert SecondRow.grades[0] == ("hw2", Hw2) && SecondRow.grades[1..] == [];
    assert MergeGrades(s1, A1, SecondRow.info, SecondRow.grades, SecondRow.grades)
      == Ok(RosterState(map[A1 := Entry(Held2, map["hw1" := Hw1, "hw2" := Hw2])], map[], [Refusal]));
  }

  const AfterConflict := RosterState(map[A1 := Entry(Held2, map["hw1" := Hw1, "hw2" := Hw2])], map[], [Refusal])

  /** The single pass over both records resolves them both and defers nothing. */
  lemma ConflictPass()
    requires AllKnown(Schema2, [FirstRow, SecondRow])
    ensures OnePass(Schema2, Sid, EmptyRoster, [FirstRow, SecondRow]) == Ok(PassState(AfterConflict, [], true))
  {
    FirstWriter();
    SecondWriterRefused();
    var data := [FirstRow, SecondRow];
    assert data[0] == FirstRow && data[1..] == [SecondRow] && [SecondRow][1..] == [];
    var fin := PassState(AfterConflict, [], true);
    assert PassFrom(Schema2, Sid, fin, []) == Ok(fin);
    var acc1 := PassState(RosterState(map[A1 := Entry(Held2, map["hw1" := Hw1])], map[], []), [], true);
    assert PassFrom(Schema2, Sid, acc1, [SecondRow]) == Ok(fin);
  }

  /** Two records for one student that disagree on a one-per-student attribute: the
      first writer's value is kept, the conflict is logged, and the grades of both
      records are merged. */
  lemma ConflictKeepsFirstWriter()
    requires AllKnown(Schema2, [FirstRow, SecondRow])
    ensures Run(Schema2, [FirstRow, SecondRow]).Ok?
    ensures var (s, failed) := Run(Schema2, [FirstRow, SecondRow]).value;
      && failed == [] && s.students.Keys == {A1}
      && s.students[A1].info == map[Section := Single(Mung.Text("101"))]
      && s.students[A1].grades == map["hw1" := Hw1, "hw2" := Hw2]
      && s.log == [Refusal]
  {
    Schema2Facts();
    assert FindPrimaryAttr(Schema2) == Some(Sid);
    ConflictPass();
    assert Gather(Schema2, Sid, EmptyRoster, [FirstRow, SecondRow]) == Ok((AfterConflict, []));
    assert Unidentifiable([]) == [];
  }
}
