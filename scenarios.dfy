/** Sessions with a fresh gradebook, as the console drives it, and what the
    contracts of the store let a caller conclude about them. */
module JournalScenarios {
  import opened StudentRecord
  import opened GradebookStore

  /** Three students added to a fresh book receive ids 1, 2 and 3. */
  method FreshIdsCountFromOne() returns (ids: seq<int>)
    ensures ids == [1, 2, 3]
  {
    var book := new Gradebook();
    var first := book.AddStudent("Ivan", "Petrov", "Sergeevich");
    var second := book.AddStudent("Anna", "Smirnova", "Olegovna");
    var third := book.AddStudent("Oleg", "Ivanov", "Petrovich");
    ids := [first, second, third];
  }

  /** A grade for an unknown id, and an out-of-range grade for a known one,
      are both refused and leave the grades as they were. */
  method RejectedGrades() returns (ok: Status, unknown: Status, outOfRange: Status, grades: seq<int>)
    ensures ok == Added && unknown == StudentNotFound && outOfRange == InvalidGrade
    ensures grades == [4]
  {
    var book := new Gradebook();
    var id := book.AddStudent("Ivan", "Petrov", "Sergeevich");
    ok := book.AddGradeToStudent(id, 4);
    unknown := book.AddGradeToStudent(id + 1, 5);
    outOfRange := book.AddGradeToStudent(id, 6);
    grades := book.students[id].grades;
  }

  /** A fresh book holding three students with no grades, under ids 1, 2, 3. */
  method BookOfThreeNames() returns (book: Gradebook)
    ensures fresh(book) && book.Valid() && book.students.Keys == {1, 2, 3}
    ensures book.students[1].grades == [] && book.students[2].grades == []
    ensures book.students[3].grades == []
    ensures forall s :: s in book.students.Values ==> fresh(s)
  {
    book := new Gradebook();
    var a := book.AddStudent("Ivan", "Petrov", "Sergeevich");
    var b := book.AddStudent("Anna", "Smirnova", "Olegovna");
    var c := book.AddStudent("Oleg", "Ivanov", "Petrovich");
    assert book.students.Values == {book.students[1], book.students[2], book.students[3]};
  }

  /** A fresh book holding three students with one grade each, under ids 1, 2, 3. */
  method BookOfThree(g1: int, g2: int, g3: int) returns (book: Gradebook)
    requires ValidGrade(g1) && ValidGrade(g2) && ValidGrade(g3)
    ensures fresh(book) && book.Valid() && book.students.Keys == {1, 2, 3}
    ensures book.students[1].grades == [g1]
    ensures book.students[2].grades == [g2]
    ensures book.students[3].grades == [g3]
  {
    book := BookOfThreeNames();
    assert [] + [g1] == [g1] && [] + [g2] == [g2] && [] + [g3] == [g3];
    var s1 := book.AddGradeToStudent(1, g1);
    var s2 := book.AddGradeToStudent(2, g2);
    var s3 := book.AddGradeToStudent(3, g3);
  }

  /** Students averaging 2, 4 and 5: only the first is below a threshold of 4. */
  method BelowFour() returns (below: seq<Student>)
    ensures |below| == 1 && below[0].id == 1 && Mean(below[0].grades) == 2.0
  {
    var book := BookOfThree(2, 4, 5);
    var x: Student, y: Student, z: Student := book.students[1], book.students[2], book.students[3];
    SingleGradeMean(2);
    SingleGradeMean(4);
    SingleGradeMean(5);
    assert book.students.Values == {x, y, z};
    below := book.StudentsBelowGrade(4.0);
    assert multiset(below) == multiset{x} by {
      forall s: Student ensures multiset(below)[s] == multiset{x}[s] {
        if s == y || s == z {
          assert Mean(s.grades) >= 4.0;
        }
      }
    }
    assert |below| == |multiset(below)| == 1;
    assert below[0] in multiset(below);
  }

  /** Students averaging 2, 4 and 3 rank as 2, 3, 4 upwards. */
  method RankUpwards() returns (up: seq<real>)
    ensures up == [2.0, 3.0, 4.0]
  {
    var book := BookOfThree(2, 4, 3);
    var x: Student, y: Student, z: Student := book.students[1], book.students[2], book.students[3];
    assert book.students.Values == {x, y, z};
    var ranking: seq<Student> := book.SortByAverage(true);
    RankingOfTwoFourThree(ranking, x, y, z, true);
    up := AveragesOf(ranking);
  }

  /** Students averaging 2, 4 and 3 rank as 4, 3, 2 downwards. */
  method RankDownwards() returns (down: seq<real>)
    ensures down == [4.0, 3.0, 2.0]
  {
    var book := BookOfThree(2, 4, 3);
    var x: Student, y: Student, z: Student := book.students[1], book.students[2], book.students[3];
    assert book.students.Values == {x, y, z};
    var ranking: seq<Student> := book.SortByAverage(false);
    RankingOfTwoFourThree(ranking, x, y, z, false);
    down := AveragesOf(ranking);
  }

  /** Any ranking of three students averaging 2, 4 and 3 lists the averages
      2, 3, 4 upwards and 4, 3, 2 downwards. */
  lemma RankingOfTwoFourThree(r: seq<Student>, x: Student, y: Student, z: Student, ascending: bool)
    requires x.grades == [2] && y.grades == [4] && z.grades == [3]
    requires forall s: Student :: multiset(r)[s] == (if s in {x, y, z} then 1 else 0)
    requires Ranked(r, ascending)
    ensures Averages(r) == if ascending then [2.0, 3.0, 4.0] else [4.0, 3.0, 2.0]
  {
    ThreeStudents(r, x, y, z);
    AveragesPermutation(r, [x, y, z]);
    AveragesOfTwoFourThree(x, y, z);
    SortedTwoFourThree(Averages(r), ascending);
  }

  lemma SortedTwoFourThree(v: seq<real>, ascending: bool)
    requires multiset(v) == multiset([2.0, 4.0, 3.0]) && Sorted(v, ascending)
    ensures v == if ascending then [2.0, 3.0, 4.0] else [4.0, 3.0, 2.0]
  {
  }

  lemma AveragesOfTwoFourThree(x: Student, y: Student, z: Student)
    requires x.grades == [2] && y.grades == [4] && z.grades == [3]
    ensures Averages([x, y, z]) == [2.0, 4.0, 3.0]
  {
    SingleGradeMean(2);
    SingleGradeMean(4);
    SingleGradeMean(3);
  }

  lemma ThreeStudents(r: seq<Student>, x: Student, y: Student, z: Student)
    requires x != y && y != z && x != z
    requires forall s: Student :: multiset(r)[s] == (if s in {x, y, z} then 1 else 0)
    ensures multiset(r) == multiset([x, y, z])
  {
  }

  /** The averages of the listed students, read one by one. */
  method AveragesOf(students: seq<Student>) returns (avgs: seq<real>)
    ensures avgs == Averages(students)
  {
    avgs := [];
    for i := 0 to |students|
      invariant avgs == Averages(students[..i])
    {
      var avg := students[i].AverageGrade();
      avgs := avgs + [avg];
    }
    assert students[..|students|] == students;
  }

  lemma SingleGradeMean(g: int)
    ensures Mean([g]) == g as real
  {
    assert [g][..0] == [];
    assert Sum([g]) == g;
  }
}
