/** The store of the journal: students keyed by the id it hands out, with
    the queries that filter and rank them by their average grade. */
module GradebookStore {
  import opened StudentRecord

  /** What became of a request to add a grade to a student. */
  datatype Status = Added | InvalidGrade | StudentNotFound

  /** Whether `x` may come before `y` in a ranking in the given direction. */
  predicate InOrder(x: real, y: real, ascending: bool) {
    if ascending then x <= y else y <= x
  }

  /** The averages of the students, position by position. */
  ghost function Averages(s: seq<Student>): seq<real>
    reads s
  {
    seq(|s|, k requires 0 <= k < |s| reads s => Mean(s[k].grades))
  }

  /** Values that never go against the direction along the sequence. */
  predicate Sorted(v: seq<real>, ascending: bool) {
    forall i, j :: 0 <= i < j < |v| ==> InOrder(v[i], v[j], ascending)
  }

  /** A ranking: averages never go against the direction along the sequence. */
  ghost predicate Ranked(s: seq<Student>, ascending: bool)
    reads s
  {
    Sorted(Averages(s), ascending)
  }

  /** Position of an element known to occur in the sequence. */
  function IndexOf<T(==)>(s: seq<T>, x: T): (i: nat)
    requires x in s
    ensures i < |s| && s[i] == x
  {
    if s[0] == x then 0 else 1 + IndexOf(s[1..], x)
  }

  lemma AveragesConcat(s: seq<Student>, t: seq<Student>)
    ensures Averages(s + t) == Averages(s) + Averages(t)
  {
  }

  /** Rearranging students rearranges their averages the same way. */
  lemma {:induction false} AveragesPermutation(r1: seq<Student>, r2: seq<Student>)
    requires multiset(r1) == multiset(r2)
    ensures multiset(Averages(r1)) == multiset(Averages(r2))
    decreases |r1|
  {
    if r1 == [] {
      assert |r2| == |multiset(r2)| == 0;
    } else {
      var x := r1[0];
      assert x in multiset(r2);
      var i := IndexOf(r2, x);
      var rest := r2[..i] + r2[i + 1..];
      assert r1 == [x] + r1[1..];
      assert r2 == r2[..i] + [x] + r2[i + 1..];
      assert multiset(r1) == multiset([x]) + multiset(r1[1..]);
      assert multiset(r2) == multiset(r2[..i]) + multiset([x]) + multiset(r2[i + 1..]);
      assert multiset(r1[1..]) == multiset(r1) - multiset([x]);
      assert multiset(rest) == multiset(r2) - multiset([x]);
      AveragesPermutation(r1[1..], rest);
      AveragesConcat([x], r1[1..]);
      AveragesConcat(r2[..i] + [x], r2[i + 1..]);
      AveragesConcat(r2[..i], [x]);
      AveragesConcat(r2[..i], r2[i + 1..]);
    }
  }

  /** Two sorted arrangements of the same values are the same sequence. */
  lemma {:induction false} SortedUnique(v: seq<real>, w: seq<real>, ascending: bool)
    requires multiset(v) == multiset(w)
    requires Sorted(v, ascending) && Sorted(w, ascending)
    ensures v == w
    decreases |v|
  {
    assert |v| == |multiset(v)| == |multiset(w)| == |w|;
    if v != [] {
      FirstComesFirst(w, v[0], ascending);
      FirstComesFirst(v, w[0], ascending);
      SameTails(v, w);
      SortedUnique(v[1..], w[1..], ascending);
      assert v == [v[0]] + v[1..] && w == [w[0]] + w[1..];
    }
  }

  /** The first value of a sorted sequence may come before any value in it. */
  lemma FirstComesFirst(v: seq<real>, x: real, ascending: bool)
    requires Sorted(v, ascending) && x in multiset(v)
    ensures InOrder(v[0], x, ascending)
  {
  }

  /** Equal heads and equal multisets leave equal multisets of tails. */
  lemma SameTails(v: seq<real>, w: seq<real>)
    requires v != [] && w != [] && v[0] == w[0] && multiset(v) == multiset(w)
    ensures multiset(v[1..]) == multiset(w[1..])
  {
    assert v == [v[0]] + v[1..] && w == [w[0]] + w[1..];
    assert multiset(v[1..]) == multiset(v) - multiset([v[0]]);
    assert multiset(w[1..]) == multiset(w) - multiset([w[0]]);
  }

  /** Two rankings of the same students, in the same direction, list the same
      averages in the same order: only students with equal averages may trade places. */
  lemma RankingsAgree(r1: seq<Student>, r2: seq<Student>, ascending: bool)
    requires multiset(r1) == multiset(r2)
    requires Ranked(r1, ascending) && Ranked(r2, ascending)
    ensures Averages(r1) == Averages(r2)
  {
    AveragesPermutation(r1, r2);
    SortedUnique(Averages(r1), Averages(r2), ascending);
  }

  /** The ids handed out before `next`: 1, 2, ..., next - 1. */
  function IdsBelow(next: int): (ids: set<int>)
    ensures forall k :: k in ids <==> 1 <= k < next
    decreases next
  {
    if next <= 1 then {} else IdsBelow(next - 1) + {next - 1}
  }

  class Gradebook {
    var students: map<int, Student>
    var nextID: int

    /** The store invariant: the keys are exactly the ids 1, 2, ... handed
        out so far, each key is its student's id, and every stored grade is
        valid. */
    ghost predicate Valid()
      reads this, students.Values
    {
      && 1 <= nextID
      && students.Keys == IdsBelow(nextID)
      && forall k :: k in students ==>
           && students[k].id == k
           && students[k].Valid()
    }

    /** The grade histories of the store, by id. */
    ghost function Grades(): map<int, seq<int>>
      reads this, students.Values
    {
      map k | k in students :: students[k].grades
    }

    /** An empty store whose first id will be 1. */
    constructor ()
      ensures Valid()
      ensures students == map[] && nextID == 1
    {
      students := map[];
      nextID := 1;
    }

    /** Hands out the next id and stores a new student with no grades under it. */
    method AddStudent(name: string, surname: string, patronymic: string) returns (id: int)
      requires Valid()
      modifies this
      ensures Valid()
      ensures id == old(nextID) && nextID == old(nextID) + 1
      ensures id !in old(students) && students.Keys == old(students.Keys) + {id}
      ensures forall k :: k in old(students) ==> students[k] == old(students[k])
      ensures fresh(students[id])
      ensures students[id].id == id && students[id].name == name
      ensures students[id].surname == surname && students[id].patronymic == patronymic
      ensures students[id].grades == []
      ensures Grades() == old(Grades())[id := []]
    {
      id := nextID;
      nextID := nextID + 1;
      var student := new Student(id, name, surname, patronymic);
      students := students[id := student];
    }

    /** Adds a grade to the student with the given id, when there is one and
        the grade is valid; in every other case nothing changes. */
    method AddGradeToStudent(id: int, grade: int) returns (status: Status)
      requires Valid()
      modifies students.Values
      ensures Valid()
      ensures students == old(students) && nextID == old(nextID)
      ensures status == if id !in students then StudentNotFound
                        else if ValidGrade(grade) then Added
                        else InvalidGrade
      ensures forall k :: k in students ==>
                students[k].grades == if k == id && status == Added
                                      then old(students[k].grades) + [grade]
                                      else old(students[k].grades)
    {
      if id in students {
        var student := students[id];
        var accepted := student.AddGrade(grade);
        status := if accepted then Added else InvalidGrade;
        forall k | k in students && k != id ensures students[k].grades == old(students[k].grades) {
          assert students[k].id != student.id;
        }
      } else {
        status := StudentNotFound;
      }
    }

    /** A stored student is the one filed under its own id. */
    lemma StoredById()
      requires Valid()
      ensures forall s :: s in students.Values <==> Stored(s)
    {
    }

    ghost predicate Stored(s: Student)
      reads this
    {
      s.id in students && students[s.id] == s
    }

    /** Every student whose average is strictly below the threshold, each
        exactly once, in no particular order. */
    method StudentsBelowGrade(threshold: real) returns (result: seq<Student>)
      requires Valid()
      ensures forall s: Student :: multiset(result)[s] ==
                (if s in students.Values && Mean(s.grades) < threshold then 1 else 0)
    {
      result := [];
      var remaining := students.Keys;
      ghost var done: set<int> := {};
      while remaining != {}
        invariant remaining !! done && remaining + done == students.Keys
        invariant forall s: Student :: multiset(result)[s] ==
                    (if Stored(s) && s.id in done && Mean(s.grades) < threshold then 1 else 0)
        decreases remaining
      {
        assert (forall k :: k !in remaining) ==> remaining == {};
        var k :| k in remaining;
        var student := students[k];
        var avg := student.AverageGrade();
        if avg < threshold {
          result := result + [student];
        }
        remaining := remaining - {k};
        done := done + {k};
      }
      StoredById();
    }

    /** Every student exactly once, ranked by average in the given
        direction; the order among equal averages is not fixed. */
    method SortByAverage(ascending: bool) returns (ranking: seq<Student>)
      requires Valid()
      ensures forall s: Student :: multiset(ranking)[s] == (if s in students.Values then 1 else 0)
      ensures Ranked(ranking, ascending)
    {
      var all: seq<Student> := [];
      var remaining := students.Keys;
      ghost var done: set<int> := {};
      while remaining != {}
        invariant remaining !! done && remaining + done == students.Keys
        invariant forall s: Student :: multiset(all)[s] == (if Stored(s) && s.id in done then 1 else 0)
        decreases remaining
      {
        assert (forall k :: k !in remaining) ==> remaining == {};
        var k :| k in remaining;
        all := all + [students[k]];
        remaining := remaining - {k};
        done := done + {k};
      }
      StoredById();
      var a := new Student[|all|](i requires 0 <= i < |all| => all[i]);
      assert a[..] == all;
      SortStudents(a, ascending);
      ranking := a[..];
    }
  }

  /** Sorts the students in place by average, in the given direction (an
      insertion sort; the contract is all that the ranking relies on). */
  method SortStudents(a: array<Student>, ascending: bool)
    modifies a
    ensures Ranked(a[..], ascending)
    ensures multiset(a[..]) == old(multiset(a[..]))
  {
    var i := 0;
    while i < a.Length
      invariant 0 <= i <= a.Length
      invariant Ranked(a[..i], ascending)
      invariant multiset(a[..]) == old(multiset(a[..]))
    {
      InsertBackward(a, i, ascending);
      i := i + 1;
    }
    assert a[..a.Length] == a[..];
  }

  /** Moves a[i] down past the elements that must follow it, so that the
      first i + 1 elements are ranked. */
  method InsertBackward(a: array<Student>, i: nat, ascending: bool)
    requires i < a.Length
    requires Ranked(a[..i], ascending)
    modifies a
    ensures Ranked(a[..i + 1], ascending)
    ensures multiset(a[..]) == old(multiset(a[..]))
    ensures a[i + 1..] == old(a[i + 1..])
  {
    var j := i;
    ghost var keys := Averages(a[..]);
    assert Averages(a[..i]) == keys[..i];
    SortedPrefixExcept(keys, i, ascending);
    while j > 0
      invariant 0 <= j <= i
      invariant |keys| == a.Length && forall k :: 0 <= k < a.Length ==> keys[k] == Mean(a[k].grades)
      invariant SortedExcept(keys, i, j, ascending)
      invariant LeadsRest(keys, i, j, ascending)
      invariant multiset(a[..]) == old(multiset(a[..]))
      invariant forall k :: i < k < a.Length ==> a[k] == old(a[k])
    {
      var less := Less(a[j], a[j - 1], ascending);
      if !less {
        break;
      }
      SwapStep(keys, i, j, ascending);
      Swap(a, j - 1, j);
      keys := keys[j - 1 := keys[j]][j := keys[j - 1]];
      j := j - 1;
    }
    InsertDone(keys, i, j, ascending);
    assert Averages(a[..i + 1]) == keys[..i + 1];
  }

  /** The comparison the ranking sorts by: `x` must come before `y`. */
  method Less(x: Student, y: Student, ascending: bool) returns (less: bool)
    ensures less <==> !InOrder(Mean(y.grades), Mean(x.grades), ascending)
  {
    var ax := x.AverageGrade();
    var ay := y.AverageGrade();
    less := if ascending then ax < ay else ax > ay;
  }

  /** Positions up to `hi`, leaving out `j`, are in order. */
  predicate SortedExcept(v: seq<real>, hi: nat, j: nat, ascending: bool) {
    hi < |v| &&
    forall k, l :: 0 <= k < l <= hi && k != j && l != j ==> InOrder(v[k], v[l], ascending)
  }

  /** The value at `j` may come before every value after it, up to `hi`. */
  predicate LeadsRest(v: seq<real>, hi: nat, j: nat, ascending: bool) {
    j <= hi < |v| &&
    forall l :: j < l <= hi ==> InOrder(v[j], v[l], ascending)
  }

  lemma SortedPrefixExcept(v: seq<real>, hi: nat, ascending: bool)
    requires hi < |v| && Sorted(v[..hi], ascending)
    ensures SortedExcept(v, hi, hi, ascending) && LeadsRest(v, hi, hi, ascending)
  {
  }

  /** Swapping the value at `j` with a predecessor that must follow it keeps
      both properties, one place further down. */
  lemma SwapStep(v: seq<real>, hi: nat, j: nat, ascending: bool)
    requires 0 < j <= hi
    requires SortedExcept(v, hi, j, ascending) && LeadsRest(v, hi, j, ascending)
    requires !InOrder(v[j - 1], v[j], ascending)
    ensures SortedExcept(v[j - 1 := v[j]][j := v[j - 1]], hi, j - 1, ascending)
    ensures LeadsRest(v[j - 1 := v[j]][j := v[j - 1]], hi, j - 1, ascending)
  {
  }

  /** Once the moving value may follow its predecessor, the prefix is in order. */
  lemma InsertDone(v: seq<real>, hi: nat, j: nat, ascending: bool)
    requires SortedExcept(v, hi, j, ascending) && LeadsRest(v, hi, j, ascending)
    requires j > 0 ==> InOrder(v[j - 1], v[j], ascending)
    ensures Sorted(v[..hi + 1], ascending)
  {
  }

  method Swap(a: array<Student>, i: nat, j: nat)
    requires i < j < a.Length
    modifies a
    ensures a[..] == old(a[..])[i := old(a[j])][j := old(a[i])]
    ensures multiset(a[..]) == old(multiset(a[..]))
  {
    a[i], a[j] := a[j], a[i];
  }
}
