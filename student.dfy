/** One student of the journal: identity fields fixed at creation and a
    grade history that only grows, through AddGrade. */
module StudentRecord {

  /** The journal accepts integer grades from 1 to 5 inclusive. */
  predicate ValidGrade(g: int) {
    1 <= g <= 5
  }

  predicate AllValid(grades: seq<int>) {
    forall i :: 0 <= i < |grades| ==> ValidGrade(grades[i])
  }

  /** Sum of the grades, added up from the first to the last. */
  function Sum(grades: seq<int>): int {
    if grades == [] then 0 else Sum(grades[..|grades| - 1]) + grades[|grades| - 1]
  }

  /** The exact arithmetic mean of the grades; 0 stands for "no grades yet". */
  function Mean(grades: seq<int>): real {
    if |grades| == 0 then 0.0 else Sum(grades) as real / |grades| as real
  }

  lemma {:induction false} SumBounds(grades: seq<int>)
    requires AllValid(grades)
    ensures |grades| <= Sum(grades) <= 5 * |grades|
  {
    if grades != [] {
      var init := grades[..|grades| - 1];
      assert AllValid(init) by {
        forall i | 0 <= i < |init| ensures ValidGrade(init[i]) {
          assert init[i] == grades[i];
        }
      }
      SumBounds(init);
    }
  }

  /** A non-empty history of valid grades has its mean in [1, 5]. */
  lemma MeanInRange(grades: seq<int>)
    requires AllValid(grades) && grades != []
    ensures 1.0 <= Mean(grades) <= 5.0
  {
    SumBounds(grades);
    var n := |grades| as real;
    var s := Sum(grades) as real;
    assert Mean(grades) == s / n;
    QuotientBounds(s, n);
  }

  lemma QuotientBounds(s: real, n: real)
    requires 0.0 < n <= s <= 5.0 * n
    ensures 1.0 <= s / n <= 5.0
  {
  }

  /** The mean times the number of grades gives back the sum. */
  lemma MeanTimesCount(grades: seq<int>)
    ensures Mean(grades) * |grades| as real == Sum(grades) as real
  {
  }

  /** Worked values of the mean: [5, 5, 5] averages 5 and [3, 4] averages 3.5. */
  lemma MeanExamples()
    ensures Mean([]) == 0.0
    ensures Mean([5, 5, 5]) == 5.0
    ensures Mean([3, 4]) == 3.5
  {
    assert [5, 5, 5][..2] == [5, 5] && [5, 5][..1] == [5] && [5][..0] == [];
    assert [3, 4][..1] == [3] && [3][..0] == [];
  }

  /** Position of the first space in `s`. */
  function FirstSpace(s: string): (i: nat)
    requires ' ' in s
    ensures i < |s| && s[i] == ' ' && ' ' !in s[..i]
  {
    if s[0] == ' ' then 0
    else
      var j := FirstSpace(s[1..]);
      assert s[..j + 1] == [s[0]] + s[1..][..j];
      j + 1
  }

  /** Splits a string at every single space, the inverse of joining words by spaces. */
  function Words(s: string): seq<string>
    decreases |s|
  {
    if ' ' !in s then [s]
    else
      var i := FirstSpace(s);
      [s[..i]] + Words(s[i + 1..])
  }

  /** A space-free word followed by a space splits off as the first word. */
  lemma {:induction false} WordsOfJoin(word: string, rest: string)
    requires ' ' !in word
    ensures Words(word + " " + rest) == [word] + Words(rest)
  {
    var s := word + " " + rest;
    assert s[|word|] == ' ';
    var i := FirstSpace(s);
    assert i == |word|;
    assert s[..i] == word;
    assert s[i + 1..] == rest;
  }

  class Student {
    const id: int
    const name: string
    const surname: string
    const patronymic: string
    var grades: seq<int>

    /** Every stored grade is a valid one. */
    ghost predicate Valid()
      reads this
    {
      AllValid(grades)
    }

    constructor (id: int, name: string, surname: string, patronymic: string)
      ensures this.id == id && this.name == name && this.surname == surname
      ensures this.patronymic == patronymic && grades == []
      ensures Valid()
    {
      this.id := id;
      this.name := name;
      this.surname := surname;
      this.patronymic := patronymic;
      grades := [];
    }

    /** Display name: surname, name and patronymic, separated by single
        spaces; it splits back into the three parts when none of them
        contains a space (the console reads them as three words). */
    function FullName(): (r: string)
      ensures |r| == |surname| + |name| + |patronymic| + 2
      ensures ' ' !in surname && ' ' !in name && ' ' !in patronymic ==>
                Words(r) == [surname, name, patronymic]
    {
      var tail := name + " " + patronymic;
      if ' ' !in surname && ' ' !in name && ' ' !in patronymic then
        WordsOfJoin(surname, tail);
        WordsOfJoin(name, patronymic);
        surname + " " + tail
      else
        surname + " " + tail
    }

    /** Appends the grade when it lies in [1, 5]; otherwise nothing changes.
        The result tells the caller which of the two happened. */
    method AddGrade(grade: int) returns (accepted: bool)
      modifies this
      ensures accepted <==> ValidGrade(grade)
      ensures grades == if accepted then old(grades) + [grade] else old(grades)
      ensures old(Valid()) ==> Valid()
    {
      accepted := 1 <= grade <= 5;
      if accepted {
        grades := grades + [grade];
      }
    }

    /** The mean of the grades, 0 when there are none; in [1, 5] otherwise. */
    method AverageGrade() returns (avg: real)
      ensures avg == Mean(grades)
      ensures Valid() && grades != [] ==> 1.0 <= avg <= 5.0
    {
      if |grades| == 0 {
        return 0.0;
      }
      var sum := 0;
      for i := 0 to |grades|
        invariant sum == Sum(grades[..i])
      {
        assert grades[..i + 1][..i] == grades[..i];
        sum := sum + grades[i];
      }
      assert grades[..|grades|] == grades;
      avg := sum as real / |grades| as real;
      if Valid() {
        MeanInRange(grades);
      }
    }
  }

  /** Two students whose space-free name parts give the same full name agree on all three parts. */
  lemma FullNameInjective(s: Student, t: Student)
    requires ' ' !in s.surname && ' ' !in s.name && ' ' !in s.patronymic
    requires ' ' !in t.surname && ' ' !in t.name && ' ' !in t.patronymic
    requires s.FullName() == t.FullName()
    ensures s.surname == t.surname && s.name == t.name && s.patronymic == t.patronymic
  {
  }
}
