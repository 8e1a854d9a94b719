# Gradebook journal in Dafny

A verified model of the in-memory student gradebook of the `journal`
console program (`main.go`). The program keeps students in a map keyed by
an id it hands out from a counter starting at 1; each student carries a
surname, a name, a patronymic and a history of integer grades from 1 to 5.
The model covers the two components that hold all of its logic:

- `StudentRecord` (`student.dfy`): the `Student` class, with the full
  name, the range-checked grade append and the average grade (exact
  rationals as Dafny `real`s: `Sum / count`, and 0 when there are no
  grades), together with the lemmas about the mean and about splitting a
  full name back into its three words.
- `GradebookStore` (`gradebook.dfy`): the `Gradebook` class, a
  `map<int, Student>` of object references plus the `nextID` counter, with
  its store invariant `Valid()` (the keys are exactly the ids 1 to
  `nextID - 1`, so none is skipped; each key is its student's id; every stored
  grade is in `[1, 5]`). It adds students,
  adds grades by id, filters students strictly below a threshold and ranks
  all students by average. Go's map iteration order is modelled by an
  arbitrary choice of the next key (`:|`); `sort.Slice` is modelled by an
  in-place insertion sort over an array of student references whose
  contract is only what `sort.Slice` guarantees: the result is ordered by
  the comparison and is a permutation of its input. No order among equal
  averages is claimed, and `RankingsAgree` proves that two rankings of the
  same store can differ only by swapping students with equal averages.
- `JournalScenarios` (`scenarios.dfy`): short sessions against a fresh
  gradebook, proved from the contracts alone: ids 1, 2, 3 for three new
  students; refused grades; the filter and both rankings over students
  averaging 2, 4 and 3 (or 5).

Where the Go code prints a message for a rejected grade or an unknown id,
the model returns a value instead (`AddGrade` returns whether the grade was
accepted, `AddGradeToStudent` returns `Added`, `InvalidGrade` or
`StudentNotFound`); the state change is exactly the Go one (none on
rejection).

## Model

| member | source | states |
|---|---|---|
| `StudentRecord.Student.constructor` | main.go:54-60 | a new student carries the given id and name fields and no grades |
| `StudentRecord.Student.FullName` | main.go:16-18 | surname, name and patronymic joined by single spaces, in that order: the length is the parts' lengths plus two, and splitting at spaces gives back exactly those three words when none contains a space |
| `StudentRecord.FullNameInjective` | main.go:16-18 | two students with space-free name parts and the same full name agree on surname, name and patronymic |
| `StudentRecord.Student.AddGrade` | main.go:20-26 | the grade is appended exactly when 1 <= grade <= 5, otherwise the grades are unchanged; the result says which; the all-grades-valid invariant is kept |
| `StudentRecord.Student.AverageGrade` | main.go:28-37 | the loop's result is the exact mean of the grades (0 for none) and lies in [1, 5] when the grades are valid and non-empty |
| `StudentRecord.SumBounds` | main.go:32-35 | the sum of n valid grades lies between n and 5n |
| `StudentRecord.MeanInRange` | main.go:28-37 | a non-empty history of grades in [1, 5] has its mean in [1, 5] |
| `StudentRecord.MeanTimesCount` | main.go:32-36 | the mean times the number of grades is the sum of the grades |
| `StudentRecord.MeanExamples` | main.go:28-37 | no grades average 0, [5, 5, 5] averages 5 and [3, 4] averages 3.5 |
| `GradebookStore.Gradebook.constructor` | main.go:44-49 | a new store is empty, its next id is 1, and the store invariant (keys exactly the ids handed out so far) holds |
| `GradebookStore.Gradebook.AddStudent` | main.go:51-64 | returns the old next id, which was unused, and increments the counter by one; exactly that key is added, under a fresh student with the given names and no grades; existing entries and their grades are unchanged; the store invariant is kept |
| `GradebookStore.Gradebook.AddGradeToStudent` | main.go:66-72 | an unknown id changes nothing (`StudentNotFound`); for a known id only that student's grades may change, by appending the grade exactly when it is in [1, 5] (`Added`, else `InvalidGrade`); keys and counter unchanged; the store invariant is kept |
| `GradebookStore.Gradebook.StoredById` | main.go:51-61 | under the store invariant, a student is in the store exactly when it is the one filed under its own id |
| `GradebookStore.Gradebook.StudentsBelowGrade` | main.go:83-91 | each stored student whose average is strictly below the threshold occurs exactly once in the result, and nothing else occurs |
| `GradebookStore.Gradebook.SortByAverage` | main.go:93-110 | every stored student occurs exactly once and nothing else; averages are non-decreasing along the result when ascending and non-increasing otherwise |
| `GradebookStore.Less` | main.go:100-106 | the comparison is true exactly when the first student's average is strictly below (ascending) or above (descending) the second's |
| `GradebookStore.SortStudents` | main.go:99-107 | the array ends ranked in the given direction and is a permutation of what it held |
| `GradebookStore.InsertBackward` | main.go:99-107 | one insertion step: a ranked prefix of length i grows to a ranked prefix of length i + 1, as a permutation, and the elements after position i stay where they were |
| `GradebookStore.SortedUnique` | main.go:99-107 | two sequences of averages sorted in the same direction with the same multiset of values are equal |
| `GradebookStore.AveragesPermutation` | main.go:93-110 | permuting students permutes their averages the same way |
| `GradebookStore.RankingsAgree` | main.go:93-110 | any two rankings of the same students in the same direction list the same averages in the same order, so repeated calls agree up to ties |
| `JournalScenarios.FreshIdsCountFromOne` | main.go:44-53 | three students added to a fresh store get ids 1, 2 and 3 |
| `JournalScenarios.RejectedGrades` | main.go:66-72 | a grade of 4 for a known student is added, while an unknown id and a grade of 6 are refused, and the student's grades stay [4] |
| `JournalScenarios.BelowFour` | main.go:83-91 | with averages 2, 4 and 5, the students below 4 are exactly the one averaging 2 |
| `JournalScenarios.RankUpwards` | main.go:99-102 | with averages 2, 4 and 3, the ascending ranking lists averages 2, 3, 4 |
| `JournalScenarios.RankDownwards` | main.go:103-106 | with averages 2, 4 and 3, the descending ranking lists averages 4, 3, 2 |
| `JournalScenarios.RankingOfTwoFourThree` | main.go:93-110 | every ranking of three students averaging 2, 4 and 3 lists 2, 3, 4 upwards and 4, 3, 2 downwards |

## Left out

- The interactive menu of `main` (main.go:112-225): console input with `fmt.Scanln`, its retry loops and its own pre-checks of ids and grades are I/O around the store; the store operations it calls are modelled.
- `PrintAllStudents` (main.go:74-81) and the messages printed by `AddGrade`, `AddStudent` and `AddGradeToStudent` (main.go:24, 62, 70): console output only. The rejections are modelled as "no state change" plus a returned status.
- `float64`: averages and the threshold are exact rationals (`real`), not IEEE doubles; rounding of `float64(sum) / float64(len)` and `%.2f` formatting are not modelled, nor NaN or infinite thresholds.
- Go's 64-bit `int`: `nextID` and the grade sum are unbounded integers; wrap-around after 2^63 ids or an overflowing sum is not modelled.
- `sort.Slice`'s actual algorithm (pattern-defeating quicksort, not stable): the model sorts by insertion and promises only what `sort.Slice` promises, an ordered permutation; its comparator, like Go's, recomputes both averages on every comparison.
- Go map iteration order: modelled as an arbitrary choice at each step, so neither the filter's nor the collection's order is specified beyond the multiset of students.
- Go returns the filter's result as a nil slice when no student qualifies; the model returns an empty sequence, which is the same list of students.
