/**
 * The grade tracker (js/Script.js:330-426): letter grades, the per-term summary
 * renderGrades shows, and the store that addGrade and the row-delete handler
 * change. The store is kept in memory as a map from term key ("t1", "t2", "t3")
 * to that term's rows; its trip through localStorage and JSON is not modelled.
 */
module Grades {
  import opened Wrappers
  import opened Text
  import opened Rounding

  /** One stored row `{ s, sc }`. */
  datatype Grade = Grade(subject: string, score: int)

  datatype Letter = A | B | C | D

  /** scoreToGrade: each letter covers one band of scores, and the bands meet at 50, 65 and 80. */
  function ScoreToGrade(score: int): (l: Letter)
    ensures l == A <==> 80 <= score
    ensures l == B <==> 65 <= score < 80
    ensures l == C <==> 50 <= score < 65
    ensures l == D <==> score < 50
  {
    if score >= 80 then A else if score >= 65 then B else if score >= 50 then C else D
  }

  /** A's rank highest, D's lowest. */
  function LetterRank(l: Letter): nat
  {
    match l
    case D => 0
    case C => 1
    case B => 2
    case A => 3
  }

  /** A higher score never earns a lower letter. */
  lemma GradeMonotone(x: int, y: int)
    requires x <= y
    ensures LetterRank(ScoreToGrade(x)) <= LetterRank(ScoreToGrade(y))
  {
  }

  // ----- The summary line of renderGrades -----

  function Sum(rows: seq<Grade>): int
  {
    if rows == [] then 0 else rows[0].score + Sum(rows[1..])
  }

  /** How many rows have at least `threshold` (`filter(g => g.sc >= threshold).length`). */
  function CountAtLeast(rows: seq<Grade>, threshold: int): (n: nat)
    ensures n <= |rows|
  {
    if rows == [] then 0 else (if rows[0].score >= threshold then 1 else 0) + CountAtLeast(rows[1..], threshold)
  }

  /** How many rows have less than `threshold`. */
  function CountBelow(rows: seq<Grade>, threshold: int): (n: nat)
    ensures n <= |rows|
  {
    if rows == [] then 0 else (if rows[0].score < threshold then 1 else 0) + CountBelow(rows[1..], threshold)
  }

  /**
   * What the two counts count: none of the rows at or above the threshold
   * exactly when every score is below it, all of them exactly when none is,
   * and the two counts together cover every row once.
   */
  lemma {:induction false} CountsCharacterised(rows: seq<Grade>, threshold: int)
    ensures CountAtLeast(rows, threshold) == 0 <==> forall i :: 0 <= i < |rows| ==> rows[i].score < threshold
    ensures CountAtLeast(rows, threshold) == |rows| <==> forall i :: 0 <= i < |rows| ==> rows[i].score >= threshold
    ensures CountAtLeast(rows, threshold) + CountBelow(rows, threshold) == |rows|
  {
    if rows != [] {
      CountsCharacterised(rows[1..], threshold);
      assert forall i :: 1 <= i < |rows| ==> rows[i] == rows[1..][i - 1];
    }
  }

  /** The total and both counts add up over two blocks of rows, so the order of the rows does not matter to them. */
  lemma {:induction false} SummaryAppend(a: seq<Grade>, b: seq<Grade>, threshold: int)
    ensures Sum(a + b) == Sum(a) + Sum(b)
    ensures CountAtLeast(a + b, threshold) == CountAtLeast(a, threshold) + CountAtLeast(b, threshold)
    ensures CountBelow(a + b, threshold) == CountBelow(a, threshold) + CountBelow(b, threshold)
  {
    if a == [] {
      assert a + b == b;
    } else {
      assert (a + b)[1..] == a[1..] + b;
      SummaryAppend(a[1..], b, threshold);
    }
  }

  /** How many rows earn `letter`. */
  function CountLetter(rows: seq<Grade>, letter: Letter): nat
  {
    if rows == [] then 0 else (if ScoreToGrade(rows[0].score) == letter then 1 else 0) + CountLetter(rows[1..], letter)
  }

  /** The three figures above the rows, or the "No grades for this term yet" message. */
  datatype Summary =
    | NoGrades
    | Stats(average: int, topCount: nat, improveCount: nat)

  /** The rounded average, the count of rows at 80 or more and the count below 65. */
  function Summarise(rows: seq<Grade>): (s: Summary)
    ensures s.NoGrades? <==> rows == []
    ensures s.Stats? ==>
      s.average == RoundDiv(Sum(rows), |rows|)
      && s.topCount == CountAtLeast(rows, 80) && s.improveCount == CountBelow(rows, 65)
  {
    if rows == [] then NoGrades
    else Stats(RoundDiv(Sum(rows), |rows|), CountAtLeast(rows, 80), CountBelow(rows, 65))
  }

  predicate ScoresWithin(rows: seq<Grade>, lo: int, hi: int)
  {
    forall i :: 0 <= i < |rows| ==> lo <= rows[i].score <= hi
  }

  lemma {:induction false} SumBounds(rows: seq<Grade>, lo: int, hi: int)
    requires ScoresWithin(rows, lo, hi)
    ensures |rows| * lo <= Sum(rows) <= |rows| * hi
  {
    if rows != [] {
      assert ScoresWithin(rows[1..], lo, hi) by {
        forall i | 0 <= i < |rows[1..]| ensures lo <= rows[1..][i].score <= hi {
          assert rows[1..][i] == rows[i + 1];
        }
      }
      SumBounds(rows[1..], lo, hi);
      assert |rows| * lo == lo + (|rows| - 1) * lo;
      assert |rows| * hi == hi + (|rows| - 1) * hi;
    }
  }

  /** The average lies between the lowest and the highest score, so within 0..100 for valid rows. */
  lemma AverageBetween(rows: seq<Grade>, lo: int, hi: int)
    requires rows != [] && ScoresWithin(rows, lo, hi)
    ensures lo <= Summarise(rows).average <= hi
  {
    SumBounds(rows, lo, hi);
    RoundDivBetween(Sum(rows), |rows|, lo, hi);
  }

  /** A term of valid scores averages to a percentage. */
  lemma AverageInRange(rows: seq<Grade>)
    ensures rows != [] && ScoresWithin(rows, 0, 100) ==> 0 <= Summarise(rows).average <= 100
  {
    if rows != [] && ScoresWithin(rows, 0, 100) {
      AverageBetween(rows, 0, 100);
    }
  }

  /** The "A grades" figure counts the rows graded A, and the "to improve" figure those graded C or D. */
  lemma {:induction false} CountsMatchLetters(rows: seq<Grade>)
    ensures CountAtLeast(rows, 80) == CountLetter(rows, A)
    ensures CountBelow(rows, 65) == CountLetter(rows, C) + CountLetter(rows, D)
    ensures CountLetter(rows, A) + CountLetter(rows, B) + CountLetter(rows, C) + CountLetter(rows, D) == |rows|
  {
    if rows != [] { CountsMatchLetters(rows[1..]); }
  }

  /** No row is both an A and in need of improvement. */
  lemma {:induction false} CountsDisjoint(rows: seq<Grade>)
    ensures CountAtLeast(rows, 80) + CountBelow(rows, 65) <= |rows|
  {
    if rows != [] { CountsDisjoint(rows[1..]); }
  }

  // ----- Adding a grade -----

  /** Why addGrade refuses its input; the store is not touched. */
  datatype GradeError =
    | EmptySubject   // 'Please enter a subject name.'
    | BadScore       // 'Score must be between 0 and 100.'
    | MissingTerm    // all[term] is undefined and `.filter` throws

  /** The row addGrade would add for the two text fields, checked in the source's order. */
  function Validate(subjectInput: string, scoreInput: string): (r: Result<Grade, GradeError>)
    ensures r == Err(EmptySubject) <==> Trim(subjectInput) == []
    ensures r == Err(BadScore) <==>
      Trim(subjectInput) != [] && !(ParseInt(scoreInput).Some? && 0 <= ParseInt(scoreInput).value <= 100)
    ensures r.Ok? ==>
      r.value.subject == Trim(subjectInput) && r.value.subject != []
      && Some(r.value.score) == ParseInt(scoreInput) && 0 <= r.value.score <= 100
    ensures r != Err(MissingTerm)
  {
    var subject := Trim(subjectInput);
    var score := ParseInt(scoreInput);
    if subject == [] then Err(EmptySubject)
    else if score.None? || score.value < 0 || score.value > 100 then Err(BadScore)
    else Ok(Grade(subject, score.value))
  }

  /** A minus sign before the digits makes the score negative, and addGrade refuses it. */
  lemma {:induction false} NegativeScoreRefused(subjectInput: string, n: nat)
    requires Trim(subjectInput) != [] && n > 0
    ensures Validate(subjectInput, "-" + Decimal(n)) == Err(BadScore)
  {
    ParseIntNegative(n);
  }

  /**
   * A score from 0 to 100 is accepted with leading whitespace, a "+" and any
   * trailing non-digit text ("85%", "85.5"), and reads as its whole number.
   */
  lemma {:induction false} ScoreTextAccepted(subjectInput: string, ws: string, n: nat, rest: string)
    requires Trim(subjectInput) != [] && n <= 100
    requires forall i :: 0 <= i < |ws| ==> IsSpace(ws[i])
    requires rest == [] || !IsDigit(rest[0], 10)
    requires !(n == 0 && rest != [] && (rest[0] == 'x' || rest[0] == 'X'))
    ensures Validate(subjectInput, ws + Decimal(n) + rest) == Ok(Grade(Trim(subjectInput), n))
    ensures Validate(subjectInput, ws + "+" + Decimal(n) + rest) == Ok(Grade(Trim(subjectInput), n))
  {
    ParseIntUnsigned(ws, n, rest);
    ParseIntPlus(ws, n, rest);
  }

  /** Two subjects name the same row when they agree once lower-cased. */
  predicate SameSubject(a: string, b: string)
  {
    ToLower(a) == ToLower(b)
  }

  /** `rows.filter(g => g.s.toLowerCase() !== subject.toLowerCase())`. */
  function WithoutSubject(rows: seq<Grade>, subject: string): (r: seq<Grade>)
    ensures |r| <= |rows|
    ensures forall i :: 0 <= i < |r| ==> r[i] in rows && !SameSubject(r[i].subject, subject)
  {
    if rows == [] then []
    else
      var rest := WithoutSubject(rows[1..], subject);
      if SameSubject(rows[0].subject, subject) then rest else [rows[0]] + rest
  }

  /** The filter works row by row, so it keeps the other rows in their order. */
  lemma {:induction false} WithoutSubjectAppend(a: seq<Grade>, b: seq<Grade>, subject: string)
    ensures WithoutSubject(a + b, subject) == WithoutSubject(a, subject) + WithoutSubject(b, subject)
  {
    if a == [] {
      assert a + b == b;
    } else {
      assert (a + b)[1..] == a[1..] + b;
      WithoutSubjectAppend(a[1..], b, subject);
    }
  }

  /** Every row of another subject survives the filter. */
  lemma {:induction false} WithoutSubjectKeeps(rows: seq<Grade>, subject: string, g: Grade)
    requires g in rows && !SameSubject(g.subject, subject)
    ensures g in WithoutSubject(rows, subject)
  {
    if rows[0] != g {
      WithoutSubjectKeeps(rows[1..], subject, g);
    }
  }

  /** With no row of that subject, the filter changes nothing. */
  lemma {:induction false} WithoutAbsentSubject(rows: seq<Grade>, subject: string)
    requires forall i :: 0 <= i < |rows| ==> !SameSubject(rows[i].subject, subject)
    ensures WithoutSubject(rows, subject) == rows
  {
    if rows != [] {
      WithoutAbsentSubject(rows[1..], subject);
    }
  }

  /** The term's rows after addGrade: the same-subject rows dropped, the new row appended last. */
  function Upsert(rows: seq<Grade>, g: Grade): (r: seq<Grade>)
    ensures r != [] && r[|r| - 1] == g
  {
    WithoutSubject(rows, g.subject) + [g]
  }

  /**
   * The upsert's promise: exactly one row of the subject remains, the new one,
   * at the end; every row of another subject stays; and nothing else comes in.
   */
  lemma UpsertSpec(rows: seq<Grade>, g: Grade)
    ensures forall i :: 0 <= i < |Upsert(rows, g)| - 1 ==> !SameSubject(Upsert(rows, g)[i].subject, g.subject)
    ensures forall h :: h in rows && !SameSubject(h.subject, g.subject) ==> h in Upsert(rows, g)
    ensures forall h :: h in Upsert(rows, g) ==> h == g || h in rows
  {
    var r := Upsert(rows, g);
    assert r[..|r| - 1] == WithoutSubject(rows, g.subject);
    forall h | h in rows && !SameSubject(h.subject, g.subject) ensures h in r {
      WithoutSubjectKeeps(rows, g.subject, h);
    }
  }

  /**
   * Replacing a subject's row: the rows before and after it keep their order,
   * and the new row goes last.
   */
  lemma UpsertReplaces(before: seq<Grade>, previous: Grade, after: seq<Grade>, g: Grade)
    requires SameSubject(previous.subject, g.subject)
    requires forall i :: 0 <= i < |before| ==> !SameSubject(before[i].subject, g.subject)
    requires forall i :: 0 <= i < |after| ==> !SameSubject(after[i].subject, g.subject)
    ensures Upsert(before + [previous] + after, g) == before + after + [g]
  {
    var s := g.subject;
    assert WithoutSubject([previous], s) == [] by {
      assert [previous][1..] == [];
    }
    calc {
      WithoutSubject(before + [previous] + after, s);
      { WithoutSubjectAppend(before + [previous], after, s); }
      WithoutSubject(before + [previous], s) + WithoutSubject(after, s);
      { WithoutSubjectAppend(before, [previous], s); }
      WithoutSubject(before, s) + WithoutSubject([previous], s) + WithoutSubject(after, s);
      { WithoutAbsentSubject(before, s); WithoutAbsentSubject(after, s); }
      before + [] + after;
    }
    assert before + [] + after == before + after;
  }

  /** A new subject is appended after all the term's rows, which stay as they were. */
  lemma UpsertAppends(rows: seq<Grade>, g: Grade)
    requires forall i :: 0 <= i < |rows| ==> !SameSubject(rows[i].subject, g.subject)
    ensures Upsert(rows, g) == rows + [g]
  {
    WithoutAbsentSubject(rows, g.subject);
  }

  /** Adding the same row twice is the same as adding it once. */
  lemma UpsertIdempotent(rows: seq<Grade>, g: Grade)
    ensures Upsert(Upsert(rows, g), g) == Upsert(rows, g)
  {
    var kept := WithoutSubject(rows, g.subject);
    WithoutSubjectAppend(kept, [g], g.subject);
    WithoutAbsentSubject(kept, g.subject);
  }

  /** No two rows of a term share a subject, ignoring case. */
  predicate DistinctSubjects(rows: seq<Grade>)
  {
    forall i, j :: 0 <= i < j < |rows| ==> !SameSubject(rows[i].subject, rows[j].subject)
  }

  /** The filter keeps a subsequence, so distinct subjects stay distinct. */
  lemma {:induction false} WithoutSubjectDistinct(rows: seq<Grade>, subject: string)
    requires DistinctSubjects(rows)
    ensures DistinctSubjects(WithoutSubject(rows, subject))
  {
    if rows != [] {
      assert DistinctSubjects(rows[1..]) by {
        forall i, j | 0 <= i < j < |rows[1..]| ensures !SameSubject(rows[1..][i].subject, rows[1..][j].subject) {
          assert rows[1..][i] == rows[i + 1] && rows[1..][j] == rows[j + 1];
        }
      }
      WithoutSubjectDistinct(rows[1..], subject);
      var rest := WithoutSubject(rows[1..], subject);
      forall h | h in rest ensures !SameSubject(rows[0].subject, h.subject) {
        var k :| 0 <= k < |rows[1..]| && rows[1..][k] == h;
        assert rows[k + 1] == h;
      }
    }
  }

  lemma UpsertDistinct(rows: seq<Grade>, g: Grade)
    requires DistinctSubjects(rows)
    ensures DistinctSubjects(Upsert(rows, g))
  {
    WithoutSubjectDistinct(rows, g.subject);
    UpsertSpec(rows, g);
    var r := Upsert(rows, g);
    forall i, j | 0 <= i < j < |r| ensures !SameSubject(r[i].subject, r[j].subject) {
      if j == |r| - 1 {
        assert !SameSubject(r[i].subject, g.subject);
      } else {
        assert r[i] == WithoutSubject(rows, g.subject)[i] && r[j] == WithoutSubject(rows, g.subject)[j];
      }
    }
  }

  // ----- Deleting a row -----

  /** `rows.splice(index, 1)`: the row at `index` removed, nothing when `index` is past the end. */
  function Remove(rows: seq<Grade>, index: nat): (r: seq<Grade>)
    ensures index < |rows| ==> |r| == |rows| - 1
    ensures index >= |rows| ==> r == rows
    ensures forall k :: 0 <= k < |r| ==> r[k] == if k < index then rows[k] else rows[k + 1]
  {
    if index < |rows| then rows[..index] + rows[index + 1..] else rows
  }

  lemma RemoveDistinct(rows: seq<Grade>, index: nat)
    requires DistinctSubjects(rows)
    ensures DistinctSubjects(Remove(rows, index))
  {
    var r := Remove(rows, index);
    forall i, j | 0 <= i < j < |r| ensures !SameSubject(r[i].subject, r[j].subject) {
      var i', j' := if i < index then i else i + 1, if j < index then j else j + 1;
      assert r[i] == rows[i'] && r[j] == rows[j'];
    }
  }

  lemma RemoveWithin(rows: seq<Grade>, index: nat, lo: int, hi: int)
    requires ScoresWithin(rows, lo, hi)
    ensures ScoresWithin(Remove(rows, index), lo, hi)
  {
  }

  // ----- The store -----

  /** Well-kept term rows: scores a validated input can produce, one row per subject. */
  predicate ValidRows(rows: seq<Grade>)
  {
    ScoresWithin(rows, 0, 100) && DistinctSubjects(rows)
  }

  /** The upsert of a row scored 0..100 keeps a term's rows valid. */
  lemma UpsertValid(rows: seq<Grade>, g: Grade)
    requires ValidRows(rows) && 0 <= g.score <= 100
    ensures ValidRows(Upsert(rows, g))
  {
    UpsertDistinct(rows, g);
    UpsertSpec(rows, g);
  }

  /** Replacing one term's rows by valid rows keeps every term valid. */
  lemma ValidUpdate(terms: map<string, seq<Grade>>, term: string, rows: seq<Grade>, updated: map<string, seq<Grade>>)
    requires forall t :: t in terms ==> ValidRows(terms[t])
    requires ValidRows(rows) && updated == terms[term := rows]
    ensures forall t :: t in updated ==> ValidRows(updated[t])
  {
  }

  /** DEFAULT_GRADES (js/Script.js:332-351), the store before anything is saved. */
  function Defaults(): map<string, seq<Grade>>
  {
    map[
      "t1" := TermRows("Mathematics", 88, "English Language", 91, "Integrated Science", 76, "Social Studies", 85,
                   "Religious Education", 73, "Creative Technology", 64, "Civic Education", 89),
      "t2" := TermRows("Mathematics", 74, "English Language", 87, "Integrated Science", 90, "Social Studies", 79,
                   "Religious Education", 83, "Creative Technology", 71, "Civic Education", 65),
      "t3" := TermRows("Mathematics", 92, "English Language", 94, "Integrated Science", 88, "Social Studies", 91,
                   "Religious Education", 86, "Creative Technology", 75, "Civic Education", 90)
    ]
  }

  function TermRows(s1: string, c1: int, s2: string, c2: int, s3: string, c3: int, s4: string, c4: int,
                s5: string, c5: int, s6: string, c6: int, s7: string, c7: int): seq<Grade>
  {
    [Grade(s1, c1), Grade(s2, c2), Grade(s3, c3), Grade(s4, c4), Grade(s5, c5), Grade(s6, c6), Grade(s7, c7)]
  }

  /** Two subjects differing, once lower-cased, at some position are different subjects. */
  lemma DifferAt(a: string, b: string, k: nat)
    requires k < |a| && k < |b| && LowerChar(a[k]) != LowerChar(b[k])
    ensures !SameSubject(a, b)
  {
    assert ToLower(a)[k] != ToLower(b)[k];
  }

  /** The seven default subjects: no two agree on both their first two letters, once lower-cased. */
  lemma DefaultSubjectsDistinct(c: seq<int>)
    requires |c| == 7
    ensures DistinctSubjects(TermRows("Mathematics", c[0], "English Language", c[1], "Integrated Science", c[2],
                                  "Social Studies", c[3], "Religious Education", c[4],
                                  "Creative Technology", c[5], "Civic Education", c[6]))
  {
    var rows := TermRows("Mathematics", c[0], "English Language", c[1], "Integrated Science", c[2],
                     "Social Studies", c[3], "Religious Education", c[4],
                     "Creative Technology", c[5], "Civic Education", c[6]);
    forall i, j | 0 <= i < j < 7 ensures !SameSubject(rows[i].subject, rows[j].subject) {
      if i == 5 && j == 6 {
        DifferAt(rows[i].subject, rows[j].subject, 1);
      } else {
        DifferAt(rows[i].subject, rows[j].subject, 0);
      }
    }
  }

  lemma DefaultsValid()
    ensures forall term :: term in Defaults() ==> ValidRows(Defaults()[term])
  {
    DefaultSubjectsDistinct([88, 91, 76, 85, 73, 64, 89]);
    DefaultSubjectsDistinct([74, 87, 90, 79, 83, 71, 65]);
    DefaultSubjectsDistinct([92, 94, 88, 91, 86, 75, 90]);
  }

  /** The summaries of the three default terms: 81%, 78% and 88%. */
  lemma DefaultSummaries()
    ensures Summarise(Defaults()["t1"]) == Stats(81, 4, 1)
    ensures Summarise(Defaults()["t2"]) == Stats(78, 3, 0)
    ensures Summarise(Defaults()["t3"]) == Stats(88, 6, 0)
  {
    FirstTermSummary();
    SecondTermSummary();
    ThirdTermSummary();
  }

  /** Term 1: 566 marks over seven subjects. */
  lemma FirstTermSummary()
    ensures Summarise(Defaults()["t1"]) == Stats(81, 4, 1)
  {
    RoundDivUnique(566, 7, 81);
  }

  /** Term 2: 549 marks over seven subjects. */
  lemma SecondTermSummary()
    ensures Summarise(Defaults()["t2"]) == Stats(78, 3, 0)
  {
    RoundDivUnique(549, 7, 78);
  }

  /** Term 3: 616 marks over seven subjects. */
  lemma ThirdTermSummary()
    ensures Summarise(Defaults()["t3"]) == Stats(88, 6, 0)
  {
    RoundDivUnique(616, 7, 88);
  }

  /** The grades kept in the browser, per term. */
  class GradeBook {
    var terms: map<string, seq<Grade>>

    predicate Valid()
      reads this
    {
      forall term :: term in terms ==> ValidRows(terms[term])
    }

    /** A first visit: getGrades falls back to a copy of DEFAULT_GRADES. */
    constructor()
      ensures Valid()
      ensures terms == Defaults()
    {
      terms := Defaults();
      DefaultsValid();
    }

    /** renderGrades' summary for a term: a term with no entry shows as empty (`|| []`). */
    function TermSummary(term: string): (s: Summary)
      reads this
      ensures term !in terms ==> s == NoGrades
      ensures term in terms ==> s == Summarise(terms[term])
      ensures Valid() && s.Stats? ==> 0 <= s.average <= 100
    {
      var rows := if term in terms then terms[term] else [];
      AverageInRange(rows);
      Summarise(rows)
    }

    /**
     * addGrade: validate the two fields, then replace any row of the same
     * subject in `term` by the new row at the end. A refused input, or a term
     * the store lacks, leaves the store as it was.
     */
    method AddGrade(subjectInput: string, scoreInput: string, term: string) returns (r: Result<Grade, GradeError>)
      requires Valid()
      modifies this
      ensures Valid()
      ensures Validate(subjectInput, scoreInput).Err? ==> r == Validate(subjectInput, scoreInput)
      ensures Validate(subjectInput, scoreInput).Ok? && term !in old(terms) ==> r == Err(MissingTerm)
      ensures r.Ok? <==> Validate(subjectInput, scoreInput).Ok? && term in old(terms)
      ensures r.Ok? ==> r == Validate(subjectInput, scoreInput) && terms == old(terms)[term := Upsert(old(terms)[term], r.value)]
      ensures r.Err? ==> terms == old(terms)
    {
      r := Validate(subjectInput, scoreInput);
      if r.Err? {
        return;
      }
      if term !in terms {
        return Err(MissingTerm);
      }
      var g := r.value;
      UpsertValid(terms[term], g);
      ValidUpdate(terms, term, Upsert(terms[term], g), terms[term := Upsert(terms[term], g)]);
      terms := terms[term := Upsert(terms[term], g)];
    }

    /**
     * The row click handler: after the confirm dialog, `all[term].splice(index, 1)`.
     * A declined dialog, a missing term or an index past the end changes nothing.
     */
    method Delete(term: string, index: nat, confirmed: bool) returns (deleted: bool)
      requires Valid()
      modifies this
      ensures Valid()
      ensures deleted <==> confirmed && term in old(terms) && index < |old(terms)[term]|
      ensures confirmed && term in old(terms) ==> terms == old(terms)[term := Remove(old(terms)[term], index)]
      ensures !deleted ==> terms == old(terms)
    {
      if !confirmed || term !in terms {
        return false;
      }
      RemoveDistinct(terms[term], index);
      RemoveWithin(terms[term], index, 0, 100);
      deleted := index < |terms[term]|;
      terms := terms[term := Remove(terms[term], index)];
    }
  }
}
