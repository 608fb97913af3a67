/** The schedule unit of the genetic algorithm, and the random draws it is built from. */
module Genes {
  import opened TimetableData

  /** One scheduled class: a subject of a course, taught by a teacher in a room at a day and period. */
  datatype Gene = Gene(
    courseId: string,
    subjectId: string,
    teacherId: string,
    roomId: string,
    day: string,
    period: int)

  /** A candidate schedule and its penalty score (lower is better). */
  datatype Individual = Individual(genes: seq<Gene>, fitness: int)

  /** A value returned by `Math.random()`. */
  type Unit = r: real | 0.0 <= r < 1.0

  /** `Math.floor(Math.random() * n)`: the index drawn by `rand` and `randomInt`. */
  function Pick(n: nat, u: Unit): (i: nat)
    requires n > 0
    ensures i < n
  {
    assert 0.0 <= u * n as real < n as real by {
      assert (1.0 - u) * n as real > 0.0;
    }
    (u * n as real).Floor
  }

  /** Every index can be drawn: the draw `i / n` picks `i`. */
  lemma PickReachesEveryIndex(n: nat, i: nat)
    requires i < n
    ensures 0.0 <= i as real / n as real < 1.0
    ensures Pick(n, i as real / n as real) == i
  {
    var u: real := i as real / n as real;
    assert u * n as real == i as real;
  }

  /** Number of subjects in the catalogue, as a numeral so that index arithmetic stays linear. */
  const SUBJECT_COUNT: nat := 6

  /** Number of genes of an individual: one per (course, subject) pair. */
  const GENE_COUNT: nat := 12

  /** The gene at index `k` schedules subject `k % SUBJECT_COUNT` of course `k / SUBJECT_COUNT`:
      the fixed course-major enumeration every individual follows. */
  predicate WellShaped(genes: seq<Gene>) {
    && |genes| == GENE_COUNT
    && forall k :: 0 <= k < |genes| ==>
         genes[k].courseId == COURSES[k / SUBJECT_COUNT].id && genes[k].subjectId == SUBJECTS[k % SUBJECT_COUNT].id
  }

  /** The gene sits at a working day and a period of the grid. */
  predicate InWeek(g: Gene) {
    g.day in DAYS && 0 <= g.period < PERIODS
  }

  /** Every subject id is one of the catalogue's subjects. */
  predicate KnownSubjects(genes: seq<Gene>) {
    forall k :: 0 <= k < |genes| ==> genes[k].subjectId in SubjectIds()
  }

  /** The position of subject `m` of course `c` in the course-major enumeration. */
  function CourseMajorIndex(c: int, m: int): (k: int)
    requires 0 <= c < |COURSES| && 0 <= m < SUBJECT_COUNT
    ensures 0 <= k < GENE_COUNT
    ensures k / SUBJECT_COUNT == c && k % SUBJECT_COUNT == m
  {
    c * SUBJECT_COUNT + m
  }

  /** Two positions of a well-shaped schedule differ in course or in subject. */
  lemma WellShapedDistinctKeys(genes: seq<Gene>, i: int, j: int)
    requires WellShaped(genes) && 0 <= i < j < |genes|
    ensures genes[i].courseId != genes[j].courseId || genes[i].subjectId != genes[j].subjectId
  {
    IdsAreUnique();
    var n := SUBJECT_COUNT;
    assert i == (i / n) * n + i % n && j == (j / n) * n + j % n;
    assert 0 <= i / n <= j / n < |COURSES|;
    if i / n == j / n {
      assert i % n != j % n;
    }
  }

  /** A well-shaped schedule only mentions catalogue subjects. */
  lemma WellShapedKnown(genes: seq<Gene>)
    requires WellShaped(genes)
    ensures KnownSubjects(genes)
  {
    forall k | 0 <= k < |genes|
      ensures genes[k].subjectId in SubjectIds()
    {
      assert SUBJECTS[k % SUBJECT_COUNT] in SUBJECTS;
    }
  }
}
