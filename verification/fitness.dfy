/** The penalty score of a schedule (lower is better), stated term by term:
    teacher and room clashes per time slot, repeated subjects per course and day,
    uncovered subjects per course, and labs placed at the edges of the day. */
module Score {
  import opened Seqs
  import opened TimetableData
  import opened Genes

  /** The two resources that must not be double-booked. */
  datatype Resource = TeacherOf | RoomOf

  function ResourceId(g: Gene, r: Resource): string {
    match r
    case TeacherOf => g.teacherId
    case RoomOf => g.roomId
  }

  /** `genes.filter(g => g.day === day && g.period === p)`: the genes of one time slot, in order. */
  function SlotGenes(genes: seq<Gene>, day: string, p: int): (s: seq<Gene>)
    ensures |s| <= |genes|
  {
    if |genes| == 0 then []
    else
      var g := genes[|genes| - 1];
      SlotGenes(genes[..|genes| - 1], day, p) + (if g.day == day && g.period == p then [g] else [])
  }

  /** The slot's genes are exactly the genes booked at that day and period. */
  lemma {:induction false} SlotGenesFilter(genes: seq<Gene>, day: string, p: int)
    ensures forall g :: g in SlotGenes(genes, day, p) <==> g in genes && g.day == day && g.period == p
  {
    if |genes| > 0 {
      var init, last := genes[..|genes| - 1], genes[|genes| - 1];
      SlotGenesFilter(init, day, p);
      assert genes == init + [last];
    }
  }

  /** The teacher or room ids of `gs`, position by position. */
  function Ids(gs: seq<Gene>, r: Resource): (ids: seq<string>)
    ensures |ids| == |gs|
  {
    if |gs| == 0 then [] else Ids(gs[..|gs| - 1], r) + [ResourceId(gs[|gs| - 1], r)]
  }

  lemma IdsSnoc(gs: seq<Gene>, g: Gene, r: Resource)
    ensures Ids(gs + [g], r) == Ids(gs, r) + [ResourceId(g, r)]
  {
    assert (gs + [g])[..|gs|] == gs;
  }

  /** The ids of resource `r` booked at `day`, period `p`, in gene order. */
  function SlotIds(genes: seq<Gene>, day: string, p: int, r: Resource): (ids: seq<string>)
    ensures |ids| <= |genes|
  {
    if |genes| == 0 then []
    else
      var g := genes[|genes| - 1];
      SlotIds(genes[..|genes| - 1], day, p, r) + (if g.day == day && g.period == p then [ResourceId(g, r)] else [])
  }

  /** Filtering the slot's genes and then taking their ids gives the slot's ids. */
  lemma {:induction false} SlotIdsOfSlotGenes(genes: seq<Gene>, day: string, p: int, r: Resource)
    ensures Ids(SlotGenes(genes, day, p), r) == SlotIds(genes, day, p, r)
  {
    if |genes| > 0 {
      var init, g := genes[..|genes| - 1], genes[|genes| - 1];
      SlotIdsOfSlotGenes(init, day, p, r);
      if g.day == day && g.period == p {
        IdsSnoc(SlotGenes(init, day, p), g, r);
      } else {
        assert SlotGenes(genes, day, p) == SlotGenes(init, day, p);
      }
    }
  }

  /** Bookings of resource `r` at `day`, period `p`, beyond the first of every id. */
  function SlotExcess(genes: seq<Gene>, day: string, p: int, r: Resource): (e: int)
    ensures e >= 0
  {
    Excess(SlotIds(genes, day, p, r))
  }

  /** Excess bookings of resource `r` over the periods `0 .. n-1` of `day`. */
  function PeriodClashes(genes: seq<Gene>, day: string, n: nat, r: Resource): (c: int)
    ensures c >= 0
  {
    if n == 0 then 0 else PeriodClashes(genes, day, n - 1, r) + SlotExcess(genes, day, n - 1, r)
  }

  /** Excess bookings of resource `r` over the periods of `day`. */
  function DayClashes(genes: seq<Gene>, day: string, r: Resource): (c: int)
    ensures c >= 0
  {
    PeriodClashes(genes, day, PERIODS, r)
  }

  /** Excess bookings of resource `r` over the first `d` working days. */
  function WeekClashes(genes: seq<Gene>, d: nat, r: Resource): (c: int)
    requires d <= |DAYS|
    ensures c >= 0
  {
    if d == 0 then 0 else WeekClashes(genes, d - 1, r) + DayClashes(genes, DAYS[d - 1], r)
  }

  /** Over the whole week: for every (day, period), bookings of each id beyond the first. */
  function Clashes(genes: seq<Gene>, r: Resource): (c: int)
    ensures c >= 0
  {
    WeekClashes(genes, |DAYS|, r)
  }

  /** Gene `k` books id `x` of resource `r` at `day`, period `p`. */
  predicate BookedAt(genes: seq<Gene>, k: int, day: string, p: int, r: Resource, x: string) {
    0 <= k < |genes| && genes[k].day == day && genes[k].period == p && ResourceId(genes[k], r) == x
  }

  /** Genes `i < j` both sit at `day`, period `p`, and book the same resource. */
  predicate SlotPair(genes: seq<Gene>, day: string, p: int, r: Resource, i: int, j: int) {
    && 0 <= i < j < |genes|
    && genes[i].day == day && genes[i].period == p
    && genes[j].day == day && genes[j].period == p
    && ResourceId(genes[i], r) == ResourceId(genes[j], r)
  }

  /** Genes `i < j` book the same teacher (or room) at the same working day and period. */
  predicate Clash(genes: seq<Gene>, i: int, j: int, r: Resource) {
    && 0 <= i < j < |genes|
    && InWeek(genes[i])
    && genes[i].day == genes[j].day
    && genes[i].period == genes[j].period
    && ResourceId(genes[i], r) == ResourceId(genes[j], r)
  }

  /** An id is booked at a slot exactly when some gene at that slot books it. */
  lemma {:induction false} InSlotIds(genes: seq<Gene>, day: string, p: int, r: Resource, x: string)
    ensures x in SlotIds(genes, day, p, r) <==> exists k :: BookedAt(genes, k, day, p, r, x)
  {
    if |genes| > 0 {
      var init, g := genes[..|genes| - 1], genes[|genes| - 1];
      var xs := SlotIds(init, day, p, r);
      InSlotIds(init, day, p, r, x);
      if exists k :: BookedAt(init, k, day, p, r, x) {
        var k :| BookedAt(init, k, day, p, r, x);
        assert init[k] == genes[k];
        assert BookedAt(genes, k, day, p, r, x);
      }
      if g.day == day && g.period == p {
        assert SlotIds(genes, day, p, r) == xs + [ResourceId(g, r)];
        assert BookedAt(genes, |genes| - 1, day, p, r, ResourceId(g, r));
      } else {
        assert SlotIds(genes, day, p, r) == xs;
      }
      if exists k :: BookedAt(genes, k, day, p, r, x) {
        var k :| BookedAt(genes, k, day, p, r, x);
        if k < |init| {
          assert init[k] == genes[k];
          assert BookedAt(init, k, day, p, r, x);
        }
      }
    }
  }

  /** The ids booked at a slot repeat exactly when two genes at that slot book the same resource. */
  lemma {:induction false} SlotRepeatIffPair(genes: seq<Gene>, day: string, p: int, r: Resource)
    ensures NoDuplicates(SlotIds(genes, day, p, r)) <==> forall i, j :: !SlotPair(genes, day, p, r, i, j)
  {
    if |genes| > 0 {
      var init, g := genes[..|genes| - 1], genes[|genes| - 1];
      var xs := SlotIds(init, day, p, r);
      var ids := SlotIds(genes, day, p, r);
      SlotRepeatIffPair(init, day, p, r);
      var x := ResourceId(g, r);
      var atSlot := g.day == day && g.period == p;
      if atSlot {
        assert ids == xs + [x];
        NoDuplicatesSnoc(xs, x);
        InSlotIds(init, day, p, r, x);
      } else {
        assert ids == xs;
      }
      if exists i, j :: SlotPair(genes, day, p, r, i, j) {
        var i, j :| SlotPair(genes, day, p, r, i, j);
        assert init[i] == genes[i];
        if j == |genes| - 1 {
          assert BookedAt(init, i, day, p, r, x);
        } else {
          assert init[j] == genes[j];
          assert SlotPair(init, day, p, r, i, j);
        }
      }
      if !NoDuplicates(ids) {
        if atSlot && x in xs {
          var k :| BookedAt(init, k, day, p, r, x);
          assert init[k] == genes[k];
          assert SlotPair(genes, day, p, r, k, |genes| - 1);
        } else {
          var i, j :| SlotPair(init, day, p, r, i, j);
          assert init[i] == genes[i] && init[j] == genes[j];
          assert SlotPair(genes, day, p, r, i, j);
        }
      }
    }
  }

  /** A period's excess is part of its day's count. */
  lemma {:induction false} PeriodClashesBound(genes: seq<Gene>, day: string, n: nat, p: nat, r: Resource)
    requires p < n
    ensures PeriodClashes(genes, day, n, r) >= SlotExcess(genes, day, p, r)
  {
    if p < n - 1 {
      PeriodClashesBound(genes, day, n - 1, p, r);
    }
  }

  /** A non-zero count over periods has a period with non-zero excess. */
  lemma {:induction false} PeriodClashesWitness(genes: seq<Gene>, day: string, n: nat, r: Resource)
    requires PeriodClashes(genes, day, n, r) != 0
    ensures exists p: nat :: p < n && SlotExcess(genes, day, p, r) != 0
  {
    if SlotExcess(genes, day, n - 1, r) == 0 {
      PeriodClashesWitness(genes, day, n - 1, r);
    }
  }

  /** A working day's count is part of the week's. */
  lemma {:induction false} WeekClashesBound(genes: seq<Gene>, d: nat, k: nat, r: Resource)
    requires k < d <= |DAYS|
    ensures WeekClashes(genes, d, r) >= DayClashes(genes, DAYS[k], r)
  {
    if k < d - 1 {
      WeekClashesBound(genes, d - 1, k, r);
    }
  }

  /** A non-zero count over days has a day with a non-zero count. */
  lemma {:induction false} WeekClashesWitness(genes: seq<Gene>, d: nat, r: Resource)
    requires d <= |DAYS| && WeekClashes(genes, d, r) != 0
    ensures exists k: nat :: k < d && DayClashes(genes, DAYS[k], r) != 0
  {
    if DayClashes(genes, DAYS[d - 1], r) == 0 {
      WeekClashesWitness(genes, d - 1, r);
    }
  }

  /** A slot has no excess booking exactly when no two of its genes book the same resource. */
  lemma SlotExcessZeroIff(genes: seq<Gene>, day: string, p: int, r: Resource)
    ensures SlotExcess(genes, day, p, r) == 0 <==> forall i, j :: !SlotPair(genes, day, p, r, i, j)
  {
    SlotRepeatIffPair(genes, day, p, r);
    ExcessZeroIff(SlotIds(genes, day, p, r));
  }

  /** Two genes booking the same resource at one slot make its excess positive. */
  lemma SlotPairCounts(genes: seq<Gene>, day: string, p: int, r: Resource, i: int, j: int)
    requires SlotPair(genes, day, p, r, i, j)
    ensures SlotExcess(genes, day, p, r) >= 1
  {
    SlotExcessZeroIff(genes, day, p, r);
  }

  /** A schedule has no excess bookings of a resource exactly when no two genes clash on it. */
  lemma ClashFreeIff(genes: seq<Gene>, r: Resource)
    ensures Clashes(genes, r) == 0 <==> forall i, j :: !Clash(genes, i, j, r)
  {
    if exists i, j :: Clash(genes, i, j, r) {
      var i, j :| Clash(genes, i, j, r);
      ClashCounts(genes, i, j, r);
    }
    if Clashes(genes, r) != 0 {
      WeekClashesWitness(genes, |DAYS|, r);
      var k: nat :| k < |DAYS| && DayClashes(genes, DAYS[k], r) != 0;
      var day := DAYS[k];
      PeriodClashesWitness(genes, day, PERIODS, r);
      var p: nat :| p < PERIODS && SlotExcess(genes, day, p, r) != 0;
      SlotExcessZeroIff(genes, day, p, r);
      var i, j :| SlotPair(genes, day, p, r, i, j);
      assert InWeek(genes[i]);
      assert Clash(genes, i, j, r);
    }
  }

  /** One clash costs at least one excess booking. */
  lemma ClashCounts(genes: seq<Gene>, i: int, j: int, r: Resource)
    requires Clash(genes, i, j, r)
    ensures Clashes(genes, r) >= 1
  {
    var day, p := genes[i].day, genes[i].period;
    SlotPairCounts(genes, day, p, r, i, j);
    PeriodClashesBound(genes, day, PERIODS, p, r);
    var k: nat :| k < |DAYS| && DAYS[k] == day;
    WeekClashesBound(genes, |DAYS|, k, r);
  }

  /** The (course, day, subject) key of a gene. */
  function Triple(g: Gene): (string, string, string) {
    (g.courseId, g.day, g.subjectId)
  }

  function TripleSeq(genes: seq<Gene>): (ts: seq<(string, string, string)>)
    ensures |ts| == |genes|
  {
    if |genes| == 0 then [] else TripleSeq(genes[..|genes| - 1]) + [Triple(genes[|genes| - 1])]
  }

  lemma {:induction false} TripleSeqIndex(genes: seq<Gene>, k: int)
    requires 0 <= k < |genes|
    ensures TripleSeq(genes)[k] == Triple(genes[k])
  {
    if k < |genes| - 1 {
      TripleSeqIndex(genes[..|genes| - 1], k);
    }
  }

  /** Subject repetitions: genes beyond the first for every (course, day, subject);
      summed per (course, day) this is the number of duplicated subjects of that day. */
  function Repetitions(genes: seq<Gene>): int {
    Excess(TripleSeq(genes))
  }

  /** Genes `i < j` put the same subject on the same day of the same course. */
  predicate Repeat(genes: seq<Gene>, i: int, j: int) {
    0 <= i < j < |genes| && Triple(genes[i]) == Triple(genes[j])
  }

  /** No repetition is counted exactly when no course has a subject twice on a day. */
  lemma RepetitionFreeIff(genes: seq<Gene>)
    ensures Repetitions(genes) == 0 <==> forall i, j :: !Repeat(genes, i, j)
  {
    var ts := TripleSeq(genes);
    ExcessZeroIff(ts);
    if exists i, j :: Repeat(genes, i, j) {
      var i, j :| Repeat(genes, i, j);
      TripleSeqIndex(genes, i);
      TripleSeqIndex(genes, j);
      assert ts[i] == ts[j];
    }
    if !NoDuplicates(ts) {
      var i, j :| 0 <= i < j < |ts| && ts[i] == ts[j];
      TripleSeqIndex(genes, i);
      TripleSeqIndex(genes, j);
      assert Repeat(genes, i, j);
    }
  }

  /** `genes.filter(g => g.courseId === id).map(g => g.subjectId)` */
  function CourseSubjects(genes: seq<Gene>, id: string): seq<string> {
    if |genes| == 0 then []
    else
      var g := genes[|genes| - 1];
      CourseSubjects(genes[..|genes| - 1], id) + (if g.courseId == id then [g.subjectId] else [])
  }

  /** Gene `k` schedules subject `s` for course `id`. */
  predicate Teaches(genes: seq<Gene>, k: int, id: string, s: string) {
    0 <= k < |genes| && genes[k].courseId == id && genes[k].subjectId == s
  }

  /** A subject is among a course's subjects exactly when some gene schedules it for the course. */
  lemma {:induction false} InCourseSubjects(genes: seq<Gene>, id: string, s: string)
    ensures s in CourseSubjects(genes, id) <==> exists k :: Teaches(genes, k, id, s)
  {
    if |genes| > 0 {
      var init := genes[..|genes| - 1];
      InCourseSubjects(init, id, s);
      var g := genes[|genes| - 1];
      if g.courseId == id && g.subjectId == s {
        assert Teaches(genes, |genes| - 1, id, s);
      }
      if exists k :: Teaches(init, k, id, s) {
        var k :| Teaches(init, k, id, s);
        assert Teaches(genes, k, id, s);
      }
      if exists k :: Teaches(genes, k, id, s) {
        var k :| Teaches(genes, k, id, s);
        if k < |init| {
          assert init[k] == genes[k];
          assert Teaches(init, k, id, s);
        }
      }
    }
  }

  /** The coverage penalty count of course `c`: `SUBJECTS.length` minus the number of distinct
      subject ids it schedules, whatever those ids are (see `CourseGapIsMissing`). */
  function CourseGap(genes: seq<Gene>, c: Course): int {
    |SUBJECTS| - |Elems(CourseSubjects(genes, c.id))|
  }

  /** The coverage gaps of `courses`, summed. */
  function CoverageGap(genes: seq<Gene>, courses: seq<Course>): int {
    if |courses| == 0 then 0
    else CoverageGap(genes, courses[..|courses| - 1]) + CourseGap(genes, courses[|courses| - 1])
  }

  /** A lab in the first period or in one of the last two. */
  predicate MisplacedLab(g: Gene) {
    IsLabSubjectId(g.subjectId) && (g.period == 0 || g.period >= PERIODS - 2)
  }

  function MisplacedLabs(genes: seq<Gene>): (n: nat)
    ensures n <= |genes|
  {
    Count(genes, MisplacedLab)
  }

  /** No misplaced lab is counted exactly when no gene is a misplaced lab. */
  lemma MisplacedLabsZero(genes: seq<Gene>)
    ensures MisplacedLabs(genes) == 0 <==> forall k :: 0 <= k < |genes| ==> !MisplacedLab(genes[k])
  {
    CountZero(genes, MisplacedLab);
  }

  /** The penalty `calculateFitness` gives a schedule: 1000 per teacher clash, 800 per room
      clash, 50 per repeated subject, 10 per unit of coverage gap and 20 per misplaced lab. */
  function Fitness(genes: seq<Gene>): int {
    1000 * Clashes(genes, TeacherOf)
    + 800 * Clashes(genes, RoomOf)
    + 50 * Repetitions(genes)
    + 10 * CoverageGap(genes, COURSES)
    + 20 * MisplacedLabs(genes)
  }

  /** With catalogue subjects only, a course schedules catalogue subjects only. */
  lemma CourseSubjectsKnown(genes: seq<Gene>, id: string)
    requires KnownSubjects(genes)
    ensures Elems(CourseSubjects(genes, id)) <= SubjectIds()
  {
    forall s | s in Elems(CourseSubjects(genes, id))
      ensures s in SubjectIds()
    {
      InCourseSubjects(genes, id, s);
      var k :| Teaches(genes, k, id, s);
    }
  }

  /** With catalogue subjects only, the gap of a course is the number of catalogue subjects
      it leaves unscheduled. */
  lemma CourseGapIsMissing(genes: seq<Gene>, c: Course)
    requires KnownSubjects(genes)
    ensures CourseGap(genes, c) == |SubjectIds() - Elems(CourseSubjects(genes, c.id))|
  {
    CourseSubjectsKnown(genes, c.id);
    SixSubjectIds();
    DifferenceCard(SubjectIds(), Elems(CourseSubjects(genes, c.id)));
  }

  /** With catalogue subjects only, no course schedules more distinct subjects than the catalogue has. */
  lemma CourseGapNonNegative(genes: seq<Gene>, c: Course)
    requires KnownSubjects(genes)
    ensures CourseGap(genes, c) >= 0
  {
    CourseGapIsMissing(genes, c);
  }

  lemma {:induction false} CoverageGapNonNegative(genes: seq<Gene>, courses: seq<Course>)
    requires KnownSubjects(genes)
    ensures CoverageGap(genes, courses) >= 0
  {
    if |courses| > 0 {
      CoverageGapNonNegative(genes, courses[..|courses| - 1]);
      CourseGapNonNegative(genes, courses[|courses| - 1]);
    }
  }

  /** Course `id` schedules exactly the catalogue subjects. */
  predicate Covers(genes: seq<Gene>, id: string) {
    Elems(CourseSubjects(genes, id)) == SubjectIds()
  }

  /** Courses that each schedule exactly the catalogue subjects leave no gap. */
  lemma {:induction false} CoverageGapZero(genes: seq<Gene>, courses: seq<Course>)
    requires forall k :: 0 <= k < |courses| ==> Covers(genes, courses[k].id)
    ensures CoverageGap(genes, courses) == 0
  {
    if |courses| > 0 {
      var init := courses[..|courses| - 1];
      assert forall k :: 0 <= k < |init| ==> init[k] == courses[k];
      CoverageGapZero(genes, init);
      SixSubjectIds();
    }
  }

  /** With catalogue subjects only, a course leaves no gap exactly when it schedules every
      catalogue subject. */
  lemma CourseGapZeroIff(genes: seq<Gene>, c: Course)
    requires KnownSubjects(genes)
    ensures CourseGap(genes, c) == 0 <==> Covers(genes, c.id)
  {
    CourseGapIsMissing(genes, c);
    CourseSubjectsKnown(genes, c.id);
    var missing := SubjectIds() - Elems(CourseSubjects(genes, c.id));
    if |missing| == 0 {
      assert missing == {};
    }
  }

  /** With catalogue subjects only, no coverage gap means every course schedules every
      catalogue subject. */
  lemma {:induction false} CoverageGapZeroCovers(genes: seq<Gene>, courses: seq<Course>)
    requires KnownSubjects(genes) && CoverageGap(genes, courses) == 0
    ensures forall k :: 0 <= k < |courses| ==> Covers(genes, courses[k].id)
  {
    if |courses| > 0 {
      var init, last := courses[..|courses| - 1], courses[|courses| - 1];
      CoverageGapNonNegative(genes, init);
      CourseGapNonNegative(genes, last);
      assert CoverageGap(genes, init) == 0 && CourseGap(genes, last) == 0;
      CoverageGapZeroCovers(genes, init);
      CourseGapZeroIff(genes, last);
      assert Covers(genes, last.id);
      forall k | 0 <= k < |courses|
        ensures Covers(genes, courses[k].id)
      {
        if k < |init| {
          assert init[k] == courses[k];
        } else {
          assert courses[k] == last;
        }
      }
    }
  }

  /** With catalogue subjects only, the coverage gap is zero exactly when every course
      schedules every catalogue subject. */
  lemma CoverageGapZeroIff(genes: seq<Gene>, courses: seq<Course>)
    requires KnownSubjects(genes)
    ensures CoverageGap(genes, courses) == 0 <==> forall k :: 0 <= k < |courses| ==> Covers(genes, courses[k].id)
  {
    if CoverageGap(genes, courses) == 0 {
      CoverageGapZeroCovers(genes, courses);
    }
    if forall k :: 0 <= k < |courses| ==> Covers(genes, courses[k].id) {
      CoverageGapZero(genes, courses);
    }
  }

  /** The score is never negative for a schedule of catalogue subjects. */
  lemma FitnessNonNegative(genes: seq<Gene>)
    requires KnownSubjects(genes)
    ensures Fitness(genes) >= 0
  {
    CoverageGapNonNegative(genes, COURSES);
  }

  /** A teacher booked twice at a working slot costs at least 1000. */
  lemma TeacherClashCosts(genes: seq<Gene>, i: int, j: int)
    requires KnownSubjects(genes)
    requires Clash(genes, i, j, TeacherOf)
    ensures Fitness(genes) >= 1000
  {
    ClashCounts(genes, i, j, TeacherOf);
    CoverageGapNonNegative(genes, COURSES);
  }

  /** A room booked twice at a working slot costs at least 800. */
  lemma RoomClashCosts(genes: seq<Gene>, i: int, j: int)
    requires KnownSubjects(genes)
    requires Clash(genes, i, j, RoomOf)
    ensures Fitness(genes) >= 800
  {
    ClashCounts(genes, i, j, RoomOf);
    CoverageGapNonNegative(genes, COURSES);
  }

  /** A course of a well-shaped schedule schedules every catalogue subject, and only those. */
  lemma WellShapedCovers(genes: seq<Gene>, c: int)
    requires WellShaped(genes) && 0 <= c < |COURSES|
    ensures Elems(CourseSubjects(genes, COURSES[c].id)) == SubjectIds()
  {
    var id := COURSES[c].id;
    var ss := CourseSubjects(genes, id);
    forall s | s in SubjectIds()
      ensures s in ss
    {
      var m :| 0 <= m < |SUBJECTS| && SUBJECTS[m].id == s;
      var k := CourseMajorIndex(c, m);
      assert Teaches(genes, k, id, s);
      InCourseSubjects(genes, id, s);
    }
    forall s | s in ss
      ensures s in SubjectIds()
    {
      InCourseSubjects(genes, id, s);
      var k :| Teaches(genes, k, id, s);
      assert SUBJECTS[k % SUBJECT_COUNT] in SUBJECTS;
    }
  }

  /** A well-shaped schedule never repeats a subject and leaves no subject uncovered. */
  lemma WellShapedHasNoRepetitionOrGap(genes: seq<Gene>)
    requires WellShaped(genes)
    ensures Repetitions(genes) == 0
    ensures CoverageGap(genes, COURSES) == 0
  {
    forall i, j | 0 <= i < j < |genes|
      ensures !Repeat(genes, i, j)
    {
      WellShapedDistinctKeys(genes, i, j);
    }
    RepetitionFreeIff(genes);
    forall k | 0 <= k < |COURSES|
      ensures Covers(genes, COURSES[k].id)
    {
      WellShapedCovers(genes, k);
    }
    CoverageGapZero(genes, COURSES);
  }

  /** For a well-shaped schedule only clashes and misplaced labs cost anything. */
  lemma WellShapedFitness(genes: seq<Gene>)
    requires WellShaped(genes)
    ensures Fitness(genes) ==
      1000 * Clashes(genes, TeacherOf) + 800 * Clashes(genes, RoomOf) + 20 * MisplacedLabs(genes)
  {
    WellShapedHasNoRepetitionOrGap(genes);
  }

  /** Hard constraints dominate: a well-shaped schedule without clashes scores strictly
      lower than any well-shaped schedule with a teacher or room clash. */
  lemma HardConstraintsDominate(a: seq<Gene>, b: seq<Gene>, i: int, j: int, r: Resource)
    requires WellShaped(a) && WellShaped(b)
    requires forall i', j' :: !Clash(a, i', j', TeacherOf) && !Clash(a, i', j', RoomOf)
    requires Clash(b, i, j, r)
    ensures Fitness(a) < Fitness(b)
  {
    ClashFreeIff(a, TeacherOf);
    ClashFreeIff(a, RoomOf);
    ClashCounts(b, i, j, r);
    WellShapedFitness(a);
    WellShapedFitness(b);
  }
}
