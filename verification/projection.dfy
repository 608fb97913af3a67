/** The projection of the best schedule onto the three printed views: one timetable per
    course, per teacher and per room, each a grid of day and period. */
module Projection {
  import opened Wrappers
  import opened Seqs
  import opened TimetableData
  import opened Genes
  import opened ViewGrid

  /** Which label a view files a gene under. */
  datatype Perspective = ByCourse | ByTeacher | ByRoom

  datatype Views = Views(branch: View, teacher: View, lab: View)

  /** JavaScript `a || b` for an optional string: `b` when `a` is missing or empty. */
  function OrElse(a: Option<string>, b: string): string {
    if a.Some? && a.value != "" then a.value else b
  }

  /** `subj?.code || g.subjectId`. */
  function SubjectCode(g: Gene): string {
    var s := FindSubject(g.subjectId);
    OrElse(if s.Some? then Some(s.value.code) else None, g.subjectId)
  }

  /** `teacher?.short || g.teacherId`, the teacher view's row label. */
  function TeacherKey(g: Gene): string {
    var t := FindTeacher(g.teacherId);
    OrElse(if t.Some? then Some(t.value.short) else None, g.teacherId)
  }

  /** `room?.name || g.roomId`, the room view's row label. */
  function RoomKey(g: Gene): string {
    var r := FindRoom(g.roomId);
    OrElse(if r.Some? then Some(r.value.name) else None, g.roomId)
  }

  function Digit(d: int): char
    requires 0 <= d < 10
  {
    "0123456789"[d]
  }

  /** The decimal numeral of `n`, as a template literal prints a number. */
  function Decimal(n: nat): (s: string)
    ensures |s| >= 1
  {
    if n < 10 then [Digit(n)] else Decimal(n / 10) + [Digit(n % 10)]
  }

  /** The value of a string of decimal digits. */
  function DecimalValue(s: string): int {
    if |s| == 0 then 0 else 10 * DecimalValue(s[..|s| - 1]) + (s[|s| - 1] as int - '0' as int)
  }

  /** Reading the numeral back gives the number, so different semesters print differently. */
  lemma {:induction false} DecimalRoundTrip(n: nat)
    ensures DecimalValue(Decimal(n)) == n
  {
    if n >= 10 {
      DecimalRoundTrip(n / 10);
      var s := Decimal(n);
      assert s[..|s| - 1] == Decimal(n / 10);
    }
  }

  /** The row label of a course: `${branch} Sem-${semester} ${section}`. */
  function CourseLabel(c: Course): string {
    c.branch + " Sem-" + Decimal(c.semester) + " " + c.section
  }

  /** `courseKey`: an unknown course prints every part as `undefined`. */
  function CourseKey(g: Gene): string {
    var c := FindCourse(g.courseId);
    if c.Some? then CourseLabel(c.value) else "undefined Sem-undefined undefined"
  }

  /** The two catalogue courses get different branch-view rows. */
  lemma CatalogueCourseLabels()
    ensures CourseLabel(COURSES[0]) == "CSE Sem-3 A"
    ensures CourseLabel(COURSES[1]) == "ECE Sem-3 A"
    ensures CourseLabel(COURSES[0]) != CourseLabel(COURSES[1])
  {
    assert Decimal(3) == "3";
    assert CourseLabel(COURSES[0])[0] != CourseLabel(COURSES[1])[0];
  }

  /** The cell every view writes for a gene. */
  function EntryOf(g: Gene): Entry {
    Entry(SubjectCode(g), TeacherKey(g), RoomKey(g))
  }

  function KeyOf(p: Perspective, g: Gene): string {
    match p
    case ByCourse => CourseKey(g)
    case ByTeacher => TeacherKey(g)
    case ByRoom => RoomKey(g)
  }

  function PlacementOf(p: Perspective, g: Gene): Placement {
    Placement(KeyOf(p, g), g.day, g.period, EntryOf(g))
  }

  /** The placements of the genes, in gene order. */
  function Placements(genes: seq<Gene>, p: Perspective): (ps: seq<Placement>)
    ensures |ps| == |genes|
  {
    if |genes| == 0 then [] else Placements(genes[..|genes| - 1], p) + [PlacementOf(p, genes[|genes| - 1])]
  }

  /** Placement `i` is gene `i`'s. */
  lemma {:induction false} PlacementsAt(genes: seq<Gene>, p: Perspective, i: int)
    requires 0 <= i < |genes|
    ensures Placements(genes, p)[i] == PlacementOf(p, genes[i])
  {
    if i < |genes| - 1 {
      var init := genes[..|genes| - 1];
      PlacementsAt(init, p, i);
      assert init[i] == genes[i];
    }
  }

  /** One view of the genes. */
  function ProjectView(genes: seq<Gene>, p: Perspective): View {
    Fill(Placements(genes, p))
  }

  /** Each view has at most one filled cell per gene. */
  lemma ViewSizeBound(genes: seq<Gene>, p: Perspective)
    ensures |Cells(ProjectView(genes, p))| <= |genes|
  {
    CellsAreTargets(Placements(genes, p));
    TargetsCard(Placements(genes, p));
  }

  /** Gene `g` is filed at this row, day and period of the view. */
  predicate LandsOn(p: Perspective, g: Gene, key: string, day: string, period: int) {
    KeyOf(p, g) == key && g.day == day && g.period == period
  }

  /** A view's cell holds the entry of the last gene filed there, or nothing when no gene is. */
  lemma ProjectViewLookup(genes: seq<Gene>, p: Perspective, key: string, day: string, period: int)
    ensures Lookup(ProjectView(genes, p), key, day, period).None? <==>
      forall i :: 0 <= i < |genes| ==> !LandsOn(p, genes[i], key, day, period)
    ensures Lookup(ProjectView(genes, p), key, day, period).Some? ==>
      exists i :: 0 <= i < |genes| && LandsOn(p, genes[i], key, day, period)
        && Lookup(ProjectView(genes, p), key, day, period) == Some(EntryOf(genes[i]))
        && forall j :: i < j < |genes| ==> !LandsOn(p, genes[j], key, day, period)
  {
    var ps := Placements(genes, p);
    FillLookup(ps, key, day, period);
    forall i | 0 <= i < |genes|
      ensures At(ps[i], key, day, period) <==> LandsOn(p, genes[i], key, day, period)
      ensures ps[i].entry == EntryOf(genes[i])
    {
      PlacementsAt(genes, p, i);
    }
  }

  /** The loop of the generate handler: each gene is written into all three views. */
  method BuildViews(genes: seq<Gene>) returns (views: Views)
    ensures views.branch == ProjectView(genes, ByCourse)
    ensures views.teacher == ProjectView(genes, ByTeacher)
    ensures views.lab == ProjectView(genes, ByRoom)
    ensures |Cells(views.branch)| <= |genes| && |Cells(views.teacher)| <= |genes| && |Cells(views.lab)| <= |genes|
  {
    ghost var byCourse, byTeacher, byRoom := Placements(genes, ByCourse), Placements(genes, ByTeacher), Placements(genes, ByRoom);
    var branchView: View := map[];
    var teacherView: View := map[];
    var labView: View := map[];
    for k := 0 to |genes|
      invariant branchView == Fill(byCourse[..k])
      invariant teacherView == Fill(byTeacher[..k])
      invariant labView == Fill(byRoom[..k])
    {
      var g := genes[k];
      var atCourse, atTeacher, atRoom := PlacementOf(ByCourse, g), PlacementOf(ByTeacher, g), PlacementOf(ByRoom, g);
      PlacementsAt(genes, ByCourse, k);
      PlacementsAt(genes, ByTeacher, k);
      PlacementsAt(genes, ByRoom, k);
      FillSnoc(byCourse, k);
      FillSnoc(byTeacher, k);
      FillSnoc(byRoom, k);
      branchView := Put(branchView, atCourse);
      teacherView := Put(teacherView, atTeacher);
      labView := Put(labView, atRoom);
    }
    assert byCourse[..|genes|] == byCourse && byTeacher[..|genes|] == byTeacher && byRoom[..|genes|] == byRoom;
    views := Views(branchView, teacherView, labView);
    ViewSizeBound(genes, ByCourse);
    ViewSizeBound(genes, ByTeacher);
    ViewSizeBound(genes, ByRoom);
  }

  /** A catalogue subject prints its own code (no code is empty); an unknown id prints itself. */
  lemma SubjectCodeShown(g: Gene)
    ensures forall k :: 0 <= k < |SUBJECTS| && SUBJECTS[k].id == g.subjectId ==> SubjectCode(g) == SUBJECTS[k].code
    ensures FindSubject(g.subjectId).None? ==> SubjectCode(g) == g.subjectId
  {
    IdsAreUnique();
    FindSpec(SUBJECTS, SubjectWithId(g.subjectId));
  }

  /** A catalogue teacher is filed under their short name; an unknown id under itself. */
  lemma TeacherKeyShown(g: Gene)
    ensures forall k :: 0 <= k < |TEACHERS| && TEACHERS[k].id == g.teacherId ==> TeacherKey(g) == TEACHERS[k].short
    ensures FindTeacher(g.teacherId).None? ==> TeacherKey(g) == g.teacherId
  {
    IdsAreUnique();
    FindSpec(TEACHERS, (t: Teacher) => t.id == g.teacherId);
  }

  /** A catalogue room is filed under its name; an unknown id under itself. */
  lemma RoomKeyShown(g: Gene)
    ensures forall k :: 0 <= k < |ROOMS| && ROOMS[k].id == g.roomId ==> RoomKey(g) == ROOMS[k].name
    ensures FindRoom(g.roomId).None? ==> RoomKey(g) == g.roomId
  {
    IdsAreUnique();
    FindSpec(ROOMS, (r: Room) => r.id == g.roomId);
  }

  /** Each catalogue course is found by its own id. */
  lemma CoursesFoundById()
    ensures FindCourse(COURSES[0].id) == Some(COURSES[0])
    ensures FindCourse(COURSES[1].id) == Some(COURSES[1])
  {
  }

  /** Gene `k` of a well-shaped schedule is filed under the label of course `k / SUBJECT_COUNT`. */
  lemma WellShapedCourseKey(genes: seq<Gene>, k: int)
    requires WellShaped(genes) && 0 <= k < |genes|
    ensures CourseKey(genes[k]) == CourseLabel(COURSES[k / SUBJECT_COUNT])
  {
    CoursesFoundById();
    assert k / SUBJECT_COUNT == 0 || k / SUBJECT_COUNT == 1;
  }

  /** The branch view of a well-shaped schedule has exactly one row per catalogue course:
      `CSE Sem-3 A` and `ECE Sem-3 A`, never the `undefined` label. */
  lemma BranchRowsOfWellShaped(genes: seq<Gene>)
    requires WellShaped(genes)
    ensures ProjectView(genes, ByCourse).Keys == {CourseLabel(COURSES[0]), CourseLabel(COURSES[1])}
  {
    var ps := Placements(genes, ByCourse);
    forall i | 0 <= i < |ps|
      ensures ps[i].key == (if i < SUBJECT_COUNT then CourseLabel(COURSES[0]) else CourseLabel(COURSES[1]))
    {
      PlacementsAt(genes, ByCourse, i);
      WellShapedCourseKey(genes, i);
    }
    TwoRows(ps, SUBJECT_COUNT, CourseLabel(COURSES[0]), CourseLabel(COURSES[1]));
  }
}
