/** The sample reference data every part of the timetable generator reads:
    the working week, the period grid with its lunch break, and the teachers,
    subjects, rooms and courses. */
module TimetableData {
  import opened Wrappers
  import Seqs

  /** The working week. */
  const DAYS: seq<string> := ["Mon", "Tue", "Wed", "Thu", "Fri"]

  /** Number of periods in a day. */
  const PERIODS: int := 8

  /** The printed period labels, one per period; one of them is the lunch break. */
  const PERIOD_TIMINGS: seq<string> := [
    "08:30–09:20",
    "09:20–10:10",
    "10:10–11:00",
    "11:00–11:50",
    "11:50–12:30",
    "12:30–01:15 (Lunch)",
    "01:15–02:05",
    "02:05–02:55"
  ]

  datatype Teacher = Teacher(id: string, name: string, short: string, maxPerDay: Option<nat>)

  /** An absent `isLab` flag reads as false, so the optional flag is a plain boolean here. */
  datatype Subject = Subject(id: string, name: string, code: string, isLab: bool)

  datatype RoomType = Class | Lab

  datatype Room = Room(id: string, name: string, kind: RoomType)

  datatype Course = Course(id: string, branch: string, semester: nat, section: string)

  const TEACHERS: seq<Teacher> := [
    Teacher("T1", "Ms. Kiran Dange", "KD", Some(4)),
    Teacher("T2", "Mr. Prashant Patil", "PP", Some(4)),
    Teacher("T3", "Ms. Sneha Joshi", "SJ", Some(4)),
    Teacher("T4", "Mr. Aniket More", "AM", Some(4))
  ]

  const SUBJECTS: seq<Subject> := [
    Subject("S1", "Information Theory & Coding", "ITC", false),
    Subject("S2", "Object Oriented Programming", "OOPS", false),
    Subject("S3", "Digital Signal Processing", "DSP", false),
    Subject("S4", "Microprocessor", "MP", false),
    Subject("S5", "Microprocessor Lab", "MP-L", true),
    Subject("S6", "DSA Lab", "DSA-L", true)
  ]

  const ROOMS: seq<Room> := [
    Room("R1", "SCC-3", Class),
    Room("R2", "TCC-1", Class),
    Room("L1", "MP Lab", Lab),
    Room("L2", "DSA Lab", Lab)
  ]

  const COURSES: seq<Course> := [
    Course("C1", "CSE", 3, "A"),
    Course("C2", "ECE", 3, "A")
  ]

  /** The ids of all subjects, as a set. */
  function SubjectIds(): set<string> {
    set s | s in SUBJECTS :: s.id
  }

  /** The test `s => s.id === id`. */
  function SubjectWithId(id: string): Subject -> bool {
    (s: Subject) => s.id == id
  }

  /** The subject record with the given id (`SUBJECTS.find(s => s.id === id)`). */
  function FindSubject(id: string): Option<Subject> {
    Find(SUBJECTS, SubjectWithId(id))
  }

  function FindTeacher(id: string): Option<Teacher> {
    Find(TEACHERS, (t: Teacher) => t.id == id)
  }

  function FindRoom(id: string): Option<Room> {
    Find(ROOMS, (r: Room) => r.id == id)
  }

  function FindCourse(id: string): Option<Course> {
    Find(COURSES, (c: Course) => c.id == id)
  }

  /** `subj?.isLab` for the subject looked up by id: false when the id is unknown. */
  predicate IsLabSubjectId(id: string) {
    var s := FindSubject(id);
    s.Some? && s.value.isLab
  }

  /** The first room of the given type (`ROOMS.find(r => r.type === kind)`). */
  function FirstRoomOfType(kind: RoomType): Option<Room> {
    Find(ROOMS, (r: Room) => r.kind == kind)
  }

  /** ASCII lower-casing, the only case folding `/lunch/i` can observe. */
  function LowerAscii(c: char): char {
    if 'A' <= c <= 'Z' then (c as int + 32) as char else c
  }

  function FoldCase(s: string): (r: string)
    ensures |r| == |s|
    ensures forall k :: 0 <= k < |s| ==> r[k] == LowerAscii(s[k])
  {
    if |s| == 0 then [] else [LowerAscii(s[0])] + FoldCase(s[1..])
  }

  /** "lunch" occurs in `t` at position `i`, ignoring case. */
  predicate LunchAt(t: string, i: int) {
    0 <= i <= |t| - 5 && FoldCase(t[i..i + 5]) == "lunch"
  }

  /** `/lunch/i.test(t)`: "lunch" occurs in `t`, ignoring case. */
  predicate IsLunchLabel(t: string) {
    exists i | 0 <= i <= |t| - 5 :: LunchAt(t, i)
  }

  /** The grid's lunch index: the first period label matching /lunch/i, or -1. */
  function LunchIndex(): int {
    FindIndex(PERIOD_TIMINGS, IsLunchLabel)
  }

  /** The lunch index as a number, for code that needs it without searching the labels;
      `LunchIsPeriodFive` shows it is what the search finds. */
  const LUNCH_INDEX: int := 5

  /** A lunch label contains an `l` or an `L`. */
  lemma LunchLabelHasL(t: string)
    requires IsLunchLabel(t)
    ensures 'l' in t || 'L' in t
  {
    var i :| 0 <= i <= |t| - 5 && LunchAt(t, i);
    var w := t[i..i + 5];
    assert FoldCase(w)[0] == "lunch"[0] == 'l';
    assert LowerAscii(w[0]) == 'l';
    assert w[0] == t[i];
  }

  lemma DaysAreTheWorkingWeek()
    ensures |DAYS| == 5
    ensures DAYS == ["Mon", "Tue", "Wed", "Thu", "Fri"]
    ensures forall i, j :: 0 <= i < j < |DAYS| ==> DAYS[i] != DAYS[j]
  {
  }

  lemma PeriodTimingsMatchPeriods()
    ensures PERIODS == 8 && |PERIOD_TIMINGS| == PERIODS
  {
  }

  lemma LunchLabelAtFive()
    ensures IsLunchLabel(PERIOD_TIMINGS[5])
  {
    var t := PERIOD_TIMINGS[5];
    assert t[13..18] == "Lunch";
    assert FoldCase(t[13..18]) == "lunch";
    assert LunchAt(t, 13);
  }

  /** A label without the letter l is not a lunch label. */
  lemma NoLunchWithoutL(t: string)
    requires 'l' !in t && 'L' !in t
    ensures !IsLunchLabel(t)
  {
    if IsLunchLabel(t) {
      LunchLabelHasL(t);
    }
  }

  lemma OtherLabelsAreNotLunch(i: int)
    requires 0 <= i < |PERIOD_TIMINGS| && i != 5
    ensures !IsLunchLabel(PERIOD_TIMINGS[i])
  {
    NoLunchWithoutL(PERIOD_TIMINGS[i]);
  }

  /** Exactly one period label is the lunch break, and it sits at index 5. */
  lemma LunchIsPeriodFive()
    ensures LunchIndex() == LUNCH_INDEX == 5
    ensures forall i :: 0 <= i < |PERIOD_TIMINGS| ==> (IsLunchLabel(PERIOD_TIMINGS[i]) <==> i == 5)
  {
    LunchLabelAtFive();
    forall i | 0 <= i < |PERIOD_TIMINGS| && i != 5
      ensures !IsLunchLabel(PERIOD_TIMINGS[i])
    {
      OtherLabelsAreNotLunch(i);
    }
  }

  /** Only S5 and S6 are labs. */
  lemma LabSubjects(id: string)
    ensures IsLabSubjectId(id) <==> id == "S5" || id == "S6"
  {
    var p := SubjectWithId(id);
    FindSpec(SUBJECTS, p);
    if FindSubject(id).Some? {
      var k :| 0 <= k < |SUBJECTS| && SUBJECTS[k] == FindSubject(id).value && p(SUBJECTS[k]);
      assert SUBJECTS[k].isLab <==> k == 4 || k == 5;
    } else {
      assert !p(SUBJECTS[4]) && !p(SUBJECTS[5]);
    }
  }

  /** Both room types are present, so the room lookup of individual creation never misses. */
  lemma BothRoomTypesExist()
    ensures FirstRoomOfType(Class) == Some(ROOMS[0])
    ensures FirstRoomOfType(Lab) == Some(ROOMS[2])
  {
  }

  lemma TeacherIdsAreUnique()
    ensures forall i, j :: 0 <= i < j < |TEACHERS| ==> TEACHERS[i].id != TEACHERS[j].id
  {
  }

  lemma SubjectIdsAreUnique()
    ensures forall i, j :: 0 <= i < j < |SUBJECTS| ==> SUBJECTS[i].id != SUBJECTS[j].id
  {
  }

  lemma RoomIdsAreUnique()
    ensures forall i, j :: 0 <= i < j < |ROOMS| ==> ROOMS[i].id != ROOMS[j].id
  {
  }

  lemma CourseIdsAreUnique()
    ensures forall i, j :: 0 <= i < j < |COURSES| ==> COURSES[i].id != COURSES[j].id
  {
  }

  /** No two records of a catalogue share an id, so each lookup by id has one answer. */
  lemma IdsAreUnique()
    ensures forall i, j :: 0 <= i < j < |TEACHERS| ==> TEACHERS[i].id != TEACHERS[j].id
    ensures forall i, j :: 0 <= i < j < |SUBJECTS| ==> SUBJECTS[i].id != SUBJECTS[j].id
    ensures forall i, j :: 0 <= i < j < |ROOMS| ==> ROOMS[i].id != ROOMS[j].id
    ensures forall i, j :: 0 <= i < j < |COURSES| ==> COURSES[i].id != COURSES[j].id
  {
    TeacherIdsAreUnique();
    SubjectIdsAreUnique();
    RoomIdsAreUnique();
    CourseIdsAreUnique();
  }

  /** There are six distinct subject ids. */
  lemma SixSubjectIds()
    ensures |SubjectIds()| == |SUBJECTS| == 6
  {
    var ids := ["S1", "S2", "S3", "S4", "S5", "S6"];
    assert forall k :: 0 <= k < 6 ==> SUBJECTS[k].id == ids[k];
    assert SubjectIds() == Seqs.Elems(ids);
    Seqs.DistinctElemsCard(ids);
  }
}
