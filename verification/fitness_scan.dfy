/** The penalty computed the way the generator computes it — a scan per time slot with
    seen-sets, per-(course, day) subject lists, per-course distinct subjects, and a lab
    scan — proved equal to the term-by-term score of the `Fitness` module. */
module FitnessScan {
  import opened Wrappers
  import opened Seqs
  import opened TimetableData
  import opened Genes
  import opened Score

  /** The teacher and room penalty of one time slot: walking the slot's genes in order,
      a teacher (room) id already seen costs 1000 (800), a new one is remembered. */
  method SlotPenalty(genes: seq<Gene>, day: string, p: int) returns (penalty: int)
    ensures penalty == 1000 * SlotExcess(genes, day, p, TeacherOf) + 800 * SlotExcess(genes, day, p, RoomOf)
  {
    var sameTime := SlotGenes(genes, day, p);
    var teacherSet: set<string> := {};
    var roomSet: set<string> := {};
    ghost var teachers: seq<string> := [];
    ghost var rooms: seq<string> := [];
    penalty := 0;
    var k := 0;
    while k < |sameTime|
      invariant 0 <= k <= |sameTime|
      invariant teachers == Ids(sameTime[..k], TeacherOf) && rooms == Ids(sameTime[..k], RoomOf)
      invariant teacherSet == Elems(teachers) && roomSet == Elems(rooms)
      invariant penalty == 1000 * Excess(teachers) + 800 * Excess(rooms)
    {
      var g := sameTime[k];
      assert sameTime[..k + 1] == sameTime[..k] + [g];
      IdsSnoc(sameTime[..k], g, TeacherOf);
      IdsSnoc(sameTime[..k], g, RoomOf);
      SeenStep(teachers, g.teacherId);
      SeenStep(rooms, g.roomId);
      if g.teacherId in teacherSet {
        penalty := penalty + 1000;
      } else {
        teacherSet := teacherSet + {g.teacherId};
      }
      if g.roomId in roomSet {
        penalty := penalty + 800;
      } else {
        roomSet := roomSet + {g.roomId};
      }
      teachers := teachers + [g.teacherId];
      rooms := rooms + [g.roomId];
      k := k + 1;
    }
    assert sameTime[..k] == sameTime;
    SlotIdsOfSlotGenes(genes, day, p, TeacherOf);
    SlotIdsOfSlotGenes(genes, day, p, RoomOf);
  }

  /** The hard-constraint penalty of one day: every period in turn. */
  method DayPenalty(genes: seq<Gene>, day: string) returns (penalty: int)
    ensures penalty == 1000 * DayClashes(genes, day, TeacherOf) + 800 * DayClashes(genes, day, RoomOf)
  {
    penalty := 0;
    var p := 0;
    while p < PERIODS
      invariant 0 <= p <= PERIODS
      invariant penalty == 1000 * PeriodClashes(genes, day, p, TeacherOf) + 800 * PeriodClashes(genes, day, p, RoomOf)
    {
      var slot := SlotPenalty(genes, day, p);
      penalty := penalty + slot;
      p := p + 1;
    }
  }

  /** The hard-constraint penalty: every period of every working day. */
  method ClashPenalty(genes: seq<Gene>) returns (penalty: int)
    ensures penalty == 1000 * Clashes(genes, TeacherOf) + 800 * Clashes(genes, RoomOf)
  {
    penalty := 0;
    var d := 0;
    while d < |DAYS|
      invariant 0 <= d <= |DAYS|
      invariant penalty == 1000 * WeekClashes(genes, d, TeacherOf) + 800 * WeekClashes(genes, d, RoomOf)
    {
      var today := DayPenalty(genes, DAYS[d]);
      penalty := penalty + today;
      d := d + 1;
    }
  }

  /** The subjects one course was given on one day (`subjectsPerDay[courseId][day]`). */
  datatype Group = Group(courseId: string, day: string, subjects: seq<string>)

  /** Appends the gene's subject to its (course, day) group, opening the group when it is new. */
  function AddToGroups(groups: seq<Group>, g: Gene): seq<Group> {
    if |groups| == 0 then [Group(g.courseId, g.day, [g.subjectId])]
    else if groups[0].courseId == g.courseId && groups[0].day == g.day then
      [groups[0].(subjects := groups[0].subjects + [g.subjectId])] + groups[1..]
    else [groups[0]] + AddToGroups(groups[1..], g)
  }

  /** The groups after visiting every gene in order. */
  function Grouped(genes: seq<Gene>): seq<Group> {
    if |genes| == 0 then [] else AddToGroups(Grouped(genes[..|genes| - 1]), genes[|genes| - 1])
  }

  /** Duplicated subjects of a group: its length minus its distinct subjects. */
  function Dup(grp: Group): int {
    Excess(grp.subjects)
  }

  /** The (course, day) key of a group. */
  function Key(grp: Group): (string, string) {
    (grp.courseId, grp.day)
  }

  /** The group holds subject `t.2` for course `t.0` on day `t.1`. */
  predicate Holds(grp: Group, t: (string, string, string)) {
    Key(grp) == (t.0, t.1) && t.2 in grp.subjects
  }

  predicate InGroups(groups: seq<Group>, t: (string, string, string)) {
    exists i | 0 <= i < |groups| :: Holds(groups[i], t)
  }

  predicate HasKey(groups: seq<Group>, key: (string, string)) {
    exists i | 0 <= i < |groups| :: Key(groups[i]) == key
  }

  /** No two groups share a (course, day) key. */
  predicate DistinctKeys(groups: seq<Group>) {
    forall i, j :: 0 <= i < j < |groups| ==> Key(groups[i]) != Key(groups[j])
  }

  /** Duplicated subjects over all groups. */
  function DupTotal(groups: seq<Group>): int {
    if |groups| == 0 then 0 else Dup(groups[0]) + DupTotal(groups[1..])
  }

  lemma InGroupsCons(x: Group, xs: seq<Group>, t: (string, string, string))
    ensures InGroups([x] + xs, t) <==> Holds(x, t) || InGroups(xs, t)
  {
    var ys := [x] + xs;
    if InGroups(ys, t) {
      var i :| 0 <= i < |ys| && Holds(ys[i], t);
      if i > 0 {
        assert ys[i] == xs[i - 1];
      }
    }
    if InGroups(xs, t) {
      var i :| 0 <= i < |xs| && Holds(xs[i], t);
      assert ys[i + 1] == xs[i];
    }
    assert ys[0] == x;
  }

  lemma HasKeyCons(x: Group, xs: seq<Group>, key: (string, string))
    ensures HasKey([x] + xs, key) <==> Key(x) == key || HasKey(xs, key)
  {
    var ys := [x] + xs;
    if HasKey(ys, key) {
      var i :| 0 <= i < |ys| && Key(ys[i]) == key;
      if i > 0 {
        assert ys[i] == xs[i - 1];
      }
    }
    if HasKey(xs, key) {
      var i :| 0 <= i < |xs| && Key(xs[i]) == key;
      assert ys[i + 1] == xs[i];
    }
    assert ys[0] == x;
  }

  lemma DistinctKeysCons(x: Group, xs: seq<Group>)
    ensures DistinctKeys([x] + xs) <==> !HasKey(xs, Key(x)) && DistinctKeys(xs)
  {
    var ys := [x] + xs;
    if HasKey(xs, Key(x)) {
      var i :| 0 <= i < |xs| && Key(xs[i]) == Key(x);
      assert ys[0] == x && ys[i + 1] == xs[i];
    }
    if !DistinctKeys(xs) {
      var i, j :| 0 <= i < j < |xs| && Key(xs[i]) == Key(xs[j]);
      assert ys[i + 1] == xs[i] && ys[j + 1] == xs[j];
    }
    if !HasKey(xs, Key(x)) && DistinctKeys(xs) {
      forall i, j | 0 <= i < j < |ys|
        ensures Key(ys[i]) != Key(ys[j])
      {
        assert ys[j] == xs[j - 1];
        if i > 0 {
          assert ys[i] == xs[i - 1];
        }
      }
    }
  }

  lemma InGroupsHasKey(groups: seq<Group>, t: (string, string, string))
    requires InGroups(groups, t)
    ensures HasKey(groups, (t.0, t.1))
  {
    var i :| 0 <= i < |groups| && Holds(groups[i], t);
  }

  /** Adding a gene adds exactly its key and its triple, keeps the keys distinct, and adds
      one duplicate exactly when its subject is already in its group. */
  lemma {:induction false} AddToGroupsFacts(groups: seq<Group>, g: Gene)
    requires DistinctKeys(groups)
    ensures forall key :: HasKey(AddToGroups(groups, g), key) <==> HasKey(groups, key) || key == (g.courseId, g.day)
    ensures DistinctKeys(AddToGroups(groups, g))
    ensures forall t :: InGroups(AddToGroups(groups, g), t) <==> InGroups(groups, t) || t == Triple(g)
    ensures DupTotal(AddToGroups(groups, g)) == DupTotal(groups) + (if InGroups(groups, Triple(g)) then 1 else 0)
  {
    var added := AddToGroups(groups, g);
    var gkey := (g.courseId, g.day);
    if |groups| == 0 {
      var newGroup := Group(g.courseId, g.day, [g.subjectId]);
      assert added == [newGroup] + [];
      forall key
        ensures HasKey(added, key) <==> key == gkey
      {
        HasKeyCons(newGroup, [], key);
      }
      forall t
        ensures InGroups(added, t) <==> t == Triple(g)
      {
        InGroupsCons(newGroup, [], t);
      }
      DistinctKeysCons(newGroup, []);
      assert added[1..] == [];
      ExcessZeroIff([g.subjectId]);
    } else {
      var g0, rest := groups[0], groups[1..];
      assert groups == [g0] + rest;
      DistinctKeysCons(g0, rest);
      forall key
        ensures HasKey(groups, key) <==> Key(g0) == key || HasKey(rest, key)
      {
        HasKeyCons(g0, rest, key);
      }
      forall t
        ensures InGroups(groups, t) <==> Holds(g0, t) || InGroups(rest, t)
      {
        InGroupsCons(g0, rest, t);
      }
      if Key(g0) == gkey {
        var g0' := g0.(subjects := g0.subjects + [g.subjectId]);
        assert added == [g0'] + rest;
        assert added[1..] == rest;
        forall key
          ensures HasKey(added, key) <==> Key(g0') == key || HasKey(rest, key)
        {
          HasKeyCons(g0', rest, key);
        }
        forall t
          ensures InGroups(added, t) <==> Holds(g0', t) || InGroups(rest, t)
        {
          InGroupsCons(g0', rest, t);
        }
        DistinctKeysCons(g0', rest);
        ExcessSnoc(g0.subjects, g.subjectId);
        if InGroups(rest, Triple(g)) {
          InGroupsHasKey(rest, Triple(g));
        }
      } else {
        var tail := AddToGroups(rest, g);
        assert added == [g0] + tail;
        assert added[1..] == tail;
        AddToGroupsFacts(rest, g);
        forall key
          ensures HasKey(added, key) <==> Key(g0) == key || HasKey(tail, key)
        {
          HasKeyCons(g0, tail, key);
        }
        forall t
          ensures InGroups(added, t) <==> Holds(g0, t) || InGroups(tail, t)
        {
          InGroupsCons(g0, tail, t);
        }
        DistinctKeysCons(g0, tail);
      }
    }
  }

  /** After visiting the genes, the groups hold exactly their triples, under distinct keys,
      and their duplicates add up to the subject repetitions. */
  lemma {:induction false} GroupedFacts(genes: seq<Gene>)
    ensures DistinctKeys(Grouped(genes))
    ensures forall t :: t in TripleSeq(genes) <==> InGroups(Grouped(genes), t)
    ensures DupTotal(Grouped(genes)) == Repetitions(genes)
  {
    if |genes| > 0 {
      var init, g := genes[..|genes| - 1], genes[|genes| - 1];
      GroupedFacts(init);
      AddToGroupsFacts(Grouped(init), g);
      assert TripleSeq(genes) == TripleSeq(init) + [Triple(g)];
      ExcessSnoc(TripleSeq(init), Triple(g));
    }
  }

  /** The subject-repetition penalty: 50 per duplicated subject of a course on a day. */
  method RepetitionPenalty(genes: seq<Gene>) returns (penalty: int)
    ensures penalty == 50 * Repetitions(genes)
  {
    var groups: seq<Group> := [];
    var k := 0;
    while k < |genes|
      invariant 0 <= k <= |genes|
      invariant groups == Grouped(genes[..k])
    {
      assert genes[..k + 1][..k] == genes[..k];
      groups := AddToGroups(groups, genes[k]);
      k := k + 1;
    }
    assert genes[..k] == genes;
    GroupedFacts(genes);
    penalty := 0;
    var i := 0;
    while i < |groups|
      invariant 0 <= i <= |groups|
      invariant penalty == 50 * (DupTotal(groups) - DupTotal(groups[i..]))
    {
      var subjectList := groups[i].subjects;
      var dup := |subjectList| - |Elems(subjectList)|;
      if dup > 0 {
        penalty := penalty + dup * 50;
      }
      assert groups[i..][1..] == groups[i + 1..];
      i := i + 1;
    }
  }

  /** The coverage penalty: for each course, 10 times `SUBJECTS.length` minus the number of
      distinct subject ids it schedules. */
  method CoveragePenalty(genes: seq<Gene>) returns (penalty: int)
    ensures penalty == 10 * CoverageGap(genes, COURSES)
  {
    penalty := 0;
    var c := 0;
    while c < |COURSES|
      invariant 0 <= c <= |COURSES|
      invariant penalty == 10 * CoverageGap(genes, COURSES[..c])
    {
      var id := COURSES[c].id;
      var subjects: seq<string> := [];
      var i := 0;
      while i < |genes|
        invariant 0 <= i <= |genes|
        invariant subjects == CourseSubjects(genes[..i], id)
      {
        assert genes[..i + 1][..i] == genes[..i];
        if genes[i].courseId == id {
          subjects := subjects + [genes[i].subjectId];
        }
        i := i + 1;
      }
      assert genes[..i] == genes;
      var unique := |Elems(subjects)|;
      var coverage := |SUBJECTS| - unique;
      penalty := penalty + coverage * 10;
      assert COURSES[..c + 1][..c] == COURSES[..c];
      c := c + 1;
    }
    assert COURSES[..c] == COURSES;
  }

  /** The lab-placement penalty: 20 per lab in the first period or one of the last two. */
  method LabPenalty(genes: seq<Gene>) returns (penalty: int)
    ensures penalty == 20 * MisplacedLabs(genes)
  {
    penalty := 0;
    var k := 0;
    while k < |genes|
      invariant 0 <= k <= |genes|
      invariant penalty == 20 * Count(genes[..k], MisplacedLab)
    {
      var g := genes[k];
      var subj := FindSubject(g.subjectId);
      if subj.Some? && subj.value.isLab && (g.period == 0 || g.period >= PERIODS - 2) {
        penalty := penalty + 20;
      }
      assert genes[..k + 1][..k] == genes[..k] && genes[..k + 1][k] == g;
      assert Count(genes[..k + 1], MisplacedLab) == Count(genes[..k], MisplacedLab) + (if MisplacedLab(g) then 1 else 0);
      k := k + 1;
    }
    assert genes[..k] == genes;
  }

  /** `calculateFitness`: the sum of the four penalties, equal to the term-by-term score. */
  method CalculateFitness(ind: Individual) returns (penalty: int)
    ensures penalty == Fitness(ind.genes)
  {
    var clashes := ClashPenalty(ind.genes);
    var repetitions := RepetitionPenalty(ind.genes);
    var coverage := CoveragePenalty(ind.genes);
    var labs := LabPenalty(ind.genes);
    penalty := clashes + repetitions + coverage + labs;
  }
}
