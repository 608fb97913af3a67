/** The genetic operators: building a random individual, mutating one, and crossing two.
    Every `Math.random()` call is an explicit `Unit` draw, so each property below holds
    for every outcome of the random choices. */
module Operators {
  import opened Wrappers
  import opened TimetableData
  import opened Genes
  import opened Score
  import opened FitnessScan

  /** The draws `createRandomIndividual` takes for one gene: teacher, day and period. */
  datatype GeneDraw = GeneDraw(teacher: Unit, day: Unit, period: Unit)

  /** The draws `mutate` takes for one gene: the coin, then (if it lands) a new day and period. */
  datatype MutationDraw = MutationDraw(coin: Unit, day: Unit, period: Unit)

  /** The room type a subject needs. */
  function KindFor(subject: Subject): RoomType {
    if subject.isLab then Lab else Class
  }

  /** The room of a subject: the first room of the type it needs. Both types occur in
      `ROOMS`, so the lookup never misses. */
  function RoomFor(subject: Subject): (room: Room)
    ensures room in ROOMS && room.kind == KindFor(subject)
    ensures Some(room) == FirstRoomOfType(KindFor(subject))
  {
    BothRoomTypesExist();
    FirstRoomOfType(KindFor(subject)).value
  }

  /** `rand(DAYS)` for the draw `u`. */
  function DrawDay(u: Unit): (day: string)
    ensures day in DAYS
  {
    DAYS[Pick(|DAYS|, u)]
  }

  /** `randomInt(PERIODS)` for the draw `u`. */
  function DrawPeriod(u: Unit): (p: int)
    ensures 0 <= p < PERIODS
  {
    Pick(PERIODS, u)
  }

  /** `rand(TEACHERS)` for the draw `u`. */
  function DrawTeacher(u: Unit): (t: Teacher)
    ensures t in TEACHERS
  {
    TEACHERS[Pick(|TEACHERS|, u)]
  }

  /** The gene `createRandomIndividual` pushes for one course and subject. */
  function NewGene(course: Course, subject: Subject, d: GeneDraw): (g: Gene)
    ensures g.courseId == course.id && g.subjectId == subject.id
    ensures InWeek(g)
  {
    Gene(course.id, subject.id, DrawTeacher(d.teacher).id, RoomFor(subject).id, DrawDay(d.day), DrawPeriod(d.period))
  }

  /** Every day, period and teacher can be drawn, the lunch period included. */
  lemma EverySlotReachable(course: Course, subject: Subject, t: nat, day: nat, p: nat)
    requires t < |TEACHERS| && day < |DAYS| && p < PERIODS
    ensures exists d: GeneDraw :: NewGene(course, subject, d).teacherId == TEACHERS[t].id
                               && NewGene(course, subject, d).day == DAYS[day]
                               && NewGene(course, subject, d).period == p
  {
    PickReachesEveryIndex(|TEACHERS|, t);
    PickReachesEveryIndex(|DAYS|, day);
    PickReachesEveryIndex(PERIODS, p);
    var d := GeneDraw(t as real / |TEACHERS| as real, day as real / |DAYS| as real, p as real / PERIODS as real);
    assert NewGene(course, subject, d).period == p;
  }

  /** Random creation does not avoid the lunch break: period 5 can be drawn. */
  lemma LunchPeriodReachable(course: Course, subject: Subject)
    ensures exists d: GeneDraw :: NewGene(course, subject, d).period == LunchIndex()
  {
    LunchIsPeriodFive();
    EverySlotReachable(course, subject, 0, 0, 5);
  }

  /** The gene `createRandomIndividual` builds at position `k` of the course-major
      enumeration, from the `k`-th draw. */
  function PlannedGene(draws: seq<GeneDraw>, k: int): Gene
    requires |draws| == GENE_COUNT && 0 <= k < GENE_COUNT
  {
    NewGene(COURSES[k / SUBJECT_COUNT], SUBJECTS[k % SUBJECT_COUNT], draws[k])
  }

  /** The planned gene at `k` is subject `k % SUBJECT_COUNT` of course `k / SUBJECT_COUNT`,
      with the drawn teacher, day and period and the room the subject needs. */
  lemma PlannedGeneFacts(draws: seq<GeneDraw>, k: int)
    requires |draws| == GENE_COUNT && 0 <= k < GENE_COUNT
    ensures PlannedGene(draws, k).courseId == COURSES[k / SUBJECT_COUNT].id
    ensures PlannedGene(draws, k).subjectId == SUBJECTS[k % SUBJECT_COUNT].id
    ensures PlannedGene(draws, k).teacherId == DrawTeacher(draws[k].teacher).id
    ensures PlannedGene(draws, k).roomId == RoomFor(SUBJECTS[k % SUBJECT_COUNT]).id
    ensures PlannedGene(draws, k).day == DrawDay(draws[k].day)
    ensures PlannedGene(draws, k).period == DrawPeriod(draws[k].period)
    ensures InWeek(PlannedGene(draws, k))
  {
  }

  /** The planned genes at positions `0 .. n`. */
  ghost predicate PlannedPrefix(genes: seq<Gene>, draws: seq<GeneDraw>)
    requires |draws| == GENE_COUNT
  {
    |genes| <= GENE_COUNT && forall k :: 0 <= k < |genes| ==> genes[k] == PlannedGene(draws, k)
  }

  /** Appending the gene for course `c` and subject `s` extends the planned prefix. */
  lemma PlannedPrefixSnoc(genes: seq<Gene>, draws: seq<GeneDraw>, c: int, s: int)
    requires |draws| == GENE_COUNT && 0 <= c < |COURSES| && 0 <= s < SUBJECT_COUNT
    requires |genes| == CourseMajorIndex(c, s) && PlannedPrefix(genes, draws)
    ensures PlannedPrefix(genes + [NewGene(COURSES[c], SUBJECTS[s], draws[CourseMajorIndex(c, s)])], draws)
  {
    var k := CourseMajorIndex(c, s);
    var longer := genes + [NewGene(COURSES[c], SUBJECTS[s], draws[k])];
    forall j | 0 <= j < |longer|
      ensures longer[j] == PlannedGene(draws, j)
    {
      if j < |genes| {
        assert longer[j] == genes[j];
      } else {
        assert j == k && k / SUBJECT_COUNT == c && k % SUBJECT_COUNT == s;
      }
    }
  }

  /** The nested course and subject loops of `createRandomIndividual`. */
  method PlanGenes(draws: seq<GeneDraw>) returns (genes: seq<Gene>)
    requires |draws| == GENE_COUNT
    ensures |genes| == GENE_COUNT
    ensures forall k :: 0 <= k < GENE_COUNT ==> genes[k] == PlannedGene(draws, k)
  {
    genes := [];
    for c := 0 to |COURSES|
      invariant |genes| == c * SUBJECT_COUNT
      invariant PlannedPrefix(genes, draws)
    {
      for s := 0 to SUBJECT_COUNT
        invariant |genes| == c * SUBJECT_COUNT + s
        invariant PlannedPrefix(genes, draws)
      {
        var k := CourseMajorIndex(c, s);
        PlannedPrefixSnoc(genes, draws, c, s);
        genes := genes + [NewGene(COURSES[c], SUBJECTS[s], draws[k])];
      }
    }
  }

  /** The individual `createRandomIndividual` makes from `draws`: the planned gene of every
      position, scored. */
  function Created(draws: seq<GeneDraw>): Individual
    requires |draws| == GENE_COUNT
  {
    var genes := seq(GENE_COUNT, k requires 0 <= k < GENE_COUNT => PlannedGene(draws, k));
    Individual(genes, Fitness(genes))
  }

  /** `createRandomIndividual`: one gene per (course, subject), course-major, each with
      a drawn teacher, day and period and the first room of the subject's type; the
      fitness is the score of those genes. */
  method CreateRandomIndividual(draws: seq<GeneDraw>) returns (ind: Individual)
    requires |draws| == GENE_COUNT
    ensures WellShaped(ind.genes)
    ensures forall k :: 0 <= k < |ind.genes| ==>
      && ind.genes[k].teacherId == DrawTeacher(draws[k].teacher).id
      && ind.genes[k].roomId == RoomFor(SUBJECTS[k % SUBJECT_COUNT]).id
      && ind.genes[k].day == DrawDay(draws[k].day)
      && ind.genes[k].period == DrawPeriod(draws[k].period)
    ensures forall k :: 0 <= k < |ind.genes| ==> InWeek(ind.genes[k])
    ensures ind.fitness == Fitness(ind.genes)
    ensures ind == Created(draws)
  {
    var genes := PlanGenes(draws);
    forall k | 0 <= k < GENE_COUNT
      ensures genes[k].courseId == COURSES[k / SUBJECT_COUNT].id && genes[k].subjectId == SUBJECTS[k % SUBJECT_COUNT].id
      ensures genes[k].teacherId == DrawTeacher(draws[k].teacher).id
      ensures genes[k].roomId == RoomFor(SUBJECTS[k % SUBJECT_COUNT]).id
      ensures genes[k].day == DrawDay(draws[k].day) && genes[k].period == DrawPeriod(draws[k].period)
      ensures InWeek(genes[k])
    {
      PlannedGeneFacts(draws, k);
    }
    var fitness := CalculateFitness(Individual(genes, 0));
    ind := Individual(genes, fitness);
    assert genes == Created(draws).genes;
  }

  /** One gene under `mutate`: a coin below `rate` moves it to a drawn day and period. */
  function MutateGene(g: Gene, rate: real, d: MutationDraw): Gene {
    if d.coin < rate then g.(day := DrawDay(d.day), period := DrawPeriod(d.period)) else g
  }

  /** Mutation does not avoid the lunch break either: with any positive rate, a gene can be
      moved to period 5 of any working day. */
  lemma MutationReachesLunch(g: Gene, rate: real, day: nat)
    requires 0.0 < rate && day < |DAYS|
    ensures exists d: MutationDraw :: MutateGene(g, rate, d).period == LunchIndex()
                                  && MutateGene(g, rate, d).day == DAYS[day]
  {
    LunchIsPeriodFive();
    PickReachesEveryIndex(|DAYS|, day);
    PickReachesEveryIndex(PERIODS, 5);
    var d := MutationDraw(0.0, day as real / |DAYS| as real, 5 as real / PERIODS as real);
    assert MutateGene(g, rate, d).period == 5;
  }

  /** The genes of `mutate`: gene `i` mutated under draw `i`. */
  function MutateGenes(genes: seq<Gene>, rate: real, draws: seq<MutationDraw>): (r: seq<Gene>)
    requires |draws| == |genes|
    ensures |r| == |genes|
  {
    seq(|genes|, i requires 0 <= i < |genes| => MutateGene(genes[i], rate, draws[i]))
  }

  /** The genes of `crossover`: position `i` from `a` when coin `i` is below one half, else from `b`. */
  function CrossGenes(a: seq<Gene>, b: seq<Gene>, coins: seq<Unit>): (r: seq<Gene>)
    requires |b| >= |a| && |coins| == |a|
    ensures |r| == |a|
  {
    seq(|a|, i requires 0 <= i < |a| => if coins[i] < 0.5 then a[i] else b[i])
  }

  /** The fields that say what is taught, by whom and where. */
  predicate SameClass(g: Gene, h: Gene) {
    g.courseId == h.courseId && g.subjectId == h.subjectId && g.teacherId == h.teacherId && g.roomId == h.roomId
  }

  /** `mutate`: a copy of the same length in which each gene whose coin lands below
      `rate` gets a drawn day and period and every other gene is kept; nothing but day
      and period ever changes, and the fitness is recomputed. */
  method Mutate(ind: Individual, rate: real, draws: seq<MutationDraw>) returns (mutated: Individual)
    requires |draws| == |ind.genes|
    ensures |mutated.genes| == |ind.genes|
    ensures forall i :: 0 <= i < |ind.genes| ==> SameClass(mutated.genes[i], ind.genes[i])
    ensures forall i :: 0 <= i < |ind.genes| && draws[i].coin < rate ==>
      mutated.genes[i].day == DrawDay(draws[i].day) && mutated.genes[i].period == DrawPeriod(draws[i].period)
    ensures forall i :: 0 <= i < |ind.genes| && rate <= draws[i].coin ==> mutated.genes[i] == ind.genes[i]
    ensures rate <= 0.0 ==> mutated.genes == ind.genes
    ensures WellShaped(ind.genes) ==> WellShaped(mutated.genes)
    ensures (forall i :: 0 <= i < |ind.genes| ==> InWeek(ind.genes[i])) ==>
      forall i :: 0 <= i < |mutated.genes| ==> InWeek(mutated.genes[i])
    ensures 1.0 <= rate ==> forall i :: 0 <= i < |mutated.genes| ==> InWeek(mutated.genes[i])
    ensures mutated.genes == MutateGenes(ind.genes, rate, draws)
    ensures mutated.fitness == Fitness(mutated.genes)
  {
    var genes := ind.genes;
    for i := 0 to |genes|
      invariant |genes| == |ind.genes|
      invariant forall k :: 0 <= k < i ==> genes[k] == MutateGene(ind.genes[k], rate, draws[k])
      invariant forall k :: i <= k < |genes| ==> genes[k] == ind.genes[k]
    {
      if draws[i].coin < rate {
        var g := genes[i];
        genes := genes[i := g.(day := DrawDay(draws[i].day), period := DrawPeriod(draws[i].period))];
      }
    }
    var fitness := CalculateFitness(Individual(genes, 0));
    mutated := Individual(genes, fitness);
  }

  /** `crossover`: the child takes gene `i` from `a` when its coin lands below one half
      and from `b` otherwise, for every position of `a`; the fitness is recomputed. */
  method Crossover(a: Individual, b: Individual, coins: seq<Unit>) returns (child: Individual)
    requires |b.genes| >= |a.genes| && |coins| == |a.genes|
    ensures |child.genes| == |a.genes|
    ensures forall i :: 0 <= i < |a.genes| ==>
      child.genes[i] == (if coins[i] < 0.5 then a.genes[i] else b.genes[i])
    ensures forall i :: 0 <= i < |a.genes| ==> child.genes[i] == a.genes[i] || child.genes[i] == b.genes[i]
    ensures WellShaped(a.genes) && WellShaped(b.genes) ==> WellShaped(child.genes)
    ensures (forall i :: 0 <= i < |a.genes| ==> InWeek(a.genes[i]) && InWeek(b.genes[i])) ==>
      forall i :: 0 <= i < |child.genes| ==> InWeek(child.genes[i])
    ensures a.genes == b.genes[..|a.genes|] ==> child.genes == a.genes
    ensures child.genes == CrossGenes(a.genes, b.genes, coins)
    ensures child.fitness == Fitness(child.genes)
  {
    var genes: seq<Gene> := [];
    for i := 0 to |a.genes|
      invariant |genes| == i
      invariant forall k :: 0 <= k < i ==> genes[k] == (if coins[k] < 0.5 then a.genes[k] else b.genes[k])
    {
      genes := genes + [if coins[i] < 0.5 then a.genes[i] else b.genes[i]];
    }
    var fitness := CalculateFitness(Individual(genes, 0));
    child := Individual(genes, fitness);
  }
}
