# Timetable generator: a Dafny model

This project models the core of a college timetable generator. It has three parts.

- **The scheduling engine.** A genetic algorithm evolves class schedules.
  - A schedule (an *individual*) holds one *gene* per (course, subject) pair. A gene fixes the teacher, room, working day and period of that class.
  - The *fitness* is an integer penalty, and lower is better:
    - 1000 per extra booking of a teacher in one time slot;
    - 800 per extra booking of a room in one time slot;
    - 50 per subject repeated on one day of a course;
    - 10 per unit of coverage gap: `SUBJECTS.length` (6) minus the number of distinct subject ids a course schedules, which is the number of catalogue subjects it leaves out when all its subject ids come from the catalogue;
    - 20 per lab in the first period or one of the last two.
  - Each generation breeds children by crossover and mutation of random parents. The population is sorted by fitness, and the best individual seen so far is kept.
- **The manual-edit move handler of the timetable grid.**
  - A drag moves a cell from one (day, period) slot to another, with three outcomes:
    - a lecture swaps with the destination;
    - a two-period lab block moves only to two free, non-lunch periods;
    - a lecture dropped onto the first period of a block is refused.
  - A block is recognised by identity: the same cell object sits in two adjacent periods. Cells are therefore opaque ids (`Slot = Null | Cell(id)`). Two lectures with equal contents are still different cells.
- **The projection of the best schedule onto the printed views.** There is one view per course, per teacher and per room. Each maps a row label to a day, then to a period, then to a cell. A later gene that lands on the same cell overwrites an earlier one.

The catalogue constants are copied verbatim: `DAYS`, `PERIODS`, `PERIOD_TIMINGS`, and the teachers, subjects, rooms and courses.

## How the model is organised

| file | module | models |
|---|---|---|
| `wrappers.dfy` | `Wrappers` | `Option`, `Array.prototype.find` and `findIndex` |
| `seqs.dfy` | `Seqs` | distinct elements, excess over distinct, counting |
| `timetable_data.dfy` | `TimetableData` | the catalogue, lookups by id, the lunch index |
| `genes.dfy` | `Genes` | `Gene`, `Individual`, random draws, the course-major gene layout |
| `fitness.dfy` | `Score` | the reference definition of the penalty, and its properties |
| `fitness_scan.dfy` | `FitnessScan` | `calculateFitness` as the source computes it, with sets and per-(course, day) lists |
| `operators.dfy` | `Operators` | `createRandomIndividual`, `mutate`, `crossover` |
| `evolution.dfy` | `Evolution` | sorting, one generation, `runGA` |
| `grid_editor.dfy` | `TimetableGrid` | `copyDay`, `isTwoSlotAt`, `canPlaceTwoSlot`, `handleDragEnd` |
| `view_grid.dfy` | `ViewGrid` | nested view maps, filled in order |
| `projection.dfy` | `Projection` | the gene-to-view loop of the generate handler |
| `app.dfy` | `App` | the generate handler: `runGA(30, 100, 0.15)`, then the views |

### Randomness

Every `Math.random()` call is an explicit draw, a value of the subset type `Unit` (a real in [0, 1)). `rand(arr)` and `randomInt(n)` become `Pick(n, u)`, which is `floor(u * n)`. The draws are grouped by call:
- `GeneDraw`: teacher, day and period;
- `MutationDraw`: a coin, then a day and a period;
- `ChildDraw`: two parent indices, the crossover coins and the mutation draws.

Every property holds for every choice of draws. `Pick` reaches every index.

### Fitness

`Score.Fitness` is the reference definition:
- a weighted sum of five violation counts: teacher clashes, room clashes, repeated subjects, the coverage gap and misplaced labs;
- each count is characterised independently. For example, `ClashFreeIff` says the clash count is zero exactly when no two genes share a teacher (or room) at one slot.

`FitnessScan.CalculateFitness` follows the source's loops: per-slot `Set`s, a grouping into (course, day) subject lists, per-course coverage, and the lab scan. It is proved equal to the reference.

### Sorting

`population.sort((a, b) => a.fitness - b.fitness)` is modelled as a stable insertion sort. ECMAScript requires `Array.prototype.sort` to be stable.

## Model

| member | source | states |
|---|---|---|
| Wrappers.FindSpec | src/algorithms/geneticAlgorithm.ts:42-43 | `find` misses exactly when no element matches; otherwise it returns the first matching element |
| Wrappers.FindIndex | src/components/TimetableGrid.tsx:73 | `findIndex` returns -1 exactly when nothing matches; otherwise the index of the first match |
| Seqs.ElemsCard | src/algorithms/geneticAlgorithm.ts:101 | a list has at most as many distinct values as elements, and exactly as many iff no value repeats |
| Seqs.ExcessZeroIff | src/algorithms/geneticAlgorithm.ts:101-102 | `length - new Set(list).size` is zero iff the list has no duplicate |
| Seqs.ExcessSnoc | src/algorithms/geneticAlgorithm.ts:78-85 | appending a value adds one to the excess exactly when the value was already present (the `has`/`add` step of the slot scan) |
| Seqs.CountZero | src/algorithms/geneticAlgorithm.ts:118-123 | a count of matching elements is zero iff no element matches |
| TimetableData.DaysAreTheWorkingWeek | src/data/timetableData.ts:5 | `DAYS` is Mon to Fri, five distinct days |
| TimetableData.PeriodTimingsMatchPeriods | src/data/timetableData.ts:6-18 | `PERIODS` is 8 and there is one timing label per period |
| TimetableData.LunchIsPeriodFive | src/data/timetableData.ts:9-18 | exactly one label matches `/lunch/i`, the one at index 5; the grid's `findIndex` gives 5 |
| TimetableData.OtherLabelsAreNotLunch | src/data/timetableData.ts:10-17 | no label other than index 5 matches `/lunch/i` |
| TimetableData.LabSubjects | src/data/timetableData.ts:43-50 | a subject id names a lab exactly when it is S5 or S6 |
| TimetableData.BothRoomTypesExist | src/data/timetableData.ts:59-64 | the first CLASS room is R1 and the first LAB room is L1, so the `find(...)!` of room selection never misses |
| TimetableData.IdsAreUnique | src/data/timetableData.ts:28-77 | ids are unique among teachers, subjects, rooms and courses |
| TimetableData.SixSubjectIds | src/data/timetableData.ts:43-50 | there are six distinct subject ids |
| Genes.PickReachesEveryIndex | src/algorithms/geneticAlgorithm.ts:29-30 | every index below `n` is drawn by some `Math.random()` value |
| Genes.CourseMajorIndex | src/algorithms/geneticAlgorithm.ts:38-39 | the nested course and subject loops visit course `c`, subject `m` at position `c * 6 + m`, and position `k` belongs to course `k / 6`, subject `k % 6` |
| Genes.WellShapedDistinctKeys | src/algorithms/geneticAlgorithm.ts:38-55 | two positions of a created schedule differ in course or in subject |
| Score.SlotGenesFilter | src/algorithms/geneticAlgorithm.ts:72-74 | a slot's gene list holds exactly the genes on that working day and period |
| Score.SlotIdsOfSlotGenes | src/algorithms/geneticAlgorithm.ts:72-74 | filtering a slot's genes and then taking their ids gives that slot's bookings |
| Score.SlotRepeatIffPair | src/algorithms/geneticAlgorithm.ts:72-86 | the ids booked at a slot repeat iff two genes at that slot book the same teacher (room) |
| Score.ClashFreeIff | src/algorithms/geneticAlgorithm.ts:70-88 | the clash count of a resource is zero iff no two genes book it at the same working day and period |
| Score.ClashCounts | src/algorithms/geneticAlgorithm.ts:70-88 | two genes booking one resource at one working slot make the clash count at least 1 |
| Score.RepetitionFreeIff | src/algorithms/geneticAlgorithm.ts:90-104 | the repetition count is zero iff no course has a subject twice on one day |
| Score.InCourseSubjects | src/algorithms/geneticAlgorithm.ts:109-111 | a subject is among a course's subjects iff some gene schedules it for that course |
| Score.MisplacedLabsZero | src/algorithms/geneticAlgorithm.ts:117-123 | no lab penalty is counted iff no lab sits in period 0 or in the last two periods |
| Score.Fitness | src/algorithms/geneticAlgorithm.ts:65-126 | the reference penalty, with no contract of its own: 1000 per teacher clash, 800 per room clash, 50 per repeated subject, 10 per unit of coverage gap and 20 per misplaced lab. Each count is characterised by `ClashFreeIff`, `RepetitionFreeIff`, `CoverageGapZeroIff` and `MisplacedLabsZero`, and `FitnessScan.CalculateFitness` proves the source's loops equal to it |
| Score.CourseGapIsMissing | src/algorithms/geneticAlgorithm.ts:108-114 | when every subject id is a catalogue id, a course's coverage count is the number of catalogue subjects it does not schedule |
| Score.CourseGapZeroIff | src/algorithms/geneticAlgorithm.ts:108-114 | when every subject id is a catalogue id, a course adds no coverage penalty iff it schedules every catalogue subject |
| Score.CoverageGapZero | src/algorithms/geneticAlgorithm.ts:108-115 | courses whose distinct subject ids are exactly the catalogue's add no coverage penalty, whatever ids other courses use |
| Score.CoverageGapZeroCovers | src/algorithms/geneticAlgorithm.ts:108-115 | when every subject id is a catalogue id, a zero coverage penalty means every course schedules every catalogue subject |
| Score.CoverageGapZeroIff | src/algorithms/geneticAlgorithm.ts:108-115 | when every subject id is a catalogue id, the coverage penalty is zero iff every course schedules every catalogue subject |
| Score.FitnessNonNegative | src/algorithms/geneticAlgorithm.ts:65-126 | the penalty is never negative when every subject id is in the catalogue |
| Score.TeacherClashCosts | src/algorithms/geneticAlgorithm.ts:79-81 | a teacher booked twice at one working slot costs at least 1000 |
| Score.RoomClashCosts | src/algorithms/geneticAlgorithm.ts:83-85 | a room booked twice at one working slot costs at least 800 |
| Score.WellShapedCovers | src/algorithms/geneticAlgorithm.ts:108-115 | in a created schedule each course schedules exactly the catalogue's subjects |
| Score.WellShapedHasNoRepetitionOrGap | src/algorithms/geneticAlgorithm.ts:90-115 | a schedule with one gene per (course, subject) has no repetition and no coverage penalty |
| Score.WellShapedFitness | src/algorithms/geneticAlgorithm.ts:65-126 | for such a schedule only clashes and misplaced labs cost anything |
| Score.HardConstraintsDominate | src/algorithms/geneticAlgorithm.ts:68-123 | a clash-free created schedule scores strictly lower than any created schedule with a clash |
| FitnessScan.SlotPenalty | src/algorithms/geneticAlgorithm.ts:72-86 | the `Set` scan of one slot adds 1000 per repeated teacher and 800 per repeated room |
| FitnessScan.DayPenalty | src/algorithms/geneticAlgorithm.ts:71-87 | one day's scan adds the weighted clashes of its periods |
| FitnessScan.ClashPenalty | src/algorithms/geneticAlgorithm.ts:70-88 | the scan over all days and periods adds 1000 × teacher clashes + 800 × room clashes |
| FitnessScan.GroupedFacts | src/algorithms/geneticAlgorithm.ts:91-97 | `subjectsPerDay` has one list per (course, day) that occurs; the lists hold exactly the genes' subjects, and their duplicates add up to the repetition count |
| FitnessScan.RepetitionPenalty | src/algorithms/geneticAlgorithm.ts:90-104 | the grouping loop adds 50 per repeated subject of a course on a day |
| FitnessScan.CoveragePenalty | src/algorithms/geneticAlgorithm.ts:107-115 | the course loop filters the genes of each course into its subject list and adds 10 × (`SUBJECTS.length` minus the list's distinct ids); this equals the coverage term of the reference, whose meaning `Score.CourseGapZeroIff` and `Score.CoverageGapZeroIff` pin down |
| FitnessScan.LabPenalty | src/algorithms/geneticAlgorithm.ts:117-123 | the lab loop adds 20 per lab in period 0 or in the last two periods |
| FitnessScan.CalculateFitness | src/algorithms/geneticAlgorithm.ts:65-126 | `calculateFitness` returns exactly the reference penalty |
| Operators.RoomFor | src/algorithms/geneticAlgorithm.ts:41-43 | a subject gets a catalogue room of its type: the first LAB room for a lab, otherwise the first CLASS room |
| Operators.NewGene | src/algorithms/geneticAlgorithm.ts:40-53 | a created gene keeps its course and subject ids and sits on a working day and a period of the grid |
| Operators.EverySlotReachable | src/algorithms/geneticAlgorithm.ts:40-53 | every teacher, day and period can be drawn for a gene |
| Operators.LunchPeriodReachable | src/algorithms/geneticAlgorithm.ts:45 | creation can put a gene in the lunch period (5) |
| Operators.MutationReachesLunch | src/algorithms/geneticAlgorithm.ts:134-138 | with any positive rate, mutation can move a gene to the lunch period of any day |
| Operators.PlanGenes | src/algorithms/geneticAlgorithm.ts:36-55 | the loops emit 12 genes, gene `k` being subject `k % 6` of course `k / 6` under draw `k` |
| Operators.CreateRandomIndividual | src/algorithms/geneticAlgorithm.ts:35-60 | one gene per (course, subject), course-major; each gene has the drawn teacher, day and period and the first room of its subject's type; the fitness is the penalty of the genes; the result is `Created(draws)`, from which the initial population is defined |
| Operators.Mutate | src/algorithms/geneticAlgorithm.ts:131-142 | same length; course, subject, teacher and room are kept; a gene whose coin falls below `rate` takes the drawn day and period, and every other gene is unchanged; rate ≤ 0 changes nothing; the one-gene-per-pair layout and the in-grid property are kept; the fitness is recomputed |
| Operators.Crossover | src/algorithms/geneticAlgorithm.ts:147-154 | the child has `a`'s length; gene `i` is `a`'s when coin `i` < 0.5, else `b`'s; the layout of aligned parents is kept; identical parents give the same genes; the fitness is recomputed |
| Evolution.Insert | src/algorithms/geneticAlgorithm.ts:167 | one step of the stable insertion sort; its own contract states only that the result is one longer. Its content is in `InsertSorted`, `InsertPermutes` and `InsertStable` |
| Evolution.SortByFitness | src/algorithms/geneticAlgorithm.ts:167-179 | `population.sort((a, b) => a.fitness - b.fitness)`; its own contract states only that the length is kept. Sortedness, permutation and stability are `SortFacts` |
| Evolution.InsertSorted | src/algorithms/geneticAlgorithm.ts:167 | inserting into a sorted population keeps it sorted by fitness |
| Evolution.InsertPermutes | src/algorithms/geneticAlgorithm.ts:167 | one insertion step adds exactly the inserted individual |
| Evolution.InsertStable | src/algorithms/geneticAlgorithm.ts:167 | one insertion step keeps the order among equal fitnesses, with the new individual last among them |
| Evolution.SortFacts | src/algorithms/geneticAlgorithm.ts:167-179 | the sort orders by ascending fitness, is a permutation, and keeps the original order among equal fitnesses |
| Evolution.PermutationKeeps | src/algorithms/geneticAlgorithm.ts:167-179 | reordering a population keeps every member scored and well-shaped |
| Evolution.SortedHeadIsMinimum | src/algorithms/geneticAlgorithm.ts:167-168 | the head of a sorted population has the least fitness |
| Evolution.Breed | src/algorithms/geneticAlgorithm.ts:173-177 | a child is the mutated crossover of two parents drawn by index in `[0, popSize)`, and it carries its own penalty |
| Evolution.NextGeneration | src/algorithms/geneticAlgorithm.ts:171-179 | a generation breeds `popSize` children, one per draw, and returns them sorted; every member keeps the one-gene-per-pair layout |
| Evolution.RunningBest | src/algorithms/geneticAlgorithm.ts:168-180 | the `best` variable after `n` populations, with no contract of its own: the first head, replaced by a later head only when strictly better. `RunningBestNonIncreasing` and `RunningBestIsFirstMinimum` state what it is |
| Evolution.RunningBestNonIncreasing | src/algorithms/geneticAlgorithm.ts:180 | the tracked best fitness never increases from one generation to the next |
| Evolution.RunningBestIsFirstMinimum | src/algorithms/geneticAlgorithm.ts:168-180 | the tracked best is the head of one of the populations so far, and no population head is better |
| Evolution.WellShapedScoreNonNegative | src/algorithms/geneticAlgorithm.ts:65-126 | an individual carrying the penalty of a schedule with one gene per (course, subject) has a non-negative fitness |
| Evolution.CreateFounders | src/algorithms/geneticAlgorithm.ts:164-166 | the `Array.from` builds one individual per draw list, in draw order, each the `Created` individual of its draws, scored and with one gene per (course, subject) |
| Evolution.InitialPopulation | src/algorithms/geneticAlgorithm.ts:164-167 | the first population is the individuals created from the initial draws, stably sorted by fitness; it is sorted, scored and each has one gene per (course, subject) |
| Evolution.Evolve | src/algorithms/geneticAlgorithm.ts:168-183 | from a sorted first population, each generation is the sorted brood of the one before, bred with `rate`; the result is the running best, no worse than any population's head, the first head with 0 generations, well-shaped and with a non-negative penalty |
| Evolution.RunGA | src/algorithms/geneticAlgorithm.ts:159-184 | the first population is the sorted individuals created from the initial draws; every population has `popSize` members sorted by fitness; each is the sorted brood of the one before; the result is no worse than any population's head; with 0 generations it is the head of the initial population; it is a well-shaped schedule carrying its own, non-negative penalty |
| TimetableGrid.CopyDay | src/components/TimetableGrid.tsx:52-57 | the copy has the same periods with the same cells |
| TimetableGrid.CopyDayIsReduce | src/components/TimetableGrid.tsx:52-57 | the `reduce` over the keys builds that copy, which equals the day |
| TimetableGrid.Snapshot | src/components/TimetableGrid.tsx:86-90 | there is one copied row per working day, and a missing day becomes an empty row |
| TimetableGrid.IsTwoSlotAt | src/components/TimetableGrid.tsx:60-64 | a block starts at `idx` iff `idx` holds a cell and `idx + 1` holds the same cell |
| TimetableGrid.CanPlaceTwoSlot | src/components/TimetableGrid.tsx:67-76 | a block fits at `j` iff `0 <= j`, `j + 1 < 8`, neither period is lunch (5), and both periods are empty |
| TimetableGrid.TwoSlotStarts | src/components/TimetableGrid.tsx:67-76 | on any day a block can only start at period 0, 1, 2, 3 or 6, and on an empty day it can start at each of them |
| TimetableGrid.Transition | src/components/TimetableGrid.tsx:95-135 | the drag from the copied rows on, with no contract of its own; its outcomes are stated by `HandleDragEnd`, `MovedBlockFoundRoom`, `TwoSlotMoveEffect` and `SingleMoveEffect` |
| TimetableGrid.HandleDragEnd | src/components/TimetableGrid.tsx:79-135 | no destination ends the drag; an empty source slot moves nothing; a block is refused iff it does not fit, and a lecture iff it lands on a block start; `onUpdate` gets the source row, then the destination row when it is another day |
| TimetableGrid.CommitNotify | src/components/TimetableGrid.tsx:131-135 | storing the `onUpdate` calls writes the source row, then the destination row |
| TimetableGrid.IgnoredDropsChangeNothing | src/components/TimetableGrid.tsx:80-97 | a drop outside the grid or from an empty slot changes nothing and calls no one |
| TimetableGrid.OverlappingBlockMoveRefused | src/components/TimetableGrid.tsx:102-106 | moving a block by at most one period on its own day is refused, because the check runs before the source is cleared |
| TimetableGrid.MovedBlockFoundRoom | src/components/TimetableGrid.tsx:102-114 | a block that moved found both destination periods empty |
| TimetableGrid.UnguardedSingleDrops | src/components/TimetableGrid.tsx:116-127 | a lecture dropped onto the lunch period, or onto the second half of a block, is accepted |
| TimetableGrid.BlockRowsEffect | src/components/TimetableGrid.tsx:108-114 | storing an accepted block move empties the two source periods, fills the two destination periods, and leaves every other slot unchanged |
| TimetableGrid.SingleRowsEffect | src/components/TimetableGrid.tsx:125-127 | storing an accepted lecture move swaps the two slots and leaves every other slot unchanged |
| TimetableGrid.TwoSlotMoveEffect | src/components/TimetableGrid.tsx:102-114 | after an accepted block move the source periods are `null`, the destination periods hold the block, and no other slot of the grid changed |
| TimetableGrid.SingleMoveEffect | src/components/TimetableGrid.tsx:116-128 | after an accepted lecture move the destination holds the cell, the source holds the destination's former cell (or `null`), and no other slot changed |
| TimetableGrid.SameSlotDropIsNoOp | src/components/TimetableGrid.tsx:116-127 | dropping a lecture onto its own slot is accepted and leaves the grid as it was |
| ViewGrid.Fill | src/App.tsx:32-58 | the writes `view[key][day][period] = entry` in order, with no contract of its own; `FillLookup`, `CellsAreTargets` and `FillKeys` state what a filled view holds |
| ViewGrid.LastAt | src/App.tsx:32-54 | the last placement at a cell, or none when nothing is placed there |
| ViewGrid.FillLookup | src/App.tsx:32-34 | each cell of a filled view holds the entry of the last placement there; a cell with no placement stays empty |
| ViewGrid.CellsAreTargets | src/App.tsx:32-58 | a view's filled cells are exactly the cells some placement targets |
| ViewGrid.TargetsCard | src/App.tsx:23-59 | there are no more targeted cells than placements |
| ViewGrid.FillKeys | src/App.tsx:32-52 | a view's rows are exactly the keys written into it |
| ViewGrid.TwoRows | src/App.tsx:32 | placements under two labels give a view with exactly those two rows |
| Projection.Decimal | src/App.tsx:29 | the decimal numeral of the semester is never empty |
| Projection.DecimalRoundTrip | src/App.tsx:29 | reading the numeral back gives the semester, so different semesters give different labels |
| Projection.CatalogueCourseLabels | src/App.tsx:29 | the two catalogue courses are labelled `CSE Sem-3 A` and `ECE Sem-3 A`, which differ |
| Projection.SubjectCodeShown | src/App.tsx:24-35 | a catalogue subject shows its code, and an unknown id shows itself |
| Projection.TeacherKeyShown | src/App.tsx:25-41 | a catalogue teacher is filed under their short name, and an unknown id under itself |
| Projection.RoomKeyShown | src/App.tsx:26-51 | a catalogue room is filed under its name, and an unknown id under itself |
| Projection.WellShapedCourseKey | src/App.tsx:27-29 | each gene of a created schedule is filed under its course's label |
| Projection.BranchRowsOfWellShaped | src/App.tsx:29-34 | the branch view of a created schedule has exactly one row per catalogue course |
| Projection.ProjectView | src/App.tsx:23-58 | one view: the in-order fill of one placement per gene, with no contract of its own; `ProjectViewLookup` and `ViewSizeBound` state what it holds |
| Projection.ViewSizeBound | src/App.tsx:23-59 | each view has at most one filled cell per gene |
| Projection.ProjectViewLookup | src/App.tsx:23-58 | a view's cell is empty iff no gene lands there, and otherwise holds the entry of the last gene that does |
| Projection.BuildViews | src/App.tsx:19-59 | the loop builds the three views, each the in-order fill of one placement per gene, each with at most one cell per gene |
| App.Generate | src/App.tsx:17-59 | `runGA(30, 100, 0.15)`: the first population is the sorted individuals created from the initial draws, each next one is the sorted brood of the one before bred with mutation rate 0.15, and the result is the running best, no worse than any population's head, well-shaped and with a non-negative penalty; its branch view has rows `CSE Sem-3 A` and `ECE Sem-3 A`, and its teacher and room views have at most 12 cells |

## Intended design and the code

Some behaviours a reader might expect of a timetable generator are not in the code. The model follows the code.

- One might expect the lunch period never to host a gene, either at creation or after mutation. The code draws periods uniformly from 0 to 7 in both `createRandomIndividual` and `mutate`. `Operators.LunchPeriodReachable` and `Operators.MutationReachesLunch` prove that period 5 is reachable.
- One might expect lab genes to occupy two contiguous periods. The algorithm emits one gene per (course, subject), labs included. Only the grid editor knows two-period blocks.
- One might expect a manual edit to be re-checked against the clash rules. The grid's handler checks only blocks and lunch, and only for blocks.
  - A lecture may be dropped onto the lunch period, or onto the second half of a block, which splits it (`TimetableGrid.UnguardedSingleDrops`).
  - No teacher or room clash is checked.
- A note on the mutation rate, not a disagreement: `runGA` and `mutate` default to 0.1, but the application calls `runGA(30, 100, 0.15)`, so the rate in use is 0.15. The model has no default arguments: rates are parameters, and `App.Generate` passes 0.15.

## Left out

- Score.FitnessNonNegative, Score.TeacherClashCosts, Score.RoomClashCosts: these require every subject id to be a catalogue id. With foreign ids, a course can have more distinct subjects than the catalogue, and the coverage term `SUBJECTS.length - unique` goes negative. The source does not exclude this.
- Operators.Crossover: requires `|b.genes| >= |a.genes|`. The source reads `b.genes[i]` unguarded, and a shorter `b` would yield `undefined` genes.
- Evolution.RunGA: requires `popSize >= 1`. With an empty population the source's `best` is `undefined`. When `generations >= 1` it throws at the first comparison `population[0].fitness` (line 180). With `generations == 0` it throws nothing and returns `undefined`, and the caller then fails reading `best.genes` (`App.tsx` line 23).
- Evolution.SortByFitness, Evolution.Insert: their own contracts state only the length. Sortedness, permutation and stability are proved for all inputs in `Evolution.SortFacts`, `InsertSorted`, `InsertPermutes` and `InsertStable`, because stating them on the functions makes every proof that unfolds the sort pay for them.
- Evolution.RunGA: the draws are given per generation and per child, sized to the population and the gene count. The source draws them on the fly.
- TimetableGrid.HandleDragEnd: requires both drop rows to be working days. The grid only renders droppable rows for `DAYS`, so the library cannot report another row id.
- TimetableGrid.CanPlaceTwoSlot: uses the lunch index 5. `TimetableData.LunchIsPeriodFive` proves it equal to the `findIndex` over the labels, rather than re-running the search in every proof.
- The `/lunch/i` test is modelled by an ASCII case fold of each label, which covers the labels of the catalogue. Full Unicode case folding is not modelled.
- Integers are unbounded. The penalties stay far below 2^53 for schedules of catalogue size, so JavaScript's double arithmetic is exact there.
- `Math.random()` is not modelled as a generator. Every draw is an explicit parameter, and no distribution is claimed.
- Ids that name properties of `Object.prototype` (`__proto__`, `constructor`, …) are not modelled. The source groups subjects per course and day in a plain object (`geneticAlgorithm.ts` lines 93-95) and files genes under object keys in the views (`App.tsx` lines 32-33, 42-43 and 52-53), where such an id reads an inherited property instead of a missing key. The model treats every id as an ordinary key. Ids built from the catalogue never take these names.
- Object keys are modelled as typed map keys: `map<int, Slot>` for periods and `map<string, …>` for days and row labels. JavaScript's conversion of numeric keys to strings is not modelled.
- The following are not modelled:
  - the JSX of `TimetableGrid.tsx`, its footer metadata maps, `alert`, and the drag-and-drop library;
  - `setTimeout`, React state, PDF printing and JSON save/load in `App.tsx`.
- `src/pages/AdminPanel.tsx`, `src/components/AdminPanel.tsx`, `src/api/backend.ts` and `tailwind.config.js` are not part of this model (data-entry screens, REST calls, styling).
- Behaviours the code does not have are not asserted:
  - lunch avoidance in the algorithm;
  - two-period lab genes;
  - teacher `maxPerDay` limits, which are never read;
  - an error for a missing room type;
  - seeded randomness.
