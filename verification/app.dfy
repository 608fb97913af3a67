/** The generate handler of the application: run the genetic algorithm with the arguments
    the page passes, then project the best schedule onto the three printed views. */
module App {
  import opened Genes
  import opened ViewGrid
  import opened Projection
  import Operators
  import Evolution

  /** The generate handler: `runGA(30, 100, 0.15)` under the given draws, then the three views
      of the best schedule it returns. `history` holds the populations the run went through,
      `offspring` the unsorted brood of every generation. */
  method Generate(initial: seq<seq<Operators.GeneDraw>>, children: seq<seq<Evolution.ChildDraw>>)
    returns (best: Individual, views: Views, ghost history: seq<seq<Individual>>, ghost offspring: seq<seq<Individual>>)
    requires Evolution.RunDrawsFit(Evolution.POP_SIZE, Evolution.GENERATIONS, initial, children)
    ensures |history| == Evolution.GENERATIONS + 1
    ensures history[0] == Evolution.SortByFitness(Evolution.Founders(initial))
    ensures forall g :: 0 <= g < |history| ==>
      && |history[g]| == Evolution.POP_SIZE && Evolution.SortedByFitness(history[g])
      && Evolution.Scored(history[g]) && Evolution.AllWellShaped(history[g])
    ensures |offspring| == Evolution.GENERATIONS
    ensures forall g :: 0 <= g < Evolution.GENERATIONS ==>
      && history[g + 1] == Evolution.SortByFitness(offspring[g])
      && Evolution.GenerationBred(offspring[g], history[g], Evolution.MUTATION_RATE, children[g])
    ensures best == Evolution.RunningBest(history, |history|)
    ensures forall g :: 0 <= g < |history| ==> best.fitness <= history[g][0].fitness
    ensures WellShaped(best.genes) && Evolution.Evaluated(best) && best.fitness >= 0
    ensures views.branch == ProjectView(best.genes, ByCourse)
    ensures views.teacher == ProjectView(best.genes, ByTeacher)
    ensures views.lab == ProjectView(best.genes, ByRoom)
    ensures views.branch.Keys == {"CSE Sem-3 A", "ECE Sem-3 A"}
    ensures |Cells(views.teacher)| <= GENE_COUNT && |Cells(views.lab)| <= GENE_COUNT
  {
    best, history, offspring := Evolution.RunGA(Evolution.POP_SIZE, Evolution.GENERATIONS, Evolution.MUTATION_RATE, initial, children);
    views := BuildViews(best.genes);
    BranchRowsOfWellShaped(best.genes);
    CatalogueCourseLabels();
  }
}
