/** The printed views as data: nested maps from row label to day to period to cell, and the
    placements that fill them, written in order so that a later write to a cell wins. */
module ViewGrid {
  import opened Wrappers

  /** One printed cell. */
  datatype Entry = Entry(subjectCode: string, teacherShort: string, room: string)

  /** A view: row label (course, teacher or room) to day to period to cell. */
  type View = map<string, map<string, map<int, Entry>>>

  /** Where and what one gene writes in one view. */
  datatype Placement = Placement(key: string, day: string, period: int, entry: Entry)

  /** `view[key] = view[key] || {}; view[key][day] = view[key][day] || {}; view[key][day][period] = e`. */
  function Put(v: View, w: Placement): View {
    var row := if w.key in v then v[w.key] else map[];
    var cells := if w.day in row then row[w.day] else map[];
    v[w.key := row[w.day := cells[w.period := w.entry]]]
  }

  /** The cell of a view at a row, day and period, if one was written. */
  function Lookup(v: View, key: string, day: string, period: int): Option<Entry> {
    if key in v && day in v[key] && period in v[key][day] then Some(v[key][day][period]) else None
  }

  /** A view after the placements, written in order. */
  function Fill(ps: seq<Placement>): View {
    if |ps| == 0 then map[] else Put(Fill(ps[..|ps| - 1]), ps[|ps| - 1])
  }

  predicate At(w: Placement, key: string, day: string, period: int) {
    w.key == key && w.day == day && w.period == period
  }

  /** The last placement at a row, day and period, if any. */
  function LastAt(ps: seq<Placement>, key: string, day: string, period: int): (r: Option<nat>)
    ensures r.None? <==> forall i :: 0 <= i < |ps| ==> !At(ps[i], key, day, period)
    ensures r.Some? ==> r.value < |ps| && At(ps[r.value], key, day, period)
    ensures r.Some? ==> forall i :: r.value < i < |ps| ==> !At(ps[i], key, day, period)
  {
    if |ps| == 0 then None
    else if At(ps[|ps| - 1], key, day, period) then Some(|ps| - 1)
    else
      var r := LastAt(ps[..|ps| - 1], key, day, period);
      assert forall i :: 0 <= i < |ps| - 1 ==> ps[..|ps| - 1][i] == ps[i];
      r
  }

  /** Every cell holds the entry of the last placement there; a cell nothing is placed at stays
      empty. A later placement overwrites an earlier one on the same cell. */
  lemma {:induction false} FillLookup(ps: seq<Placement>, key: string, day: string, period: int)
    ensures
      var last := LastAt(ps, key, day, period);
      Lookup(Fill(ps), key, day, period) == if last.None? then None else Some(ps[last.value].entry)
  {
    if |ps| > 0 {
      var init := ps[..|ps| - 1];
      FillLookup(init, key, day, period);
      assert forall i :: 0 <= i < |init| ==> init[i] == ps[i];
    }
  }

  /** The filled cells of a view. */
  function Cells(v: View): set<(string, string, int)> {
    set key, day, period | key in v && day in v[key] && period in v[key][day] :: (key, day, period)
  }

  /** The cells the placements are at. */
  function Targets(ps: seq<Placement>): set<(string, string, int)> {
    set i | 0 <= i < |ps| :: (ps[i].key, ps[i].day, ps[i].period)
  }

  /** A view's filled cells are exactly the cells something is placed at. */
  lemma CellsAreTargets(ps: seq<Placement>)
    ensures Cells(Fill(ps)) == Targets(ps)
  {
    var v := Fill(ps);
    forall c | c in Cells(v)
      ensures c in Targets(ps)
    {
      FillLookup(ps, c.0, c.1, c.2);
      var i := LastAt(ps, c.0, c.1, c.2).value;
      assert c == (ps[i].key, ps[i].day, ps[i].period);
    }
    forall c | c in Targets(ps)
      ensures c in Cells(v)
    {
      var i :| 0 <= i < |ps| && c == (ps[i].key, ps[i].day, ps[i].period);
      assert At(ps[i], c.0, c.1, c.2);
      FillLookup(ps, c.0, c.1, c.2);
    }
  }

  /** There are no more target cells than placements. */
  lemma {:induction false} TargetsCard(ps: seq<Placement>)
    ensures |Targets(ps)| <= |ps|
  {
    if |ps| > 0 {
      var init, w := ps[..|ps| - 1], ps[|ps| - 1];
      TargetsCard(init);
      assert Targets(ps) == Targets(init) + {(w.key, w.day, w.period)} by {
        forall c | c in Targets(ps)
          ensures c in Targets(init) + {(w.key, w.day, w.period)}
        {
          var i :| 0 <= i < |ps| && c == (ps[i].key, ps[i].day, ps[i].period);
          if i < |init| {
            assert ps[i] == init[i];
          }
        }
        forall c | c in Targets(init)
          ensures c in Targets(ps)
        {
          var i :| 0 <= i < |init| && c == (init[i].key, init[i].day, init[i].period);
          assert ps[i] == init[i];
        }
      }
    }
  }

  /** Writing one more placement into a view. */
  lemma FillSnoc(ps: seq<Placement>, k: int)
    requires 0 <= k < |ps|
    ensures Fill(ps[..k + 1]) == Put(Fill(ps[..k]), ps[k])
  {
    assert ps[..k + 1][..k] == ps[..k] && ps[..k + 1][k] == ps[k];
  }

  /** The rows of a view are the keys of the placements written into it. */
  lemma {:induction false} FillKeys(ps: seq<Placement>)
    ensures Fill(ps).Keys == set i | 0 <= i < |ps| :: ps[i].key
  {
    if |ps| > 0 {
      var init := ps[..|ps| - 1];
      FillKeys(init);
      assert forall i :: 0 <= i < |init| ==> init[i] == ps[i];
      assert (set i | 0 <= i < |ps| :: ps[i].key) == (set i | 0 <= i < |init| :: init[i].key) + {ps[|ps| - 1].key};
    }
  }

  /** Placements filed under `a` up to position `n` and under `b` from there on give a view
      with exactly the rows `a` and `b`. */
  lemma TwoRows(ps: seq<Placement>, n: int, a: string, b: string)
    requires 0 < n < |ps|
    requires forall i :: 0 <= i < |ps| ==> ps[i].key == (if i < n then a else b)
    ensures Fill(ps).Keys == {a, b}
  {
    FillKeys(ps);
    assert ps[0].key == a && ps[n].key == b;
  }
}
