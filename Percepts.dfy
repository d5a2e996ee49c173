/** What the agent perceives: the 5x5 window of cells centred on its cell, the
    action list, the discount and the score. */
module Percepts {
  import opened Cells
  import opened Mdp

  /** Percept.NEIGHBORHOOD_SIZE, and the index of the centre row and column. */
  const Size: nat := 5
  const Centre: nat := Size / 2

  /** The cell at window position (i, j) around the cell named `name`: the state
      named rowColToName(row - 2 + i, col - 2 + j) if there is one, else null. */
  function WindowCell(states: seq<GridCell>, w: World, name: string, i: int, j: int): (cell: Option<GridCell>)
    ensures cell.Some? <==> 0 <= IndexOf(states, w.rowColToName(w.nameToRow(name) - Centre + i, w.nameToCol(name) - Centre + j))
    ensures cell.Some? ==>
      && cell.value in states
      && cell.value.name == w.rowColToName(w.nameToRow(name) - Centre + i, w.nameToCol(name) - Centre + j)
    ensures cell.Some? ==>
      cell == Some(states[IndexOf(states, w.rowColToName(w.nameToRow(name) - Centre + i, w.nameToCol(name) - Centre + j))])
  {
    var target := w.rowColToName(w.nameToRow(name) - Centre + i, w.nameToCol(name) - Centre + j);
    var index := IndexOf(states, target);
    if index >= 0 then Some(states[index]) else None
  }

  /** The window cell at (i, j) is the first state named `target`, the name of the
      grid position offset by (i, j) from the window's corner. */
  lemma WindowCellAt(states: seq<GridCell>, w: World, name: string, i: int, j: int, target: string)
    requires target == w.rowColToName(w.nameToRow(name) - Centre + i, w.nameToCol(name) - Centre + j)
    ensures WindowCell(states, w, name, i, j)
         == (if IndexOf(states, target) >= 0 then Some(states[IndexOf(states, target)]) else None)
  {
  }

  /** GridWorld's name and coordinates agree for this name. */
  predicate RoundTrips(w: World, name: string) {
    w.rowColToName(w.nameToRow(name), w.nameToCol(name)) == name
  }

  class Percept {
    const neighborhood: array2<Option<GridCell>>
    const actions: seq<string>
    const gamma: real
    const score: real

    /** new Percept(mdp, current, score): copies the actions and the discount and
        fills the window row by row. */
    constructor (mdp: MarkovDecisionProcess, current: GridCell, score: real, w: World)
      ensures fresh(neighborhood)
      ensures neighborhood.Length0 == Size && neighborhood.Length1 == Size
      ensures actions == mdp.actions && gamma == mdp.gamma && this.score == score
      ensures forall i, j :: 0 <= i < Size && 0 <= j < Size ==>
        neighborhood[i, j] == WindowCell(mdp.states, w, current.name, i, j)
    {
      var acts := mdp.GetActions();
      var window := new Option<GridCell>[Size, Size]((_, _) => None);
      var name := current.name;
      var row := w.nameToRow(name) - Centre;
      var col := w.nameToCol(name) - Centre;
      for i := 0 to Size
        invariant forall x, y :: 0 <= x < i && 0 <= y < Size ==>
          window[x, y] == WindowCell(mdp.states, w, name, x, y)
        invariant forall x, y :: i <= x < Size && 0 <= y < Size ==> window[x, y] == None
      {
        FillRow(window, mdp, w, name, i, row, col);
      }
      actions := acts;
      gamma := mdp.GetGamma();
      this.score := score;
      neighborhood := window;
    }

    /** One row of the window: column j holds the state named after (row + i, col + j). */
    static method FillRow(window: array2<Option<GridCell>>, mdp: MarkovDecisionProcess, w: World, name: string,
                          i: nat, row: int, col: int)
      requires window.Length0 == Size && window.Length1 == Size && i < Size
      requires row == w.nameToRow(name) - Centre && col == w.nameToCol(name) - Centre
      requires forall y :: 0 <= y < Size ==> window[i, y] == None
      modifies window
      ensures forall y :: 0 <= y < Size ==> window[i, y] == WindowCell(mdp.states, w, name, i, y)
      ensures forall x, y :: 0 <= x < Size && x != i && 0 <= y < Size ==> window[x, y] == old(window[x, y])
    {
      var r := row + i;
      for j := 0 to Size
        invariant forall y :: 0 <= y < j ==> window[i, y] == WindowCell(mdp.states, w, name, i, y)
        invariant forall y :: j <= y < Size ==> window[i, y] == None
        invariant forall x, y :: 0 <= x < Size && x != i && 0 <= y < Size ==> window[x, y] == old(window[x, y])
      {
        var c := col + j;
        var targetName := w.rowColToName(r, c);
        var states := mdp.GetStates();
        var index := IndexOf(states, targetName);
        WindowCellAt(states, w, name, i, j, targetName);
        if index >= 0 {
          window[i, j] := Some(states[index]);
        }
      }
    }

    /** The agent's own cell, the centre of the window. */
    function Current(): (c: Option<GridCell>)
      reads this, neighborhood
      requires neighborhood.Length0 == Size && neighborhood.Length1 == Size
    {
      neighborhood[Centre, Centre]
    }
  }

  /** When the agent's name round-trips through GridWorld's coordinates and names a
      state, the centre of its window is the first state with that name. */
  lemma CentreIsAgent(states: seq<GridCell>, w: World, current: GridCell)
    requires RoundTrips(w, current.name) && 0 <= IndexOf(states, current.name)
    ensures WindowCell(states, w, current.name, Centre, Centre) == Some(states[IndexOf(states, current.name)])
    ensures WindowCell(states, w, current.name, Centre, Centre).value.name == current.name
  {
  }
}
