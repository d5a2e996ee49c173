/** Grid cells and the grid-world conventions the core relies on.
    The GridCell and GridWorld classes are not part of this model: a cell is the
    record the core reads (name, integer reward, terminal flag), and GridWorld's
    cell classification and name/coordinate conversions are supplied as the
    arrow-valued fields of a World. */
module Cells {

  datatype Option<T> = None | Some(value: T)

  /** A cell of the grid. Java compares cells by name only; the model does so
      explicitly wherever the source calls equals or indexOf on cells. */
  datatype GridCell = GridCell(name: string, reward: int, terminal: bool)

  /** GridCell.isGoal/isHole/isNormal and GridWorld.nameToRow/nameToCol/rowColToName. */
  datatype World = World(
    isGoal: GridCell -> bool,
    isHole: GridCell -> bool,
    isNormal: GridCell -> bool,
    nameToRow: string -> int,
    nameToCol: string -> int,
    rowColToName: (int, int) -> string)

  /** ArrayList.indexOf over strings: the first position holding x, or -1. */
  function Find(xs: seq<string>, x: string): (i: int)
    ensures -1 <= i < |xs|
    ensures 0 <= i ==> xs[i] == x
  {
    if |xs| == 0 then -1
    else if xs[0] == x then 0
    else
      var j := Find(xs[1..], x);
      if j < 0 then -1 else j + 1
  }

  /** Find returns the first occurrence, and -1 exactly when x does not occur. */
  lemma {:induction false} FindSpec(xs: seq<string>, x: string)
    ensures 0 <= Find(xs, x) ==> forall k :: 0 <= k < Find(xs, x) ==> xs[k] != x
    ensures Find(xs, x) == -1 <==> forall k :: 0 <= k < |xs| ==> xs[k] != x
  {
    if |xs| > 0 && xs[0] != x {
      FindSpec(xs[1..], x);
      assert forall k :: 1 <= k < |xs| ==> xs[k] == xs[1..][k - 1];
    }
  }

  /** The names of a list of cells, in order. */
  function Names(cells: seq<GridCell>): (ns: seq<string>)
    ensures |ns| == |cells|
    ensures forall k :: 0 <= k < |cells| ==> ns[k] == cells[k].name
  {
    seq(|cells|, k requires 0 <= k < |cells| => cells[k].name)
  }

  /** states.indexOf(new GridCell(name, 0)): the first cell with that name, or -1. */
  function IndexOf(cells: seq<GridCell>, name: string): (i: int)
    ensures -1 <= i < |cells|
    ensures 0 <= i ==> cells[i].name == name
  {
    Find(Names(cells), name)
  }

  /** IndexOf returns the first cell with the name, and -1 exactly when there is none. */
  lemma IndexOfSpec(cells: seq<GridCell>, name: string)
    ensures 0 <= IndexOf(cells, name) ==> forall k :: 0 <= k < IndexOf(cells, name) ==> cells[k].name != name
    ensures IndexOf(cells, name) == -1 <==> forall k :: 0 <= k < |cells| ==> cells[k].name != name
  {
    FindSpec(Names(cells), name);
  }

  /** Every cell's own name is found, at its position or before it. */
  lemma IndexOfMembers(cells: seq<GridCell>)
    ensures forall k :: 0 <= k < |cells| ==> 0 <= IndexOf(cells, cells[k].name) <= k
  {
    forall k | 0 <= k < |cells|
      ensures 0 <= IndexOf(cells, cells[k].name) <= k
    {
      IndexOfSpec(cells, cells[k].name);
    }
  }
}
