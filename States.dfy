/** The learner's state abstraction: the kinds of the agent's cell and of its four
    neighbours, with the terminal flag of the agent's cell carried alongside. */
module States {
  import opened Cells
  import opened Percepts

  /** The five symbols getType produces. */
  predicate IsSymbol(t: string) {
    t == "X" || t == "+" || t == "-" || t == " " || t == "O"
  }

  /** getType: null, goal, hole and normal are tested in that order; anything
      else is "O". */
  function GetType(w: World, cell: Option<GridCell>): (t: string)
    ensures IsSymbol(t)
    ensures t == "X" <==> cell.None?
    ensures t == "+" <==> cell.Some? && w.isGoal(cell.value)
    ensures t == "-" <==> cell.Some? && !w.isGoal(cell.value) && w.isHole(cell.value)
    ensures t == " " <==> cell.Some? && !w.isGoal(cell.value) && !w.isHole(cell.value) && w.isNormal(cell.value)
    ensures t == "O" <==> cell.Some? && !w.isGoal(cell.value) && !w.isHole(cell.value) && !w.isNormal(cell.value)
  {
    if cell.None? then "X"
    else if w.isGoal(cell.value) then "+"
    else if w.isHole(cell.value) then "-"
    else if w.isNormal(cell.value) then " "
    else "O"
  }

  /** A MyState: the five symbols, and the terminal flag the State base class keeps. */
  datatype MyState = MyState(north: string, east: string, south: string, west: string, current: string, terminal: bool)

  /** What every constructed state satisfies: five symbols, and a centre that is
      not " " overrides its neighbours. */
  predicate WellFormed(st: MyState) {
    && IsSymbol(st.north) && IsSymbol(st.east) && IsSymbol(st.south) && IsSymbol(st.west) && IsSymbol(st.current)
    && (st.current != " " ==> st.north == st.east == st.south == st.west == st.current)
  }

  /** new MyState(p) over the cells north, east, south, west and centre of the window.
      The State constructor dereferences the centre, so a null centre yields None. */
  function Make(w: World, n: Option<GridCell>, e: Option<GridCell>, s: Option<GridCell>,
                wst: Option<GridCell>, c: Option<GridCell>): (st: Option<MyState>)
    ensures st.Some? <==> c.Some?
    ensures st.Some? ==> WellFormed(st.value)
    ensures st.Some? ==> st.value.terminal == c.value.terminal && st.value.current == GetType(w, c)
    ensures st.Some? && st.value.current == " " ==>
      && st.value.north == GetType(w, n) && st.value.east == GetType(w, e)
      && st.value.south == GetType(w, s) && st.value.west == GetType(w, wst)
  {
    if c.None? then None
    else
      var current := GetType(w, c);
      if current != " " then Some(MyState(current, current, current, current, current, c.value.terminal))
      else Some(MyState(GetType(w, n), GetType(w, e), GetType(w, s), GetType(w, wst), current, c.value.terminal))
  }

  /** new MyState(p): north, east, south and west are the window cells above, right
      of, below and left of the centre. */
  function FromPercept(p: Percept, w: World): (st: Option<MyState>)
    reads p, p.neighborhood
    requires p.neighborhood.Length0 == Size && p.neighborhood.Length1 == Size
    ensures st.Some? <==> p.Current().Some?
    ensures st.Some? ==> WellFormed(st.value) && st.value.terminal == p.Current().value.terminal
  {
    var nb := p.neighborhood;
    Make(w, nb[Centre - 1, Centre], nb[Centre, Centre + 1], nb[Centre + 1, Centre], nb[Centre, Centre - 1], nb[Centre, Centre])
  }

  /** equals: the five symbols agree; the terminal flag plays no part. */
  predicate Equals(a: MyState, b: MyState) {
    a.current == b.current && a.east == b.east && a.north == b.north && a.south == b.south && a.west == b.west
  }

  /** The part of a state that equals and hashCode look at. */
  datatype StateKey = StateKey(north: string, east: string, south: string, west: string, current: string)

  function Key(st: MyState): (k: StateKey)
    ensures k.north == st.north && k.east == st.east && k.south == st.south && k.west == st.west && k.current == st.current
  {
    StateKey(st.north, st.east, st.south, st.west, st.current)
  }

  /** Two states are equal exactly when their keys are, so a table keyed by
      StateKey looks states up as a HashMap over MyState does. */
  lemma EqualsIffSameKey(a: MyState, b: MyState)
    ensures Equals(a, b) <==> Key(a) == Key(b)
    ensures Equals(a, a.(terminal := !a.terminal))
  {
  }

  // ---------------------------------------------------------------------------
  // hashCode, in 32-bit two's-complement arithmetic.
  // ---------------------------------------------------------------------------

  const TwoTo31: int := 0x8000_0000
  const TwoTo32: int := 0x1_0000_0000

  /** Java int arithmetic: the value reduced into [-2^31, 2^31). */
  function Wrap32(x: int): (y: int)
    ensures -TwoTo31 <= y < TwoTo31
    ensures (y - x) % TwoTo32 == 0
  {
    (x + TwoTo31) % TwoTo32 - TwoTo31
  }

  /** String.hashCode: h = 31 * h + c over the characters, in int arithmetic. */
  function StringHash(s: string): (h: int)
    ensures -TwoTo31 <= h < TwoTo31
  {
    if |s| == 0 then 0 else Wrap32(31 * StringHash(s[..|s| - 1]) + (s[|s| - 1] as int))
  }

  /** hashCode: 1 folded with 31 over current, east, north, south and west. */
  function HashCode(st: MyState): (h: int)
    ensures -TwoTo31 <= h < TwoTo31
  {
    var h0 := 1;
    var h1 := Wrap32(31 * h0 + StringHash(st.current));
    var h2 := Wrap32(31 * h1 + StringHash(st.east));
    var h3 := Wrap32(31 * h2 + StringHash(st.north));
    var h4 := Wrap32(31 * h3 + StringHash(st.south));
    Wrap32(31 * h4 + StringHash(st.west))
  }

  lemma WrapSmall(x: int)
    requires -TwoTo31 <= x < TwoTo31
    ensures Wrap32(x) == x
  {
  }

  /** A symbol hashes to its character code, at most 'X' = 88. */
  lemma SymbolHash(t: string)
    requires IsSymbol(t)
    ensures StringHash(t) == t[0] as int
    ensures 32 <= StringHash(t) <= 88
  {
    assert |t| == 1 && t[..0] == [];
    WrapSmall(t[0] as int);
  }

  /** For well-formed states no step of hashCode overflows: the hash is the plain
      base-31 polynomial, and equal states hash alike. */
  lemma HashCodeNoOverflow(st: MyState)
    requires WellFormed(st)
    ensures HashCode(st) == 28629151 + 923521 * StringHash(st.current) + 29791 * StringHash(st.east)
                            + 961 * StringHash(st.north) + 31 * StringHash(st.south) + StringHash(st.west)
    ensures 0 < HashCode(st) < TwoTo31
  {
    SymbolHash(st.current);
    SymbolHash(st.east);
    SymbolHash(st.north);
    SymbolHash(st.south);
    SymbolHash(st.west);
    var c, e, n, s, w := StringHash(st.current), StringHash(st.east), StringHash(st.north), StringHash(st.south), StringHash(st.west);
    var h1 := 31 + c;
    var h2 := 31 * h1 + e;
    var h3 := 31 * h2 + n;
    var h4 := 31 * h3 + s;
    var h5 := 31 * h4 + w;
    assert 0 < h1 <= 119 && 0 < h2 <= 3777 && 0 < h3 <= 117175 && 0 < h4 <= 3632513 && 0 < h5 <= 112608791;
    WrapSmall(h1);
    WrapSmall(h2);
    WrapSmall(h3);
    WrapSmall(h4);
    WrapSmall(h5);
    assert HashCode(st) == h5;
    assert h5 == 28629151 + 923521 * c + 29791 * e + 961 * n + 31 * s + w;
  }

  lemma EqualStatesHashAlike(a: MyState, b: MyState)
    requires Equals(a, b)
    ensures HashCode(a) == HashCode(b)
  {
  }

  // ---------------------------------------------------------------------------
  // toString.
  // ---------------------------------------------------------------------------

  /** toString: "north,east,south,west,current". */
  function ToString(st: MyState): (s: string)
    ensures |s| == |st.north| + |st.east| + |st.south| + |st.west| + |st.current| + 4
  {
    st.north + "," + st.east + "," + st.south + "," + st.west + "," + st.current
  }

  /** Every symbol is one character other than ',', so the string is the five symbols
      at even positions and two well-formed states are equal exactly when their
      strings are. */
  lemma ToStringIffEquals(a: MyState, b: MyState)
    requires WellFormed(a) && WellFormed(b)
    ensures Equals(a, b) <==> ToString(a) == ToString(b)
  {
    if ToString(a) == ToString(b) {
      ToStringLayout(a);
      ToStringLayout(b);
    }
  }

  lemma ToStringLayout(st: MyState)
    requires WellFormed(st)
    ensures |ToString(st)| == 9
    ensures ToString(st)[0] == st.north[0] && ToString(st)[2] == st.east[0] && ToString(st)[4] == st.south[0]
    ensures ToString(st)[6] == st.west[0] && ToString(st)[8] == st.current[0]
    ensures st.north == [st.north[0]] && st.east == [st.east[0]] && st.south == [st.south[0]]
    ensures st.west == [st.west[0]] && st.current == [st.current[0]]
  {
  }
}
