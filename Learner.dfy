/** The Q-learning agent: the QLearner base class (tables, folds over the action
    list, per-cell and per-state reports) and the MyQLearner subclass (the
    exploration function and the play step). */
module Learner {
  import opened ExtReals
  import opened Cells
  import opened Mdp
  import opened Percepts
  import opened States
  import opened QTables

  /** Everything play reads and writes: the two tables, the previous state, action
      and reward, and how many draws the generator has produced. */
  datatype Memory = Memory(q: Table, n: Table, s: Option<MyState>, a: Option<string>, r: Ext, drawn: nat)

  /** Between two plays: a previous state always comes with its action and its
      finite reward, and N holds counts. */
  ghost predicate Wf(m: Memory) {
    && (m.s.Some? <==> m.a.Some?)
    && (m.s.Some? <==> m.r.Fin?)
    && Counts(m.n)
  }

  /** Q after the terminal check: every listed action of a terminal s' is forced to r'. */
  function Bootstrap(q: Table, st: MyState, acts: seq<string>, reward: real): (q1: Table)
    ensures !st.terminal ==> q1 == q
    ensures st.terminal ==> forall i :: 0 <= i < |acts| ==> Value(q1, Key(st), acts[i]) == reward
  {
    if st.terminal then ForceAll(q, Key(st), acts, reward) else q
  }

  /** Q[s, a] <- Q[s, a] + alpha (r + gamma M - Q[s, a]) with alpha = 1/N[s, a], N
      counted already. */
  function Learn(q: Table, n: Table, s: StateKey, a: string, r: real, gamma: real, m: real): Table
    requires Value(n, s, a) >= 1.0
  {
    Put(q, s, a, Update(Value(q, s, a), Value(n, s, a), r, gamma, m))
  }

  /** The learnt value is the running mean of the targets: the old value weighs
      N - 1 and the target r + gamma M weighs one; no other entry changes. */
  lemma LearnAverages(q: Table, n: Table, s: StateKey, a: string, r: real, gamma: real, m: real)
    requires Value(n, s, a) >= 1.0
    ensures var q' := Learn(q, n, s, a, r, gamma, m);
      && Value(q', s, a) * Value(n, s, a) == (Value(n, s, a) - 1.0) * Value(q, s, a) + (r + gamma * m)
      && forall s', a' :: s' != s || a' != a ==> Value(q', s', a') == Value(q, s', a')
  {
    RunningMean(Value(q, s, a), Value(n, s, a), r, gamma, m);
  }

  /** N after counting the visit to the previous pair, if there is one. */
  function Visit(m: Memory): (n': Table)
    requires Wf(m)
    ensures Counts(n')
    ensures m.s.Some? ==> Value(n', Key(m.s.value), m.a.value) >= 1.0
  {
    if m.s.Some? then
      AddKeepsCounts(m.n, Key(m.s.value), m.a.value);
      Add(m.n, Key(m.s.value), m.a.value, 1.0)
    else m.n
  }

  /** Q after learning from the previous pair, if there is one, with N already
      counted and the bootstrap value max Q[s', ·] read from the forced table. */
  function Learned(m: Memory, q1: Table, n2: Table, k: StateKey, acts: seq<string>, gamma: real): Table
    requires Wf(m) && |acts| > 0
    requires m.s.Some? ==> Value(n2, Key(m.s.value), m.a.value) >= 1.0
  {
    if m.s.Some? then
      MaxQSpec(q1, k, acts);
      Learn(q1, n2, Key(m.s.value), m.a.value, m.r.v, gamma, MaxQ(q1, k, acts).v)
    else q1
  }

  /** One call of play on the state s' with reward r': force Q[s', ·] to r' when s' is
      terminal; then, if there is a previous pair (s, a), count the visit and move
      Q[s, a] towards r + gamma max Q[s', ·]; then forget the episode at a terminal
      state, or remember s', the exploring choice and r'. */
  function Step(m: Memory, st: MyState, reward: real, gamma: real, acts: seq<string>, coin: nat -> real): (m': Memory)
    requires Wf(m) && |acts| > 0
    ensures Wf(m')
  {
    var k := Key(st);
    var n2 := Visit(m);
    var q2 := Learned(m, Bootstrap(m.q, st, acts, reward), n2, k, acts, gamma);
    if st.terminal then Memory(q2, n2, None, None, NegInf, m.drawn)
    else
      var e := ExploreChoice(q2, n2, k, acts, coin, m.drawn);
      ExploreChooses(FOf(q2, n2, k), acts, coin, m.drawn);
      Memory(q2, n2, Some(st), e.action, Fin(reward), e.drawn)
  }

  /** Only the previous pair's count moves, and by exactly one. */
  lemma StepCountsVisit(m: Memory, st: MyState, reward: real, gamma: real, acts: seq<string>, coin: nat -> real)
    requires Wf(m) && |acts| > 0
    ensures var m' := Step(m, st, reward, gamma, acts, coin);
      && (m.s.None? ==> m'.n == m.n)
      && (m.s.Some? ==> Value(m'.n, Key(m.s.value), m.a.value) == Value(m.n, Key(m.s.value), m.a.value) + 1.0)
      && forall k, a :: m.s.None? || k != Key(m.s.value) || a != m.a.value ==> Value(m'.n, k, a) == Value(m.n, k, a)
  {
  }

  /** At a terminal state the episode ends: nothing is remembered, no draw is
      made, and the bootstrap value of the terminal state is its reward. */
  lemma StepTerminal(m: Memory, st: MyState, reward: real, gamma: real, acts: seq<string>, coin: nat -> real)
    requires Wf(m) && |acts| > 0 && st.terminal
    ensures var m' := Step(m, st, reward, gamma, acts, coin);
      && m'.s.None? && m'.a.None? && m'.r == NegInf && m'.drawn == m.drawn
      && MaxQ(ForceAll(m.q, Key(st), acts, reward), Key(st), acts) == Fin(reward)
      && forall i :: 0 <= i < |acts| && (m.s.None? || Key(m.s.value) != Key(st) || m.a.value != acts[i]) ==>
           Value(m'.q, Key(st), acts[i]) == reward
  {
    ForcedMax(m.q, Key(st), acts, reward);
  }

  /** Outside a terminal state the next action is a listed one of maximal
      exploration value, so an action tried fewer than NE times is preferred to
      every action tried NE times or more. */
  lemma StepExplores(m: Memory, st: MyState, reward: real, gamma: real, acts: seq<string>, coin: nat -> real)
    requires Wf(m) && |acts| > 0 && !st.terminal
    ensures var m' := Step(m, st, reward, gamma, acts, coin);
      && m'.s == Some(st) && m'.r == Fin(reward)
      && m'.a.Some? && m'.a.value in acts
      && (forall i :: 0 <= i < |acts| ==>
            AtMost(ExploreValue(m'.q, m'.n, Key(st), acts[i]), ExploreValue(m'.q, m'.n, Key(st), m'.a.value)))
      && ((exists i :: 0 <= i < |acts| && Value(m'.n, Key(st), acts[i]) < NE) ==>
            Value(m'.n, Key(st), m'.a.value) < NE)
  {
    var m' := Step(m, st, reward, gamma, acts, coin);
    var f := FOf(m'.q, m'.n, Key(st));
    ExploreSpec(f, acts, coin, m.drawn);
    assert forall i :: 0 <= i < |acts| ==> f(acts[i]) == ExploreValue(m'.q, m'.n, Key(st), acts[i]);
    if exists i :: 0 <= i < |acts| && Value(m'.n, Key(st), acts[i]) < NE {
      var i :| 0 <= i < |acts| && Value(m'.n, Key(st), acts[i]) < NE;
      assert f(acts[i]) == PosInf;
    }
  }

  /** The state new MyState(new Percept(mdp, cell, 0)) builds, or None where the
      window has no centre and the State constructor would dereference null. */
  function CellState(states: seq<GridCell>, w: World, cell: GridCell): (st: Option<MyState>)
    ensures st.Some? <==> WindowCell(states, w, cell.name, Centre, Centre).Some?
    ensures st.Some? ==> WellFormed(st.value)
  {
    Make(w, WindowCell(states, w, cell.name, Centre - 1, Centre), WindowCell(states, w, cell.name, Centre, Centre + 1),
         WindowCell(states, w, cell.name, Centre + 1, Centre), WindowCell(states, w, cell.name, Centre, Centre - 1),
         WindowCell(states, w, cell.name, Centre, Centre))
  }

  /** For a state whose name round-trips through the grid the window is centred on
      the first state of that name: the state exists, is terminal exactly when that
      state is, and its centre symbol is that state's kind. */
  lemma CellStateCentre(states: seq<GridCell>, w: World, cell: GridCell)
    requires RoundTrips(w, cell.name) && 0 <= IndexOf(states, cell.name)
    ensures CellState(states, w, cell).Some?
    ensures CellState(states, w, cell).value.terminal == states[IndexOf(states, cell.name)].terminal
    ensures CellState(states, w, cell).value.current == GetType(w, Some(states[IndexOf(states, cell.name)]))
  {
    CentreIsAgent(states, w, cell);
  }

  /** N for the greedy action; a null action is never a key of N. */
  function CountOf(n: Table, k: StateKey, act: Option<string>): (c: real)
    ensures act.None? ==> c == 0.0
    ensures act.Some? ==> c == Value(n, k, act.value)
  {
    if act.Some? then Value(n, k, act.value) else 0.0
  }

  /** U of a cell: max Q over the actions in the cell's state (-infinity where
      there is no state). */
  function CellUtility(q: Table, states: seq<GridCell>, w: World, acts: seq<string>, c: GridCell): Ext {
    match CellState(states, w, c)
    case Some(st) => MaxQ(q, Key(st), acts)
    case None => NegInf
  }

  /** Pi of a cell: the greedy action in the cell's state (null where there is no state). */
  function CellPolicy(q: Table, states: seq<GridCell>, w: World, acts: seq<string>, c: GridCell): Option<string> {
    match CellState(states, w, c)
    case Some(st) => ArgMaxQ(q, Key(st), acts)
    case None => None
  }

  /** N of a cell: N of the greedy action in the cell's state (0 where there is no state). */
  function CellCount(q: Table, n: Table, states: seq<GridCell>, w: World, acts: seq<string>, c: GridCell): real {
    match CellState(states, w, c)
    case Some(st) => CountOf(n, Key(st), ArgMaxQ(q, Key(st), acts))
    case None => 0.0
  }

  function UtilityOf(q: Table, states: seq<GridCell>, w: World, acts: seq<string>): GridCell -> Ext {
    c => CellUtility(q, states, w, acts, c)
  }

  function PolicyOf(q: Table, states: seq<GridCell>, w: World, acts: seq<string>): GridCell -> Option<string> {
    c => CellPolicy(q, states, w, acts, c)
  }

  function CountsOf(q: Table, n: Table, states: seq<GridCell>, w: World, acts: seq<string>): GridCell -> real {
    c => CellCount(q, n, states, w, acts, c)
  }

  /** The HashMap the per-cell reports fill: the first i cells, each put with its value. */
  function Tabulate<V>(f: GridCell -> V, cells: seq<GridCell>, i: nat): map<GridCell, V>
    requires i <= |cells|
  {
    if i == 0 then map[] else Tabulate(f, cells, i - 1)[cells[i - 1] := f(cells[i - 1])]
  }

  /** A cell is a key of the map over the first i cells exactly when it is one of
      them, and it is then mapped to its own value. */
  lemma {:induction false} TabulateSpec<V>(f: GridCell -> V, cells: seq<GridCell>, i: nat, c: GridCell)
    requires i <= |cells|
    ensures c in Tabulate(f, cells, i) <==> exists k :: 0 <= k < i && cells[k] == c
    ensures c in Tabulate(f, cells, i) ==> Tabulate(f, cells, i)[c] == f(c)
  {
    if i > 0 {
      TabulateSpec(f, cells, i - 1, c);
    }
  }

  /** Every listed cell is a key of the full map, holding its own value. */
  lemma TabulateAt<V>(f: GridCell -> V, cells: seq<GridCell>, c: GridCell)
    requires c in cells
    ensures c in Tabulate(f, cells, |cells|) && Tabulate(f, cells, |cells|)[c] == f(c)
  {
    var i :| 0 <= i < |cells| && cells[i] == c;
    TabulateSpec(f, cells, |cells|, c);
  }

  /** Where the cell has a state, the three reports read its Q and N entries. */
  lemma CellValues(q: Table, n: Table, states: seq<GridCell>, w: World, acts: seq<string>, c: GridCell, st: MyState)
    requires CellState(states, w, c) == Some(st)
    ensures UtilityOf(q, states, w, acts)(c) == MaxQ(q, Key(st), acts)
    ensures PolicyOf(q, states, w, acts)(c) == ArgMaxQ(q, Key(st), acts)
    ensures CountsOf(q, n, states, w, acts)(c) == CountOf(n, Key(st), ArgMaxQ(q, Key(st), acts))
  {
  }

  /** The three per-cell reports agree: every grid cell that has a state is
      reported, its utility is finite and bounds Q of every listed action, its
      policy is a listed action attaining that utility, and its count is N of
      that action. */
  lemma CellReports(q: Table, n: Table, states: seq<GridCell>, w: World, acts: seq<string>, c: GridCell, st: MyState)
    requires c in states && CellState(states, w, c) == Some(st) && |acts| > 0
    ensures var u := Tabulate(UtilityOf(q, states, w, acts), states, |states|);
      var pi := Tabulate(PolicyOf(q, states, w, acts), states, |states|);
      var counts := Tabulate(CountsOf(q, n, states, w, acts), states, |states|);
      && c in u && c in pi && c in counts
      && pi[c].Some? && pi[c].value in acts
      && u[c] == Fin(Value(q, Key(st), pi[c].value))
      && (forall j :: 0 <= j < |acts| ==> Value(q, Key(st), acts[j]) <= u[c].v)
      && counts[c] == Value(n, Key(st), pi[c].value)
  {
    CellValues(q, n, states, w, acts, c, st);
    TabulateAt(UtilityOf(q, states, w, acts), states, c);
    TabulateAt(PolicyOf(q, states, w, acts), states, c);
    TabulateAt(CountsOf(q, n, states, w, acts), states, c);
    GreedyAttains(q, Key(st), acts);
  }

  /** play's arithmetic, with alpha and the error term named, is the update rule. */
  lemma UpdateByAlpha(qsa: real, nsa: real, r: real, gamma: real, m: real, alpha: real, delta: real)
    requires nsa >= 1.0 && alpha == 1.0 / nsa && delta == r + (gamma * m - qsa)
    ensures qsa + alpha * delta == Update(qsa, nsa, r, gamma, m)
  {
  }

  class MyQLearner {
    var q: Table
    var n: Table
    /** The draws of Random(1), in order. */
    const coin: nat -> real
    var drawn: nat
    var s: Option<MyState>
    var a: Option<string>
    var r: Ext

    function Snapshot(): Memory
      reads this
    {
      Memory(q, n, s, a, r, drawn)
    }

    ghost predicate Valid()
      reads this
    {
      Wf(Snapshot())
    }

    /** new MyQLearner(name): empty tables, no previous state, r = -infinity. */
    constructor (coin: nat -> real)
      ensures Valid()
      ensures q == map[] && n == map[] && s.None? && a.None? && r == NegInf
      ensures this.coin == coin && drawn == 0
    {
      q := map[];
      n := map[];
      this.coin := coin;
      drawn := 0;
      s := None;
      a := None;
      r := NegInf;
    }

    /** maxValue. */
    method MaxValue(state: StateKey, actions: seq<string>) returns (m: Ext)
      ensures m == MaxQ(q, state, actions)
    {
      m := NegInf;
      for i := 0 to |actions|
        invariant m == MaxOf(QOf(q, state), actions[..i])
      {
        assert actions[..i + 1][..i] == actions[..i];
        var v := Value(q, state, actions[i]);
        if Less(m, Fin(v)) {
          m := Fin(v);
        }
      }
      assert actions[..|actions|] == actions;
    }

    /** maxAction. */
    method MaxAction(state: StateKey, actions: seq<string>) returns (best: Option<string>)
      ensures best == ArgMaxQ(q, state, actions)
    {
      best := None;
      var max := NegInf;
      for i := 0 to |actions|
        invariant Choice(best, max) == ArgMaxOf(QOf(q, state), actions[..i])
      {
        assert actions[..i + 1][..i] == actions[..i];
        var qsa := Value(q, state, actions[i]);
        if Less(max, Fin(qsa)) {
          max := Fin(qsa);
          best := Some(actions[i]);
        }
      }
      assert actions[..|actions|] == actions;
    }

    /** maxExplorationAction: each tie consumes one draw. */
    method MaxExplorationAction(state: StateKey, actions: seq<string>) returns (best: Option<string>)
      modifies this`drawn
      ensures best == ExploreChoice(q, n, state, actions, coin, old(drawn)).action
      ensures drawn == ExploreChoice(q, n, state, actions, coin, old(drawn)).drawn
    {
      best := None;
      var maxF := NegInf;
      var ties := 1.0;
      var draws := drawn;
      for i := 0 to |actions|
        invariant Explore(best, maxF, ties, draws) == ExploreOf(FOf(q, n, state), actions[..i], coin, drawn)
      {
        assert actions[..i + 1][..i] == actions[..i];
        var f := ExploreValue(q, n, state, actions[i]);
        ghost var before := Explore(best, maxF, ties, draws);
        if f == maxF {
          ties := ties + 1.0;
          var draw := coin(draws);
          draws := draws + 1;
          if draw < 1.0 / ties {
            maxF := f;
            best := Some(actions[i]);
          }
        } else if Less(maxF, f) {
          maxF := f;
          best := Some(actions[i]);
          ties := 1.0;
        }
        assert Explore(best, maxF, ties, draws) == ExploreStep(before, actions[i], f, coin);
      }
      assert actions[..|actions|] == actions;
      drawn := draws;
    }

    /** getUtility(actions): U[s] for every state that has a Q entry. */
    method GetUtility(actions: seq<string>) returns (u: map<StateKey, Ext>)
      ensures u.Keys == q.Keys
      ensures forall k :: k in u ==> u[k] == MaxQ(q, k, actions)
    {
      u := map[];
      var rest := q.Keys;
      while rest != {}
        invariant rest <= q.Keys && u.Keys == q.Keys - rest
        invariant forall k :: k in u ==> u[k] == MaxQ(q, k, actions)
        decreases rest
      {
        var k :| k in rest;
        var m := MaxValue(k, actions);
        u := u[k := m];
        rest := rest - {k};
      }
    }

    /** getPolicy(actions): Pi[s] for every state that has a Q entry. */
    method GetPolicy(actions: seq<string>) returns (pi: map<StateKey, Option<string>>)
      ensures pi.Keys == q.Keys
      ensures forall k :: k in pi ==> pi[k] == ArgMaxQ(q, k, actions)
    {
      pi := map[];
      var rest := q.Keys;
      while rest != {}
        invariant rest <= q.Keys && pi.Keys == q.Keys - rest
        invariant forall k :: k in pi ==> pi[k] == ArgMaxQ(q, k, actions)
        decreases rest
      {
        var k :| k in rest;
        var best := MaxAction(k, actions);
        pi := pi[k := best];
        rest := rest - {k};
      }
    }

    /** new MyState(new Percept(mdp, cell, 0)). */
    static method StateOfCell(mdp: MarkovDecisionProcess, cell: GridCell, w: World) returns (st: MyState)
      requires cell in mdp.states && RoundTrips(w, cell.name)
      ensures CellState(mdp.states, w, cell) == Some(st)
    {
      IndexOfMembers(mdp.states);
      var p := new Percept(mdp, cell, 0.0, w);
      CentreIsAgent(mdp.states, w, cell);
      var made := FromPercept(p, w);
      st := made.value;
    }

    /** getUtility(mdp): U for the state of each grid cell. */
    method GetCellUtility(mdp: MarkovDecisionProcess, w: World) returns (u: map<GridCell, Ext>)
      requires forall c :: c in mdp.states ==> RoundTrips(w, c.name)
      ensures u == Tabulate(UtilityOf(q, mdp.states, w, mdp.actions), mdp.states, |mdp.states|)
    {
      u := map[];
      var cells := mdp.GetStates();
      var actions := mdp.GetActions();
      for i := 0 to |cells|
        invariant u == Tabulate(UtilityOf(q, cells, w, actions), cells, i)
      {
        var st := StateOfCell(mdp, cells[i], w);
        var m := MaxValue(Key(st), actions);
        u := u[cells[i] := m];
      }
    }

    /** getPolicy(mdp): Pi for the state of each grid cell. */
    method GetCellPolicy(mdp: MarkovDecisionProcess, w: World) returns (pi: map<GridCell, Option<string>>)
      requires forall c :: c in mdp.states ==> RoundTrips(w, c.name)
      ensures pi == Tabulate(PolicyOf(q, mdp.states, w, mdp.actions), mdp.states, |mdp.states|)
    {
      pi := map[];
      var cells := mdp.GetStates();
      var actions := mdp.GetActions();
      for i := 0 to |cells|
        invariant pi == Tabulate(PolicyOf(q, cells, w, actions), cells, i)
      {
        var st := StateOfCell(mdp, cells[i], w);
        var best := MaxAction(Key(st), actions);
        pi := pi[cells[i] := best];
      }
    }

    /** getN(mdp): N of the greedy action in the state of each grid cell. */
    method GetCellN(mdp: MarkovDecisionProcess, w: World) returns (counts: map<GridCell, real>)
      requires forall c :: c in mdp.states ==> RoundTrips(w, c.name)
      ensures counts == Tabulate(CountsOf(q, n, mdp.states, w, mdp.actions), mdp.states, |mdp.states|)
    {
      counts := map[];
      var cells := mdp.GetStates();
      var actions := mdp.GetActions();
      for i := 0 to |cells|
        invariant counts == Tabulate(CountsOf(q, n, cells, w, actions), cells, i)
      {
        var st := StateOfCell(mdp, cells[i], w);
        var best := MaxAction(Key(st), actions);
        var c := CountOf(n, Key(st), best);
        counts := counts[cells[i] := c];
      }
    }

    /** play(percept). */
    method Play(p: Percept, w: World) returns (act: Option<string>)
      requires Valid()
      requires p.neighborhood.Length0 == Size && p.neighborhood.Length1 == Size
      requires p.Current().Some? && |p.actions| > 0
      modifies this
      ensures Snapshot() == Step(old(Snapshot()), FromPercept(p, w).value, p.Current().value.reward as real,
                                 p.gamma, p.actions, coin)
      ensures Valid()
      ensures act == a
    {
      var sPrime := FromPercept(p, w).value;
      var key := Key(sPrime);
      var rPrime := p.Current().value.reward as real;
      ghost var m0 := Snapshot();
      Observe(sPrime, key, rPrime, p.actions, p.gamma);
      if sPrime.terminal {
        s, a, r := None, None, NegInf;
      } else {
        s := Some(sPrime);
        a := MaxExplorationAction(key, p.actions);
        r := Fin(rPrime);
      }
      act := a;
    }

    /** The first half of play: force Q[s', ·] at a terminal s', then learn from the
        previous pair, if there is one. */
    method Observe(sPrime: MyState, key: StateKey, rPrime: real, actions: seq<string>, gamma: real)
      requires Valid() && key == Key(sPrime) && |actions| > 0
      modifies this`q, this`n
      ensures n == Visit(old(Snapshot()))
      ensures q == Learned(old(Snapshot()), Bootstrap(old(q), sPrime, actions, rPrime), n, key, actions, gamma)
    {
      if sPrime.terminal {
        q := ForceTerminal(q, key, actions, rPrime);
      }
      if s.Some? {
        LearnFromPrevious(Key(s.value), a.value, r.v, key, actions, gamma);
      }
    }

    /** The terminal branch of play: Q[s', a] <- r' for each listed action. */
    static method ForceTerminal(q: Table, key: StateKey, actions: seq<string>, reward: real) returns (forced: Table)
      ensures forced == ForceAll(q, key, actions, reward)
    {
      forced := q;
      for i := 0 to |actions|
        invariant forced == ForceAll(q, key, actions[..i], reward)
      {
        assert actions[..i + 1][..i] == actions[..i];
        forced := Put(forced, key, actions[i], reward);
      }
      assert actions[..|actions|] == actions;
    }

    /** The update branch of play: count the visit to (s, a), then move Q[s, a]
        towards r + gamma max Q[s', ·] with alpha = 1/N[s, a]. */
    method LearnFromPrevious(prev: StateKey, act: string, reward: real, key: StateKey, actions: seq<string>, gamma: real)
      requires Counts(n) && |actions| > 0
      modifies this`q, this`n
      ensures n == Add(old(n), prev, act, 1.0)
      ensures Value(n, prev, act) >= 1.0 && MaxQ(old(q), key, actions).Fin?
      ensures q == Learn(old(q), n, prev, act, reward, gamma, MaxQ(old(q), key, actions).v)
    {
      AddKeepsCounts(n, prev, act);
      n := Add(n, prev, act, 1.0);
      var alpha := 1.0 / Value(n, prev, act);
      var qsa := Value(q, prev, act);
      var qPrime := MaxValue(key, actions);
      MaxQSpec(q, key, actions);
      var delta := reward + (gamma * qPrime.v - qsa);
      UpdateByAlpha(qsa, Value(n, prev, act), reward, gamma, qPrime.v, alpha, delta);
      assert Learn(q, n, prev, act, reward, gamma, qPrime.v) == Put(q, prev, act, qsa + alpha * delta);
      q := Put(q, prev, act, qsa + alpha * delta);
    }
  }
}
