/** The simulated environment: a Markov decision process over grid cells, read
    from a token stream, with a transition tensor built from declared nominal
    transitions and an action-confusion matrix, and inverse-CDF successor sampling. */
module Mdp {
  import opened Cells

  /** One token of the world description, as java.util.Scanner classifies it. */
  datatype Token = IntToken(i: int, text: string) | RealToken(d: real, text: string) | WordToken(text: string)

  /** The exceptions the construction and the lookups can raise. */
  datatype Error = NoSuchElement | InputMismatch | IllegalArgument | IndexOutOfBounds

  datatype Outcome<T> = Ok(value: T) | Fail(error: Error)

  /** A declared transition, as indices into the state and action lists (-1 when unknown). */
  datatype Triple = Triple(from: int, action: int, to: int)

  predicate IsNumber(t: Token) {
    t.IntToken? || t.RealToken?
  }

  /** Scanner.nextDouble accepts integer tokens too. */
  function RealOf(t: Token): real
    requires IsNumber(t)
  {
    if t.IntToken? then t.i as real else t.d
  }

  /** A scanner over a pre-tokenised world description. */
  class Scanner {
    const tokens: seq<Token>
    var pos: nat

    constructor (tokens: seq<Token>)
      ensures this.tokens == tokens && pos == 0
    {
      this.tokens := tokens;
      pos := 0;
    }

    predicate HasNextInt()
      reads this
    {
      pos < |tokens| && tokens[pos].IntToken?
    }

    method Next() returns (r: Outcome<string>)
      modifies this
      ensures old(pos) < |tokens| ==> r == Ok(tokens[old(pos)].text) && pos == old(pos) + 1
      ensures |tokens| <= old(pos) ==> r == Fail(NoSuchElement) && pos == old(pos)
    {
      if pos < |tokens| {
        r := Ok(tokens[pos].text);
        pos := pos + 1;
      } else {
        r := Fail(NoSuchElement);
      }
    }

    /** On a mismatch Scanner.nextInt throws without consuming the token. */
    method NextInt() returns (r: Outcome<int>)
      modifies this
      ensures old(pos) < |tokens| && tokens[old(pos)].IntToken? ==> r == Ok(tokens[old(pos)].i) && pos == old(pos) + 1
      ensures old(pos) < |tokens| && !tokens[old(pos)].IntToken? ==> r == Fail(InputMismatch) && pos == old(pos)
      ensures |tokens| <= old(pos) ==> r == Fail(NoSuchElement) && pos == old(pos)
    {
      if |tokens| <= pos {
        r := Fail(NoSuchElement);
      } else if tokens[pos].IntToken? {
        r := Ok(tokens[pos].i);
        pos := pos + 1;
      } else {
        r := Fail(InputMismatch);
      }
    }

    method NextDouble() returns (r: Outcome<real>)
      modifies this
      ensures old(pos) < |tokens| && IsNumber(tokens[old(pos)]) ==> r == Ok(RealOf(tokens[old(pos)])) && pos == old(pos) + 1
      ensures old(pos) < |tokens| && !IsNumber(tokens[old(pos)]) ==> r == Fail(InputMismatch) && pos == old(pos)
      ensures |tokens| <= old(pos) ==> r == Fail(NoSuchElement) && pos == old(pos)
    {
      if |tokens| <= pos {
        r := Fail(NoSuchElement);
      } else if IsNumber(tokens[pos]) {
        r := Ok(RealOf(tokens[pos]));
        pos := pos + 1;
      } else {
        r := Fail(InputMismatch);
      }
    }
  }

  // ---------------------------------------------------------------------------
  // The layout of a world description, block by block.
  // ---------------------------------------------------------------------------

  /** The first position at or after q holding an integer token, or |toks|. */
  function NextIntFrom(toks: seq<Token>, q: nat): (e: nat)
    requires q <= |toks|
    ensures q <= e <= |toks|
    ensures e < |toks| ==> toks[e].IntToken?
    ensures forall k :: q <= k < e ==> !toks[k].IntToken?
    decreases |toks| - q
  {
    if q == |toks| || toks[q].IntToken? then q else NextIntFrom(toks, q + 1)
  }

  /** Positions in the states block that starts with the count token at p. */
  function NamePos(p: nat, i: nat): nat { p + 1 + 2 * i }
  function RewardPos(p: nat, i: nat): nat { p + 2 + 2 * i }

  predicate CellTokensOk(toks: seq<Token>, p: nat, n: nat) {
    && NamePos(p, n) <= |toks|
    && forall i :: 0 <= i < n ==> toks[RewardPos(p, i)].IntToken?
  }

  /** The cells as `new GridCell(scan.next(), scan.nextInt())` creates them. */
  function CellsRead(toks: seq<Token>, p: nat, n: nat): (cells: seq<GridCell>)
    requires CellTokensOk(toks, p, n)
  {
    seq(n, i requires 0 <= i < n => GridCell(toks[NamePos(p, i)].text, toks[RewardPos(p, i)].i, false))
  }

  function TokenTexts(toks: seq<Token>, q: nat, e: nat): set<string>
    requires q <= e <= |toks|
  {
    set k | q <= k < e :: toks[k].text
  }

  lemma TokenTextsStep(toks: seq<Token>, q: nat, e: nat)
    requires q <= e < |toks|
    ensures TokenTexts(toks, q, e + 1) == TokenTexts(toks, q, e) + {toks[e].text}
  {
    assert toks[e].text in TokenTexts(toks, q, e + 1);
  }

  /** The cells after setTerminal was called on the first cell named by each of `names`. */
  function Marked(cells: seq<GridCell>, names: set<string>): seq<GridCell> {
    seq(|cells|, i requires 0 <= i < |cells| =>
      cells[i].(terminal := cells[i].terminal || (cells[i].name in names && IndexOf(cells, cells[i].name) == i)))
  }

  predicate StatesOk(toks: seq<Token>, p: nat) {
    && p < |toks| && toks[p].IntToken? && 0 <= toks[p].i
    && CellTokensOk(toks, p, toks[p].i)
    && var q := NamePos(p, toks[p].i);
       var e := NextIntFrom(toks, q);
       && e < |toks|
       && forall k :: q <= k < e ==> IndexOf(CellsRead(toks, p, toks[p].i), toks[k].text) >= 0
  }

  function StatesEnd(toks: seq<Token>, p: nat): nat
    requires StatesOk(toks, p)
  {
    NextIntFrom(toks, NamePos(p, toks[p].i))
  }

  function StatesRead(toks: seq<Token>, p: nat): seq<GridCell>
    requires StatesOk(toks, p)
  {
    var n := toks[p].i;
    Marked(CellsRead(toks, p, n), TokenTexts(toks, NamePos(p, n), StatesEnd(toks, p)))
  }

  /** Positions in the actions block that starts with the count token at p. */
  function RowStart(p: nat, n: nat, i: nat): nat {
    if i == 0 then p + 1 else RowStart(p, n, i - 1) + n + 1
  }
  function DoublePos(p: nat, n: nat, i: nat, j: nat): nat { RowStart(p, n, i) + 1 + j }

  lemma RowStartStep(p: nat, n: nat, i: nat)
    ensures RowStart(p, n, i + 1) == RowStart(p, n, i) + n + 1
  {
  }

  /** Every probability token of the first `rows` rows of the actions block at p is a number. */
  predicate NumbersAt(toks: seq<Token>, p: nat, n: nat, rows: nat) {
    forall i, j :: 0 <= i < rows && 0 <= j < n ==>
      DoublePos(p, n, i, j) < |toks| && IsNumber(toks[DoublePos(p, n, i, j)])
  }

  /** The first `rows` rows of u hold the probabilities of the actions block at p. */
  ghost predicate RowsRead(toks: seq<Token>, p: nat, n: nat, u: array2<real>, rows: nat)
    reads u
    requires u.Length0 == n && u.Length1 == n && rows <= n
  {
    && NumbersAt(toks, p, n, rows)
    && forall i, j :: 0 <= i < rows && 0 <= j < n ==> u[i, j] == RealOf(toks[DoublePos(p, n, i, j)])
  }

  predicate ActionsOk(toks: seq<Token>, p: nat) {
    && p < |toks| && toks[p].IntToken? && 0 <= toks[p].i
    && RowStart(p, toks[p].i, toks[p].i) <= |toks|
    && NumbersAt(toks, p, toks[p].i, toks[p].i)
  }

  function ActionsEnd(toks: seq<Token>, p: nat): nat
    requires ActionsOk(toks, p)
  {
    RowStart(p, toks[p].i, toks[p].i)
  }

  /** The names of the first i actions of the block at p, in reading order. */
  function NamesRead(toks: seq<Token>, p: nat, n: nat, i: nat): (names: seq<string>)
    requires RowStart(p, n, i) <= |toks|
    ensures |names| == i
  {
    if i == 0 then [] else NamesRead(toks, p, n, i - 1) + [toks[RowStart(p, n, i - 1)].text]
  }

  function ActionsRead(toks: seq<Token>, p: nat): (acts: seq<string>)
    requires ActionsOk(toks, p)
    ensures |acts| == toks[p].i
  {
    NamesRead(toks, p, toks[p].i, toks[p].i)
  }

  /** Positions in the transitions block that starts with the count token at p. */
  function TriplePos(p: nat, k: nat): nat { p + 1 + 3 * k }

  function TripleCount(toks: seq<Token>, p: nat): nat
    requires p < |toks| && toks[p].IntToken?
  {
    if toks[p].i < 0 then 0 else toks[p].i
  }

  /** The indices scan.next() x3 resolves to for the k-th triple. */
  function TripleAt(toks: seq<Token>, p: nat, k: nat, states: seq<GridCell>, actions: seq<string>): Triple
    requires TriplePos(p, k) + 3 <= |toks|
  {
    Triple(IndexOf(states, toks[TriplePos(p, k)].text),
           Find(actions, toks[TriplePos(p, k) + 1].text),
           IndexOf(states, toks[TriplePos(p, k) + 2].text))
  }

  function TriplesRead(toks: seq<Token>, p: nat, m: nat, states: seq<GridCell>, actions: seq<string>): (tr: seq<Triple>)
    requires TriplePos(p, m) <= |toks|
    ensures |tr| == m
  {
    seq(m, k requires 0 <= k < m => TripleAt(toks, p, k, states, actions))
  }

  predicate InRange(t: Triple, numStates: nat, numActions: nat) {
    0 <= t.from < numStates && 0 <= t.action < numActions && 0 <= t.to < numStates
  }

  predicate AllInRange(tr: seq<Triple>, numStates: nat, numActions: nat) {
    forall k :: 0 <= k < |tr| ==> InRange(tr[k], numStates, numActions)
  }

  lemma AllInRangeAppend(tr: seq<Triple>, t: Triple, numStates: nat, numActions: nat)
    requires AllInRange(tr, numStates, numActions) && InRange(t, numStates, numActions)
    ensures AllInRange(tr + [t], numStates, numActions)
  {
  }

  /** With no actions the inner loop never indexes the tensor, so unknown names pass. */
  predicate TransitionsOk(toks: seq<Token>, p: nat, states: seq<GridCell>, actions: seq<string>) {
    && p < |toks| && toks[p].IntToken?
    && TriplePos(p, TripleCount(toks, p)) <= |toks|
    && (|actions| == 0 || AllInRange(TriplesRead(toks, p, TripleCount(toks, p), states, actions), |states|, |actions|))
  }

  function TransitionsEnd(toks: seq<Token>, p: nat): nat
    requires p < |toks| && toks[p].IntToken?
  {
    TriplePos(p, TripleCount(toks, p))
  }

  /** transProbs[s0][j][s1] after the triples tr were added, starting from zero. */
  ghost function Mass(tr: seq<Triple>, u: array2<real>, s0: int, j: nat, s1: int): real
    reads u
    requires j < u.Length0
    requires forall k :: 0 <= k < |tr| ==> 0 <= tr[k].action < u.Length1
    decreases |tr|
  {
    if |tr| == 0 then 0.0
    else
      var t := tr[|tr| - 1];
      Mass(tr[..|tr| - 1], u, s0, j, s1) + (if t.from == s0 && t.to == s1 then u[j, t.action] else 0.0)
  }

  /** The tensor holds, at every index, the mass the triples tr put there. */
  ghost predicate Accumulated(tp: array3<real>, u: array2<real>, numStates: nat, tr: seq<Triple>)
    reads tp, u
  {
    && tp.Length0 == numStates && tp.Length1 == u.Length0 && tp.Length2 == numStates
    && u.Length0 == u.Length1
    && (0 < u.Length0 ==> Fits(tr, u))
    && forall x, b, c :: 0 <= x < numStates && 0 <= b < u.Length0 && 0 <= c < numStates ==>
         tp[x, b, c] == Mass(tr, u, x, b, c)
  }

  lemma TriplesReadStep(toks: seq<Token>, p: nat, i: nat, states: seq<GridCell>, actions: seq<string>)
    requires TriplePos(p, i + 1) <= |toks|
    ensures TriplesRead(toks, p, i + 1, states, actions)
         == TriplesRead(toks, p, i, states, actions) + [TripleAt(toks, p, i, states, actions)]
  {
  }

  /** The i-th triple read does not depend on how many are read in all. */
  lemma TriplesReadPrefix(toks: seq<Token>, p: nat, i: nat, m: nat, states: seq<GridCell>, actions: seq<string>)
    requires i < m && TriplePos(p, m) <= |toks|
    ensures TriplesRead(toks, p, m, states, actions)[i] == TripleAt(toks, p, i, states, actions)
  {
  }

  /** Adding a triple t adds row t.action of the confusion matrix at (t.from, *, t.to). */
  lemma MassAppend(tr: seq<Triple>, t: Triple, u: array2<real>)
    requires Fits(tr, u) && 0 <= t.action < u.Length1
    ensures Fits(tr + [t], u)
    ensures forall x, b, c :: 0 <= b < u.Length0 ==>
      Mass(tr + [t], u, x, b, c) == Mass(tr, u, x, b, c) + (if x == t.from && c == t.to then u[b, t.action] else 0.0)
  {
    assert (tr + [t])[..|tr|] == tr;
  }

  /** The whole description is readable; initialize then completes without an exception. */
  ghost predicate ModelOk(toks: seq<Token>, p: nat) {
    && StatesOk(toks, p)
    && var pa := StatesEnd(toks, p);
       && ActionsOk(toks, pa)
       && var pt := ActionsEnd(toks, pa);
          && TransitionsOk(toks, pt, StatesRead(toks, p), ActionsRead(toks, pa))
          && var pg := TransitionsEnd(toks, pt);
             && pg + 1 < |toks|
             && IsNumber(toks[pg])
             && IndexOf(StatesRead(toks, p), toks[pg + 1].text) >= 0
  }

  // ---------------------------------------------------------------------------
  // Inverse-CDF selection.
  // ---------------------------------------------------------------------------

  /** The sum of the first i probabilities. */
  function PrefixSum(ps: seq<real>, i: nat): real
    requires i <= |ps|
  {
    if i == 0 then 0.0 else PrefixSum(ps, i - 1) + ps[i - 1]
  }

  /** The running sum up to and including state k. */
  function Cum(ps: seq<real>, k: nat): real
    requires k < |ps|
  {
    PrefixSum(ps, k + 1)
  }

  /** The state takeAction settles on when the scan is at position i. */
  function PickFrom(ps: seq<real>, r: real, i: nat): (k: nat)
    requires i < |ps|
    ensures i <= k < |ps|
    decreases |ps| - i
  {
    if i == |ps| - 1 || r <= Cum(ps, i) then i else PickFrom(ps, r, i + 1)
  }

  /** The first index whose running sum reaches r, or the last index if none does. */
  function Pick(ps: seq<real>, r: real): (k: nat)
    requires 0 < |ps|
    ensures k < |ps|
  {
    PickFrom(ps, r, 0)
  }

  lemma {:induction false} PickFromSpec(ps: seq<real>, r: real, i: nat)
    requires i < |ps|
    requires forall k :: 0 <= k < i ==> Cum(ps, k) < r
    ensures i <= PickFrom(ps, r, i) < |ps|
    ensures forall k :: 0 <= k < PickFrom(ps, r, i) ==> Cum(ps, k) < r
    ensures PickFrom(ps, r, i) < |ps| - 1 ==> r <= Cum(ps, PickFrom(ps, r, i))
    decreases |ps| - i
  {
    if i == |ps| - 1 || r <= Cum(ps, i) {
    } else {
      PickFromSpec(ps, r, i + 1);
    }
  }

  /** Pick is the inverse CDF: every earlier running sum is below r, and the chosen
      one reaches r unless the scan fell through to the last state. */
  lemma PickSpec(ps: seq<real>, r: real)
    requires 0 < |ps|
    ensures Pick(ps, r) < |ps|
    ensures forall k :: 0 <= k < Pick(ps, r) ==> Cum(ps, k) < r
    ensures Pick(ps, r) < |ps| - 1 ==> r <= Cum(ps, Pick(ps, r))
  {
    PickFromSpec(ps, r, 0);
  }

  /** Pick is the unique index with the inverse-CDF properties. */
  lemma {:induction false} PickUnique(ps: seq<real>, r: real, c: nat)
    requires c < |ps|
    requires forall k :: 0 <= k < c ==> Cum(ps, k) < r
    requires c < |ps| - 1 ==> r <= Cum(ps, c)
    ensures Pick(ps, r) == c
  {
    PickSpec(ps, r);
  }

  /** A draw of 0 selects the first state, even one whose probability is 0. */
  lemma PickZeroDraw(ps: seq<real>, r: real)
    requires 0 < |ps| && 0.0 <= ps[0] && r <= 0.0
    ensures Pick(ps, r) == 0
  {
    assert PrefixSum(ps, 1) == ps[0];
  }

  /** For a positive draw that the whole row reaches, the chosen state has positive
      probability: states of probability 0 are never sampled. */
  lemma PickPositive(ps: seq<real>, r: real)
    requires 0 < |ps| && 0.0 < r && r <= PrefixSum(ps, |ps|)
    ensures 0.0 < ps[Pick(ps, r)]
  {
    PickSpec(ps, r);
    var c := Pick(ps, r);
    assert r <= Cum(ps, c);
    assert Cum(ps, c) == PrefixSum(ps, c) + ps[c];
    if c > 0 {
      assert Cum(ps, c - 1) < r;
    }
  }

  /** The probabilities takeAction adds up for state index ci and action index ai,
      in the order it visits the states. Each state is looked up by name, so a
      duplicated name reuses its first index. */
  ghost function Row(st: seq<GridCell>, tp: array3<real>, ci: nat, ai: nat): (ps: seq<real>)
    reads tp
    requires ci < tp.Length0 && ai < tp.Length1 && |st| == tp.Length2
    ensures |ps| == |st|
    ensures forall k :: 0 <= k < |st| ==> 0 <= IndexOf(st, st[k].name) && ps[k] == tp[ci, ai, IndexOf(st, st[k].name)]
  {
    IndexOfMembers(st);
    seq(|st|, k requires 0 <= k < |st| reads tp => tp[ci, ai, IndexOf(st, st[k].name)])
  }

  // ---------------------------------------------------------------------------
  // Row-stochasticity of the tensor.
  // ---------------------------------------------------------------------------

  predicate Fits(tr: seq<Triple>, u: array2<real>) {
    forall k :: 0 <= k < |tr| ==> 0 <= tr[k].action < u.Length1
  }

  /** The sum over s1 < k of transProbs[s0][j][s1]. */
  ghost function TensorRowSum(tr: seq<Triple>, u: array2<real>, s0: int, j: nat, k: nat): real
    reads u
    requires j < u.Length0 && Fits(tr, u)
  {
    if k == 0 then 0.0 else TensorRowSum(tr, u, s0, j, k - 1) + Mass(tr, u, s0, j, k - 1)
  }

  /** How many declared triples leave s0 by nominal action a. */
  function Count(tr: seq<Triple>, s0: int, a: int): nat {
    if |tr| == 0 then 0
    else Count(tr[..|tr| - 1], s0, a) + (if tr[|tr| - 1].from == s0 && tr[|tr| - 1].action == a then 1 else 0)
  }

  /** c copies of x added up, that is c * x. */
  function Copies(c: nat, x: real): real {
    if c == 0 then 0.0 else Copies(c - 1, x) + x
  }

  /** The sum over a < k of Count(tr, s0, a) copies of u[j][a]. */
  ghost function WeightedSum(tr: seq<Triple>, u: array2<real>, s0: int, j: nat, k: nat): real
    reads u
    requires j < u.Length0 && k <= u.Length1
  {
    if k == 0 then 0.0 else WeightedSum(tr, u, s0, j, k - 1) + Copies(Count(tr, s0, k - 1), u[j, k - 1])
  }

  /** The sum over a < k of u[j][a]. */
  ghost function ConfusionRowSum(u: array2<real>, j: nat, k: nat): real
    reads u
    requires j < u.Length0 && k <= u.Length1
  {
    if k == 0 then 0.0 else ConfusionRowSum(u, j, k - 1) + u[j, k - 1]
  }

  lemma {:induction false} TensorRowSumAppend(tr: seq<Triple>, t: Triple, u: array2<real>, s0: int, j: nat, k: nat)
    requires j < u.Length0 && Fits(tr, u) && 0 <= t.action < u.Length1
    ensures Fits(tr + [t], u)
    ensures TensorRowSum(tr + [t], u, s0, j, k)
         == TensorRowSum(tr, u, s0, j, k) + (if t.from == s0 && 0 <= t.to < k then u[j, t.action] else 0.0)
  {
    if k > 0 {
      TensorRowSumAppend(tr, t, u, s0, j, k - 1);
      assert (tr + [t])[..|tr|] == tr;
    }
  }

  lemma {:induction false} WeightedSumAppend(tr: seq<Triple>, t: Triple, u: array2<real>, s0: int, j: nat, k: nat)
    requires j < u.Length0 && k <= u.Length1
    ensures WeightedSum(tr + [t], u, s0, j, k)
         == WeightedSum(tr, u, s0, j, k) + (if t.from == s0 && 0 <= t.action < k then u[j, t.action] else 0.0)
  {
    if k > 0 {
      WeightedSumAppend(tr, t, u, s0, j, k - 1);
      CountAppend(tr, t, s0, k - 1);
    }
  }

  lemma CountAppend(tr: seq<Triple>, t: Triple, s0: int, a: int)
    ensures Count(tr + [t], s0, a) == Count(tr, s0, a) + (if t.from == s0 && t.action == a then 1 else 0)
  {
    assert (tr + [t])[..|tr|] == tr;
  }

  /** Summing a tensor row regroups the declared triples from s0 by their nominal action. */
  lemma {:induction false} TensorRowIsWeighted(tr: seq<Triple>, u: array2<real>, s0: int, j: nat, numStates: nat)
    requires j < u.Length0
    requires forall k :: 0 <= k < |tr| ==> InRange(tr[k], numStates, u.Length1)
    ensures Fits(tr, u)
    ensures TensorRowSum(tr, u, s0, j, numStates) == WeightedSum(tr, u, s0, j, u.Length1)
    decreases |tr|
  {
    if |tr| == 0 {
      TensorRowSumEmpty(u, s0, j, numStates);
      WeightedSumEmpty(u, s0, j, u.Length1);
    } else {
      var front, t := tr[..|tr| - 1], tr[|tr| - 1];
      assert tr == front + [t];
      TensorRowIsWeighted(front, u, s0, j, numStates);
      TensorRowSumAppend(front, t, u, s0, j, numStates);
      WeightedSumAppend(front, t, u, s0, j, u.Length1);
    }
  }

  lemma {:induction false} TensorRowSumEmpty(u: array2<real>, s0: int, j: nat, k: nat)
    requires j < u.Length0
    ensures TensorRowSum([], u, s0, j, k) == 0.0
  {
    if k > 0 { TensorRowSumEmpty(u, s0, j, k - 1); }
  }

  lemma {:induction false} WeightedSumEmpty(u: array2<real>, s0: int, j: nat, k: nat)
    requires j < u.Length0 && k <= u.Length1
    ensures WeightedSum([], u, s0, j, k) == 0.0
  {
    if k > 0 { WeightedSumEmpty(u, s0, j, k - 1); }
  }

  lemma {:induction false} WeightedSumOnce(tr: seq<Triple>, u: array2<real>, s0: int, j: nat, k: nat)
    requires j < u.Length0 && k <= u.Length1
    requires forall a :: 0 <= a < k ==> Count(tr, s0, a) == 1
    ensures WeightedSum(tr, u, s0, j, k) == ConfusionRowSum(u, j, k)
  {
    if k > 0 {
      WeightedSumOnce(tr, u, s0, j, k - 1);
      assert Copies(1, u[j, k - 1]) == u[j, k - 1];
    }
  }

  /** If confusion row j sums to 1 and every action has exactly one declared successor
      from s0, then the tensor row transProbs[s0][j][*] sums to 1. */
  lemma RowStochastic(tr: seq<Triple>, u: array2<real>, s0: int, j: nat, numStates: nat)
    requires j < u.Length0
    requires forall k :: 0 <= k < |tr| ==> InRange(tr[k], numStates, u.Length1)
    requires ConfusionRowSum(u, j, u.Length1) == 1.0
    requires forall a :: 0 <= a < u.Length1 ==> Count(tr, s0, a) == 1
    ensures Fits(tr, u)
    ensures TensorRowSum(tr, u, s0, j, numStates) == 1.0
  {
    TensorRowIsWeighted(tr, u, s0, j, numStates);
    WeightedSumOnce(tr, u, s0, j, u.Length1);
  }

  /** Declaring a triple twice adds its mass twice: duplicates are not rejected. */
  lemma RepeatedTripleAccumulates(tr: seq<Triple>, t: Triple, u: array2<real>, j: nat)
    requires j < u.Length0 && Fits(tr, u) && 0 <= t.action < u.Length1
    ensures Fits(tr + [t, t], u)
    ensures Mass(tr + [t, t], u, t.from, j, t.to) == Mass(tr, u, t.from, j, t.to) + 2.0 * u[j, t.action]
  {
    var once := tr + [t];
    assert (tr + [t, t])[..|tr| + 1] == once;
    assert once[..|tr|] == tr;
  }

  // ---------------------------------------------------------------------------
  // The process itself.
  // ---------------------------------------------------------------------------

  class MarkovDecisionProcess {
    var states: seq<GridCell>
    var actions: seq<string>
    var currentState: GridCell
    var transProbs: array3<real>
    var gamma: real
    var actionUncertainty: array2<real>

    ghost predicate Valid()
      reads this
    {
      && 0 < |states|
      && transProbs.Length0 == |states| && transProbs.Length1 == |actions| && transProbs.Length2 == |states|
      && actionUncertainty.Length0 == |actions| && actionUncertainty.Length1 == |actions|
    }

    /** The fields hold what initialize reads from the well-formed description at p. */
    ghost predicate Describes(toks: seq<Token>, p: nat)
      reads this, actionUncertainty, transProbs
      requires ModelOk(toks, p)
    {
      var pa := StatesEnd(toks, p);
      var pt := ActionsEnd(toks, pa);
      var pg := TransitionsEnd(toks, pt);
      var tr := TriplesRead(toks, pt, TripleCount(toks, pt), states, actions);
      && states == StatesRead(toks, p)
      && actions == ActionsRead(toks, pa)
      && actionUncertainty.Length0 == |actions| && actionUncertainty.Length1 == |actions|
      && RowsRead(toks, pa, |actions|, actionUncertainty, |actions|)
      && (|actions| == 0 || AllInRange(tr, |states|, |actions|))
      && Accumulated(transProbs, actionUncertainty, |states|, tr)
      && gamma == RealOf(toks[pg])
      && currentState == states[IndexOf(states, toks[pg + 1].text)]
    }

    /** The fields before initialize has run. */
    constructor Empty()
      ensures states == [] && actions == []
    {
      states := [];
      actions := [];
      currentState := GridCell([], 0, false);
      transProbs := new real[0, 0, 0];
      gamma := 0.0;
      actionUncertainty := new real[0, 0];
    }

    /** new MarkovDecisionProcess(scan): the constructor fails exactly when initialize throws. */
    static method Create(scan: Scanner) returns (r: Outcome<MarkovDecisionProcess>)
      modifies scan
      ensures r.Ok? <==> ModelOk(scan.tokens, old(scan.pos))
      ensures r.Ok? ==> fresh(r.value) && r.value.Valid()
      ensures r.Ok? ==> r.value.Describes(scan.tokens, old(scan.pos))
    {
      var m := new MarkovDecisionProcess.Empty();
      var err := m.Initialize(scan);
      if err.Some? {
        r := Fail(err.value);
      } else {
        r := Ok(m);
      }
    }

    /** initialize: states, actions, transitions, the discount and the start state,
        in that order; it completes exactly when the description is well formed. */
    method Initialize(scan: Scanner) returns (err: Option<Error>)
      modifies this, scan
      ensures err.None? <==> ModelOk(scan.tokens, old(scan.pos))
      ensures err.None? ==> Valid() && Describes(scan.tokens, old(scan.pos))
    {
      ghost var toks, p := scan.tokens, scan.pos;
      err := ReadStates(scan);
      if err.Some? { return; }
      ghost var pa := scan.pos;
      err := ReadActions(scan);
      if err.Some? { return; }
      ghost var pt := scan.pos;
      err := ReadTransitions(scan);
      if err.Some? { return; }
      err := ReadStart(scan);
    }

    /** The end of initialize: the discount factor, then the name of the start state. */
    method ReadStart(scan: Scanner) returns (err: Option<Error>)
      modifies this`gamma, this`currentState, scan
      ensures var toks, pg := scan.tokens, old(scan.pos);
        err.None? <==> pg + 1 < |toks| && IsNumber(toks[pg]) && IndexOf(states, toks[pg + 1].text) >= 0
      ensures var toks, pg := scan.tokens, old(scan.pos);
        err.None? ==> gamma == RealOf(toks[pg]) && currentState == states[IndexOf(states, toks[pg + 1].text)]
    {
      var g := scan.NextDouble();
      if g.Fail? { return Some(g.error); }
      gamma := g.value;
      var name := scan.Next();
      if name.Fail? { return Some(name.error); }
      var index := IndexOf(states, name.value);
      if index < 0 { return Some(IndexOutOfBounds); }
      currentState := states[index];
      err := None;
    }

    /** readStates: the count, the cells, then the goal names up to the next integer. */
    method ReadStates(scan: Scanner) returns (err: Option<Error>)
      modifies this`states, scan
      ensures err.None? <==> StatesOk(scan.tokens, old(scan.pos))
      ensures err.None? ==> states == StatesRead(scan.tokens, old(scan.pos)) && scan.pos == StatesEnd(scan.tokens, old(scan.pos))
    {
      ghost var toks, p := scan.tokens, scan.pos;
      var count := scan.NextInt();
      if count.Fail? {
        return Some(count.error);
      }
      var n := count.value;
      if n < 0 {
        return Some(IllegalArgument);
      }
      var cells;
      err, cells := ReadCells(scan, p, n);
      if err.Some? {
        return;
      }
      var marked;
      err, marked := ReadGoals(scan, cells);
      if err.Some? {
        return;
      }
      states := marked;
    }

    /** The loop of readStates that adds `new GridCell(scan.next(), scan.nextInt())` n times. */
    static method ReadCells(scan: Scanner, ghost p: nat, n: nat) returns (err: Option<Error>, cells: seq<GridCell>)
      requires scan.pos == p + 1 <= |scan.tokens|
      modifies scan
      ensures err.None? <==> CellTokensOk(scan.tokens, p, n)
      ensures err.None? ==> cells == CellsRead(scan.tokens, p, n) && scan.pos == NamePos(p, n)
    {
      ghost var toks := scan.tokens;
      err := None;
      cells := [];
      for i := 0 to n
        invariant scan.pos == NamePos(p, i) <= |toks|
        invariant forall k :: 0 <= k < i ==> toks[RewardPos(p, k)].IntToken?
        invariant cells == CellsRead(toks, p, i)
      {
        var name := scan.Next();
        if name.Fail? {
          err := Some(name.error);
          return;
        }
        var reward := scan.NextInt();
        if reward.Fail? {
          assert scan.pos == RewardPos(p, i);
          err := Some(reward.error);
          return;
        }
        cells := cells + [GridCell(name.value, reward.value, false)];
      }
    }

    /** The loop of readStates that marks as terminal each named cell until an integer
        token follows; a name that is not a state is an index error. */
    static method ReadGoals(scan: Scanner, cells: seq<GridCell>) returns (err: Option<Error>, marked: seq<GridCell>)
      requires scan.pos <= |scan.tokens|
      modifies scan
      ensures var toks, q := scan.tokens, old(scan.pos);
        var e := NextIntFrom(toks, q);
        err.None? <==> e < |toks| && forall k :: q <= k < e ==> IndexOf(cells, toks[k].text) >= 0
      ensures var toks, q := scan.tokens, old(scan.pos);
        err.None? ==> scan.pos == NextIntFrom(toks, q) && marked == Marked(cells, TokenTexts(toks, q, scan.pos))
    {
      ghost var toks, q := scan.tokens, scan.pos;
      err := None;
      marked := cells;
      while !scan.HasNextInt()
        invariant q <= scan.pos <= NextIntFrom(toks, q)
        invariant NextIntFrom(toks, scan.pos) == NextIntFrom(toks, q)
        invariant forall k :: q <= k < scan.pos ==> IndexOf(cells, toks[k].text) >= 0
        invariant marked == Marked(cells, TokenTexts(toks, q, scan.pos))
        decreases |toks| - scan.pos
      {
        ghost var e := scan.pos;
        var name := scan.Next();
        if name.Fail? {
          err := Some(name.error);
          return;
        }
        MarkedIndex(cells, TokenTexts(toks, q, e), name.value);
        var index := IndexOf(marked, name.value);
        if index < 0 {
          err := Some(IndexOutOfBounds);
          return;
        }
        assert name.value == toks[e].text && index == IndexOf(cells, toks[e].text);
        MarkedStep(cells, toks, q, e);
        marked := marked[index := marked[index].(terminal := true)];
      }
    }

    /** readActions: the count n, then n rows of an action name and n probabilities. */
    method ReadActions(scan: Scanner) returns (err: Option<Error>)
      modifies this`actions, this`actionUncertainty, scan
      ensures err.None? <==> ActionsOk(scan.tokens, old(scan.pos))
      ensures err.None? ==>
        var toks, p := scan.tokens, old(scan.pos);
        && actions == ActionsRead(toks, p)
        && scan.pos == ActionsEnd(toks, p)
        && fresh(actionUncertainty)
        && actionUncertainty.Length0 == |actions| && actionUncertainty.Length1 == |actions|
        && RowsRead(toks, p, |actions|, actionUncertainty, |actions|)
    {
      ghost var toks, p := scan.tokens, scan.pos;
      var count := scan.NextInt();
      if count.Fail? {
        assert !ActionsOk(toks, p);
        return Some(count.error);
      }
      var n := count.value;
      if n < 0 {
        assert !ActionsOk(toks, p);
        return Some(IllegalArgument);
      }
      err := None;
      var names := [];
      var u := new real[n, n];
      for i := 0 to n
        invariant scan.pos == RowStart(p, n, i) <= |toks|
        invariant names == NamesRead(toks, p, n, i)
        invariant RowsRead(toks, p, n, u, i)
        invariant err.None?
      {
        var name := scan.Next();
        if name.Fail? {
          RowStartLess(p, n, i, n);
          assert !ActionsOk(toks, p);
          return Some(name.error);
        }
        names := names + [name.value];
        err := ReadRow(scan, u, p, n, i);
        if err.Some? {
          ghost var j :| 0 <= j < n && !(DoublePos(p, n, i, j) < |toks| && IsNumber(toks[DoublePos(p, n, i, j)]));
          assert !NumbersAt(toks, p, n, n);
          assert !ActionsOk(toks, p);
          return;
        }
        RowStartStep(p, n, i);
      }
      assert ActionsOk(toks, p);
      actions := names;
      actionUncertainty := u;
    }

    /** The inner loop of readActions: row i of the confusion matrix. */
    static method ReadRow(scan: Scanner, u: array2<real>, ghost p: nat, n: nat, i: nat) returns (err: Option<Error>)
      requires u.Length0 == n && u.Length1 == n && i < n
      requires scan.pos == RowStart(p, n, i) + 1 <= |scan.tokens| && RowsRead(scan.tokens, p, n, u, i)
      modifies scan, u
      ensures err.None? <==> forall j :: 0 <= j < n ==> DoublePos(p, n, i, j) < |scan.tokens| && IsNumber(scan.tokens[DoublePos(p, n, i, j)])
      ensures err.None? ==> scan.pos == RowStart(p, n, i) + n + 1 <= |scan.tokens| && RowsRead(scan.tokens, p, n, u, i + 1)
    {
      ghost var toks := scan.tokens;
      err := None;
      for j := 0 to n
        invariant scan.pos == DoublePos(p, n, i, j) <= |toks|
        invariant RowsRead(toks, p, n, u, i)
        invariant forall jj :: 0 <= jj < j ==>
          DoublePos(p, n, i, jj) < |toks| && IsNumber(toks[DoublePos(p, n, i, jj)]) && u[i, jj] == RealOf(toks[DoublePos(p, n, i, jj)])
      {
        var d := scan.NextDouble();
        if d.Fail? {
          return Some(d.error);
        }
        u[i, j] := d.value;
      }
    }

    /** readTransitions: a zero tensor, then for each declared triple (s0, a, s1)
        and each intended action j, transProbs[s0][j][s1] += actionUncertainty[j][a]. */
    method ReadTransitions(scan: Scanner) returns (err: Option<Error>)
      requires actionUncertainty.Length0 == |actions| && actionUncertainty.Length1 == |actions|
      modifies this`transProbs, scan
      ensures err.None? <==> TransitionsOk(scan.tokens, old(scan.pos), states, actions)
      ensures err.None? ==>
        var toks, p := scan.tokens, old(scan.pos);
        var tr := TriplesRead(toks, p, TripleCount(toks, p), states, actions);
        && scan.pos == TransitionsEnd(toks, p)
        && fresh(transProbs)
        && (|actions| == 0 || AllInRange(tr, |states|, |actions|))
        && Accumulated(transProbs, actionUncertainty, |states|, tr)
    {
      ghost var toks, p := scan.tokens, scan.pos;
      var numStates, numActions := |states|, |actions|;
      var tp := new real[numStates, numActions, numStates]((_, _, _) => 0.0);
      transProbs := tp;
      var count := scan.NextInt();
      if count.Fail? {
        return Some(count.error);
      }
      var m := if count.value < 0 then 0 else count.value;
      err := None;
      for i := 0 to m
        invariant scan.pos == TriplePos(p, i) <= |toks|
        invariant numActions == 0 || AllInRange(TriplesRead(toks, p, i, states, actions), numStates, numActions)
        invariant Accumulated(tp, actionUncertainty, numStates, TriplesRead(toks, p, i, states, actions))
        invariant transProbs == tp && err.None?
      {
        var t;
        err, t := ReadTriple(scan, states, actions, p, i);
        if err.Some? {
          return;
        }
        ghost var before := TriplesRead(toks, p, i, states, actions);
        TriplesReadStep(toks, p, i, states, actions);
        if 0 < numActions && !(0 <= t.from < numStates && 0 <= t.action < numActions && 0 <= t.to < numStates) {
          if TriplePos(p, m) <= |toks| {
            TriplesReadPrefix(toks, p, i, m, states, actions);
          }
          return Some(IndexOutOfBounds);
        }
        if 0 < numActions {
          AllInRangeAppend(before, t, numStates, numActions);
          AddTriple(tp, actionUncertainty, numStates, before, t);
        }
      }
    }

    /** Three names of readTransitions, resolved to state, action and state indices. */
    static method ReadTriple(scan: Scanner, states: seq<GridCell>, actions: seq<string>, ghost p: nat, i: nat)
      returns (err: Option<Error>, t: Triple)
      requires scan.pos == TriplePos(p, i) <= |scan.tokens|
      modifies scan
      ensures err.None? <==> TriplePos(p, i + 1) <= |scan.tokens|
      ensures err.Some? ==> err == Some(NoSuchElement)
      ensures err.None? ==> scan.pos == TriplePos(p, i + 1) && t == TripleAt(scan.tokens, p, i, states, actions)
    {
      err := None;
      t := Triple(-1, -1, -1);
      var n0 := scan.Next();
      if n0.Fail? {
        return Some(n0.error), t;
      }
      var n1 := scan.Next();
      if n1.Fail? {
        return Some(n1.error), t;
      }
      var n2 := scan.Next();
      if n2.Fail? {
        return Some(n2.error), t;
      }
      t := Triple(IndexOf(states, n0.value), Find(actions, n1.value), IndexOf(states, n2.value));
    }

    /** The inner loop of readTransitions: adds row a of the confusion matrix at (s0, *, s1). */
    static method AddTriple(tp: array3<real>, u: array2<real>, numStates: nat, ghost before: seq<Triple>, t: Triple)
      requires tp.Length0 == numStates && tp.Length1 == u.Length0 == u.Length1 && tp.Length2 == numStates
      requires InRange(t, numStates, u.Length0)
      requires Accumulated(tp, u, numStates, before)
      modifies tp
      ensures Accumulated(tp, u, numStates, before + [t])
    {
      for j := 0 to u.Length0
        invariant forall x, b, c :: 0 <= x < numStates && 0 <= b < u.Length0 && 0 <= c < numStates ==>
          tp[x, b, c] == Mass(before, u, x, b, c) + (if x == t.from && c == t.to && b < j then u[b, t.action] else 0.0)
      {
        tp[t.from, j, t.to] := tp[t.from, j, t.to] + u[j, t.action];
      }
      MassAppend(before, t, u);
    }

    /** P(s2 | s1, a): a pure lookup that fails when any argument is not a member. */
    function TransProb(s1: GridCell, a: string, s2: GridCell): (r: Outcome<real>)
      reads this, transProbs
      requires Valid()
      ensures r.Ok? <==> 0 <= IndexOf(states, s1.name) && 0 <= Find(actions, a) && 0 <= IndexOf(states, s2.name)
      ensures r.Ok? ==> r.value == transProbs[IndexOf(states, s1.name), Find(actions, a), IndexOf(states, s2.name)]
    {
      var i, j, k := IndexOf(states, s1.name), Find(actions, a), IndexOf(states, s2.name);
      if i < 0 || j < 0 || k < 0 then Fail(IndexOutOfBounds) else Ok(transProbs[i, j, k])
    }

    /** The scan of takeAction: adds up the probabilities of moving from state
        index ci by action index ai to each state in turn and stops at the first
        running sum that reaches the draw r, or at the last state. */
    method Sample(ci: nat, ai: nat, r: real) returns (k: nat)
      requires Valid() && ci < |states| && ai < |actions|
      ensures k < |states|
      ensures k == Pick(Row(states, transProbs, ci, ai), r)
    {
      ghost var ps := Row(states, transProbs, ci, ai);
      var sum := 0.0;
      k := 0;
      while k < |states| - 1
        invariant 0 <= k < |states|
        invariant sum == PrefixSum(ps, k)
        invariant Pick(ps, r) == PickFrom(ps, r, k)
      {
        var p := transProbs[ci, ai, IndexOf(states, states[k].name)];
        assert p == ps[k];
        sum := sum + p;
        assert sum == Cum(ps, k) by { assert Cum(ps, k) == PrefixSum(ps, k) + ps[k]; }
        if r <= sum {
          return;
        }
        k := k + 1;
      }
    }

    /** Moves to the successor chosen by the draw r (the generator's nextDouble);
        an unknown current state or action is an index error and leaves the state. */
    method TakeAction(action: string, r: real) returns (err: Option<Error>)
      requires Valid()
      modifies this`currentState
      ensures err.None? <==> 0 <= IndexOf(states, old(currentState).name) && 0 <= Find(actions, action)
      ensures err.None? ==>
        currentState == states[Pick(Row(states, transProbs, IndexOf(states, old(currentState).name), Find(actions, action)), r)]
      ensures err.Some? ==> currentState == old(currentState)
    {
      var ci := IndexOf(states, currentState.name);
      var ai := Find(actions, action);
      if ci < 0 || ai < 0 {
        return Some(IndexOutOfBounds);
      }
      var k := Sample(ci, ai, r);
      currentState := states[k];
      err := None;
    }

    function GetCurrent(): (c: GridCell)
      reads this
      ensures c == currentState
    {
      currentState
    }

    method SetCurrent(s: GridCell)
      modifies this`currentState
      ensures currentState == s
    {
      currentState := s;
    }

    /** A copy of the state list, element by element. */
    method GetStates() returns (copy: seq<GridCell>)
      ensures copy == states
    {
      copy := [];
      for i := 0 to |states|
        invariant copy == states[..i]
      {
        copy := copy + [states[i]];
      }
    }

    /** A copy of the action list, element by element. */
    method GetActions() returns (copy: seq<string>)
      ensures copy == actions
    {
      copy := [];
      for i := 0 to |actions|
        invariant copy == actions[..i]
      {
        copy := copy + [actions[i]];
      }
    }

    function GetGamma(): (g: real)
      reads this
      ensures g == gamma
    {
      gamma
    }
  }

  lemma {:induction false} RowStartLess(p: nat, n: nat, i: nat, k: nat)
    requires i < k
    ensures RowStart(p, n, i) + n + 1 <= RowStart(p, n, k)
    decreases k
  {
    RowStartStep(p, n, k - 1);
    if i < k - 1 { RowStartLess(p, n, i, k - 1); }
  }

  /** Marking never renames, so the first index of a name is unchanged. */
  lemma MarkedIndex(cells: seq<GridCell>, names: set<string>, x: string)
    ensures IndexOf(Marked(cells, names), x) == IndexOf(cells, x)
  {
    assert Names(Marked(cells, names)) == Names(cells);
  }

  /** Reading one more goal name marks the first cell with that name. */
  lemma MarkedStep(cells: seq<GridCell>, toks: seq<Token>, q: nat, e: nat)
    requires q <= e < |toks| && 0 <= IndexOf(cells, toks[e].text)
    ensures var before := Marked(cells, TokenTexts(toks, q, e));
      var i := IndexOf(cells, toks[e].text);
      Marked(cells, TokenTexts(toks, q, e + 1)) == before[i := before[i].(terminal := true)]
  {
    TokenTextsStep(toks, q, e);
    MarkedAddName(cells, TokenTexts(toks, q, e), toks[e].text, IndexOf(cells, toks[e].text));
  }

  lemma MarkedAddName(cells: seq<GridCell>, names: set<string>, x: string, index: int)
    requires 0 <= index < |cells| && index == IndexOf(cells, x)
    ensures Marked(cells, names + {x})
         == Marked(cells, names)[index := Marked(cells, names)[index].(terminal := true)]
  {
  }
}
