/** The Q and N tables of the learner and the value-level meaning of its helpers:
    point updates, the maximum and arg-max folds, the exploration function with its
    tie-breaking, terminal forcing and the Q-learning update. */
module QTables {
  import opened ExtReals
  import opened Cells
  import opened States

  /** HashMap<State, HashMap<String, Double>>, keyed by what MyState.equals compares. */
  type Table = map<StateKey, map<string, real>>

  /** value: the entry, or 0.0 when the state or the action is absent. */
  function Value(t: Table, s: StateKey, a: string): real {
    if s in t && a in t[s] then t[s][a] else 0.0
  }

  /** putValue: the inner map is created on first use, then the entry is set. */
  function Put(t: Table, s: StateKey, a: string, v: real): (r: Table)
    ensures Value(r, s, a) == v
    ensures forall s', a' :: s' != s || a' != a ==> Value(r, s', a') == Value(t, s', a')
    ensures r.Keys == t.Keys + {s}
    ensures forall s' :: s' in t && s' != s ==> r[s'] == t[s']
  {
    if s in t then t[s := t[s][a := v]] else t[s := map[a := v]]
  }

  /** addValue: the entry grows by x, an absent entry counting as 0.0. */
  function Add(t: Table, s: StateKey, a: string, x: real): (r: Table)
    ensures Value(r, s, a) == Value(t, s, a) + x
    ensures forall s', a' :: s' != s || a' != a ==> Value(r, s', a') == Value(t, s', a')
    ensures r.Keys == t.Keys + {s}
  {
    var current := if s in t && a in t[s] then t[s][a] else 0.0;
    Put(t, s, a, current + x)
  }

  /** N holds visit counts: no entry is negative. */
  ghost predicate Counts(t: Table) {
    forall s, a :: Value(t, s, a) >= 0.0
  }

  /** Counting a visit keeps N a table of counts, and the visited entry is then at
      least one, so alpha = 1/N is defined. */
  lemma AddKeepsCounts(t: Table, s: StateKey, a: string)
    requires Counts(t)
    ensures Counts(Add(t, s, a, 1.0))
    ensures Value(Add(t, s, a, 1.0), s, a) >= 1.0
  {
    var r := Add(t, s, a, 1.0);
    forall s', a'
      ensures Value(r, s', a') >= 0.0
    {
      if s' != s || a' != a {
        assert Value(r, s', a') == Value(t, s', a');
      }
    }
  }

  /** An absent entry reads as 0.0, and reading never changes the table. */
  lemma ValueDefault(t: Table, s: StateKey, a: string)
    ensures s !in t ==> Value(t, s, a) == 0.0
    ensures s in t && a !in t[s] ==> Value(t, s, a) == 0.0
    ensures s in t && a in t[s] ==> Value(t, s, a) == t[s][a]
  {
  }

  // ---------------------------------------------------------------------------
  // Folds over the action list.
  // ---------------------------------------------------------------------------

  /** Q[s, ·] as doubles. */
  function QOf(q: Table, s: StateKey): string -> Ext {
    a => Fin(Value(q, s, a))
  }

  /** The running maximum `if (v > max) max = v` from -infinity. */
  function MaxOf(f: string -> Ext, acts: seq<string>): (m: Ext)
    ensures |acts| == 0 ==> m == NegInf
    ensures forall k :: 0 <= k < |acts| ==> AtMost(f(acts[k]), m)
    ensures |acts| > 0 && (forall k :: 0 <= k < |acts| ==> f(acts[k]) != NegInf) ==>
      exists k :: 0 <= k < |acts| && m == f(acts[k])
  {
    if |acts| == 0 then NegInf
    else
      var m' := MaxOf(f, acts[..|acts| - 1]);
      assert forall k :: 0 <= k < |acts| - 1 ==> acts[..|acts| - 1][k] == acts[k];
      Max(m', f(acts[|acts| - 1]))
  }

  /** maxValue: the largest Q[s, a] over the listed actions, -infinity for none. */
  function MaxQ(q: Table, s: StateKey, acts: seq<string>): Ext {
    MaxOf(QOf(q, s), acts)
  }

  lemma MaxQSpec(q: Table, s: StateKey, acts: seq<string>)
    ensures MaxQ(q, s, acts) == NegInf <==> |acts| == 0
    ensures forall k :: 0 <= k < |acts| ==> AtMost(Fin(Value(q, s, acts[k])), MaxQ(q, s, acts))
    ensures |acts| > 0 ==> exists k :: 0 <= k < |acts| && MaxQ(q, s, acts) == Fin(Value(q, s, acts[k]))
  {
    var f := QOf(q, s);
    assert forall k :: 0 <= k < |acts| ==> f(acts[k]) == Fin(Value(q, s, acts[k]));
  }

  /** The action a running arg-max holds, with the value it holds it for. */
  datatype Choice = Choice(action: Option<string>, value: Ext)

  /** maxAction's loop: a strictly larger value replaces the held action. */
  function ArgMaxOf(f: string -> Ext, acts: seq<string>): (c: Choice)
    ensures c.value == MaxOf(f, acts)
  {
    if |acts| == 0 then Choice(None, NegInf)
    else
      var c := ArgMaxOf(f, acts[..|acts| - 1]);
      var v := f(acts[|acts| - 1]);
      if Less(c.value, v) then Choice(Some(acts[|acts| - 1]), v) else c
  }

  /** The arg-max is the first listed action whose value is the maximum: every
      earlier action is strictly below it. */
  lemma {:induction false} ArgMaxFirst(f: string -> Ext, acts: seq<string>)
    requires forall k :: 0 <= k < |acts| ==> f(acts[k]) != NegInf
    ensures ArgMaxOf(f, acts).action.Some? <==> |acts| > 0
    ensures |acts| > 0 ==>
      exists k :: (0 <= k < |acts|
        && ArgMaxOf(f, acts).action == Some(acts[k])
        && f(acts[k]) == MaxOf(f, acts)
        && forall j :: 0 <= j < k ==> Less(f(acts[j]), MaxOf(f, acts)))
  {
    if |acts| > 0 {
      var pre := acts[..|acts| - 1];
      assert forall k :: 0 <= k < |pre| ==> pre[k] == acts[k];
      ArgMaxFirst(f, pre);
      var c := ArgMaxOf(f, pre);
      var v := f(acts[|acts| - 1]);
      if Less(c.value, v) {
        forall j | 0 <= j < |acts| - 1
          ensures Less(f(acts[j]), v)
        {
          assert AtMost(f(pre[j]), c.value);
        }
      } else {
        var k :| 0 <= k < |pre| && c.action == Some(pre[k]) && f(pre[k]) == MaxOf(f, pre)
          && forall j :: 0 <= j < k ==> Less(f(pre[j]), MaxOf(f, pre));
        assert acts[k] == pre[k];
      }
    }
  }

  /** maxAction over Q[s, ·]. */
  function ArgMaxQ(q: Table, s: StateKey, acts: seq<string>): Option<string> {
    ArgMaxOf(QOf(q, s), acts).action
  }

  /** maxAction returns null only for an empty list; otherwise it returns the
      earliest listed action of maximal Q. */
  lemma ArgMaxQSpec(q: Table, s: StateKey, acts: seq<string>)
    ensures ArgMaxQ(q, s, acts).None? <==> |acts| == 0
    ensures |acts| > 0 ==>
      exists k :: (0 <= k < |acts|
        && ArgMaxQ(q, s, acts) == Some(acts[k])
        && Fin(Value(q, s, acts[k])) == MaxQ(q, s, acts)
        && forall j :: 0 <= j < k ==> Value(q, s, acts[j]) < Value(q, s, acts[k]))
  {
    var f := QOf(q, s);
    assert forall k :: 0 <= k < |acts| ==> f(acts[k]) == Fin(Value(q, s, acts[k]));
    ArgMaxFirst(f, acts);
  }

  /** For a non-empty list, the greedy action is a listed one whose Q is the
      maximum, and that maximum is finite and bounds Q of every listed action. */
  lemma GreedyAttains(q: Table, s: StateKey, acts: seq<string>)
    requires |acts| > 0
    ensures ArgMaxQ(q, s, acts).Some? && ArgMaxQ(q, s, acts).value in acts
    ensures MaxQ(q, s, acts) == Fin(Value(q, s, ArgMaxQ(q, s, acts).value))
    ensures forall j :: 0 <= j < |acts| ==> Value(q, s, acts[j]) <= MaxQ(q, s, acts).v
  {
    MaxQSpec(q, s, acts);
    ArgMaxQSpec(q, s, acts);
  }

  // ---------------------------------------------------------------------------
  // The exploration function and maxExplorationAction.
  // ---------------------------------------------------------------------------

  /** NE: how often a pair must be tried before its Q value is trusted. */
  const NE: real := 100.0

  /** explorationFunction: R+ = +infinity while N[s, a] < NE, then Q[s, a]. */
  function ExploreValue(q: Table, n: Table, s: StateKey, a: string): (f: Ext)
    ensures f != NegInf
    ensures Value(n, s, a) < NE <==> f == PosInf
    ensures NE <= Value(n, s, a) ==> f == Fin(Value(q, s, a))
  {
    if Value(n, s, a) < NE then PosInf else Fin(Value(q, s, a))
  }

  function FOf(q: Table, n: Table, s: StateKey): string -> Ext {
    a => ExploreValue(q, n, s, a)
  }

  /** An action never tried is always worth exploring. */
  lemma UnseenIsOptimistic(q: Table, n: Table, s: StateKey, a: string)
    requires s !in n || a !in n[s]
    ensures ExploreValue(q, n, s, a) == PosInf
  {
  }

  /** The state of maxExplorationAction's loop: held action, its f, the tie count,
      and how many draws the generator has produced. */
  datatype Explore = Explore(action: Option<string>, maxF: Ext, ties: real, drawn: nat)

  /** maxExplorationAction's loop. An f equal to the held one is a tie: ties grows
      by one and the next draw replaces the held action when below 1/ties. A
      strictly larger f replaces it and resets ties to 1. */
  function ExploreOf(f: string -> Ext, acts: seq<string>, coin: nat -> real, drawn: nat): (e: Explore)
    ensures e.ties >= 1.0 && e.drawn >= drawn
  {
    if |acts| == 0 then Explore(None, NegInf, 1.0, drawn)
    else ExploreStep(ExploreOf(f, acts[..|acts| - 1], coin, drawn), acts[|acts| - 1], f(acts[|acts| - 1]), coin)
  }

  /** One iteration of that loop, on the action a with exploration value v. */
  function ExploreStep(e: Explore, a: string, v: Ext, coin: nat -> real): (e': Explore)
    requires e.ties >= 1.0
    ensures e'.ties >= 1.0 && e.drawn <= e'.drawn <= e.drawn + 1
  {
    if v == e.maxF then
      var ties := e.ties + 1.0;
      if coin(e.drawn) < 1.0 / ties then Explore(Some(a), v, ties, e.drawn + 1)
      else Explore(e.action, e.maxF, ties, e.drawn + 1)
    else if Less(e.maxF, v) then Explore(Some(a), v, 1.0, e.drawn)
    else e
  }

  /** How many listed actions have f equal to v. */
  function CountAt(f: string -> Ext, acts: seq<string>, v: Ext): nat {
    if |acts| == 0 then 0
    else CountAt(f, acts[..|acts| - 1], v) + (if f(acts[|acts| - 1]) == v then 1 else 0)
  }

  /** When every f is above -infinity, the loop holds an action of maximal f, and
      ties counts exactly the listed actions that share that maximum. */
  lemma {:induction false} ExploreSpec(f: string -> Ext, acts: seq<string>, coin: nat -> real, drawn: nat)
    requires forall k :: 0 <= k < |acts| ==> f(acts[k]) != NegInf
    ensures var e := ExploreOf(f, acts, coin, drawn);
      && e.maxF == MaxOf(f, acts)
      && (e.action.Some? <==> |acts| > 0)
      && (e.action.Some? ==> e.action.value in acts && f(e.action.value) == e.maxF)
      && e.ties == (if |acts| == 0 then 1 else CountAt(f, acts, e.maxF)) as real
  {
    if |acts| > 0 {
      var pre := acts[..|acts| - 1];
      assert forall k :: 0 <= k < |pre| ==> pre[k] == acts[k];
      ExploreSpec(f, pre, coin, drawn);
      var e := ExploreOf(f, pre, coin, drawn);
      var v := f(acts[|acts| - 1]);
      if v != e.maxF && Less(e.maxF, v) {
        CountAbove(f, pre, v);
      } else if v != e.maxF && |pre| > 0 {
        LessTotal(e.maxF, v);
      }
    }
  }

  /** When every f is above -infinity, the loop ends holding an action exactly when
      the list is not empty. */
  lemma {:induction false} ExploreChooses(f: string -> Ext, acts: seq<string>, coin: nat -> real, drawn: nat)
    requires forall k :: 0 <= k < |acts| ==> f(acts[k]) != NegInf
    ensures ExploreOf(f, acts, coin, drawn).action.Some? <==> |acts| > 0
    ensures ExploreOf(f, acts, coin, drawn).action.None? <==> ExploreOf(f, acts, coin, drawn).maxF == NegInf
  {
    if |acts| > 0 {
      var pre := acts[..|acts| - 1];
      assert forall k :: 0 <= k < |pre| ==> pre[k] == acts[k];
      ExploreChooses(f, pre, coin, drawn);
    }
  }

  /** No action has an f above the maximum, so a new strict maximum has no earlier match. */
  lemma {:induction false} CountAbove(f: string -> Ext, acts: seq<string>, v: Ext)
    requires Less(MaxOf(f, acts), v)
    ensures CountAt(f, acts, v) == 0
  {
    if |acts| > 0 {
      var pre := acts[..|acts| - 1];
      var last := f(acts[|acts| - 1]);
      assert AtMost(MaxOf(f, pre), MaxOf(f, acts));
      assert AtMost(last, MaxOf(f, acts));
      AtMostLess(MaxOf(f, pre), MaxOf(f, acts), v);
      AtMostLess(last, MaxOf(f, acts), v);
      CountAbove(f, pre, v);
    }
  }

  /** With draws of nextDouble in [0.5, 1), none falls below 1/ties (at most 1/2
      on a tie), so no tie ever replaces the held action: the choice is the first
      action of maximal f, as maxAction would pick it. */
  lemma {:induction false} ExploreWithoutSwaps(f: string -> Ext, acts: seq<string>, coin: nat -> real, drawn: nat)
    requires forall i :: 0.5 <= coin(i) < 1.0
    ensures ExploreOf(f, acts, coin, drawn).action == ArgMaxOf(f, acts).action
    ensures ExploreOf(f, acts, coin, drawn).maxF == ArgMaxOf(f, acts).value
  {
    if |acts| > 0 {
      var pre := acts[..|acts| - 1];
      ExploreWithoutSwaps(f, pre, coin, drawn);
      var e := ExploreOf(f, pre, coin, drawn);
      var last := acts[|acts| - 1];
      if f(last) == e.maxF {
        ReciprocalAtMostHalf(e.ties + 1.0);
        assert ExploreStep(e, last, f(last), coin) == Explore(e.action, e.maxF, e.ties + 1.0, e.drawn + 1);
      }
    }
  }

  /** After a tie the counter is at least 2, so the swap threshold is at most one half. */
  lemma ReciprocalAtMostHalf(t: real)
    requires t >= 2.0
    ensures 1.0 / t <= 0.5
  {
  }

  /** maxExplorationAction over the exploration function. */
  function ExploreChoice(q: Table, n: Table, s: StateKey, acts: seq<string>, coin: nat -> real, drawn: nat): (e: Explore)
    ensures e.action.Some? <==> |acts| > 0
    ensures e.action.Some? ==> e.action.value in acts
    ensures e.action.Some? ==> forall k :: 0 <= k < |acts| ==>
      AtMost(ExploreValue(q, n, s, acts[k]), ExploreValue(q, n, s, e.action.value))
  {
    var f := FOf(q, n, s);
    assert forall k :: 0 <= k < |acts| ==> f(acts[k]) == ExploreValue(q, n, s, acts[k]) != NegInf;
    ExploreSpec(f, acts, coin, drawn);
    ExploreOf(f, acts, coin, drawn)
  }

  // ---------------------------------------------------------------------------
  // Terminal forcing and the update rule.
  // ---------------------------------------------------------------------------

  /** Q[s', a] <- r' for each listed action, in order. */
  function ForceAll(q: Table, s: StateKey, acts: seq<string>, v: real): (r: Table)
    ensures forall k :: 0 <= k < |acts| ==> Value(r, s, acts[k]) == v
    ensures forall s', a :: s' != s || a !in acts ==> Value(r, s', a) == Value(q, s', a)
  {
    if |acts| == 0 then q
    else
      var r := Put(ForceAll(q, s, acts[..|acts| - 1], v), s, acts[|acts| - 1], v);
      assert forall a :: a in acts[..|acts| - 1] ==> a in acts;
      assert forall k :: 0 <= k < |acts| - 1 ==> acts[..|acts| - 1][k] == acts[k];
      r
  }

  /** After forcing, the bootstrap value of the terminal state is its reward. */
  lemma ForcedMax(q: Table, s: StateKey, acts: seq<string>, v: real)
    requires |acts| > 0
    ensures MaxQ(ForceAll(q, s, acts, v), s, acts) == Fin(v)
  {
    MaxQSpec(ForceAll(q, s, acts, v), s, acts);
  }

  /** The update Q + (1/N) (r + (gamma M - Q)), with alpha = 1/N. */
  function Update(qsa: real, nsa: real, r: real, gamma: real, m: real): real
    requires nsa >= 1.0
  {
    qsa + (1.0 / nsa) * (r + (gamma * m - qsa))
  }

  /** On the first visit the update forgets the old value entirely. */
  lemma FirstVisit(qsa: real, r: real, gamma: real, m: real)
    ensures Update(qsa, 1.0, r, gamma, m) == r + gamma * m
  {
  }

  /** With alpha = 1/N the update is the running mean of the targets r + gamma M:
      the new value weighs the old one N - 1 times and the target once. */
  lemma RunningMean(qsa: real, nsa: real, r: real, gamma: real, m: real)
    requires nsa >= 1.0
    ensures Update(qsa, nsa, r, gamma, m) * nsa == (nsa - 1.0) * qsa + (r + gamma * m)
  {
    calc {
      Update(qsa, nsa, r, gamma, m) * nsa;
      (qsa + (1.0 / nsa) * (r + (gamma * m - qsa))) * nsa;
      qsa * nsa + ((1.0 / nsa) * nsa) * (r + (gamma * m - qsa));
      { assert (1.0 / nsa) * nsa == 1.0; }
      qsa * nsa + (r + (gamma * m - qsa));
    }
  }

  /** The updated value lies between the old value and the target. */
  lemma UpdateBetween(qsa: real, nsa: real, r: real, gamma: real, m: real)
    requires nsa >= 1.0
    ensures var t := r + gamma * m;
      var u := Update(qsa, nsa, r, gamma, m);
      (qsa <= t ==> qsa <= u <= t) && (t <= qsa ==> t <= u <= qsa)
  {
    var t := r + gamma * m;
    var alpha := 1.0 / nsa;
    assert 0.0 < alpha <= 1.0;
    assert Update(qsa, nsa, r, gamma, m) == qsa + alpha * (t - qsa);
    if qsa <= t {
      assert 0.0 <= alpha * (t - qsa) <= t - qsa;
    } else {
      assert t - qsa <= alpha * (t - qsa) <= 0.0;
    }
  }
}
