# Tabular Q-learning in a grid world

This project models, in Dafny, the core of a small Java Q-learning program. An agent
learns to walk a grid of cells with integer rewards, goal cells and holes. The grid is
simulated by a Markov decision process (MDP). Five parts are modelled:

- **The MDP** (`Mdp.dfy`).
  - It reads its states, the goal names, the actions with their action-confusion
    matrix, the declared `(from, action, to)` transitions, the discount and the start
    state from a token stream.
  - It builds the 3-D transition tensor by accumulating confusion rows.
  - It moves to a successor by inverse-CDF selection on a draw `r`.
- **The percept** (`Percepts.dfy`): the 5x5 window of cells around the agent that the
  MDP hands to the learner. Positions off the grid hold nothing.
- **The state abstraction** (`States.dfy`).
  - Each cell is classified as `X`, `+`, `-`, ` ` or `O`.
  - The four neighbours collapse onto the centre when the centre is not a plain cell.
  - `equals`, `hashCode` and `toString` work over the five symbols.
- **The Q and N tables and their folds** (`QTables.dfy`).
  - Point set, point add and a lookup that defaults to 0.
  - The running maximum and arg-max over the action list.
  - The optimistic exploration function (+infinity while a pair has been tried fewer
    than 100 times).
  - The exploring arg-max that breaks ties with coin draws.
  - The update rule with `alpha = 1/N`.
- **The learner** (`Learner.dfy`).
  - The `MyQLearner` class with its `q`, `n`, `s`, `a` and `r` fields.
  - `play`, proved step for step against the pure transition function `Step`.
  - The per-state and per-cell reports `getUtility`, `getPolicy` and `getN`.

The supporting modules are:

- `ExtReals.dfy`: doubles as reals extended with the two infinities.
- `Cells.dfy`: grid cells, `ArrayList.indexOf`, and the grid-world predicates and
  coordinate functions, which are parameters of the model.

Java's pseudo-random generator is not modelled. Its draws are inputs: the draw `r` of
`takeAction`, and the function `coin` from draw number to value that
`maxExplorationAction` consumes.

## Model

| member | source | states |
|---|---|---|
| Cells.Find | src/util/MarkovDecisionProcess.java:85 | `actions.indexOf(a)` is -1 or an index holding `a` |
| Cells.FindSpec | src/util/MarkovDecisionProcess.java:85 | `indexOf` returns the first occurrence, and -1 exactly when the action is absent |
| Cells.IndexOf | src/util/MarkovDecisionProcess.java:84-86 | `states.indexOf(new GridCell(name, 0))` (cells equal by name) is -1 or the index of a cell with that name |
| Cells.IndexOfSpec | src/util/MarkovDecisionProcess.java:84-86 | the index is the first cell with the name, and -1 exactly when no cell has it |
| Cells.IndexOfMembers | src/util/MarkovDecisionProcess.java:262-263 | every listed cell is found, at its own position or at an earlier one with the same name |
| QTables.Put | src/util/QLearner.java:63-72 | after `putValue`, the entry reads `v`, every other entry is unchanged, and the state becomes a key |
| QTables.Add | src/util/QLearner.java:86-99 | after `addValue`, the entry is the old value (0 when absent) plus `x`, and every other entry is unchanged |
| QTables.AddKeepsCounts | src/skeleton/MyQLearner.java:92-93 | adding 1 keeps N free of negative entries and leaves the visited entry at least 1 |
| QTables.ValueDefault | src/util/QLearner.java:112-121 | `value` is 0.0 when the state or the action is absent, and the stored entry otherwise |
| QTables.Value | src/util/QLearner.java:112-121 | `value`: the entry of the nested map, with 0.0 for a missing state or action; `QTables.ValueDefault` states both cases |
| QTables.MaxOf | src/util/QLearner.java:132-144 | the running maximum from -infinity bounds every value, is -infinity for no actions, and is attained when all values are finite |
| QTables.MaxQ | src/util/QLearner.java:132-144 | `maxValue`: the running maximum of Q over the listed actions; `QTables.MaxQSpec` states its meaning |
| QTables.MaxQSpec | src/util/QLearner.java:132-144 | `maxValue` is -infinity exactly for an empty list, bounds Q of every listed action, and equals Q of one of them otherwise |
| QTables.ArgMaxOf | src/util/QLearner.java:190-204 | the value the arg-max loop holds is the running maximum |
| QTables.ArgMaxQ | src/util/QLearner.java:190-204 | `maxAction`: the action the strict arg-max loop holds; `QTables.ArgMaxQSpec` states its meaning |
| QTables.ArgMaxFirst | src/util/QLearner.java:190-204 | the held action is null only for an empty list; otherwise it is the first listed action of maximal value, and every earlier action is strictly smaller |
| QTables.ArgMaxQSpec | src/util/QLearner.java:190-204 | `maxAction` returns null only for an empty list, and otherwise the first listed action whose Q equals `maxValue` |
| QTables.GreedyAttains | src/util/QLearner.java:190-204 | for a non-empty list the greedy action is listed, its Q is `maxValue`, and no listed action has a larger Q |
| QTables.ExploreValue | src/skeleton/MyQLearner.java:56-64 | `explorationFunction` is +infinity exactly when `N[s,a] < 100` (`NE`), and `Q[s,a]` otherwise |
| QTables.UnseenIsOptimistic | src/skeleton/MyQLearner.java:56-64 | a pair missing from N has exploration value +infinity |
| QTables.ExploreOf | src/util/QLearner.java:155-179 | the tie counter stays at least 1, and the number of draws never decreases |
| QTables.ExploreStep | src/util/QLearner.java:162-176 | one iteration keeps `ties >= 1` and draws at most once |
| QTables.ExploreSpec | src/util/QLearner.java:155-179 | with every f above -infinity, the chosen action is listed (null only for an empty list), has maximal f, and `ties` counts the actions sharing that maximum |
| QTables.ExploreChooses | src/util/QLearner.java:155-179 | with every f above -infinity, an action is chosen exactly when the list is non-empty, and null goes with a maximum of -infinity |
| QTables.CountAbove | src/util/QLearner.java:171-176 | a strictly larger f has no earlier match, so the tie counter restarts at 1 |
| QTables.ExploreWithoutSwaps | src/util/QLearner.java:155-179 | when every draw of `nextDouble` lies in [0.5, 1), no tie swaps, so the exploring choice is `maxAction`'s choice, the first action of maximal f |
| QTables.ReciprocalAtMostHalf | src/util/QLearner.java:165-169 | after a tie `ties` is at least 2, so the swap threshold `1/ties` is at most one half |
| QTables.ExploreChoice | src/util/QLearner.java:155-179 | `maxExplorationAction` returns an action exactly when the list is non-empty, and then a listed action whose exploration value is at least that of every listed action |
| QTables.ForceAll | src/skeleton/MyQLearner.java:86-90 | forcing sets Q of every listed action of s' to r' and changes no other entry |
| QTables.ForcedMax | src/skeleton/MyQLearner.java:86-106 | after forcing, `maxValue(s')` is the terminal reward, so the bootstrap into a terminal state uses its reward |
| QTables.FirstVisit | src/skeleton/MyQLearner.java:94-105 | with N = 1 the update gives exactly `r + gamma * maxValue(s')` |
| QTables.Update | src/skeleton/MyQLearner.java:94-105 | the rule `Q + (1/N)(r + gamma M - Q)`; `QTables.RunningMean`, `QTables.FirstVisit` and `QTables.UpdateBetween` state its meaning |
| QTables.RunningMean | src/skeleton/MyQLearner.java:94-105 | with `alpha = 1/N`, N times the new Q is (N-1) times the old Q plus the target |
| QTables.UpdateBetween | src/skeleton/MyQLearner.java:94-105 | the new Q lies between the old Q and the target |
| States.GetType | src/skeleton/MyState.java:51-73 | `getType` gives one of the five symbols, tested in Java's order: `X` exactly for null, `+` exactly for goals, `-` exactly for holes that are not goals, ` ` exactly for normal cells that are neither, and `O` for every other cell |
| States.Make | src/skeleton/MyState.java:28-42 | a state exists exactly when the centre cell does; its terminal flag and current symbol come from the centre; when the centre is ` `, the neighbours are the four cells' types; otherwise all four equal the centre symbol |
| States.FromPercept | src/util/State.java:20-23 | a state is built exactly when the percept's centre is non-null; it is well formed and `isTerminal` is the centre's terminal flag |
| States.Key | src/skeleton/MyState.java:105-176 | the key holds exactly the five symbols |
| States.Equals | src/skeleton/MyState.java:105-176 | `equals` compares the five symbols and nothing else; `States.EqualsIffSameKey` states its meaning |
| States.EqualsIffSameKey | src/skeleton/MyState.java:105-176 | `equals` holds exactly when the five symbols agree; the terminal flag plays no part |
| States.Wrap32 | src/skeleton/MyState.java:92-102 | Java `int` arithmetic: the result is in [-2^31, 2^31) and congruent to the input mod 2^32 |
| States.WrapSmall | src/skeleton/MyState.java:92-102 | a value already in `int` range is unchanged |
| States.SymbolHash | src/skeleton/MyState.java:92-102 | a symbol's `String.hashCode` is its character code, between 32 and 88 |
| States.StringHash | src/skeleton/MyState.java:96-100 | `String.hashCode`, the base-31 fold over the characters in Java `int` arithmetic, lies in the `int` range |
| States.HashCode | src/skeleton/MyState.java:92-102 | `hashCode` folds the five symbols' hashes with 31 in Java `int` arithmetic and lies in the `int` range |
| States.HashCodeNoOverflow | src/skeleton/MyState.java:92-102 | for a well-formed state, `hashCode` is the plain base-31 polynomial over current, east, north, south and west, and it lies strictly between 0 and 2^31 |
| States.EqualStatesHashAlike | src/skeleton/MyState.java:92-176 | equal states have equal `hashCode` |
| States.ToString | src/skeleton/MyState.java:179-183 | `toString` is the five symbols joined by four commas |
| States.ToStringIffEquals | src/skeleton/MyState.java:105-183 | two well-formed states are equal exactly when their strings are equal |
| States.ToStringLayout | src/skeleton/MyState.java:179-183 | the string of a well-formed state has 9 characters, with the symbols at the even positions |
| Percepts.WindowCell | src/util/Percept.java:41-55 | window cell (i, j) exists exactly when the name at `(row-2+i, col-2+j)` is a state, and it is then the first state with that name |
| Percepts.WindowCellAt | src/util/Percept.java:47-53 | the cell found for the target name is the window cell at (i, j) |
| Percepts.Percept.constructor | src/util/Percept.java:30-56 | the percept holds the MDP's actions and discount, the given score, and a fresh 5x5 window whose every position is the window cell there |
| Percepts.Percept.FillRow | src/util/Percept.java:43-54 | row i of the window gets its five cells, and no other row changes |
| Percepts.CentreIsAgent | src/util/Percept.java:77-80 | when the agent's name round-trips through the grid coordinates, `current()` is the agent's own state |
| Percepts.Percept.Current | src/util/Percept.java:77-80 | `current()` is the centre of the window; `Percepts.CentreIsAgent` shows it is the agent's own cell |
| Mdp.Scanner.constructor | src/util/MarkovDecisionProcess.java:58-68 | the scanner starts at the first token |
| Mdp.Scanner.Next | src/util/MarkovDecisionProcess.java:84-86 | `next` returns the next token's text and advances, or fails with NoSuchElement at the end |
| Mdp.Scanner.NextInt | src/util/MarkovDecisionProcess.java:127 | `nextInt` returns an integer token and advances; otherwise it fails (InputMismatch or NoSuchElement) without advancing |
| Mdp.Scanner.NextDouble | src/util/MarkovDecisionProcess.java:110 | `nextDouble` accepts integer and decimal tokens and advances; otherwise it fails without advancing |
| Mdp.Scanner.HasNextInt | src/util/MarkovDecisionProcess.java:130 | `hasNextInt` holds exactly when a next token exists and is an integer |
| Mdp.NextIntFrom | src/util/MarkovDecisionProcess.java:130-135 | the goal names end at the first integer token at or after the position |
| Mdp.TokenTextsStep | src/util/MarkovDecisionProcess.java:130-135 | reading one more goal name adds that name to the set read |
| Mdp.RowStartStep | src/util/MarkovDecisionProcess.java:105-112 | each action row is a name followed by n numbers |
| Mdp.NamesRead | src/util/MarkovDecisionProcess.java:105-107 | after i rows, i action names have been read |
| Mdp.ActionsRead | src/util/MarkovDecisionProcess.java:100-113 | the action list has as many names as the count token says |
| Mdp.TriplesRead | src/util/MarkovDecisionProcess.java:81-86 | m triples are read, in order |
| Mdp.AllInRangeAppend | src/util/MarkovDecisionProcess.java:84-89 | a triple with valid indices keeps the read triples valid |
| Mdp.TriplesReadStep | src/util/MarkovDecisionProcess.java:82-86 | reading one more triple appends it |
| Mdp.TriplesReadPrefix | src/util/MarkovDecisionProcess.java:82-86 | the i-th triple does not depend on how many are read |
| Mdp.MassAppend | src/util/MarkovDecisionProcess.java:87-90 | a triple `(s0, a, s1)` adds `actionUncertainty[j][a]` at `(s0, j, s1)` for every j and changes no other entry |
| Mdp.Mass | src/util/MarkovDecisionProcess.java:80-91 | the entry `transProbs[s0][j][s1]` after a sequence of triples, starting from zero |
| Mdp.Accumulated | src/util/MarkovDecisionProcess.java:80-91 | the whole tensor holds, at every index, the mass the triples put there |
| Mdp.PickFrom | src/util/MarkovDecisionProcess.java:203-211 | the scan stops at or after its starting state and within the list |
| Mdp.Pick | src/util/MarkovDecisionProcess.java:197-213 | the chosen successor is a state index |
| Mdp.PickFromSpec | src/util/MarkovDecisionProcess.java:203-211 | the running sums before the stop are all below r, and the stop reaches r unless it is the last state |
| Mdp.PickSpec | src/util/MarkovDecisionProcess.java:197-213 | `takeAction` picks the first state whose running sum reaches r, or the last state if none does |
| Mdp.PickUnique | src/util/MarkovDecisionProcess.java:197-213 | that state is the only index with those properties |
| Mdp.PickZeroDraw | src/util/MarkovDecisionProcess.java:203-211 | a draw of 0 selects the first state, even when its probability is 0 |
| Mdp.PickPositive | src/util/MarkovDecisionProcess.java:203-211 | for a positive draw that the whole row reaches, the chosen state has positive probability |
| Mdp.Row | src/util/MarkovDecisionProcess.java:203-206 | the probabilities are summed in state order, each looked up by the state's name |
| Mdp.TensorRowSumAppend | src/util/MarkovDecisionProcess.java:87-90 | a triple from s0 adds its confusion entry to the sum of row (s0, j) |
| Mdp.WeightedSumAppend | src/util/MarkovDecisionProcess.java:87-90 | a triple from s0 adds its confusion entry to the sum grouped by nominal action |
| Mdp.CountAppend | src/util/MarkovDecisionProcess.java:82-86 | a triple from s0 with action a adds one to the count for (s0, a) |
| Mdp.TensorRowIsWeighted | src/util/MarkovDecisionProcess.java:80-91 | row (s0, j) of the tensor sums to the confusion row j weighted by the number of triples per nominal action |
| Mdp.TensorRowSumEmpty | src/util/MarkovDecisionProcess.java:80 | the tensor starts all zero |
| Mdp.WeightedSumEmpty | src/util/MarkovDecisionProcess.java:80 | with no triples the weighted sum is zero |
| Mdp.WeightedSumOnce | src/util/MarkovDecisionProcess.java:87-90 | with exactly one triple per action, the weighted sum is the confusion row's sum |
| Mdp.RowStochastic | src/util/MarkovDecisionProcess.java:80-91 | if confusion row j sums to 1 and every action has exactly one declared successor from s0, then row (s0, j) of the tensor sums to 1 |
| Mdp.RepeatedTripleAccumulates | src/util/MarkovDecisionProcess.java:89 | declaring a triple twice adds its mass twice |
| Mdp.MarkovDecisionProcess.Empty | src/util/MarkovDecisionProcess.java:17-24 | before `initialize`, there are no states and no actions |
| Mdp.MarkovDecisionProcess.Create | src/util/MarkovDecisionProcess.java:32-50 | the constructor completes exactly when the description is well formed, and the new MDP then holds the states, actions, confusion matrix, tensor, discount and start state the description gives |
| Mdp.MarkovDecisionProcess.Initialize | src/util/MarkovDecisionProcess.java:58-68 | `initialize` completes exactly when the description is well formed, and its fields are then what the description says |
| Mdp.MarkovDecisionProcess.ReadStart | src/util/MarkovDecisionProcess.java:66-67 | gamma is the next number and the current state is the state named by the last token; otherwise the read fails |
| Mdp.MarkovDecisionProcess.ReadStates | src/util/MarkovDecisionProcess.java:121-136 | `readStates` succeeds exactly when the block is well formed; the states are then in input order, with terminal set on exactly the first cell of each goal name |
| Mdp.MarkovDecisionProcess.ReadCells | src/util/MarkovDecisionProcess.java:123-128 | the n cells are read in order, each a name and an integer reward |
| Mdp.MarkovDecisionProcess.ReadGoals | src/util/MarkovDecisionProcess.java:130-135 | goal names are read up to the next integer token, each marking its cell; an unknown name is an index error |
| Mdp.MarkovDecisionProcess.ReadActions | src/util/MarkovDecisionProcess.java:100-113 | `readActions` succeeds exactly when the block is well formed; the actions are in input order and the confusion matrix is filled row by row |
| Mdp.MarkovDecisionProcess.ReadRow | src/util/MarkovDecisionProcess.java:108-111 | row i is filled with the next n numbers, or the read fails |
| Mdp.MarkovDecisionProcess.ReadTransitions | src/util/MarkovDecisionProcess.java:76-92 | `readTransitions` succeeds exactly when every triple reads and names known states and actions; the fresh tensor then holds the accumulated mass of the triples |
| Mdp.MarkovDecisionProcess.ReadTriple | src/util/MarkovDecisionProcess.java:84-86 | three names resolve to indices, -1 for an unknown name |
| Mdp.MarkovDecisionProcess.AddTriple | src/util/MarkovDecisionProcess.java:87-90 | the inner loop adds one triple's mass to the tensor |
| Mdp.MarkovDecisionProcess.TransProb | src/util/MarkovDecisionProcess.java:260-264 | `transProb` is defined exactly when all three arguments are members, and is then the tensor entry |
| Mdp.MarkovDecisionProcess.Sample | src/util/MarkovDecisionProcess.java:200-211 | the loop with its running sum stops at `Pick` of the row |
| Mdp.MarkovDecisionProcess.TakeAction | src/util/MarkovDecisionProcess.java:197-213 | `takeAction` moves to the inverse-CDF successor and changes nothing else; an unknown current state or action fails without moving |
| Mdp.MarkovDecisionProcess.GetCurrent | src/util/MarkovDecisionProcess.java:152-155 | `getCurrent` equals the current state |
| Mdp.MarkovDecisionProcess.SetCurrent | src/util/MarkovDecisionProcess.java:144-147 | `setCurrent` sets the current state |
| Mdp.MarkovDecisionProcess.GetStates | src/util/MarkovDecisionProcess.java:160-168 | the copy equals the state list, in order |
| Mdp.MarkovDecisionProcess.GetActions | src/util/MarkovDecisionProcess.java:173-181 | the copy equals the action list, in order |
| Mdp.MarkovDecisionProcess.GetGamma | src/util/MarkovDecisionProcess.java:186-189 | `getGamma` is the discount |
| Mdp.RowStartLess | src/util/MarkovDecisionProcess.java:105-112 | later action rows start after earlier rows end |
| Mdp.MarkedIndex | src/util/MarkovDecisionProcess.java:133-134 | marking cells terminal never changes where a name is found |
| Mdp.MarkedStep | src/util/MarkovDecisionProcess.java:130-135 | one more goal name sets terminal on the first cell with that name |
| Mdp.MarkedAddName | src/util/MarkovDecisionProcess.java:133-134 | marking a name sets terminal on its first cell only |
| Mdp.Marked | src/util/MarkovDecisionProcess.java:130-135 | the cells after `setTerminal` on the first cell of each goal name; `Mdp.MarkedStep` and `Mdp.MarkedIndex` state its meaning |
| Mdp.StatesRead | src/util/MarkovDecisionProcess.java:121-136 | the state list `readStates` builds: the cells in input order, then the goal names marked |
| Learner.Bootstrap | src/skeleton/MyQLearner.java:86-90 | a non-terminal s' leaves Q unchanged; a terminal s' has Q set to r' for every listed action |
| Learner.LearnAverages | src/skeleton/MyQLearner.java:94-105 | the learnt Q[s,a] is the running mean of the targets, and no other entry changes |
| Learner.Learn | src/skeleton/MyQLearner.java:94-105 | `putValue(q, s, a, Q_sa + alpha * delta)` with N already counted; `Learner.LearnAverages` states its meaning |
| Learner.Learned | src/skeleton/MyQLearner.java:91-106 | Q after the update branch of `play`, bootstrapping from `maxValue` of the forced table when there is a previous pair |
| Learner.Visit | src/skeleton/MyQLearner.java:91-93 | counting the visit keeps N a table of counts, and the visited pair then has N at least 1 |
| Learner.Step | src/skeleton/MyQLearner.java:73-131 | a play step keeps the learner's memory well formed: s, a and a finite r come and go together |
| Learner.StepCountsVisit | src/skeleton/MyQLearner.java:91-93 | N[s,a] of the previous pair grows by exactly 1, no other N entry changes, and with no previous pair N is unchanged |
| Learner.StepTerminal | src/skeleton/MyQLearner.java:86-110 | at a terminal s', s and a become null, r becomes -infinity, no draw is used, and the bootstrap value of s' is its reward |
| Learner.StepExplores | src/skeleton/MyQLearner.java:116-121 | outside a terminal state, s = s', r = r', and a is a listed action of maximal exploration value, so an action tried fewer than 100 times is preferred |
| Learner.CellState | src/util/QLearner.java:213-259 | a cell has a state exactly when its window centre exists, and that state is well formed |
| Learner.CellStateCentre | src/util/Percept.java:77-80 | for a listed cell whose name round-trips, the state exists and takes its terminal flag and symbol from the cell |
| Learner.CountOf | src/util/QLearner.java:249-259 | the reported count is N of the greedy action, and 0 for a null action |
| Learner.TabulateSpec | src/util/QLearner.java:213-259 | the report map has exactly the listed cells as keys, each mapped to its own value |
| Learner.Tabulate | src/util/QLearner.java:213-259 | the HashMap that the per-cell reports fill, one `put` per listed cell; `Learner.TabulateSpec` states its keys and values |
| Learner.TabulateAt | src/util/QLearner.java:213-259 | every listed cell is reported with its own value |
| Learner.CellValues | src/util/QLearner.java:213-259 | a cell's utility, policy and count are `maxValue`, `maxAction` and N of that action in the cell's state |
| Learner.CellReports | src/util/QLearner.java:213-259 | every cell with a state is in all three reports; its policy is a listed action whose Q is its utility, which bounds Q of every listed action, and its count is N of that action |
| Learner.UpdateByAlpha | src/skeleton/MyQLearner.java:94-105 | `play`'s arithmetic with `alpha` and `delta` is the update rule |
| Learner.MyQLearner.constructor | src/skeleton/MyQLearner.java:38-44 | a new learner has empty Q and N, null s and a, and r = -infinity |
| Learner.MyQLearner.MaxValue | src/util/QLearner.java:132-144 | the loop computes `maxValue` |
| Learner.MyQLearner.MaxAction | src/util/QLearner.java:190-204 | the loop computes `maxAction` |
| Learner.MyQLearner.MaxExplorationAction | src/util/QLearner.java:155-179 | the loop computes the exploring choice and consumes one draw per tie |
| Learner.MyQLearner.GetUtility | src/util/QLearner.java:268-276 | the utility map has exactly Q's states as keys, each mapped to `maxValue` |
| Learner.MyQLearner.GetPolicy | src/util/QLearner.java:285-293 | the policy map has exactly Q's states as keys, each mapped to `maxAction` |
| Learner.MyQLearner.StateOfCell | src/util/QLearner.java:217-219 | `new MyState(new Percept(mdp, cell, 0))` is the cell's state |
| Learner.MyQLearner.GetCellUtility | src/util/QLearner.java:213-222 | the per-cell utility map is the cell table of `maxValue` |
| Learner.MyQLearner.GetCellPolicy | src/util/QLearner.java:231-240 | the per-cell policy map is the cell table of `maxAction` |
| Learner.MyQLearner.GetCellN | src/util/QLearner.java:249-259 | the per-cell count map is the cell table of N of the greedy action |
| Learner.MyQLearner.Play | src/skeleton/MyQLearner.java:73-131 | `play` moves the learner's state, tables and draw count exactly as `Step` does, and returns the new `a` |
| Learner.MyQLearner.Observe | src/skeleton/MyQLearner.java:80-106 | the first half of `play`: terminal forcing, then counting and learning from the previous pair |
| Learner.MyQLearner.ForceTerminal | src/skeleton/MyQLearner.java:86-90 | the loop sets Q[s', a] to r' for every listed action |
| Learner.MyQLearner.LearnFromPrevious | src/skeleton/MyQLearner.java:91-106 | N[s,a] grows by 1 and Q[s,a] takes the `alpha = 1/N` update towards `r + gamma * maxValue(s')` |

## Left out

- `Game`, `HumanPlayer`, `Player` and the solution stub of `MyQLearner` are not part of
  this model. GridCell and GridWorld are not part of this model either: their
  predicates and coordinate functions are parameters (`World`).
- The printing members are left out: `display`, `displayStats`, `displayStatMaps`, and
  the `DEBUG` output.
- `java.util.Random` is left out. Its draws are inputs: `r` for `takeAction`, and
  `coin` for `maxExplorationAction`. The model does not state that tie-breaking is
  uniform.
- `Scanner`'s character-level parsing is left out. The description is a sequence of
  integer, decimal and word tokens.
- `clone` and object identity are left out. Cells are values, so copies and
  originals cannot alias, and `getCurrent`/`getStates` return equal values.
- IEEE-754 doubles are modelled as reals plus the two infinities. Rounding and NaN
  are not modelled.
- `getQ` and `getN()` are left out: they are plain getters of the two tables.
- The constructors that take a random seed are left out; they differ from the plain
  ones only in how the generator is seeded.
- Learner.MyQLearner.Play: requires a non-empty action list and a non-null centre
  cell. The Java code dereferences the centre, and with no actions it would learn
  from a `maxValue` of -infinity.
- Learner.CellState: where a listed cell has no window centre, Java throws a
  NullPointerException in `State`. The model reports no state there, and the
  per-cell reports then hold -infinity, null and 0.
- Learner.MyQLearner.GetCellUtility, Learner.MyQLearner.GetCellPolicy and
  Learner.MyQLearner.GetCellN: these require every cell name to round-trip through
  the grid coordinates, which GridWorld guarantees for its own names.
- Mdp.MarkovDecisionProcess.TakeAction: requires at least one state. With none,
  Java would set the current state to null.
- States.Make: Java compares `current` with `" "` by reference. The two agree
  because `getType` returns interned literals.
- Learner.Tabulate: the per-cell reports are keyed by the whole cell record. Java's
  `HashMap<GridCell, …>` uses GridCell's name equality, so two listed cells with one
  name are one key there (the later value wins) and two keys here. Lookups by a cell
  with the same name but another reward or terminal flag also differ.
- Tables are keyed by `StateKey`, the five symbols. This is exactly what `equals`
  and `hashCode` compare, so keying by the whole state would give the same maps.
- 32-bit overflow is modelled only in `hashCode`. Counts and indices elsewhere are
  unbounded integers.

