# Conway's Game of Life engine, modelled in Dafny

`conway.dfy` models the simulation engine of the `Conway` class in
`com/hanan/conway/conway.py`. The engine stores only the live cells of an
unbounded integer grid. They sit in a dictionary keyed by `(x, y)` coordinates,
and every stored value is `True`. One call to `play` computes the next
generation:

1. It builds the *process set*: the 3x3 block around every live cell.
2. For every candidate in that set, it counts the live neighbours among the
   eight surrounding coordinates, using the store as it was before the step.
3. It applies the life/death rule and keeps only the candidates that will be
   live.
4. It replaces the whole store with the new dictionary in one assignment.

In the model, the store is the field `currentLiveCells: map<Coord, bool>` of
the class `Conway.Conway`. The constructor fills it and `Play` replaces it
in one assignment; the phase methods only read it. The class
invariant `Valid()` says that every stored value is `true`. The ghost function
`LiveCells()` is the set of stored keys.

The `neighbours` generator becomes the static method `Neighbours`. It keeps
the source's two nested loops and returns the sequence the generator yields.
The step is specified by ghost functions on sets of coordinates:

* `Candidates` is the process set.
* `LiveNeighbours` is the number of live cells adjacent to a coordinate.
* `NextGen` is the set of candidates the rule keeps alive.

`play` is modelled as `Play` plus its three phases, each written as a method
with its own loop: `ProcessSet`, `NextGenAlive` and `NextGeneration`. Every
phase is proved against those functions. The lemma `NextGenExact` lifts the
result from the candidate set to the whole grid: after `Play`, a coordinate
is live exactly when the rule, applied to its old state and its old live
neighbour count, says so.

## Model

| member | source | states |
|---|---|---|
| Conway.Conway.constructor | com/hanan/conway/conway.py:24-29 | The store maps every input cell's `(x, y)` to `true` and holds nothing else, so duplicate input cells collapse into one key. |
| Conway.Conway.Neighbours | com/hanan/conway/conway.py:31-37 | Yields the 3x3 block in row-major order, rows `y-1..y+1` outside and columns `x-1..x+1` inside. The centre is skipped unless `included` is set. The result has 9 or 8 entries, all distinct, and a coordinate is in it iff it is adjacent to `(x, y)` and is not the centre (unless `included`). |
| Conway.NeighbourSeqShape | com/hanan/conway/conway.py:31-37 | The yielded sequence has 9 entries with the centre and 8 without it. No coordinate repeats, and the members are exactly the adjacent coordinates, with the centre present only when it is included. |
| Conway.YieldedAll | com/hanan/conway/conway.py:33-37 | Running the nested loops step by step for all nine iterations yields exactly the listed 8- or 9-element sequence. |
| Conway.Conway.IsAlive | com/hanan/conway/conway.py:40-46 | Total: a missing key gives `false` instead of an error. The result is `true` only for a stored key, and when all stored values are `true` it holds iff the coordinate is a live cell. |
| Conway.Conway.ApplyRules | com/hanan/conway/conway.py:79-92 | A live cell with fewer than 2 live neighbours dies (underpopulation), and one with more than 3 dies (overpopulation). A live cell with 2 or 3 survives. A dead cell becomes live iff it has exactly 3. |
| Conway.Conway.RulesAsBirthAndSurvival | com/hanan/conway/conway.py:79-92 | The rule is equivalent to B3/S23: the next state is live iff the count is 3, or the cell is live and the count is 2. |
| Conway.Conway.ProcessSet | com/hanan/conway/conway.py:50-58 | The union of the included-centre neighbourhoods of all live cells equals `Candidates(LiveCells())`, the set of coordinates adjacent to some live cell. |
| Conway.CandidatesNearLive | com/hanan/conway/conway.py:52-58 | A coordinate is in the process set iff some live cell lies within distance 1 of it, in both directions. |
| Conway.CandidatesInsert | com/hanan/conway/conway.py:54-58 | Adding one live cell to the set grows the process set by exactly that cell's 3x3 block. This is the step each iteration of the union loop takes. |
| Conway.Conway.NextGenAlive | com/hanan/conway/conway.py:66-74 | The loop counts the live neighbours of `(x, y)` in the current store and applies the rule. The result is the rule applied to the cell's liveness and its true live-neighbour count. |
| Conway.CountLiveIsCardinality | com/hanan/conway/conway.py:66-69 | For a sequence without repeats, counting its live entries one by one gives the number of live cells among them. |
| Conway.CountedNeighbours | com/hanan/conway/conway.py:66-69 | Counting live cells over the 8 yielded neighbours gives the number of live cells adjacent to the centre, and that number is at most 8. |
| Conway.Conway.NextGeneration | com/hanan/conway/conway.py:63-77 | The new dictionary stores only `true`, and its keys are exactly the candidates the rule keeps alive. All counts are taken against the unchanged old store. |
| Conway.JudgedStep | com/hanan/conway/conway.py:74-77 | Judging one more candidate adds it to the next generation iff the rule says it lives. |
| Conway.Conway.Play | com/hanan/conway/conway.py:47-78 | One generation step. The store stays all-`true`, and its key set becomes `NextGen` of the old live set. For every coordinate on the grid, it is now live iff the rule holds for its old state and its old live neighbour count. The update is simultaneous: no count sees a cell already updated. |
| Conway.NextGenExact | com/hanan/conway/conway.py:52-77 | Restricting the rule to the process set loses nothing. A coordinate is in the next generation iff the rule, applied to its state and live neighbour count, says it lives. |
| Conway.NextGenNearLive | com/hanan/conway/conway.py:52-77 | Every cell live in the next generation lies within distance 1 of a cell live in the current one. |
| Conway.LoneCellDies | com/hanan/conway/conway.py:79-87 | A single live cell dies of underpopulation, and no cell is born next to it, so the next generation is empty. |
| Conway.ExtinctionIsFinal | com/hanan/conway/conway.py:50-58 | An empty store has an empty process set, so it stays empty. |

## Left out

- Logging: the `log.debug` calls and the logger set-up in `com/hanan/conway/conway.py` have no effect on the store and are not modelled.
- The interfaces `IConwayGame` and `IConwayView`, the text user interface classes, the `__main__` block and `console_view.py` are input/output around the engine and are not part of this model.
- `neighbours` is a lazy Python generator. The model returns the whole sequence it yields, in the same order, so laziness is not captured.
- The iteration order over the dictionary's keys and over `process_set` is arbitrary in the model: each loop picks any remaining element. The proved result does not depend on the order.
- Conway.Conway.NextGenAlive, Conway.Conway.NextGeneration and Conway.Conway.Play require `Valid()`, which says every stored value is `true`. The constructor establishes it and `Play` preserves it. Code that writes `False` into `current_live_cells` from outside the class is not modelled.
- Cell coordinates are unbounded integers, as in Python, so there is no overflow to model.
