# MCTS engine of rlmolecule, modelled in Dafny

This project models the Monte Carlo tree search engine of `rlmolecule`: the class
`MCTS` in `rlmolecule/mcts/mcts.py`. Each search round from a vertex has four phases:

- select: descend by the UCB1 score until an unexpanded or terminal vertex;
- expand: create the children of an unexpanded vertex through the vertex cache;
- evaluate: a random playout to a terminal state, scored by the problem's reward;
- backpropagate: one more visit and the reward for every vertex on the search path.

`sample` runs a number of such rounds. `run` alternates sampling and committing to
a child until it reaches a vertex without children.

The model is organised as follows:

- `wrappers.dfy`: `Option` and `Result`.
- `graph.dfy` (module `Graph`):
  - the problem interface: initial state, next actions, reward;
  - vertices;
  - the arena of shared vertices and the state-to-vertex cache, with their well-formedness;
  - the random playout.
- `policy.dfy` (module `Policy`):
  - the UCB1 score and its error;
  - Python's `max` (the first maximal key wins);
  - the UCB1 choice of a child;
  - the two action selection policies.
- `search.dfy` (module `Search`):
  - the UCB1 descent of `_select` and the statistics update of `_backpropagate`, as functions on the arena;
  - what one search round guarantees.
- `trace.dfy` (module `Trace`): the trace `run` leaves: the committed vertices, the arena after the samples of each step, and the rounds of those samples.
- `mcts.dfy` (module `Mcts`): class `MCTS`. Its fields are the arena `vertices` and the cache `cache`. Its methods mirror the Python methods and are proved against the functions of `Search`.

Vertices are arena indices, so several parents that reach an equal state share one
vertex, as the cache makes them do in Python. The class invariant `Valid()` says three things:

- the arena is well formed: the children of a vertex are the vertices of its state's next actions, in order;
- the cache indexes the arena exactly;
- every vertex with children set has been visited.

The last point is what keeps `_ucb_score` from raising during any round that `sample` runs.

Modelling choices:

- Random choices (`random.choice`, the softmax draw) are nondeterministic choices.
- Floats are reals.
- The exploration term `sqrt(2 * ln(parent) / child)` is a function `bonus` on the
  two visit counts, given to the constructor.
- `_evaluate` expands the leaf and, when the leaf has children, appends one of them
  at random to the search path. It then plays out from the state of the leaf
  itself, not from the child it appended. The model does the same.

## Model

| member | source | states |
|---|---|---|
| Mcts.MCTS.constructor | rlmolecule/mcts/mcts.py:14-24 | the engine keeps the problem, the default number of samples (20 unless given) and the UCB constant, starts with an empty arena and cache, and satisfies its invariant |
| Mcts.MCTS.GetVertexForState | rlmolecule/mcts/mcts.py:36 | the vertex of a state is the cached one when the state is known (nothing changes); otherwise a new unvisited, unexpanded vertex is appended and cached; the invariant is kept |
| Mcts.MCTS.GetRoot | rlmolecule/mcts/mcts.py:152-153 | the root is the vertex of the problem's initial state: the cached one when the initial state is known (nothing changes), otherwise a new unvisited, unexpanded vertex appended and cached; the invariant is kept |
| Mcts.MCTS.Expand | rlmolecule/mcts/mcts.py:91-99 | an unexpanded leaf gets as children the vertices of its state's next actions, in order; an expanded one is left as it is; only the leaf's children change, and the only vertices added are the cache's fresh vertices (no visits, no children, value zero) for next actions of the leaf's state |
| Graph.Rollout | rlmolecule/mcts/mcts.py:123-127 | the playout ends in a state without next actions, reachable from its start by a walk of next actions |
| Mcts.MCTS.Evaluate | rlmolecule/mcts/mcts.py:101-129 | the leaf is expanded; if it is terminal, the path is unchanged and the value is the leaf's reward; otherwise one child of the leaf is appended to the path; the only vertices added are the cache's fresh vertices (no visits, no children, value zero) for next actions of the leaf's state; either way the value is the reward of a terminal state reachable from the leaf's state |
| Policy.UcbScore | rlmolecule/mcts/mcts.py:155-166 | an error exactly when the parent was never visited; infinity exactly when the child was never visited; otherwise the child's value plus the constant times the exploration bonus |
| Policy.FirstMax | rlmolecule/mcts/mcts.py:89 | Python's `max` by key: no key beats the chosen one, and every key before it is strictly smaller, so the first maximum is chosen |
| Policy.UcbChoice | rlmolecule/mcts/mcts.py:89 | the UCB1 choice among children is an error exactly when the parent was never visited, and otherwise a position among the children |
| Policy.UnvisitedChildWins | rlmolecule/mcts/mcts.py:164-165 | when some child was never visited, the child chosen is the first unvisited one, whatever the scores of its siblings |
| Policy.VisitedChildrenCompareByScore | rlmolecule/mcts/mcts.py:166 | when every child was visited, the child chosen has the greatest `value + c * bonus`, and no child before it has that score |
| Search.Descend | rlmolecule/mcts/mcts.py:77-89 | the descent of `_select` is a chain of parent-to-child steps that starts at the root and ends at an unexpanded or terminal vertex; it fails only at a vertex with children |
| Search.DescendErrReachesUnvisited | rlmolecule/mcts/mcts.py:162-163 | a descent fails only by reaching, along UCB1 choices from its start, a vertex that has children and was never visited |
| Search.UnvisitedOnUcbWalkErrs | rlmolecule/mcts/mcts.py:162-163 | conversely, when the UCB1 choices from a vertex reach a vertex with children and no visits, the descent from it fails |
| Search.DescendFollowsUcb | rlmolecule/mcts/mcts.py:89 | every step of the descent goes to the child that the UCB1 choice picks |
| Search.DescendNeverFails | rlmolecule/mcts/mcts.py:162-163 | in an arena where every expanded vertex was visited, the descent never meets the unvisited-parent error |
| Search.DescendEndsAtFirstUnvisitedChild | rlmolecule/mcts/mcts.py:83-89 | in such an arena, a descent from a vertex with an unvisited child moves to the first unvisited child and stops there |
| Mcts.MCTS.DescendFrom | rlmolecule/mcts/mcts.py:77-89 | the descent loop changes nothing and returns exactly the descent (or its error) that `Search.Descend` specifies |
| Search.LeafSelection | rlmolecule/mcts/mcts.py:83-87 | evaluating an unexpanded leaf, or scoring a terminal one, at the end of the descent yields what `_select` returns: the descent path (plus one child of the leaf), only the leaf expanded, and the reward of a terminal state reachable from the leaf |
| Mcts.MCTS.Select | rlmolecule/mcts/mcts.py:65-89 | an error exactly when the descent meets an unvisited parent, and then nothing changes; otherwise the path is the UCB1 descent, plus one child of the leaf if expanding it found children; only the leaf was expanded, and the only vertices added are the cache's fresh vertices (no visits, no children, value zero) for next actions of the leaf's state; the value is the reward of a terminal state reachable from the leaf, the leaf's own reward when it was already terminal |
| Graph.Update | rlmolecule/mcts/mcts.py:139 | an update adds one visit and keeps the vertex's state and children |
| Search.BackpropagatedDeepestFirst | rlmolecule/mcts/mcts.py:138-139 | the last vertex of the search path is the first one updated |
| Search.BackpropagatedCounts | rlmolecule/mcts/mcts.py:138-139 | each vertex gains one visit per occurrence in the path, keeps its state and children, and is untouched when it is not on the path |
| Search.BackpropagatedValue | rlmolecule/mcts/mcts.py:138-139 | each vertex's value grows by the reward added once per occurrence in the path |
| Search.RepeatedIsProduct | rlmolecule/mcts/mcts.py:139 | the reward added once per occurrence is the reward times the number of occurrences |
| Search.BackpropagatedEvolves | rlmolecule/mcts/mcts.py:138-139 | backpropagation keeps the arena well formed and only lets it evolve: no vertex loses a visit, a state or its children |
| Mcts.MCTS.Backpropagate | rlmolecule/mcts/mcts.py:131-139 | the reverse loop leaves exactly the arena `Search.Backpropagated` specifies, keeps the cache and keeps the arena well formed |
| Search.RoundKeepsExpandedVisited | rlmolecule/mcts/mcts.py:57-59 | after a select and backpropagate round, every expanded vertex has still been visited |
| Search.RoundFacts | rlmolecule/mcts/mcts.py:57-59 | a round from `v` keeps the invariant, lets the arena only evolve, leaves `v` expanded and gives `v` exactly one more visit, since the search path starts at `v` and passes it once |
| Mcts.MCTS.Sample | rlmolecule/mcts/mcts.py:52-59 | exactly `n` rounds run (`n` is 1 unless given; none when `n` is not positive), each on the arena the previous one left, from the arena before the call to the arena after it; in each round `_select` from `v` returns a selected path (so it starts at `v`) and the next arena is that path backpropagated; `v` gains exactly one visit per round and is expanded after at least one round; the invariant is kept and the arena only evolves |
| Mcts.AccumulatePathData | rlmolecule/mcts/mcts.py:61-63 | the committed path is extended by the vertex at its end |
| Policy.VisitSelection | rlmolecule/mcts/mcts.py:141-143 | the child chosen has the most visits among the children and is the first child with that many |
| Policy.SoftmaxSelection | rlmolecule/mcts/mcts.py:145-150 | the child drawn is one of the parent's children |
| Policy.ResolveActionSelection | rlmolecule/mcts/mcts.py:37-38 | no selection function gives softmax selection, and any function given, softmax included, gives visit selection |
| Mcts.MCTS.SampleAndSelect | rlmolecule/mcts/mcts.py:43-48 | one pass of `run`'s loop body: it returns the `n` select and backpropagate rounds of its samples, which lead from the arena before the call to the arena after it; they give the vertex exactly `n` more visits (and expand it when `n > 0`); the loop stops exactly when the vertex has no children; otherwise the next vertex is a child of it, the `visit_selection` child under visit selection, with a lower rank |
| Mcts.MCTS.RunLoop | rlmolecule/mcts/mcts.py:41-50 | the committed path starts at the given vertex, each entry is a child of the one before, and it ends at a vertex without children; each committed vertex was sampled: it has its own `n` select and backpropagate rounds from it, leading from the arena the step before left to the arena the step leaves, and at least `n` visits there and at the end; each step went to the child the policy picks in the arena of the step before, the `visit_selection` child under visit selection; when `n > 0` the last vertex is expanded and terminal |
| Mcts.MCTS.Run | rlmolecule/mcts/mcts.py:30-50 | the committed path starts at the vertex of the given state (the root when none is given), with the sample count and policy resolved as `run` resolves them (`None` gives the engine's default count; no selection function gives softmax, any function gives visit selection); the samples of the first step start from the arena once that vertex is found or created (the arena before the call, or it with the new vertex appended); the rest as for the loop: a chain of children ending at a vertex without children, each vertex sampled by its own `n` rounds, each step the pick of the resolved policy in the arena of its time; the invariant is kept and the arena only evolves |

## Left out

- Cyclic state graphs: the model requires a `rank` on states that every move lowers, so its state graph is acyclic and every descent, playout and `run` ends. The Python engine does not end on some cyclic graphs. `_select`'s descent is deterministic within a round, so once it comes back to a vertex it repeats forever: with next actions A -> [B, T] and B -> [A], once UCB1 at A prefers B the descent alternates between A and B. The random playout need not end either. There is a second difference: `_evaluate` may append a child that is already on the search path (B's child A), so one round can give a vertex two visits. The model's one-visit-per-round property for `sample` does not hold there.
- Floating point: scores and values are reals. `math.log`, `math.sqrt` and the division by the child's visits appear only as the `bonus` function given to the constructor. `math.inf` is the `Inf` score. The default UCB constant `sqrt(2)` is not a rational number, so the constructor takes the constant without a default.
- Policy.SoftmaxSelection: the weights `exp(visit_count)` and the distribution of the draw are not modelled, only that the result is a child. NumPy is not part of this model.
- Policy.SoftmaxSelection: in Python, once a child has about 710 visits, `np.exp` overflows to infinity. The weights then hold `inf / inf`, which is NaN, and `np.random.choice` raises. The model always returns a child and does not capture this error.
- Policy.VisitSelection: requires a vertex with children. Python's `max` raises on an empty list, but `run` only calls the selection on a vertex with children, so only that case is modelled.
- Policy.SoftmaxSelection: requires a vertex with children. Given no children, the weights are an empty array and `np.random.choice` over an empty range raises, but `run` only calls the selection on a vertex with children, so only that case is modelled.
- Randomness: `random.choice` and the softmax draw are nondeterministic choices, with no probabilities.
- The vertex class and the graph search base class (`rlmolecule/mcts/mcts_vertex.py`, `rlmolecule/tree_search/graph_search.py`) are not part of this model. Three things are assumed:
  - `update(value)` adds one visit and adds the reward to `value`, which is a running total that the UCB1 score reads directly. If the vertex class kept a mean instead, the value term of `Policy.UcbScore` and `Search.BackpropagatedValue` would change.
  - `get_vertex_for_state` returns the cached vertex or creates, caches and returns an unvisited, unexpanded one.
  - The constructor's `vertex_class` argument only picks that class, so it is left out.
- The problem interface (`rlmolecule/mcts/mcts_problem.py`) and the molecule domain (`molecule_game`, the tests) are not part of this model. A problem is an initial state, a next-actions function and a reward function, and none of them raises.
- Mcts.MCTS.Sample: requires the class invariant (every expanded vertex has been visited). Under it, `_ucb_score` never raises. The engine keeps the invariant as long as the problem's functions return normally. In Python there is one exception: if `get_next_actions` or `get_reward` raises after `_expand` has set a leaf's children, that leaf stays expanded with no visits, and every later descent through it raises `RuntimeError`. The model's problem functions cannot raise, so it does not capture this. The unvisited-parent error path itself is modelled in `Select`, `Search.Descend` and `Search.DescendErrReachesUnvisited`.
- Mcts.MCTS.Run: takes the number of samples as an optional integer (default `Some(1)`, as Python's default `1`). `None` uses the constructor's default. Under softmax selection, it states only that each step went to some child.
- Mcts.MCTS.Run: the loop is the separate method `RunLoop` and its body the method `SampleAndSelect`. Python's `run` is one function; the split only changes how the proof is organised. The committed path, the rounds and the arenas of each step are returned (the last two as ghost values); Python returns only the path.
- The `problem` property is the constant field `problem`.
