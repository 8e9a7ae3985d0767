/**
 * The search engine of `rlmolecule/mcts/mcts.py`: class `MCTS` with its vertex cache,
 * the four phases of a search round (select, expand, evaluate, backpropagate),
 * `sample` and `run`.
 *
 * The arena `vertices` and the cache `cache` are the state of the engine's graph
 * search; a vertex is named by its arena index, so vertices are shared between all
 * parents that reach an equal state.
 */
module Mcts {
  import opened Wrappers
  import opened Graph
  import opened Policy
  import opened Search
  import opened Trace

  /** `_accumulate_path_data`: the committed path with `v` recorded at its end. */
  function AccumulatePathData(path: seq<nat>, v: nat): (r: seq<nat>)
    ensures |r| == |path| + 1 && r[..|path|] == path && r[|path|] == v
  {
    path + [v]
  }

  class MCTS<S(==,!new)> {
    const problem: Problem<S>
    const numMctsSamples: int
    const ucb: UcbConfig

    /** The vertices created so far, each one the only vertex of its state. */
    var vertices: seq<Vertex<S>>
    /** The vertex cache of the graph search: state to arena index. */
    var cache: map<S, nat>

    /** The arena is a well-formed search graph and the cache indexes it exactly. */
    ghost predicate WellFormed()
      reads this
    {
      ArenaOk(problem, vertices) && CacheOk(vertices, cache)
    }

    /**
     * The engine's invariant between public calls: well formed, and every vertex
     * with children set has been visited, so that UCB1 scoring never raises.
     */
    ghost predicate Valid()
      reads this
    {
      WellFormed() && ExpandedVisited(vertices)
    }

    /**
     * `MCTS(problem, num_mcts_samples=20, ucb_constant)` with an empty vertex cache.
     * The UCB constant is given with its exploration bonus; its default `sqrt(2)` is
     * not a rational number and is left to the caller.
     */
    constructor (problem: Problem<S>, ucbConstant: real, bonus: (nat, nat) -> real, numMctsSamples: int := 20)
      requires Ranked(problem)
      ensures Valid()
      ensures this.problem == problem && this.numMctsSamples == numMctsSamples
      ensures ucb == UcbConfig(ucbConstant, bonus)
      ensures vertices == [] && cache == map[]
    {
      this.problem := problem;
      this.numMctsSamples := numMctsSamples;
      ucb := UcbConfig(ucbConstant, bonus);
      vertices := [];
      cache := map[];
    }

    /**
     * `get_vertex_for_state` of the graph search: the vertex cached for `s`, or a new
     * unvisited, unexpanded vertex for `s` added to the arena and the cache.
     */
    method GetVertexForState(s: S) returns (v: nat)
      requires WellFormed()
      modifies this
      ensures WellFormed() && Evolves(old(vertices), vertices)
      ensures old(Valid()) ==> Valid()
      ensures v < |vertices| && vertices[v].state == s
      ensures s in old(cache) ==> v == old(cache)[s] && vertices == old(vertices) && cache == old(cache)
      ensures s !in old(cache) ==>
        v == |old(vertices)| && vertices == old(vertices) + [NewVertex(s)] && cache == old(cache)[s := v]
    {
      if s in cache {
        v := cache[s];
      } else {
        v := |vertices|;
        vertices := vertices + [NewVertex(s)];
        cache := cache[s := v];
        forall i | 0 <= i < |vertices| ensures ChildrenOk(problem, vertices, i) {
          if i < v {
            assert ChildrenOk(problem, old(vertices), i);
          }
        }
      }
    }

    /** `_get_root`: the vertex of the problem's initial state. */
    method GetRoot() returns (v: nat)
      requires WellFormed()
      modifies this
      ensures WellFormed() && Evolves(old(vertices), vertices)
      ensures old(Valid()) ==> Valid()
      ensures v < |vertices| && vertices[v].state == problem.initialState
      ensures problem.initialState in old(cache) ==>
        v == old(cache)[problem.initialState] && vertices == old(vertices) && cache == old(cache)
      ensures problem.initialState !in old(cache) ==>
        v == |old(vertices)| && vertices == old(vertices) + [NewVertex(problem.initialState)] &&
        cache == old(cache)[problem.initialState := v]
    {
      v := GetVertexForState(problem.initialState);
    }

    /**
     * `_expand`: when `leaf` is unexpanded, set its children to the vertices of its
     * state's next actions, in order; children already set are left as they are.
     */
    method Expand(leaf: nat)
      requires WellFormed() && leaf < |vertices|
      modifies this
      ensures WellFormed() && ExpandedAt(old(vertices), vertices, leaf)
      ensures forall i :: |old(vertices)| <= i < |vertices| ==>
        vertices[i].state in problem.nextActions(old(vertices)[leaf].state)
    {
      if vertices[leaf].children.None? {
        var actions := problem.nextActions(vertices[leaf].state);
        var cs: seq<nat> := [];
        while |cs| < |actions|
          invariant WellFormed() && Appended(old(vertices), vertices)
          invariant forall i :: |old(vertices)| <= i < |vertices| ==> vertices[i].state in actions
          invariant |cs| <= |actions|
          invariant forall k :: 0 <= k < |cs| ==> cs[k] < |vertices| && vertices[cs[k]].state == actions[k]
        {
          ghost var before := vertices;
          var c := GetVertexForState(actions[|cs|]);
          AppendedStep(old(vertices), before, vertices, actions[|cs|]);
          cs := cs + [c];
        }
        SetChildrenKeepsArena(problem, vertices, cache, leaf, cs);
        vertices := vertices[leaf := vertices[leaf].(children := Some(cs))];
      }
    }

    /**
     * `_evaluate`: expand `leaf`; if it has children, append one chosen at random to
     * the search path and play out at random from the state of `leaf` itself; return
     * the reward of the state the playout ends in (of `leaf`'s state when terminal).
     */
    method Evaluate(leaf: nat, path: seq<nat>) returns (newPath: seq<nat>, value: real)
      requires WellFormed() && leaf < |vertices|
      modifies this
      ensures WellFormed() && ExpandedAt(old(vertices), vertices, leaf)
      ensures forall i :: |old(vertices)| <= i < |vertices| ==>
        vertices[i].state in problem.nextActions(old(vertices)[leaf].state)
      ensures !HasChildren(vertices[leaf]) ==>
        newPath == path && value == problem.reward(vertices[leaf].state)
      ensures HasChildren(vertices[leaf]) ==>
        |newPath| == |path| + 1 && newPath[..|path|] == path && newPath[|path|] in vertices[leaf].children.value
      ensures exists t ::
        && Reaches(problem, vertices[leaf].state, t)
        && problem.nextActions(t) == [] && value == problem.reward(t)
    {
      Expand(leaf);
      var children := vertices[leaf].children.value;
      var state := vertices[leaf].state;
      newPath := path;
      if |children| > 0 {
        var k :| 0 <= k < |children|;
        newPath := path + [children[k]];
        state := Rollout(problem, state);
      } else {
        assert ChildrenOk(problem, vertices, leaf);
        assert IsWalk(problem, [state]);
      }
      value := problem.reward(state);
    }

    /**
     * `_select`: from `root`, record each vertex and descend by UCB1 until an
     * unexpanded vertex (which is then evaluated) or a terminal one (whose reward is
     * the value); the error of `_ucb_score` when it is called for an unvisited parent.
     */
    method Select(root: nat) returns (r: Result<Selection, Error>)
      requires WellFormed() && root < |vertices|
      modifies this
      ensures WellFormed()
      ensures r.Err? <==> Descend(problem, ucb, old(vertices), root).Err?
      ensures r.Err? ==> vertices == old(vertices) && cache == old(cache)
      ensures r.Ok? ==> SelectedPath(problem, ucb, old(vertices), vertices, root, r.value)
    {
      var descent := DescendFrom(root);
      if descent.Err? {
        return Err(descent.error);
      }
      var searchPath := descent.value;
      var current := searchPath[|searchPath| - 1];
      ghost var vs0 := vertices;
      if vertices[current].children.None? {
        var path, value := Evaluate(current, searchPath);
        LeafSelection(problem, ucb, vs0, vertices, root, searchPath, path, value);
        r := Ok(Selection(path, value));
      } else {
        var value := problem.reward(vertices[current].state);
        assert ChildrenOk(problem, vertices, current);
        assert IsWalk(problem, [vertices[current].state]);
        LeafSelection(problem, ucb, vs0, vertices, root, searchPath, searchPath, value);
        r := Ok(Selection(searchPath, value));
      }
    }

    /**
     * The descent loop of `_select`: from `root`, move to the child with the best UCB1
     * score while the current vertex has children.  It changes nothing, and the walk
     * it returns, or the error it stops at, is the one `Descend` specifies.
     */
    method DescendFrom(root: nat) returns (r: Result<seq<nat>, Error>)
      requires WellFormed() && root < |vertices|
      ensures r == Descend(problem, ucb, vertices, root)
    {
      var current: nat := root;
      var searchPath: seq<nat> := [];
      PrependTwice([], [], Descend(problem, ucb, vertices, root));
      // The Python loop appends the current vertex first and tests its children
      // after, which is the same walk.
      while HasChildren(vertices[current])
        invariant current < |vertices|
        invariant Descend(problem, ucb, vertices, root) == Prepend(searchPath, Descend(problem, ucb, vertices, current))
        decreases problem.rank(vertices[current].state)
      {
        var children := vertices[current].children.value;
        ghost var before := searchPath;
        searchPath := searchPath + [current];
        ChildrenInArena(problem, vertices, current);
        var choice := UcbChoice(ucb, vertices, current, children);
        if choice.Err? {
          DescendUnfolds(problem, ucb, vertices, current);
          return Err(choice.error);
        }
        var next := children[choice.value];
        DescendStep(problem, ucb, vertices, current, choice.value);
        ChildRank(problem, vertices, current, next);
        PrependTwice(before, [current], Descend(problem, ucb, vertices, next));
        current := next;
      }
      PrependTwice(searchPath, [current], Ok([]));
      DescendUnfolds(problem, ucb, vertices, current);
      searchPath := searchPath + [current];
      r := Ok(searchPath);
    }

    /** `_backpropagate`: `update(value)` on every entry of the path, from the last back to the first. */
    method Backpropagate(path: seq<nat>, value: real)
      requires WellFormed() && InArena(vertices, path)
      modifies this
      ensures WellFormed() && cache == old(cache)
      ensures vertices == Backpropagated(old(vertices), path, value)
    {
      var k := |path|;
      while k > 0
        invariant 0 <= k <= |path| && InArena(old(vertices), path[k..])
        invariant vertices == Backpropagated(old(vertices), path[k..], value)
        invariant cache == old(cache)
      {
        k := k - 1;
        assert path[k..][1..] == path[k + 1..];
        vertices := vertices[path[k] := Update(vertices[path[k]], value)];
      }
      BackpropagatedEvolves(problem, old(vertices), path, value);
      CacheOkEvolves(old(vertices), vertices, cache);
    }

    /**
     * `sample(v, n)`: `n` rounds (none when `n` is not positive) of select and
     * backpropagate from `v`, each one on the arena the one before left.  Each round's
     * search path starts at `v` and passes it once, so `v` gains exactly one visit
     * per round.
     */
    method Sample(v: nat, n: int := 1) returns (ghost rounds: seq<Round<S>>)
      requires Valid() && v < |vertices|
      modifies this
      ensures Valid() && Evolves(old(vertices), vertices)
      ensures |rounds| == if n > 0 then n else 0
      ensures RoundsFrom(problem, ucb, v, old(vertices), rounds, vertices)
      ensures vertices[v].visitCount == old(vertices[v].visitCount) + |rounds|
      ensures n > 0 ==> vertices[v].children.Some?
    {
      rounds := [];
      var i := 0;
      while i < n
        invariant Valid() && v < |vertices| && Evolves(old(vertices), vertices)
        invariant 0 <= i <= (if n > 0 then n else 0) && |rounds| == i
        invariant RoundsFrom(problem, ucb, v, old(vertices), rounds, vertices)
        invariant vertices[v].visitCount == old(vertices[v].visitCount) + i
        invariant i > 0 ==> vertices[v].children.Some?
      {
        ghost var before := vertices;
        DescendNeverFails(problem, ucb, vertices, v);
        var r := Select(v);
        var selection := r.value;
        ghost var mid := vertices;
        RoundFacts(problem, ucb, before, mid, v, selection);
        Backpropagate(selection.path, selection.value);
        EvolvesTransitive(old(vertices), before, vertices);
        RoundsFromAppend(problem, ucb, v, old(vertices), rounds, before, Round(before, mid, selection, vertices));
        rounds := rounds + [Round(before, mid, selection, vertices)];
        i := i + 1;
      }
    }

    /**
     * The body of `run`'s loop, on the engine: sample `n` rounds from `vertex`, which
     * are returned; then, unless `vertex` has no children, pick the next vertex by
     * `policy` (none when the loop stops).
     */
    method SampleAndSelect(vertex: nat, n: int, policy: ActionSelection) returns (next: Option<nat>, ghost rounds: seq<Round<S>>)
      requires Valid() && vertex < |vertices|
      modifies this
      ensures Valid() && Evolves(old(vertices), vertices)
      ensures |rounds| == (if n > 0 then n else 0)
      ensures RoundsFrom(problem, ucb, vertex, old(vertices), rounds, vertices)
      ensures vertices[vertex].visitCount == old(vertices[vertex].visitCount) + (if n > 0 then n else 0)
      ensures n > 0 ==> vertices[vertex].children.Some?
      ensures next.None? <==> !HasChildren(vertices[vertex])
      ensures next.Some? ==>
        CommitStep(vertices, vertex, next.value, policy) &&
        problem.rank(vertices[next.value].state) < problem.rank(vertices[vertex].state)
    {
      rounds := Sample(vertex, n);
      var children := vertices[vertex].children;
      if children.None? || |children.value| == 0 {
        next := None;
        return;
      }
      ChildrenInArena(problem, vertices, vertex);
      var child: nat;
      if policy == VisitSelectionPolicy {
        child := VisitSelection(vertices, vertex);
      } else {
        child := SoftmaxSelection(vertices, vertex);
      }
      ChildRank(problem, vertices, vertex, child);
      next := Some(child);
    }

    /**
     * `run`: start at the vertex of `start` (the root when absent), resolve the
     * action selection policy and the number of samples, and run the loop from there.
     * `resolved` is the arena once the start vertex is found or created; `rounds[i]`
     * are the samples from `path[i]` and `arenas[i]` the arena right after them, the
     * one the next vertex was picked in.
     */
    method Run(start: Option<S> := None, numSamples: Option<int> := Some(1), actionSelection: Option<ActionSelection> := None)
      returns (path: seq<nat>, ghost resolved: seq<Vertex<S>>, ghost rounds: seq<seq<Round<S>>>, ghost arenas: seq<seq<Vertex<S>>>)
      requires Valid()
      modifies this
      ensures Valid() && Evolves(old(vertices), vertices)
      ensures |path| > 0 && IsChain(vertices, path)
      ensures var s := if start.None? then problem.initialState else start.value;
        && vertices[path[0]].state == s
        && (s in old(cache) ==> resolved == old(vertices))
        && (s !in old(cache) ==> resolved == old(vertices) + [NewVertex(s)])
      ensures IsLeaf(vertices[path[|path| - 1]])
      ensures |arenas| == |path| && arenas[|path| - 1] == vertices
      ensures RunTrace(problem, ucb, resolved, arenas, rounds, path, ResolveActionSelection(actionSelection),
                       if numSamples.None? then numMctsSamples else numSamples.value)
      ensures var n := if numSamples.None? then numMctsSamples else numSamples.value;
        VisitedAtLeast(vertices, path, n) && (n > 0 ==> vertices[path[|path| - 1]].children == Some([]))
    {
      var vertex: nat;
      if start.None? {
        vertex := GetRoot();
      } else {
        vertex := GetVertexForState(start.value);
      }
      resolved := vertices;
      var selection := ResolveActionSelection(actionSelection);
      var n := if numSamples.None? then numMctsSamples else numSamples.value;
      path, rounds, arenas := RunLoop(vertex, n, selection);
      EvolvesTransitive(old(vertices), resolved, vertices);
    }

    /**
     * The loop of `run` from `vertex`: sample, record the vertex, and move to the
     * child `policy` picks, until the vertex has no children.
     */
    method RunLoop(vertex: nat, n: int, policy: ActionSelection)
      returns (path: seq<nat>, ghost rounds: seq<seq<Round<S>>>, ghost arenas: seq<seq<Vertex<S>>>)
      requires Valid() && vertex < |vertices|
      modifies this
      ensures Valid() && Evolves(old(vertices), vertices)
      ensures |path| > 0 && path[0] == vertex && IsChain(vertices, path)
      ensures IsLeaf(vertices[path[|path| - 1]])
      ensures |arenas| == |path| && arenas[|path| - 1] == vertices
      ensures RunTrace(problem, ucb, old(vertices), arenas, rounds, path, policy, n)
      ensures VisitedAtLeast(vertices, path, n) && (n > 0 ==> vertices[path[|path| - 1]].children == Some([]))
    {
      var current: nat := vertex;
      path := [];
      rounds := [];
      arenas := [];
      while true
        invariant Valid() && current < |vertices| && Evolves(old(vertices), vertices)
        invariant (path + [current])[0] == vertex && IsChain(vertices, path + [current])
        invariant |arenas| == |path| && RunTrace(problem, ucb, old(vertices), arenas, rounds, path, policy, n)
        invariant vertices == ArenaBefore(old(vertices), arenas, |arenas|)
        invariant |path| > 0 ==> CommitStep(vertices, path[|path| - 1], current, policy)
        invariant VisitedAtLeast(vertices, path, n)
        decreases problem.rank(vertices[current].state)
      {
        ghost var before := vertices;
        var next, rs := SampleAndSelect(current, n, policy);
        ChainEvolves(before, vertices, path + [current]);
        EvolvesTransitive(old(vertices), before, vertices);
        VisitsEvolve(before, vertices, path, n, current);
        RunTraceAppend(problem, ucb, old(vertices), arenas, rounds, path, policy, n, rs, vertices, current);
        path := AccumulatePathData(path, current);
        rounds := rounds + [rs];
        arenas := arenas + [vertices];
        if next.None? {
          break;
        }
        ChainExtend(vertices, path, next.value);
        current := next.value;
      }
    }
  }
}
