/**
 * The pure meaning of two phases of a search round: the UCB1 descent of `_select`
 * and the statistics update of `_backpropagate`, each as a function on the arena,
 * with the properties the engine relies on.
 */
module Search {
  import opened Wrappers
  import opened Graph
  import opened Policy

  /** Every vertex whose children are set has been visited at least once. */
  ghost predicate ExpandedVisited<S>(vs: seq<Vertex<S>>) {
    forall i :: 0 <= i < |vs| && vs[i].children.Some? ==> vs[i].visitCount > 0
  }

  /** The children of a vertex of a well-formed arena are vertices of the arena. */
  lemma ChildrenInArena<S(!new)>(p: Problem<S>, vs: seq<Vertex<S>>, v: nat)
    requires ArenaOk(p, vs) && v < |vs| && vs[v].children.Some?
    ensures InArena(vs, vs[v].children.value)
  {
    assert ChildrenOk(p, vs, v);
  }

  /** `b` is the child of `a` that the UCB1 comparison picks. */
  ghost predicate UcbStep<S>(cfg: UcbConfig, vs: seq<Vertex<S>>, a: nat, b: nat) {
    a < |vs| && HasChildren(vs[a]) && InArena(vs, vs[a].children.value) &&
    var r := UcbChoice(cfg, vs, a, vs[a].children.value);
    r.Ok? && vs[a].children.value[r.value] == b
  }

  /** A vertex where the descent of `_select` stops: unexpanded or terminal. */
  predicate IsLeaf<S>(v: Vertex<S>) {
    !HasChildren(v)
  }

  /**
   * The descent of `_select` from `v`: follow the child with the greatest UCB1 score
   * until a vertex that is unexpanded or terminal, and return the vertices passed;
   * the error of `_ucb_score` when a vertex with children has never been visited.
   */
  function Descend<S(!new)>(p: Problem<S>, cfg: UcbConfig, vs: seq<Vertex<S>>, v: nat): (r: Result<seq<nat>, Error>)
    requires ArenaOk(p, vs) && v < |vs|
    ensures r.Ok? ==> |r.value| > 0 && r.value[0] == v && IsChain(vs, r.value)
    ensures r.Ok? ==> IsLeaf(vs[r.value[|r.value| - 1]])
    ensures r.Err? ==> HasChildren(vs[v])
    decreases p.rank(vs[v].state)
  {
    if !HasChildren(vs[v]) then Ok([v])
    else
      var cs := vs[v].children.value;
      ChildrenInArena(p, vs, v);
      match UcbChoice(cfg, vs, v, cs)
      case Err(e) => Err(e)
      case Ok(k) =>
        ChildRank(p, vs, v, cs[k]);
        match Descend(p, cfg, vs, cs[k])
        case Err(e) => Err(e)
        case Ok(rest) =>
          var d := [v] + rest;
          assert forall i :: 0 < i < |d| ==> d[i] == rest[i - 1];
          Ok(d)
  }

  /** Each step of a descent goes to the child that the UCB1 comparison picks. */
  lemma {:induction false} DescendFollowsUcb<S(!new)>(p: Problem<S>, cfg: UcbConfig, vs: seq<Vertex<S>>, v: nat)
    requires ArenaOk(p, vs) && v < |vs| && Descend(p, cfg, vs, v).Ok?
    ensures var d := Descend(p, cfg, vs, v).value;
      forall i :: 0 < i < |d| ==> UcbStep(cfg, vs, d[i - 1], d[i])
    decreases p.rank(vs[v].state)
  {
    if HasChildren(vs[v]) {
      var cs := vs[v].children.value;
      ChildrenInArena(p, vs, v);
      var k := UcbChoice(cfg, vs, v, cs).value;
      ChildRank(p, vs, v, cs[k]);
      DescendFollowsUcb(p, cfg, vs, cs[k]);
      var d := Descend(p, cfg, vs, v).value;
      var rest := Descend(p, cfg, vs, cs[k]).value;
      assert d == [v] + rest;
      forall i | 0 < i < |d| ensures UcbStep(cfg, vs, d[i - 1], d[i]) {
        if i > 1 {
          assert d[i - 1] == rest[i - 2] && d[i] == rest[i - 1];
        }
      }
    }
  }

  /** A descent either succeeds at once from a leaf or takes the UCB1 step and goes on from there. */
  lemma DescendUnfolds<S(!new)>(p: Problem<S>, cfg: UcbConfig, vs: seq<Vertex<S>>, v: nat)
    requires ArenaOk(p, vs) && v < |vs|
    ensures IsLeaf(vs[v]) ==> Descend(p, cfg, vs, v) == Ok([v])
    ensures HasChildren(vs[v]) && vs[v].visitCount == 0 ==> Descend(p, cfg, vs, v).Err?
  {
  }

  /**
   * In an arena where every expanded vertex has been visited, `_ucb_score` is never
   * called with an unvisited parent: the descent always succeeds.
   */
  lemma {:induction false} DescendNeverFails<S(!new)>(p: Problem<S>, cfg: UcbConfig, vs: seq<Vertex<S>>, v: nat)
    requires ArenaOk(p, vs) && v < |vs| && ExpandedVisited(vs)
    ensures Descend(p, cfg, vs, v).Ok?
    decreases p.rank(vs[v].state)
  {
    if HasChildren(vs[v]) {
      var cs := vs[v].children.value;
      ChildrenInArena(p, vs, v);
      var k := UcbChoice(cfg, vs, v, cs).value;
      ChildRank(p, vs, v, cs[k]);
      DescendNeverFails(p, cfg, vs, cs[k]);
    }
  }

  /** `q` is a walk of UCB1 steps in arena `vs`: each vertex is the UCB1 choice among its parent's children. */
  ghost predicate UcbWalk<S>(cfg: UcbConfig, vs: seq<Vertex<S>>, q: seq<nat>) {
    |q| > 0 && (forall i :: 0 <= i < |q| ==> q[i] < |vs|) &&
    forall i :: 0 < i < |q| ==> UcbStep(cfg, vs, q[i - 1], q[i])
  }

  /**
   * A descent fails only where `_ucb_score` raises: following UCB1 choices from `v`
   * it reaches a vertex that has children and was never visited.
   */
  lemma {:induction false} DescendErrReachesUnvisited<S(!new)>(p: Problem<S>, cfg: UcbConfig, vs: seq<Vertex<S>>, v: nat)
    returns (q: seq<nat>)
    requires ArenaOk(p, vs) && v < |vs| && Descend(p, cfg, vs, v).Err?
    ensures UcbWalk(cfg, vs, q) && q[0] == v
    ensures HasChildren(vs[q[|q| - 1]]) && vs[q[|q| - 1]].visitCount == 0
    decreases p.rank(vs[v].state)
  {
    var cs := vs[v].children.value;
    ChildrenInArena(p, vs, v);
    if vs[v].visitCount == 0 {
      q := [v];
    } else {
      var k := UcbChoice(cfg, vs, v, cs).value;
      DescendStep(p, cfg, vs, v, k);
      ChildRank(p, vs, v, cs[k]);
      var rest := DescendErrReachesUnvisited(p, cfg, vs, cs[k]);
      q := [v] + rest;
      forall i | 0 < i < |q| ensures UcbStep(cfg, vs, q[i - 1], q[i]) {
        if i > 1 {
          assert q[i - 1] == rest[i - 2] && q[i] == rest[i - 1];
        }
      }
    }
  }

  /**
   * Conversely, a descent from the start of a UCB1 walk that ends at a vertex with
   * children and no visits fails there.
   */
  lemma {:induction false} UnvisitedOnUcbWalkErrs<S(!new)>(p: Problem<S>, cfg: UcbConfig, vs: seq<Vertex<S>>, q: seq<nat>)
    requires ArenaOk(p, vs) && UcbWalk(cfg, vs, q)
    requires HasChildren(vs[q[|q| - 1]]) && vs[q[|q| - 1]].visitCount == 0
    ensures Descend(p, cfg, vs, q[0]).Err?
    decreases |q|
  {
    if |q| == 1 {
      DescendUnfolds(p, cfg, vs, q[0]);
    } else {
      var rest := q[1..];
      forall i | 0 < i < |rest| ensures UcbStep(cfg, vs, rest[i - 1], rest[i]) {
        assert rest[i - 1] == q[i] && rest[i] == q[i + 1];
      }
      assert rest[|rest| - 1] == q[|q| - 1];
      UnvisitedOnUcbWalkErrs(p, cfg, vs, rest);
      assert UcbStep(cfg, vs, q[0], q[1]);
      var k := UcbChoice(cfg, vs, q[0], vs[q[0]].children.value).value;
      DescendStep(p, cfg, vs, q[0], k);
    }
  }

  /**
   * In such an arena a descent that meets a vertex with an unvisited child moves to
   * the first unvisited child and stops there, since an unvisited vertex is unexpanded.
   */
  lemma DescendEndsAtFirstUnvisitedChild<S(!new)>(p: Problem<S>, cfg: UcbConfig, vs: seq<Vertex<S>>, v: nat, j: nat)
    requires ArenaOk(p, vs) && v < |vs| && ExpandedVisited(vs)
    requires HasChildren(vs[v]) && InArena(vs, vs[v].children.value) && j < |vs[v].children.value|
    requires vs[vs[v].children.value[j]].visitCount == 0
    ensures var cs := vs[v].children.value;
      Descend(p, cfg, vs, v).Ok? &&
      exists k :: 0 <= k <= j && Descend(p, cfg, vs, v).value == [v, cs[k]] &&
        vs[cs[k]].visitCount == 0 &&
        forall i :: 0 <= i < k ==> vs[cs[i]].visitCount > 0
  {
    var cs := vs[v].children.value;
    ChildrenInArena(p, vs, v);
    UnvisitedChildWins(cfg, vs, v, cs, j);
    var k := UcbChoice(cfg, vs, v, cs).value;
    ChildRank(p, vs, v, cs[k]);
    DescendUnfolds(p, cfg, vs, cs[k]);
    assert Descend(p, cfg, vs, v).value == [v, cs[k]];
  }

  /**
   * The arena after `_backpropagate(path, value)`: `update(value)` is applied to the
   * vertices of `path` from the last entry back to the first.
   */
  function Backpropagated<S>(vs: seq<Vertex<S>>, path: seq<nat>, value: real): (r: seq<Vertex<S>>)
    requires InArena(vs, path)
    ensures |r| == |vs|
  {
    if path == [] then vs
    else
      var deeper := Backpropagated(vs, path[1..], value);
      deeper[path[0] := Update(deeper[path[0]], value)]
  }

  /** The last entry of the path is the first one updated. */
  lemma {:induction false} BackpropagatedDeepestFirst<S>(vs: seq<Vertex<S>>, path: seq<nat>, x: nat, value: real)
    requires InArena(vs, path) && x < |vs|
    ensures InArena(vs, path + [x])
    ensures Backpropagated(vs, path + [x], value) == Backpropagated(vs[x := Update(vs[x], value)], path, value)
  {
    if path != [] {
      assert (path + [x])[1..] == path[1..] + [x];
      BackpropagatedDeepestFirst(vs, path[1..], x, value);
    } else {
      assert ([] + [x])[1..] == [];
    }
  }

  /**
   * Each vertex gets one update per occurrence in the path: its visit count grows by
   * the number of occurrences; its state and children are kept, and a vertex not on
   * the path is untouched.
   */
  lemma {:induction false} BackpropagatedCounts<S>(vs: seq<Vertex<S>>, path: seq<nat>, value: real, i: nat)
    requires InArena(vs, path) && i < |vs|
    ensures var r := Backpropagated(vs, path, value);
      r[i].state == vs[i].state && r[i].children == vs[i].children &&
      r[i].visitCount == vs[i].visitCount + multiset(path)[i] &&
      (i !in path ==> r[i] == vs[i])
  {
    if path != [] {
      var deeper := Backpropagated(vs, path[1..], value);
      BackpropagatedCounts(vs, path[1..], value, i);
      OccurrencesOfHead(path, i);
      if path[0] != i {
        assert Backpropagated(vs, path, value)[i] == deeper[i];
        assert i !in path ==> i !in path[1..];
      }
    }
  }

  /** `n` rewards of `value` added up. */
  function Repeated(n: nat, value: real): real {
    if n == 0 then 0.0 else Repeated(n - 1, value) + value
  }

  /** Adding up `n` rewards of `value` is multiplying it by `n`. */
  lemma {:induction false} RepeatedIsProduct(n: nat, value: real)
    ensures Repeated(n, value) == (n as real) * value
  {
    if n > 0 {
      RepeatedIsProduct(n - 1, value);
      assert (n as real) * value == ((n - 1) as real) * value + value;
    }
  }

  /**
   * Each update on the path adds the reward once to the vertex's value: the value
   * grows by the reward added up as many times as the vertex occurs in the path.
   */
  lemma {:induction false} BackpropagatedValue<S>(vs: seq<Vertex<S>>, path: seq<nat>, value: real, i: nat)
    requires InArena(vs, path) && i < |vs|
    ensures Backpropagated(vs, path, value)[i].value == vs[i].value + Repeated(multiset(path)[i], value)
  {
    if path == [] {
      assert multiset(path)[i] == 0;
    } else {
      var deeper := Backpropagated(vs, path[1..], value);
      BackpropagatedValue(vs, path[1..], value, i);
      OccurrencesOfHead(path, i);
      if path[0] == i {
        assert Backpropagated(vs, path, value)[i].value == deeper[i].value + value;
      } else {
        assert Backpropagated(vs, path, value)[i] == deeper[i];
      }
    }
  }

  /** The occurrences of `i` in a path: one for its head if that is `i`, plus those in its tail. */
  lemma OccurrencesOfHead(path: seq<nat>, i: nat)
    requires path != []
    ensures multiset(path)[i] == (if path[0] == i then 1 else 0) + multiset(path[1..])[i]
  {
    assert path == [path[0]] + path[1..];
  }

  /** Backpropagation keeps the arena well formed and only lets it evolve. */
  lemma BackpropagatedEvolves<S(!new)>(p: Problem<S>, vs: seq<Vertex<S>>, path: seq<nat>, value: real)
    requires InArena(vs, path)
    ensures Evolves(vs, Backpropagated(vs, path, value))
    ensures ArenaOk(p, vs) ==> ArenaOk(p, Backpropagated(vs, path, value))
  {
    var r := Backpropagated(vs, path, value);
    forall i | 0 <= i < |vs|
      ensures r[i].state == vs[i].state && r[i].children == vs[i].children
      ensures vs[i].visitCount <= r[i].visitCount
    {
      BackpropagatedCounts(vs, path, value, i);
    }
    if ArenaOk(p, vs) {
      forall i | 0 <= i < |r| ensures ChildrenOk(p, r, i) {
        assert ChildrenOk(p, vs, i);
      }
    }
  }

  /**
   * A search round keeps every expanded vertex visited: the only vertex a round may
   * expand is the leaf of its path, and backpropagating that path visits the leaf.
   */
  lemma RoundKeepsExpandedVisited<S>(a: seq<Vertex<S>>, b: seq<Vertex<S>>, leaf: nat, path: seq<nat>, value: real)
    requires ExpandedVisited(a) && ExpandedAt(a, b, leaf)
    requires InArena(b, path) && leaf in path
    ensures ExpandedVisited(Backpropagated(b, path, value))
  {
    var r := Backpropagated(b, path, value);
    forall i | 0 <= i < |r| && r[i].children.Some? ensures r[i].visitCount > 0 {
      BackpropagatedCounts(b, path, value, i);
      if i == leaf {
        assert multiset(path)[leaf] > 0;
      }
    }
  }

  /** What a `_select` that did not raise returns: the search path and the value to backpropagate. */
  datatype Selection = Selection(path: seq<nat>, value: real)

  /** `r` with `prefix` put in front of its path, the error passed through. */
  function Prepend(prefix: seq<nat>, r: Result<seq<nat>, Error>): Result<seq<nat>, Error> {
    match r
    case Ok(rest) => Ok(prefix + rest)
    case Err(e) => Err(e)
  }

  /** Prepending nothing changes nothing; prepending twice is prepending the concatenation. */
  lemma PrependTwice(a: seq<nat>, b: seq<nat>, r: Result<seq<nat>, Error>)
    ensures Prepend([], r) == r
    ensures Prepend(a, Prepend(b, r)) == Prepend(a + b, r)
  {
    if r.Ok? {
      assert [] + r.value == r.value;
      assert a + (b + r.value) == (a + b) + r.value;
    }
  }

  /** One step of the descent: from a vertex with children, the rest of the descent starts at its UCB1 choice. */
  lemma DescendStep<S(!new)>(p: Problem<S>, cfg: UcbConfig, vs: seq<Vertex<S>>, v: nat, k: nat)
    requires ArenaOk(p, vs) && v < |vs| && HasChildren(vs[v]) && InArena(vs, vs[v].children.value)
    requires UcbChoice(cfg, vs, v, vs[v].children.value) == Ok(k)
    ensures vs[v].children.value[k] < |vs|
    ensures Descend(p, cfg, vs, v) == Prepend([v], Descend(p, cfg, vs, vs[v].children.value[k]))
  {
  }

  /**
   * `sel` is what `_select` from `root` returns when arena `a` becomes `b`: the path
   * is the UCB1 descent `d` of `a`, followed by one child of its leaf if evaluating
   * the leaf found children; only the leaf was expanded, and the only vertices added
   * are fresh ones for next actions of the leaf's state; and the value is the reward
   * of a terminal state reachable from the leaf's state, the leaf's own reward when
   * the leaf was already terminal.
   */
  ghost predicate SelectedPath<S(!new)>(p: Problem<S>, cfg: UcbConfig, a: seq<Vertex<S>>, b: seq<Vertex<S>>,
                                        root: nat, sel: Selection)
    requires ArenaOk(p, a) && root < |a|
  {
    var dr := Descend(p, cfg, a, root);
    dr.Ok? &&
    var d := dr.value;
    var leaf := d[|d| - 1];
    && ExpandedAt(a, b, leaf)
    && (forall i :: |a| <= i < |b| ==> b[i].state in p.nextActions(a[leaf].state))
    && |d| <= |sel.path| <= |d| + 1 && sel.path[..|d|] == d
    && IsChain(b, sel.path)
    && (|sel.path| == |d| <==> !HasChildren(b[leaf]))
    && (a[leaf].children.Some? ==> sel.value == p.reward(b[leaf].state))
    && exists t :: Reaches(p, b[leaf].state, t) && p.nextActions(t) == [] && sel.value == p.reward(t)
  }

  /**
   * What `_select` returns once the descent `d` has reached its leaf and the leaf has
   * been evaluated (or found terminal) is a selected path.
   */
  lemma LeafSelection<S(!new)>(p: Problem<S>, cfg: UcbConfig, a: seq<Vertex<S>>, b: seq<Vertex<S>>,
                               root: nat, d: seq<nat>, path: seq<nat>, value: real)
    requires ArenaOk(p, a) && ArenaOk(p, b) && root < |a| && Descend(p, cfg, a, root) == Ok(d)
    requires ExpandedAt(a, b, d[|d| - 1])
    requires forall i :: |a| <= i < |b| ==> b[i].state in p.nextActions(a[d[|d| - 1]].state)
    requires !HasChildren(b[d[|d| - 1]]) ==> path == d && value == p.reward(b[d[|d| - 1]].state)
    requires HasChildren(b[d[|d| - 1]]) ==>
      |path| == |d| + 1 && path[..|d|] == d && path[|d|] in b[d[|d| - 1]].children.value
    requires exists t :: Reaches(p, b[d[|d| - 1]].state, t) && p.nextActions(t) == [] && value == p.reward(t)
    ensures SelectedPath(p, cfg, a, b, root, Selection(path, value))
  {
    var leaf := d[|d| - 1];
    ExpandedAtEvolves(a, b, leaf);
    ChainEvolves(a, b, d);
    if HasChildren(b[leaf]) {
      var c := path[|d|];
      assert path[|d|..] == [c];
      assert path == path[..|d|] + path[|d|..];
      ChildRank(p, b, leaf, c);
      ChainExtend(b, d, c);
    }
    if a[leaf].children.Some? {
      assert b == a;
    }
  }

  /**
   * One round of `sample` from `v`: backpropagating what `_select` returned keeps the
   * arena well formed with every expanded vertex visited, lets it evolve, and gives
   * `v` exactly one more visit, since the path passes `v` once.
   */
  lemma RoundFacts<S(!new)>(p: Problem<S>, cfg: UcbConfig, a: seq<Vertex<S>>, b: seq<Vertex<S>>, v: nat, sel: Selection)
    requires ArenaOk(p, a) && ArenaOk(p, b) && ExpandedVisited(a) && v < |a|
    requires SelectedPath(p, cfg, a, b, v, sel)
    ensures InArena(b, sel.path) && |sel.path| > 0 && sel.path[0] == v
    ensures var r := Backpropagated(b, sel.path, sel.value);
      ArenaOk(p, r) && ExpandedVisited(r) && Evolves(a, r) && Evolves(b, r) &&
      r[v].visitCount == a[v].visitCount + 1 && r[v].children.Some?
  {
    var d := Descend(p, cfg, a, v).value;
    DescendUnfolds(p, cfg, a, v);
    var leaf := d[|d| - 1];
    var path := sel.path;
    assert path[|d| - 1] == leaf && path[0] == d[0];
    assert leaf in path;
    ExpandedAtEvolves(a, b, leaf);
    ChainHeadOnce(p, b, path);
    BackpropagatedCounts(b, path, sel.value, v);
    BackpropagatedEvolves(p, b, path, sel.value);
    RoundKeepsExpandedVisited(a, b, leaf, path, sel.value);
    EvolvesTransitive(a, b, Backpropagated(b, path, sel.value));
    BackpropagatedCounts(b, path, sel.value, leaf);
  }

  /**
   * One round of `sample` from a vertex: `_select` turned arena `before` into `mid`
   * and returned `sel`, and backpropagating `sel` turned `mid` into `after`.
   */
  datatype Round<S> = Round(before: seq<Vertex<S>>, mid: seq<Vertex<S>>, sel: Selection, after: seq<Vertex<S>>)

  /** `r` is a select and backpropagate round from vertex `v`. */
  ghost predicate IsRound<S(!new)>(p: Problem<S>, cfg: UcbConfig, v: nat, r: Round<S>) {
    && ArenaOk(p, r.before) && v < |r.before|
    && SelectedPath(p, cfg, r.before, r.mid, v, r.sel)
    && InArena(r.mid, r.sel.path)
    && r.after == Backpropagated(r.mid, r.sel.path, r.sel.value)
  }

  /** Each of `rounds` starts where the one before it ended; the first starts at `start`, the last ends at `end`. */
  ghost predicate Linked<S>(start: seq<Vertex<S>>, rounds: seq<Round<S>>, end: seq<Vertex<S>>) {
    if |rounds| == 0 then end == start
    else
      && rounds[0].before == start && rounds[|rounds| - 1].after == end
      && forall i :: 0 < i < |rounds| ==> rounds[i].before == rounds[i - 1].after
  }

  /**
   * `rounds` are rounds from `v`, one after the other, leading from arena `start` to
   * arena `end`.
   */
  ghost predicate RoundsFrom<S(!new)>(p: Problem<S>, cfg: UcbConfig, v: nat, start: seq<Vertex<S>>,
                                      rounds: seq<Round<S>>, end: seq<Vertex<S>>) {
    (forall i {:trigger IsRound(p, cfg, v, rounds[i])} :: 0 <= i < |rounds| ==> IsRound(p, cfg, v, rounds[i])) && Linked(start, rounds, end)
  }

  /** One more round, starting where the others ended. */
  lemma RoundsFromAppend<S(!new)>(p: Problem<S>, cfg: UcbConfig, v: nat, start: seq<Vertex<S>>,
                                  rounds: seq<Round<S>>, end: seq<Vertex<S>>, r: Round<S>)
    requires RoundsFrom(p, cfg, v, start, rounds, end) && IsRound(p, cfg, v, r) && r.before == end
    ensures RoundsFrom(p, cfg, v, start, rounds + [r], r.after)
  {
    var q := rounds + [r];
    forall i | 0 <= i < |q| ensures IsRound(p, cfg, v, q[i]) {
      if i < |rounds| {
        assert q[i] == rounds[i];
      }
    }
    LinkedAppend(start, rounds, end, r);
  }

  /** A round that starts where the others ended extends their link. */
  lemma LinkedAppend<S>(start: seq<Vertex<S>>, rounds: seq<Round<S>>, end: seq<Vertex<S>>, r: Round<S>)
    requires Linked(start, rounds, end) && r.before == end
    ensures Linked(start, rounds + [r], r.after)
  {
    var q := rounds + [r];
    forall i | 0 < i < |q| ensures q[i].before == q[i - 1].after {
      if i < |rounds| {
        assert q[i] == rounds[i] && q[i - 1] == rounds[i - 1];
      }
    }
  }
}
