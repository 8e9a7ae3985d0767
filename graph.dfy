/**
 * The search graph the engine works on: the problem's states and their successors,
 * the vertices that hold per-state statistics, and the arena of shared vertices with
 * the state-to-vertex cache.
 *
 * A vertex is referred to by its index in the arena, so two parents that reach an
 * equal state hold the same index and see the same statistics.
 */
module Graph {
  import opened Wrappers

  /**
   * The problem the engine searches.  `nextActions` gives the states reachable in one
   * move (empty for a terminal state) and `reward` scores a state.  `rank` is a
   * modelling device, not part of the problem interface: a measure that every move
   * strictly lowers, so that descents and rollouts end.
   */
  datatype Problem<!S> = Problem(
    initialState: S,
    nextActions: S -> seq<S>,
    reward: S -> real,
    rank: S -> nat)

  /** Every move strictly lowers the rank: the state graph has no cycle. */
  ghost predicate Ranked<S(!new)>(p: Problem<S>) {
    forall s: S, t: S :: t in p.nextActions(s) ==> p.rank(t) < p.rank(s)
  }

  /** A sequence of states in which each one is a next action of the one before. */
  ghost predicate IsWalk<S(!new)>(p: Problem<S>, w: seq<S>) {
    forall i :: 0 < i < |w| ==> w[i] in p.nextActions(w[i - 1])
  }

  /** `t` can be reached from `s` in zero or more moves. */
  ghost predicate Reaches<S(!new)>(p: Problem<S>, s: S, t: S) {
    exists w: seq<S> :: IsWalk(p, w) && |w| > 0 && w[0] == s && w[|w| - 1] == t
  }

  /**
   * The random playout of `_evaluate`: from `s`, move to a next action chosen at
   * random until a state without next actions is reached, and return that state.
   * The choice is nondeterministic; nothing is added to the vertex cache.
   */
  method Rollout<S(!new)>(p: Problem<S>, s: S) returns (t: S)
    requires Ranked(p)
    ensures Reaches(p, s, t)
    ensures p.nextActions(t) == []
  {
    t := s;
    ghost var walk := [s];
    while true
      invariant IsWalk(p, walk) && |walk| > 0 && walk[0] == s && walk[|walk| - 1] == t
      decreases p.rank(t)
    {
      var actions := p.nextActions(t);
      if |actions| == 0 {
        break;
      }
      var k :| 0 <= k < |actions|;
      t := actions[k];
      walk := walk + [t];
    }
  }

  /**
   * A search vertex: the state it stands for, how often a backpropagation passed
   * through it, the accumulated value, and its children as arena indices.
   * `children` is `None` while unexpanded, `Some([])` once found terminal, and
   * `Some(cs)` with `cs` non-empty once expanded.
   */
  datatype Vertex<S> = Vertex(state: S, visitCount: nat, value: real, children: Option<seq<nat>>)

  /** The vertex the cache creates for a state it has not seen. */
  function NewVertex<S>(s: S): (v: Vertex<S>)
    ensures v.state == s && v.visitCount == 0 && v.children.None?
  {
    Vertex(s, 0, 0.0, None)
  }

  /**
   * The per-vertex statistics update of backpropagation: one more visit, and the
   * reward folded into the value (kept here as a running total).
   */
  function Update<S>(v: Vertex<S>, reward: real): (r: Vertex<S>)
    ensures r.state == v.state && r.children == v.children
    ensures r.visitCount == v.visitCount + 1
  {
    v.(visitCount := v.visitCount + 1, value := v.value + reward)
  }

  /** The vertex has been expanded and has at least one child. */
  predicate HasChildren<S>(v: Vertex<S>) {
    v.children.Some? && |v.children.value| > 0
  }

  /** `c` is one of the children of vertex `i`. */
  ghost predicate IsChildOf<S>(vs: seq<Vertex<S>>, i: nat, c: nat) {
    i < |vs| && vs[i].children.Some? && c in vs[i].children.value
  }

  /** The children of vertex `i`, when set, are the vertices of its state's next actions, in order. */
  ghost predicate ChildrenOk<S(!new)>(p: Problem<S>, vs: seq<Vertex<S>>, i: nat)
    requires i < |vs|
  {
    match vs[i].children
    case None => true
    case Some(cs) =>
      var actions := p.nextActions(vs[i].state);
      |cs| == |actions| &&
      forall k :: 0 <= k < |cs| ==> cs[k] < |vs| && vs[cs[k]].state == actions[k]
  }

  /** The arena is a well-formed search graph over a ranked problem. */
  ghost predicate ArenaOk<S(!new)>(p: Problem<S>, vs: seq<Vertex<S>>) {
    Ranked(p) && forall i :: 0 <= i < |vs| ==> ChildrenOk(p, vs, i)
  }

  /** The cache maps each state to the one arena vertex holding it, and knows every vertex. */
  ghost predicate CacheOk<S(!new)>(vs: seq<Vertex<S>>, cache: map<S, nat>) {
    (forall s :: s in cache ==> cache[s] < |vs| && vs[cache[s]].state == s) &&
    (forall i :: 0 <= i < |vs| ==> vs[i].state in cache && cache[vs[i].state] == i)
  }

  /**
   * How the arena may change over time: vertices are only added, a vertex keeps its
   * state, children once set are never changed or unset, and visit counts never drop.
   */
  ghost predicate Evolves<S>(a: seq<Vertex<S>>, b: seq<Vertex<S>>) {
    |a| <= |b| &&
    forall i :: 0 <= i < |a| ==>
      b[i].state == a[i].state &&
      (a[i].children.Some? ==> b[i].children == a[i].children) &&
      a[i].visitCount <= b[i].visitCount
  }

  /**
   * `b` is `a` after expanding `leaf`: vertices as the cache creates them (unvisited,
   * unexpanded, value zero) are appended, and only the children of `leaf` may have
   * changed, only if they were unset.
   */
  ghost predicate ExpandedAt<S>(a: seq<Vertex<S>>, b: seq<Vertex<S>>, leaf: nat) {
    leaf < |a| <= |b| &&
    (forall i :: 0 <= i < |a| && i != leaf ==> b[i] == a[i]) &&
    b[leaf] == a[leaf].(children := b[leaf].children) &&
    b[leaf].children.Some? &&
    (a[leaf].children.Some? ==> b == a) &&
    forall i :: |a| <= i < |b| ==> b[i] == NewVertex(b[i].state)
  }

  /** `b` is `a` with vertices appended as the cache creates them. */
  ghost predicate Appended<S>(a: seq<Vertex<S>>, b: seq<Vertex<S>>) {
    |a| <= |b| &&
    (forall i :: 0 <= i < |a| ==> b[i] == a[i]) &&
    forall i :: |a| <= i < |b| ==> b[i] == NewVertex(b[i].state)
  }

  /** Appending the vertex the cache creates for a state, or nothing, keeps `Appended`. */
  lemma AppendedStep<S>(a: seq<Vertex<S>>, b: seq<Vertex<S>>, c: seq<Vertex<S>>, s: S)
    requires Appended(a, b) && (c == b || c == b + [NewVertex(s)])
    ensures Appended(a, c)
    ensures |b| <= |c| && forall i :: 0 <= i < |b| ==> c[i] == b[i]
  {
  }

  /** Each entry of `path` after the first is a child of the entry before it. */
  ghost predicate IsChain<S>(vs: seq<Vertex<S>>, path: seq<nat>) {
    (forall i :: 0 <= i < |path| ==> path[i] < |vs|) &&
    forall i :: 0 < i < |path| ==> IsChildOf(vs, path[i - 1], path[i])
  }

  /** A child's state is a next action of its parent's, so its rank is lower. */
  lemma ChildRank<S(!new)>(p: Problem<S>, vs: seq<Vertex<S>>, i: nat, c: nat)
    requires ArenaOk(p, vs) && IsChildOf(vs, i, c)
    ensures c < |vs| && p.rank(vs[c].state) < p.rank(vs[i].state)
  {
    var cs := vs[i].children.value;
    var k :| 0 <= k < |cs| && cs[k] == c;
    assert ChildrenOk(p, vs, i);
  }

  /** Along a chain, every vertex after the first has a lower rank than the first. */
  lemma {:induction false} ChainRanks<S(!new)>(p: Problem<S>, vs: seq<Vertex<S>>, path: seq<nat>)
    requires ArenaOk(p, vs) && IsChain(vs, path) && |path| > 0
    ensures forall j :: 0 < j < |path| ==> p.rank(vs[path[j]].state) < p.rank(vs[path[0]].state)
  {
    if |path| > 1 {
      var tail := path[1..];
      assert IsChain(vs, tail) by {
        forall j | 0 < j < |tail| ensures IsChildOf(vs, tail[j - 1], tail[j]) {
          assert tail[j - 1] == path[j] && tail[j] == path[j + 1];
        }
      }
      ChainRanks(p, vs, tail);
      ChildRank(p, vs, path[0], path[1]);
      forall j | 1 < j < |path|
        ensures p.rank(vs[path[j]].state) < p.rank(vs[path[0]].state)
      {
        assert path[j] == tail[j - 1];
      }
    }
  }

  /** A chain never revisits its first vertex: it occurs exactly once in the path. */
  lemma ChainHeadOnce<S(!new)>(p: Problem<S>, vs: seq<Vertex<S>>, path: seq<nat>)
    requires ArenaOk(p, vs) && IsChain(vs, path) && |path| > 0
    ensures multiset(path)[path[0]] == 1
  {
    ChainRanks(p, vs, path);
    assert path == [path[0]] + path[1..];
    assert path[0] !in path[1..] by {
      forall j | 0 <= j < |path[1..]| ensures path[1..][j] != path[0] {
        assert path[1..][j] == path[j + 1];
      }
    }
  }

  /** A chain in an arena stays a chain as the arena evolves. */
  lemma ChainEvolves<S>(a: seq<Vertex<S>>, b: seq<Vertex<S>>, path: seq<nat>)
    requires Evolves(a, b) && IsChain(a, path)
    ensures IsChain(b, path)
  {
    forall i | 0 < i < |path| ensures IsChildOf(b, path[i - 1], path[i]) {
      assert IsChildOf(a, path[i - 1], path[i]);
    }
  }

  /** Expanding a vertex is one way for the arena to evolve. */
  lemma ExpandedAtEvolves<S>(a: seq<Vertex<S>>, b: seq<Vertex<S>>, leaf: nat)
    requires ExpandedAt(a, b, leaf)
    ensures Evolves(a, b)
  {
  }

  /** Evolving twice is evolving. */
  lemma EvolvesTransitive<S>(a: seq<Vertex<S>>, b: seq<Vertex<S>>, c: seq<Vertex<S>>)
    requires Evolves(a, b) && Evolves(b, c)
    ensures Evolves(a, c)
  {
  }

  /** The cache still indexes an arena that evolved without growing. */
  lemma CacheOkEvolves<S(!new)>(a: seq<Vertex<S>>, b: seq<Vertex<S>>, cache: map<S, nat>)
    requires CacheOk(a, cache) && Evolves(a, b) && |b| == |a|
    ensures CacheOk(b, cache)
  {
  }

  /** A chain extended by a child of its last vertex is a chain. */
  lemma ChainExtend<S>(vs: seq<Vertex<S>>, path: seq<nat>, c: nat)
    requires IsChain(vs, path) && |path| > 0 && c < |vs| && IsChildOf(vs, path[|path| - 1], c)
    ensures IsChain(vs, path + [c])
  {
    var q := path + [c];
    forall i | 0 < i < |q| ensures IsChildOf(vs, q[i - 1], q[i]) {
      if i < |path| {
        assert q[i - 1] == path[i - 1] && q[i] == path[i];
      }
    }
  }

  /**
   * Setting the children of an unexpanded vertex to the vertices of its state's next
   * actions, in order, keeps the arena and its cache well formed.
   */
  lemma SetChildrenKeepsArena<S(!new)>(p: Problem<S>, vs: seq<Vertex<S>>, cache: map<S, nat>, leaf: nat, cs: seq<nat>)
    requires ArenaOk(p, vs) && CacheOk(vs, cache) && leaf < |vs| && vs[leaf].children.None?
    requires |cs| == |p.nextActions(vs[leaf].state)|
    requires forall k :: 0 <= k < |cs| ==> cs[k] < |vs| && vs[cs[k]].state == p.nextActions(vs[leaf].state)[k]
    ensures ArenaOk(p, vs[leaf := vs[leaf].(children := Some(cs))])
    ensures CacheOk(vs[leaf := vs[leaf].(children := Some(cs))], cache)
  {
    var b := vs[leaf := vs[leaf].(children := Some(cs))];
    forall i | 0 <= i < |b| ensures ChildrenOk(p, b, i) {
      if i != leaf {
        assert ChildrenOk(p, vs, i);
      }
    }
    CacheOkEvolves(vs, b, cache);
  }
}
