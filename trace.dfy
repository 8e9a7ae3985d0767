/**
 * The trace `run` leaves: the vertices it committed to, the arena after the samples
 * of each step, and the select and backpropagate rounds of those samples, with what
 * each pass of its loop adds to it.
 */
module Trace {
  import opened Wrappers
  import opened Graph
  import opened Policy
  import opened Search

  /** Each arena of `arenas` evolved from the one before it, the first one from `start`. */
  ghost predicate EvolvesThrough<S>(start: seq<Vertex<S>>, arenas: seq<seq<Vertex<S>>>) {
    (|arenas| > 0 ==> Evolves(start, arenas[0])) &&
    forall i :: 0 < i < |arenas| ==> Evolves(arenas[i - 1], arenas[i])
  }

  /**
   * Each step of the committed `path` went, in the arena of the step before it, to a
   * child picked by `policy`: the visit-selection child, or some child for softmax.
   */
  ghost predicate Committed<S>(arenas: seq<seq<Vertex<S>>>, path: seq<nat>, policy: ActionSelection) {
    forall i :: 0 < i < |path| && i <= |arenas| ==> CommitStep(arenas[i - 1], path[i - 1], path[i], policy)
  }

  /** The arena step `i` of `run` sampled in: `start` for the first step, else the one the step before left. */
  ghost function ArenaBefore<S>(start: seq<Vertex<S>>, arenas: seq<seq<Vertex<S>>>, i: nat): seq<Vertex<S>>
    requires i <= |arenas|
  {
    if i == 0 then start else arenas[i - 1]
  }

  /**
   * Each committed vertex was sampled: for every step `k`, `rounds[k]` are `n` select
   * and backpropagate rounds (none when `n` is not positive) from `path[k]` that lead
   * from the arena before step `k` to `arenas[k]`, which give the vertex at least `n`
   * visits.  Stated for the last step and, recursively, for the steps before it.
   */
  ghost predicate SampledAlong<S(!new)>(p: Problem<S>, cfg: UcbConfig, start: seq<Vertex<S>>, arenas: seq<seq<Vertex<S>>>,
                                        rounds: seq<seq<Round<S>>>, path: seq<nat>, n: int)
    decreases |path|
  {
    |arenas| == |path| && |rounds| == |path| &&
    (|path| > 0 ==>
      var k := |path| - 1;
      && SampledAlong(p, cfg, start, arenas[..k], rounds[..k], path[..k], n)
      && path[k] < |arenas[k]|
      && |rounds[k]| == (if n > 0 then n else 0)
      && RoundsFrom(p, cfg, path[k], ArenaBefore(start, arenas, k), rounds[k], arenas[k])
      && (n > 0 ==> arenas[k][path[k]].visitCount >= n))
  }

  /**
   * The trace of `run` from arena `start`: `arenas[i]` is the arena right after the
   * samples `rounds[i]` from `path[i]`; the arenas only evolve, each vertex was
   * sampled, and each step was committed by `policy` in the arena of the step before.
   */
  ghost predicate RunTrace<S(!new)>(p: Problem<S>, cfg: UcbConfig, start: seq<Vertex<S>>, arenas: seq<seq<Vertex<S>>>,
                                    rounds: seq<seq<Round<S>>>, path: seq<nat>, policy: ActionSelection, n: int) {
    && EvolvesThrough(start, arenas)
    && Committed(arenas, path, policy)
    && SampledAlong(p, cfg, start, arenas, rounds, path, n)
  }

  /** One more arena, evolved from the last one, keeps the arenas evolving. */
  lemma EvolvesThroughAppend<S>(start: seq<Vertex<S>>, arenas: seq<seq<Vertex<S>>>, vs: seq<Vertex<S>>)
    requires EvolvesThrough(start, arenas) && Evolves(ArenaBefore(start, arenas, |arenas|), vs)
    ensures EvolvesThrough(start, arenas + [vs])
  {
    var r: seq<seq<Vertex<S>>> := arenas + [vs];
    forall i | 0 < i < |r| ensures Evolves(r[i - 1], r[i]) {
      if i < |arenas| {
        assert r[i - 1] == arenas[i - 1] && r[i] == arenas[i];
      }
    }
  }

  /** One more step, picked by `policy` in the last arena, keeps the path committed. */
  lemma CommittedAppend<S>(arenas: seq<seq<Vertex<S>>>, path: seq<nat>, policy: ActionSelection, vs: seq<Vertex<S>>, v: nat)
    requires Committed(arenas, path, policy) && |arenas| == |path|
    requires |path| > 0 ==> CommitStep(arenas[|path| - 1], path[|path| - 1], v, policy)
    ensures Committed(arenas + [vs], path + [v], policy)
  {
    var q: seq<nat> := path + [v];
    var r: seq<seq<Vertex<S>>> := arenas + [vs];
    forall i | 0 < i < |q| && i <= |r| ensures CommitStep(r[i - 1], q[i - 1], q[i], policy) {
      assert r[i - 1] == arenas[i - 1];
      if i < |path| {
        assert q[i - 1] == path[i - 1] && q[i] == path[i];
      }
    }
  }

  /** One more sampled step, its rounds leading from the last arena to `vs`, keeps the path sampled. */
  lemma SampledAlongAppend<S(!new)>(p: Problem<S>, cfg: UcbConfig, start: seq<Vertex<S>>, arenas: seq<seq<Vertex<S>>>,
                                    rounds: seq<seq<Round<S>>>, path: seq<nat>, n: int,
                                    rs: seq<Round<S>>, vs: seq<Vertex<S>>, v: nat)
    requires SampledAlong(p, cfg, start, arenas, rounds, path, n)
    requires |rs| == (if n > 0 then n else 0) && RoundsFrom(p, cfg, v, ArenaBefore(start, arenas, |arenas|), rs, vs)
    requires v < |vs| && (n > 0 ==> vs[v].visitCount >= n)
    ensures SampledAlong(p, cfg, start, arenas + [vs], rounds + [rs], path + [v], n)
  {
    var k := |path|;
    var r: seq<seq<Vertex<S>>> := arenas + [vs];
    var rr: seq<seq<Round<S>>> := rounds + [rs];
    var q: seq<nat> := path + [v];
    assert r[..k] == arenas && rr[..k] == rounds && q[..k] == path;
    assert r[k] == vs && rr[k] == rs && q[k] == v;
    assert ArenaBefore(start, r, k) == ArenaBefore(start, arenas, |arenas|);
  }

  /** One more pass of `run`'s loop: `v`, sampled by rounds `rs` into arena `vs`, is committed. */
  lemma RunTraceAppend<S(!new)>(p: Problem<S>, cfg: UcbConfig, start: seq<Vertex<S>>, arenas: seq<seq<Vertex<S>>>,
                                rounds: seq<seq<Round<S>>>, path: seq<nat>, policy: ActionSelection, n: int,
                                rs: seq<Round<S>>, vs: seq<Vertex<S>>, v: nat)
    requires RunTrace(p, cfg, start, arenas, rounds, path, policy, n)
    requires |path| > 0 ==> CommitStep(arenas[|path| - 1], path[|path| - 1], v, policy)
    requires Evolves(ArenaBefore(start, arenas, |arenas|), vs)
    requires |rs| == (if n > 0 then n else 0) && RoundsFrom(p, cfg, v, ArenaBefore(start, arenas, |arenas|), rs, vs)
    requires v < |vs| && (n > 0 ==> vs[v].visitCount >= n)
    ensures RunTrace(p, cfg, start, arenas + [vs], rounds + [rs], path + [v], policy, n)
  {
    EvolvesThroughAppend(start, arenas, vs);
    CommittedAppend(arenas, path, policy, vs, v);
    SampledAlongAppend(p, cfg, start, arenas, rounds, path, n, rs, vs, v);
  }

  /** Every vertex of `path` is in arena `vs` and, when `n > 0`, has at least `n` visits there. */
  ghost predicate VisitedAtLeast<S>(vs: seq<Vertex<S>>, path: seq<nat>, n: int) {
    forall i :: 0 <= i < |path| ==> path[i] < |vs| && (n > 0 ==> vs[path[i]].visitCount >= n)
  }

  /** Visits only grow as the arena evolves. */
  lemma VisitsEvolve<S>(a: seq<Vertex<S>>, b: seq<Vertex<S>>, path: seq<nat>, n: int, v: nat)
    requires Evolves(a, b) && VisitedAtLeast(a, path, n) && v < |b| && (n > 0 ==> b[v].visitCount >= n)
    ensures VisitedAtLeast(b, path + [v], n)
  {
    var q: seq<nat> := path + [v];
    forall i | 0 <= i < |q| ensures q[i] < |b| && (n > 0 ==> b[q[i]].visitCount >= n) {
      if i < |path| {
        assert q[i] == path[i];
      }
    }
  }
}
