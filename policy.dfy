/**
 * How the engine chooses among the children of a vertex: the UCB1 score used while
 * descending, and the two action selection policies used to commit to a move.
 */
module Policy {
  import opened Wrappers
  import opened Graph

  /** A UCB1 score: infinite for a child never visited, a real number otherwise. */
  datatype Score = Inf | Fin(r: real)

  /** Python's `>` on the float scores: infinity beats every finite score and not itself. */
  predicate Greater(a: Score, b: Score) {
    match (a, b)
    case (Inf, Fin(_)) => true
    case (Fin(x), Fin(y)) => x > y
    case _ => false
  }

  /**
   * The position Python's `max` picks: it scans from the left and replaces its
   * candidate only by a strictly greater key, so the first maximal key wins.
   */
  function FirstMax(keys: seq<Score>): (k: nat)
    requires |keys| > 0
    ensures k < |keys|
    ensures forall j :: 0 <= j < |keys| ==> !Greater(keys[j], keys[k])
    ensures forall j :: 0 <= j < k ==> Greater(keys[k], keys[j])
  {
    if |keys| == 1 then 0
    else
      var m := FirstMax(keys[..|keys| - 1]);
      if Greater(keys[|keys| - 1], keys[m]) then |keys| - 1 else m
  }

  /** The reason `_ucb_score` raises. */
  datatype Error = ParentNotVisited

  /**
   * The engine's UCB1 settings: the exploration constant, and the exploration bonus
   * `sqrt(2 * ln(parentVisits) / childVisits)` as a function on the two visit counts.
   */
  datatype UcbConfig = UcbConfig(ucbConstant: real, bonus: (nat, nat) -> real)

  /**
   * `_ucb_score`: an error for a parent never visited; infinity for a child never
   * visited; otherwise the child's value plus the weighted exploration bonus.
   */
  function UcbScore<S>(cfg: UcbConfig, parent: Vertex<S>, child: Vertex<S>): (r: Result<Score, Error>)
    ensures r.Err? <==> parent.visitCount == 0
    ensures r.Ok? ==> (r.value.Inf? <==> child.visitCount == 0)
    ensures r.Ok? && r.value.Fin? ==>
      r.value.r == child.value + cfg.ucbConstant * cfg.bonus(parent.visitCount, child.visitCount)
  {
    if parent.visitCount == 0 then Err(ParentNotVisited)
    else if child.visitCount == 0 then Ok(Inf)
    else Ok(Fin(child.value + cfg.ucbConstant * cfg.bonus(parent.visitCount, child.visitCount)))
  }

  /** The children indices are all vertices of the arena. */
  predicate InArena<S>(vs: seq<Vertex<S>>, cs: seq<nat>) {
    forall j :: 0 <= j < |cs| ==> cs[j] < |vs|
  }

  /** The UCB1 scores of the children `cs` of a visited `parent`, in order. */
  function ChildScores<S>(cfg: UcbConfig, vs: seq<Vertex<S>>, parent: nat, cs: seq<nat>): (scores: seq<Score>)
    requires parent < |vs| && vs[parent].visitCount > 0 && InArena(vs, cs)
    ensures |scores| == |cs|
    ensures forall j :: 0 <= j < |cs| ==> Ok(scores[j]) == UcbScore(cfg, vs[parent], vs[cs[j]])
  {
    seq(|cs|, j requires 0 <= j < |cs| => UcbScore(cfg, vs[parent], vs[cs[j]]).value)
  }

  /**
   * The descent step of `_select`: the position, among `cs`, of the child with the
   * greatest UCB1 score, the first one on ties; an error when the parent was never visited.
   */
  function UcbChoice<S>(cfg: UcbConfig, vs: seq<Vertex<S>>, parent: nat, cs: seq<nat>): (r: Result<nat, Error>)
    requires parent < |vs| && |cs| > 0 && InArena(vs, cs)
    ensures r.Err? <==> vs[parent].visitCount == 0
    ensures r.Ok? ==> r.value < |cs|
  {
    if vs[parent].visitCount == 0 then Err(ParentNotVisited)
    else Ok(FirstMax(ChildScores(cfg, vs, parent, cs)))
  }

  /**
   * An unvisited child always wins the UCB1 comparison: the child chosen is the first
   * unvisited one, whatever the values and visit counts of its visited siblings.
   */
  lemma UnvisitedChildWins<S>(cfg: UcbConfig, vs: seq<Vertex<S>>, parent: nat, cs: seq<nat>, j: nat)
    requires parent < |vs| && vs[parent].visitCount > 0 && InArena(vs, cs)
    requires j < |cs| && vs[cs[j]].visitCount == 0
    ensures UcbChoice(cfg, vs, parent, cs).Ok?
    ensures var k := UcbChoice(cfg, vs, parent, cs).value;
      k <= j && vs[cs[k]].visitCount == 0 &&
      forall i :: 0 <= i < k ==> vs[cs[i]].visitCount > 0
  {
    var scores := ChildScores(cfg, vs, parent, cs);
    var k := FirstMax(scores);
    assert scores[j] == Inf;
    assert scores[k] == Inf;
    forall i | 0 <= i < k ensures vs[cs[i]].visitCount > 0 {
      assert Greater(scores[k], scores[i]);
    }
  }

  /**
   * When every child has been visited, the child chosen has the greatest finite score
   * `value + c * bonus`, and it is the first child with that score.
   */
  lemma VisitedChildrenCompareByScore<S>(cfg: UcbConfig, vs: seq<Vertex<S>>, parent: nat, cs: seq<nat>)
    requires parent < |vs| && vs[parent].visitCount > 0 && |cs| > 0 && InArena(vs, cs)
    requires forall j :: 0 <= j < |cs| ==> vs[cs[j]].visitCount > 0
    ensures UcbChoice(cfg, vs, parent, cs).Ok?
    ensures var k := UcbChoice(cfg, vs, parent, cs).value;
      var n := vs[parent].visitCount;
      var score := (c: nat) requires c < |vs| => vs[c].value + cfg.ucbConstant * cfg.bonus(n, vs[c].visitCount);
      k < |cs| &&
      (forall i :: 0 <= i < |cs| ==> score(cs[i]) <= score(cs[k])) &&
      (forall i :: 0 <= i < k ==> score(cs[i]) < score(cs[k]))
  {
    var scores := ChildScores(cfg, vs, parent, cs);
    var k := FirstMax(scores);
    forall i | 0 <= i < |cs| ensures scores[i].Fin? {
      assert Ok(scores[i]) == UcbScore(cfg, vs[parent], vs[cs[i]]);
    }
    forall i | 0 <= i < |cs| ensures !Greater(scores[i], scores[k]) { }
    forall i | 0 <= i < k ensures Greater(scores[k], scores[i]) { }
  }

  /**
   * `visit_selection`: the child of `parent` with the most visits, the first one in
   * `children` order on ties.
   */
  function VisitSelection<S>(vs: seq<Vertex<S>>, parent: nat): (c: nat)
    requires parent < |vs| && HasChildren(vs[parent]) && InArena(vs, vs[parent].children.value)
    ensures c in vs[parent].children.value
    ensures forall d :: d in vs[parent].children.value ==> vs[d].visitCount <= vs[c].visitCount
    ensures exists k ::
      && 0 <= k < |vs[parent].children.value| && vs[parent].children.value[k] == c
      && forall j :: 0 <= j < k ==> vs[vs[parent].children.value[j]].visitCount < vs[c].visitCount
  {
    var cs := vs[parent].children.value;
    var keys := seq(|cs|, j requires 0 <= j < |cs| => Fin(vs[cs[j]].visitCount as real));
    var k := FirstMax(keys);
    assert forall j :: 0 <= j < |cs| ==> keys[j] == Fin(vs[cs[j]].visitCount as real);
    assert forall d :: d in cs ==> vs[d].visitCount <= vs[cs[k]].visitCount by {
      forall d | d in cs ensures vs[d].visitCount <= vs[cs[k]].visitCount {
        var j :| 0 <= j < |cs| && cs[j] == d;
        assert !Greater(keys[j], keys[k]);
      }
    }
    assert forall j :: 0 <= j < k ==> vs[cs[j]].visitCount < vs[cs[k]].visitCount by {
      forall j | 0 <= j < k ensures vs[cs[j]].visitCount < vs[cs[k]].visitCount {
        assert Greater(keys[k], keys[j]);
      }
    }
    cs[k]
  }

  /**
   * `softmax_selection`: a child drawn at random with weights `exp(visit_count)`.
   * Only the draw's range is modelled: some child of `parent`.
   */
  method SoftmaxSelection<S>(vs: seq<Vertex<S>>, parent: nat) returns (c: nat)
    requires parent < |vs| && HasChildren(vs[parent])
    ensures c in vs[parent].children.value
  {
    var cs := vs[parent].children.value;
    var k :| 0 <= k < |cs|;
    c := cs[k];
  }

  /** The two stock action selection policies of `run`. */
  datatype ActionSelection = VisitSelectionPolicy | SoftmaxSelectionPolicy

  /**
   * One committed step of `run`: `child` is a child of `parent` in arena `vs`, and the
   * one `visit_selection` picks when that is the policy.
   */
  ghost predicate CommitStep<S>(vs: seq<Vertex<S>>, parent: nat, child: nat, policy: ActionSelection) {
    parent < |vs| && HasChildren(vs[parent]) && InArena(vs, vs[parent].children.value) &&
    child in vs[parent].children.value &&
    (policy == VisitSelectionPolicy ==> child == VisitSelection(vs, parent))
  }

  /**
   * How `run` resolves its `action_selection_function` argument: `None` gives
   * softmax selection and any function given, whichever it is, gives visit selection.
   */
  function ResolveActionSelection(requested: Option<ActionSelection>): (a: ActionSelection)
    ensures a == SoftmaxSelectionPolicy <==> requested.None?
    ensures requested == Some(SoftmaxSelectionPolicy) ==> a == VisitSelectionPolicy
  {
    if requested.None? then SoftmaxSelectionPolicy else VisitSelectionPolicy
  }
}
