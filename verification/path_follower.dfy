/**
 * The node bookkeeping of `NextBotPathFollower` (PathFollower.cs): the node
 * list, the index of the node being moved towards, and the time of the last
 * `Invalidate` (from which `Age` is measured).  Path planning is an input
 * (the node list and success flag the planner produces); the bot's feet and
 * the clock are parameters.
 */
module Paths {
  import opened Wrappers
  import opened Knowledge

  datatype NavNode = NavNode(position: Vec3)

  datatype PathFollower = PathFollower(nodes: seq<NavNode>, targetNodeIndex: int, invalidatedAt: real)

  /** `Age > 0`: some time has passed since the path was last invalidated (or built). */
  predicate AgePositive(p: PathFollower, now: real) {
    now - p.invalidatedAt > 0.0
  }

  /** `GetNode(index)`: nothing outside the list. */
  function GetNode(p: PathFollower, index: int): (r: Option<NavNode>)
    ensures r.None? <==> index < 0 || index >= |p.nodes|
    ensures r.Some? ==> r.value == p.nodes[index]
  {
    if index < 0 || index >= |p.nodes| then None else Some(p.nodes[index])
  }

  function GetPriorNode(p: PathFollower): Option<NavNode> { GetNode(p, p.targetNodeIndex - 1) }
  function GetTargetNode(p: PathFollower): Option<NavNode> { GetNode(p, p.targetNodeIndex) }
  function GetNextNode(p: PathFollower): Option<NavNode> { GetNode(p, p.targetNodeIndex + 1) }

  /** `IsValid`: the path has nodes. */
  predicate IsValid(p: PathFollower) {
    |p.nodes| > 0
  }

  /**
   * What `Build` and `CheckProgress` keep: either no path (index 0), or at
   * least two nodes with the index on a node that has a prior one.
   */
  predicate Wf(p: PathFollower) {
    || (|p.nodes| == 0 && p.targetNodeIndex == 0)
    || (2 <= |p.nodes| && 1 <= p.targetNodeIndex < |p.nodes|)
  }

  /**
   * On a well-formed follower the accessors agree with `IsValid`: a valid
   * path always has a prior and a target node, an invalid one has none of
   * the three, and the next node exists exactly when the target is not the
   * last node.
   */
  lemma AccessorsAgreeWithValidity(p: PathFollower)
    requires Wf(p)
    ensures IsValid(p) <==> GetTargetNode(p).Some?
    ensures IsValid(p) ==> GetPriorNode(p) == Some(p.nodes[p.targetNodeIndex - 1])
    ensures IsValid(p) ==> GetTargetNode(p) == Some(p.nodes[p.targetNodeIndex])
    ensures !IsValid(p) ==> GetPriorNode(p).None? && GetNextNode(p).None?
    ensures GetNextNode(p).Some? <==> IsValid(p) && p.targetNodeIndex < |p.nodes| - 1
  {
  }

  /** `Invalidate`: no nodes, index 0, and `Age` restarts. */
  function Invalidate(p: PathFollower, now: real): (r: PathFollower)
    ensures !IsValid(r) && Wf(r) && !AgePositive(r, now)
    ensures GetPriorNode(r).None? && GetTargetNode(r).None? && GetNextNode(r).None?
  {
    PathFollower([], 0, now)
  }

  /**
   * `Build`: the planner's nodes are taken only when there are at least two
   * (start and end); the target is then the second node and the answer is
   * the planner's.  Otherwise the path is left invalidated and the answer is
   * false.
   */
  function Build(p: PathFollower, planned: seq<NavNode>, plannerFound: bool, now: real): (r: (PathFollower, bool))
    ensures Wf(r.0)
    ensures |planned| < 2 ==> !IsValid(r.0) && !r.1
    ensures |planned| >= 2 ==>
      && r.0.nodes == planned && r.1 == plannerFound
      && GetPriorNode(r.0) == Some(planned[0]) && GetTargetNode(r.0) == Some(planned[1])
  {
    var cleared := Invalidate(p, now);
    var filled := cleared.(nodes := planned);
    if |filled.nodes| < 2 then (Invalidate(filled, now), false)
    else
      var started := filled.(targetNodeIndex := 1);
      (started, plannerFound && IsValid(started))
  }

  /** The proximity test of `IsAtGoal`: within tolerance of the target horizontally; height does not matter. */
  predicate Near(node: NavNode, feet: Vec3, tolerance: real) {
    var dx := node.position.x - feet.x;
    var dy := node.position.y - feet.y;
    dx * dx + dy * dy < tolerance * tolerance
  }

  /**
   * `IsAtGoal`: true without a prior node; otherwise whether the feet are
   * near the target.  `None` is the exception `GetTargetNode().Value`
   * raises when there is a prior node but no target.
   */
  function IsAtGoal(p: PathFollower, feet: Vec3, tolerance: real): (r: Option<bool>)
    ensures GetPriorNode(p).None? ==> r == Some(true)
    ensures Wf(p) ==> r.Some?
    ensures r == Some(false) ==> GetTargetNode(p).Some? && !Near(GetTargetNode(p).value, feet, tolerance)
    ensures GetPriorNode(p).Some? ==>
      && (r == Some(true) <==> GetTargetNode(p).Some? && Near(GetTargetNode(p).value, feet, tolerance))
      && (r.None? <==> GetTargetNode(p).None?)
  {
    if GetPriorNode(p).None? then Some(true)
    else
      match GetTargetNode(p)
      case None => None
      case Some(target) => Some(Near(target, feet, tolerance))
  }

  /**
   * `CheckProgress`: at the goal with a next node, step the index by one and
   * go on; at the goal of the last node, stop (false) and invalidate only if
   * the path is older than now; not at the goal, go on unchanged.
   */
  function CheckProgress(p: PathFollower, feet: Vec3, tolerance: real, now: real): (r: (PathFollower, Option<bool>))
    ensures Wf(p) ==> r.1.Some? && Wf(r.0)
    ensures IsAtGoal(p, feet, tolerance) == Some(false) ==> r == (p, Some(true))
    ensures IsAtGoal(p, feet, tolerance) == Some(true) && GetNextNode(p).Some? ==>
      r == (p.(targetNodeIndex := p.targetNodeIndex + 1), Some(true))
    ensures IsAtGoal(p, feet, tolerance) == Some(true) && GetNextNode(p).None? ==>
      r.1 == Some(false) && r.0 == (if AgePositive(p, now) then Invalidate(p, now) else p)
  {
    match IsAtGoal(p, feet, tolerance)
    case None => (p, None)
    case Some(atGoal) =>
      if !atGoal then (p, Some(true))
      else if GetNextNode(p).None? then
        (if AgePositive(p, now) then Invalidate(p, now) else p, Some(false))
      else (p.(targetNodeIndex := p.targetNodeIndex + 1), Some(true))
  }

  /** `CheckProgress` repeated while it answers true, at most `n` times. */
  function Follow(p: PathFollower, feet: Vec3, tolerance: real, now: real, n: nat): (PathFollower, nat)
    decreases n
  {
    if n == 0 then (p, 0)
    else
      var step := CheckProgress(p, feet, tolerance, now);
      if step.1 != Some(true) then (step.0, 1)
      else
        var rest := Follow(step.0, feet, tolerance, now, n - 1);
        (rest.0, rest.1 + 1)
  }

  /**
   * A bot that stays within tolerance of every node walks a built path to
   * its end: from target `i` of `m` nodes, `m - i` checks step through the
   * remaining nodes and the last one reports the end of the path, which
   * invalidates it when it is older than now.
   */
  lemma {:induction false} FollowToEnd(p: PathFollower, feet: Vec3, tolerance: real, now: real)
    requires Wf(p) && IsValid(p)
    requires forall k :: 0 <= k < |p.nodes| ==> Near(p.nodes[k], feet, tolerance)
    ensures var r := Follow(p, feet, tolerance, now, |p.nodes| - p.targetNodeIndex);
      && r.1 == |p.nodes| - p.targetNodeIndex
      && (AgePositive(p, now) ==> !IsValid(r.0))
      && (!AgePositive(p, now) ==> r.0 == p.(targetNodeIndex := |p.nodes| - 1))
    decreases |p.nodes| - p.targetNodeIndex
  {
    var n := |p.nodes| - p.targetNodeIndex;
    assert IsAtGoal(p, feet, tolerance) == Some(true);
    if p.targetNodeIndex == |p.nodes| - 1 {
      assert GetNextNode(p).None?;
    } else {
      var q := p.(targetNodeIndex := p.targetNodeIndex + 1);
      assert CheckProgress(p, feet, tolerance, now) == (q, Some(true));
      FollowToEnd(q, feet, tolerance, now);
    }
  }
}
