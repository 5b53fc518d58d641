/**
 * The threat-selection query (`NextBotQuerySelectMoreDangerousThreat`,
 * Util/Queries.cs): its pre hook, its post hook, and the query as the
 * controller runs it (pre hook, then the responders' answer, then the post
 * hook).  A null threat is `None`; the subject is the bot's own entity.
 */
module Threats {
  import opened Wrappers
  import opened Knowledge
  import Controller

  /** A threat that is there and not obsolete. */
  predicate IsLive(t: Option<KnownEntity>, w: World) {
    t.Some? && !IsObsolete(t.value, w)
  }

  /**
   * `OnPreInvocation`: a decision is made only when exactly one threat is
   * live, and then it is that one; otherwise null, which defers to the
   * responders.
   */
  function PreInvocation(t1: Option<KnownEntity>, t2: Option<KnownEntity>, w: World): (r: Option<KnownEntity>)
    ensures r.Some? <==> IsLive(t1, w) != IsLive(t2, w)
    ensures r.Some? ==> IsLive(r, w) && (r == t1 || r == t2)
  {
    if t1.None? || IsObsolete(t1.value, w) then
      if t2.Some? && !IsObsolete(t2.value, w) then t2 else None
    else if t2.None? || IsObsolete(t2.value, w) then t1
    else None
  }

  /** The four cases of the pre hook, each named after the threats' state. */
  lemma PreInvocationCases(t1: Option<KnownEntity>, t2: Option<KnownEntity>, w: World)
    ensures !IsLive(t1, w) && !IsLive(t2, w) ==> PreInvocation(t1, t2, w).None?
    ensures !IsLive(t1, w) && IsLive(t2, w) ==> PreInvocation(t1, t2, w) == t2
    ensures IsLive(t1, w) && !IsLive(t2, w) ==> PreInvocation(t1, t2, w) == t1
    ensures IsLive(t1, w) && IsLive(t2, w) ==> PreInvocation(t1, t2, w).None?
  {
  }

  /** Squared distance from the subject to a threat's last known position. */
  function Range(w: World, subject: Ent, t: KnownEntity): real {
    LengthSquared(Sub(w.position(subject), t.lastKnownPosition))
  }

  /** The outcome of the post hook as written: an answer, or a null threat dereferenced. */
  datatype Outcome = Answer(threat: Option<KnownEntity>) | NullDereference

  /**
   * `OnPostInvocation` as written: null for an invalid subject; otherwise
   * both threats' positions are read, null or not, and threat 1 is chosen
   * only when it is strictly closer.
   */
  function PostInvocationAsWritten(subject: Option<Ent>, t1: Option<KnownEntity>, t2: Option<KnownEntity>, w: World): (r: Outcome)
    ensures !IsValidEntity(w, subject) ==> r == Answer(None)
    ensures IsValidEntity(w, subject) ==> (r == NullDereference <==> t1.None? || t2.None?)
    ensures r.Answer? && r.threat.Some? ==> r.threat == t1 || r.threat == t2
  {
    if !IsValidEntity(w, subject) then Answer(None)
    else if t1.None? || t2.None? then NullDereference
    else if Range(w, subject.value, t1.value) < Range(w, subject.value, t2.value) then Answer(t1)
    else Answer(t2)
  }

  /**
   * The post hook picks the nearer threat; on a tie the second.  Swapping
   * the two threats changes nothing unless they are equally near.
   */
  lemma PostPicksNearer(subject: Ent, a: KnownEntity, b: KnownEntity, w: World)
    requires w.valid(subject)
    ensures var r := PostInvocationAsWritten(Some(subject), Some(a), Some(b), w);
      && r.Answer? && r.threat.Some?
      && Range(w, subject, r.threat.value) <= Range(w, subject, a)
      && Range(w, subject, r.threat.value) <= Range(w, subject, b)
      && (Range(w, subject, a) == Range(w, subject, b) ==> r.threat == Some(b))
    ensures Range(w, subject, a) != Range(w, subject, b) ==>
      PostInvocationAsWritten(Some(subject), Some(a), Some(b), w) == PostInvocationAsWritten(Some(subject), Some(b), Some(a), w)
  {
  }

  /** The query as the controller runs it, with the responders' answer as an input. */
  function SelectAsWritten(subject: Option<Ent>, t1: Option<KnownEntity>, t2: Option<KnownEntity>, tree: Option<KnownEntity>, w: World): (r: Outcome)
    ensures r == NullDereference ==> PreInvocation(t1, t2, w).None? && tree.None?
  {
    var pre := PreInvocation(t1, t2, w);
    if pre.Some? then Answer(pre)
    else if tree.Some? then Answer(tree)
    else PostInvocationAsWritten(subject, t1, t2, w)
  }

  /**
   * When the post hook does not fault, the query is the controller's
   * `InvokeQuery` over the responder tree with these hooks.
   */
  lemma SelectIsInvokeQuery(subject: Option<Ent>, t1: Option<KnownEntity>, t2: Option<KnownEntity>, w: World,
                            root: Controller.Responder, answer: nat -> Option<KnownEntity>)
    requires PostInvocationAsWritten(subject, t1, t2, w).Answer?
    ensures var post := PostInvocationAsWritten(subject, t1, t2, w).threat;
      SelectAsWritten(subject, t1, t2, Controller.TreeAnswer(root, answer, None), w)
        == Answer(Controller.InvokeQuery(PreInvocation(t1, t2, w), root, answer, post, None).0)
  {
    var pre := PreInvocation(t1, t2, w);
    var post := PostInvocationAsWritten(subject, t1, t2, w).threat;
    var out := Controller.InvokeQuery(pre, root, answer, post, None);
    if pre.None? && Controller.TreeAnswer(root, answer, None).None? && post.None? {
      assert out.1 == Controller.NoAnswer;
    }
  }

  /**
   * The finding, as written: when neither threat is live the pre hook
   * defers, and if no responder answers, the post hook reads a null
   * threat's position (or, when both are merely obsolete, returns one of
   * them).
   */
  lemma NoLiveThreatFaults(subject: Ent, t1: Option<KnownEntity>, t2: Option<KnownEntity>, w: World)
    requires w.valid(subject) && !IsLive(t1, w) && !IsLive(t2, w)
    ensures t1.None? || t2.None? ==> SelectAsWritten(Some(subject), t1, t2, None, w) == NullDereference
    ensures t1.Some? && t2.Some? ==> var r := SelectAsWritten(Some(subject), t1, t2, None, w);
      r.Answer? && r.threat.Some? && IsObsolete(r.threat.value, w)
  {
    assert PreInvocation(t1, t2, w).None?;
  }

  /** The concrete instance: two null threats, a valid bot, no responder answering. */
  lemma TwoNullThreatsFault(subject: Ent, w: World)
    requires w.valid(subject)
    ensures SelectAsWritten(Some(subject), None, None, None, w) == NullDereference
  {
    NoLiveThreatFaults(subject, None, None, w);
  }

  /**
   * `OnPostInvocation` corrected: the range comparison is made only between
   * two live threats, and no threat is chosen otherwise, matching the pre
   * hook's own answer for that case.
   */
  function PostInvocation(subject: Option<Ent>, t1: Option<KnownEntity>, t2: Option<KnownEntity>, w: World): (r: Option<KnownEntity>)
    ensures r.Some? <==> IsValidEntity(w, subject) && IsLive(t1, w) && IsLive(t2, w)
    ensures r.Some? ==>
      && Range(w, subject.value, r.value) <= Range(w, subject.value, t1.value)
      && Range(w, subject.value, r.value) <= Range(w, subject.value, t2.value)
  {
    if !IsValidEntity(w, subject) || !IsLive(t1, w) || !IsLive(t2, w) then None
    else if Range(w, subject.value, t1.value) < Range(w, subject.value, t2.value) then t1
    else t2
  }

  /**
   * The threat query with the corrected post hook: it never faults, and
   * unless a responder decides, it names a live threat exactly when one
   * exists and the bot is valid (when only one is live, that one).
   */
  function SelectMoreDangerousThreat(subject: Option<Ent>, t1: Option<KnownEntity>, t2: Option<KnownEntity>, tree: Option<KnownEntity>, w: World): (r: Option<KnownEntity>)
    ensures tree.None? && r.Some? ==> IsLive(r, w) && (r == t1 || r == t2)
    ensures tree.None? && IsValidEntity(w, subject) ==> (r.Some? <==> IsLive(t1, w) || IsLive(t2, w))
    ensures IsLive(t1, w) != IsLive(t2, w) ==> r == (if IsLive(t1, w) then t1 else t2)
    ensures !IsLive(t1, w) && !IsLive(t2, w) ==> r == tree
  {
    var pre := PreInvocation(t1, t2, w);
    if pre.Some? then pre
    else if tree.Some? then tree
    else PostInvocation(subject, t1, t2, w)
  }

  /** The correction changes only the runs where neither threat is live. */
  lemma CorrectionAgreesOtherwise(subject: Option<Ent>, t1: Option<KnownEntity>, t2: Option<KnownEntity>, tree: Option<KnownEntity>, w: World)
    requires IsLive(t1, w) || IsLive(t2, w)
    ensures SelectAsWritten(subject, t1, t2, tree, w) == Answer(SelectMoreDangerousThreat(subject, t1, t2, tree, w))
  {
  }
}
