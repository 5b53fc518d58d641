/**
 * The controller's broadcast of events and contextual queries over its tree
 * of responders (NextBotController.Events.cs, NextBotController.Queries.cs).
 * The controller is the root of the tree; each responder lists its contained
 * responders in First/NextContainedResponder order.  What a responder does
 * with an event is its own business: the model records who receives it, in
 * which order.  A responder's answer to a query is a function of its id.
 */
module Controller {
  import opened Actions

  datatype Responder = Responder(id: nat, contained: seq<Responder>)

  /** The contained responders of `r` and all of theirs, `r` included, as a multiset of ids. */
  function Members(r: Responder): multiset<nat>
    decreases r
  {
    multiset{r.id} + MembersOf(r.contained)
  }

  function MembersOf(rs: seq<Responder>): multiset<nat>
    decreases rs
  {
    if |rs| == 0 then multiset{} else Members(rs[0]) + MembersOf(rs[1..])
  }

  // ------------------------------------------------------------------ events

  /**
   * `InvokeEvent(parent, args)`: the ids that receive the event, in order.
   * The responder itself first, then each contained responder's whole subtree
   * in turn; nothing stops the walk.
   */
  function Deliveries(r: Responder): (d: seq<nat>)
    decreases r
    ensures |d| > 0 && d[0] == r.id
  {
    [r.id] + DeliveriesOf(r.contained)
  }

  function DeliveriesOf(rs: seq<Responder>): seq<nat>
    decreases rs
  {
    if |rs| == 0 then [] else Deliveries(rs[0]) + DeliveriesOf(rs[1..])
  }

  /** The deliveries of a tree are its members, each as often as it occurs. */
  lemma {:induction false} DeliveriesAreMembers(r: Responder)
    ensures multiset(Deliveries(r)) == Members(r)
    decreases r
  {
    DeliveriesOfAreMembers(r.contained);
  }

  lemma {:induction false} DeliveriesOfAreMembers(rs: seq<Responder>)
    ensures multiset(DeliveriesOf(rs)) == MembersOf(rs)
    decreases rs
  {
    if |rs| > 0 {
      DeliveriesAreMembers(rs[0]);
      DeliveriesOfAreMembers(rs[1..]);
    }
  }

  /** Every responder of the tree appears exactly once, when no id is shared. */
  ghost predicate DistinctIds(r: Responder) {
    forall x :: Members(r)[x] <= 1
  }

  /**
   * Each responder receives the event exactly as many times as it occurs in
   * the tree: once each when ids are distinct, and the controller before
   * anyone else.
   */
  lemma EveryResponderOnce(r: Responder, x: nat)
    requires DistinctIds(r)
    ensures var d := Deliveries(r);
      (x in Members(r) ==> multiset(d)[x] == 1) && (x !in Members(r) ==> x !in d)
      && d[0] == r.id
  {
    var d := Deliveries(r);
    DeliveriesAreMembers(r);
    if x !in Members(r) {
      assert x !in multiset(d);
    }
  }

  /**
   * Pre-order: a responder receives the event before every responder it
   * contains, directly or not; the `k`-th contained subtree is delivered as
   * one contiguous block after the responder itself.
   */
  lemma ParentBeforeContained(r: Responder, k: nat) returns (off: nat)
    requires k < |r.contained|
    ensures var d := Deliveries(r); var s := Deliveries(r.contained[k]);
      1 <= off && off + |s| <= |d| && d[off..off + |s|] == s
  {
    var inner := SegmentOf(r.contained, k);
    SliceOfAppend([r.id], DeliveriesOf(r.contained), inner, inner + |Deliveries(r.contained[k])|);
    off := 1 + inner;
  }

  /** Where the subtree of the `k`-th responder of `rs` sits in their deliveries. */
  lemma {:induction false} SegmentOf(rs: seq<Responder>, k: nat) returns (off: nat)
    requires k < |rs|
    ensures var d := DeliveriesOf(rs); var s := Deliveries(rs[k]);
      off + |s| <= |d| && d[off..off + |s|] == s
    decreases k
  {
    var head := Deliveries(rs[0]);
    var tail := DeliveriesOf(rs[1..]);
    if k == 0 {
      off := 0;
      assert (head + tail)[..|head|] == head;
    } else {
      var inner := SegmentOf(rs[1..], k - 1);
      assert rs[1..][k - 1] == rs[k];
      SliceOfAppend(head, tail, inner, inner + |Deliveries(rs[k])|);
      off := |head| + inner;
    }
  }

  lemma SliceOfAppend<T>(a: seq<T>, b: seq<T>, i: nat, j: nat)
    requires i <= j <= |b|
    ensures (a + b)[|a| + i..|a| + j] == b[i..j]
  {
    assert forall k :: 0 <= k < j - i ==> (a + b)[|a| + i..|a| + j][k] == b[i..j][k];
  }

  // ----------------------------------------------------------------- queries

  /**
   * `InvokeQuery(parent, args)`: the responder's own answer if it is not the
   * default, otherwise the first non-default answer of its contained
   * responders' subtrees in order, otherwise the default.
   */
  function TreeAnswer<R(==)>(r: Responder, answer: nat -> R, dflt: R): R
    decreases r
  {
    if answer(r.id) != dflt then answer(r.id) else TreeAnswerOf(r.contained, answer, dflt)
  }

  function TreeAnswerOf<R(==)>(rs: seq<Responder>, answer: nat -> R, dflt: R): R
    decreases rs
  {
    if |rs| == 0 then dflt
    else
      var a := TreeAnswer(rs[0], answer, dflt);
      if a != dflt then a else TreeAnswerOf(rs[1..], answer, dflt)
  }

  function AnswersInOrder<R>(d: seq<nat>, answer: nat -> R): (xs: seq<R>)
    ensures |xs| == |d| && forall k :: 0 <= k < |d| ==> xs[k] == answer(d[k])
  {
    seq(|d|, k requires 0 <= k < |d| => answer(d[k]))
  }

  /** The tree walk returns the first non-default answer in pre-order (delivery order). */
  lemma {:induction false} TreeAnswerIsFirstInPreOrder<R>(r: Responder, answer: nat -> R, dflt: R)
    ensures TreeAnswer(r, answer, dflt) == FirstNonDefault(AnswersInOrder(Deliveries(r), answer), dflt)
    decreases r
  {
    var xs := AnswersInOrder(Deliveries(r), answer);
    assert xs[0] == answer(r.id);
    TreeAnswerOfIsFirst(r.contained, answer, dflt);
    assert xs[1..] == AnswersInOrder(DeliveriesOf(r.contained), answer);
  }

  lemma {:induction false} TreeAnswerOfIsFirst<R>(rs: seq<Responder>, answer: nat -> R, dflt: R)
    ensures TreeAnswerOf(rs, answer, dflt) == FirstNonDefault(AnswersInOrder(DeliveriesOf(rs), answer), dflt)
    decreases rs
  {
    if |rs| > 0 {
      TreeAnswerIsFirstInPreOrder(rs[0], answer, dflt);
      TreeAnswerOfIsFirst(rs[1..], answer, dflt);
      FirstNonDefaultAppend(AnswersInOrder(Deliveries(rs[0]), answer), AnswersInOrder(DeliveriesOf(rs[1..]), answer), dflt);
      assert AnswersInOrder(DeliveriesOf(rs), answer)
        == AnswersInOrder(Deliveries(rs[0]), answer) + AnswersInOrder(DeliveriesOf(rs[1..]), answer);
    }
  }

  /** The first non-default answer of a concatenation: from the first part if it has one. */
  lemma {:induction false} FirstNonDefaultAppend<R>(xs: seq<R>, ys: seq<R>, dflt: R)
    ensures FirstNonDefault(xs + ys, dflt)
      == (var a := FirstNonDefault(xs, dflt); if a != dflt then a else FirstNonDefault(ys, dflt))
    decreases |xs|
  {
    if |xs| > 0 {
      assert (xs + ys)[0] == xs[0];
      assert (xs + ys)[1..] == xs[1..] + ys;
      FirstNonDefaultAppend(xs[1..], ys, dflt);
    } else {
      assert xs + ys == ys;
    }
  }

  /** Which stage of `InvokeQuery<T>(args)` produced the answer. */
  datatype Stage = PreHook | Tree | PostHook | NoAnswer

  /**
   * `InvokeQuery<T>(args)`: a non-default pre-hook answer is returned without
   * consulting any responder; then the tree; the post hook only when both
   * gave the default.
   */
  function InvokeQuery<R(==)>(pre: R, r: Responder, answer: nat -> R, post: R, dflt: R): (out: (R, Stage))
    ensures out.1 == PreHook <==> pre != dflt
    ensures out.1 == Tree <==> pre == dflt && TreeAnswer(r, answer, dflt) != dflt
    ensures out.1 == PostHook <==> pre == dflt && TreeAnswer(r, answer, dflt) == dflt && post != dflt
    ensures out.0 == dflt <==> out.1 == NoAnswer
    ensures out.0 == FirstNonDefault([pre, TreeAnswer(r, answer, dflt), post], dflt)
  {
    var xs := [pre, TreeAnswer(r, answer, dflt), post];
    assert xs[1..][1..] == [post] && xs[1..][1..][1..] == [];
    assert FirstNonDefault(xs[1..][1..], dflt) == if post != dflt then post else FirstNonDefault([], dflt);
    if pre != dflt then (pre, PreHook)
    else
      var answer := TreeAnswer(r, answer, dflt);
      if answer != dflt then (answer, Tree)
      else if post != dflt then (post, PostHook)
      else (dflt, NoAnswer)
  }

  /** The three-valued answer most queries use; `Undefined` is its default. */
  datatype QueryResultType = Undefined | No | Yes

  /**
   * For a yes/no query, the controller answers Undefined iff the pre hook,
   * every responder and the post hook all answer Undefined.
   */
  lemma UndefinedIffNobodyAnswers(pre: QueryResultType, r: Responder, answer: nat -> QueryResultType, post: QueryResultType)
    ensures InvokeQuery(pre, r, answer, post, Undefined).0 == Undefined
      <==> pre == Undefined && post == Undefined && forall x :: x in Deliveries(r) ==> answer(x) == Undefined
  {
    TreeAnswerIsFirstInPreOrder(r, answer, Undefined);
    var xs := AnswersInOrder(Deliveries(r), answer);
    FirstNonDefaultIsDefaultIff(xs, Undefined);
    var d := Deliveries(r);
    if forall k :: 0 <= k < |xs| ==> xs[k] == Undefined {
      forall x | x in d
        ensures answer(x) == Undefined
      {
        var k :| 0 <= k < |d| && d[k] == x;
        assert xs[k] == answer(x);
      }
    }
  }

  lemma {:induction false} FirstNonDefaultIsDefaultIff<R>(xs: seq<R>, dflt: R)
    ensures FirstNonDefault(xs, dflt) == dflt <==> forall k :: 0 <= k < |xs| ==> xs[k] == dflt
    decreases |xs|
  {
    if |xs| > 0 {
      FirstNonDefaultIsDefaultIff(xs[1..], dflt);
      if xs[0] == dflt {
        assert forall k :: 1 <= k < |xs| ==> xs[k] == xs[1..][k - 1];
      }
    }
  }
}
