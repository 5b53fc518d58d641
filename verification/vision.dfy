/**
 * The vision component's list of known entities
 * (Components/Vision/NextBotVision.cs).  Perception is an input: the
 * entities visible this tick (already filtered for validity, life state and
 * line of sight) and whether the bot can see a given point.
 */
module Vision {
  import opened Wrappers
  import opened Knowledge

  /** No two records are about the same entity. */
  predicate Unique(s: seq<KnownEntity>) {
    forall i, j :: 0 <= i < j < |s| ==> s[i].entity != s[j].entity
  }

  /** The first record about `who` (`KnownEntities.Find(x => x.Entity == who)`), obsolete or not. */
  function IndexOf(s: seq<KnownEntity>, who: Option<Ent>): (r: Option<nat>)
    ensures r.Some? ==> r.value < |s| && s[r.value].entity == who
    ensures r.Some? ==> forall j :: 0 <= j < r.value ==> s[j].entity != who
    ensures r.None? ==> forall j :: 0 <= j < |s| ==> s[j].entity != who
  {
    if |s| == 0 then None
    else if s[0].entity == who then Some(0)
    else
      match IndexOf(s[1..], who)
      case Some(i) => Some(i + 1)
      case None => None
  }

  /** The first record about `who` that is not obsolete. */
  function FirstLive(s: seq<KnownEntity>, who: Option<Ent>, w: World): (r: Option<nat>)
    ensures r.Some? ==> r.value < |s| && s[r.value].entity == who && !IsObsolete(s[r.value], w)
    ensures r.Some? ==> forall j :: 0 <= j < r.value ==> !(s[j].entity == who && !IsObsolete(s[j], w))
    ensures r.None? ==> forall j :: 0 <= j < |s| ==> !(s[j].entity == who && !IsObsolete(s[j], w))
  {
    if |s| == 0 then None
    else if s[0].entity == who && !IsObsolete(s[0], w) then Some(0)
    else
      match FirstLive(s[1..], who, w)
      case Some(i) => Some(i + 1)
      case None => None
  }

  /**
   * `GetKnown(entity)`: nothing for a null or invalid entity; otherwise the
   * first record about it that is not obsolete, or nothing.
   */
  function GetKnown(s: seq<KnownEntity>, who: Option<Ent>, w: World): (r: Option<KnownEntity>)
    ensures !IsValidEntity(w, who) ==> r.None?
    ensures IsValidEntity(w, who) ==>
      (r.Some? <==> exists i :: 0 <= i < |s| && s[i].entity == who && !IsObsolete(s[i], w))
    ensures r.Some? ==> r.value in s && r.value.entity == who && !IsObsolete(r.value, w)
    ensures r.Some? ==> exists i ::
      && 0 <= i < |s| && r.value == s[i]
      && forall j :: 0 <= j < i ==> !(s[j].entity == who && !IsObsolete(s[j], w))
  {
    if !IsValidEntity(w, who) then None
    else
      match FirstLive(s, who, w)
      case Some(i) => Some(s[i])
      case None => None
  }

  /**
   * `AlertOfEntity(entity)`: null, invalid and world entities are ignored; a
   * known entity (obsolete or not) only has its first record's position
   * refreshed; an unknown one gets one new record at the end.
   */
  function AlertOfEntity(s: seq<KnownEntity>, who: Option<Ent>, w: World): (r: seq<KnownEntity>)
    ensures !IsValidEntity(w, who) || w.isWorld(who.value) ==> r == s
    ensures IsValidEntity(w, who) && !w.isWorld(who.value) && IndexOf(s, who).Some? ==>
      var i := IndexOf(s, who).value;
      && |r| == |s| && r[i] == UpdatePosition(s[i], w)
      && r[i].lastKnownPosition == w.position(who.value) && r[i].whenLastKnown == w.now
      && forall j :: 0 <= j < |s| && j != i ==> r[j] == s[j]
    ensures IsValidEntity(w, who) && !w.isWorld(who.value) && IndexOf(s, who).None? ==>
      |r| == |s| + 1 && r[..|s|] == s && r[|s|] == NewKnown(who, w)
  {
    if !IsValidEntity(w, who) || w.isWorld(who.value) then s
    else
      match IndexOf(s, who)
      case Some(i) => s[i := UpdatePosition(s[i], w)]
      case None => s + [NewKnown(who, w)]
  }

  /** `AlertOfEntity` never creates a duplicate record. */
  lemma AlertKeepsUnique(s: seq<KnownEntity>, who: Option<Ent>, w: World)
    requires Unique(s)
    ensures Unique(AlertOfEntity(s, who, w))
  {
    var r := AlertOfEntity(s, who, w);
    if IsValidEntity(w, who) && !w.isWorld(who.value) && IndexOf(s, who).Some? {
      var i := IndexOf(s, who).value;
      assert forall j :: 0 <= j < |s| ==> r[j].entity == s[j].entity;
    }
  }

  /** After an alert about a valid, living, non-world entity, `GetKnown` finds a record about it. */
  lemma AlertThenKnown(s: seq<KnownEntity>, who: Option<Ent>, w: World)
    requires IsValidEntity(w, who) && !w.isWorld(who.value) && w.alive(who.value)
    ensures var r := AlertOfEntity(s, who, w);
      GetKnown(r, who, w).Some? && GetKnown(r, who, w).value.entity == who
  {
    var r := AlertOfEntity(s, who, w);
    var i := if IndexOf(s, who).Some? then IndexOf(s, who).value else |s|;
    assert r[i].entity == who && !IsObsolete(r[i], w);
  }

  /**
   * `ForgetEntity(entity)`: removes the first record about the entity, and
   * only that one; nothing changes when there is none.
   */
  function ForgetEntity(s: seq<KnownEntity>, who: Option<Ent>): (r: seq<KnownEntity>)
    ensures IndexOf(s, who).None? ==> r == s
    ensures IndexOf(s, who).Some? ==> var i := IndexOf(s, who).value; r == s[..i] + s[i + 1..]
  {
    if |s| == 0 then []
    else if s[0].entity == who then s[1..]
    else [s[0]] + ForgetEntity(s[1..], who)
  }

  /** Forgetting an entity the list did not know before undoes an alert about it. */
  lemma ForgetUndoesAlert(s: seq<KnownEntity>, who: Option<Ent>, w: World)
    requires IndexOf(s, who).None?
    ensures ForgetEntity(AlertOfEntity(s, who, w), who) == s
  {
    var r := AlertOfEntity(s, who, w);
    if r != s {
      assert r[|s|].entity == who;
      assert IndexOf(r, who) == Some(|s|);
      assert r[..|s|] == s;
    }
  }

  /** With unique records, a forgotten entity is no longer known at all. */
  lemma ForgottenIsUnknown(s: seq<KnownEntity>, who: Option<Ent>, w: World)
    requires Unique(s)
    ensures IndexOf(ForgetEntity(s, who), who).None?
    ensures GetKnown(ForgetEntity(s, who), who, w).None?
  {
    var r := ForgetEntity(s, who);
    if IndexOf(s, who).Some? {
      var i := IndexOf(s, who).value;
      forall j | 0 <= j < |r|
        ensures r[j].entity != who
      {
        if j < i {
          assert r[j] == s[j];
        } else {
          assert r[j] == s[j + 1];
        }
      }
    }
  }

  /** `ForgetAllKnownEntities`. */
  function ForgetAll(s: seq<KnownEntity>): (r: seq<KnownEntity>)
    ensures |r| == 0 && forall who, w :: GetKnown(r, who, w).None?
  {
    []
  }

  // ------------------------------------------------------- UpdateKnownEntities

  /** The record created for an entity seen for the first time. */
  function Recognized(e: Ent, w: World): KnownEntity {
    UpdateVisibilityStatus(UpdatePosition(NewKnown(Some(e), w), w), true, w.now)
  }

  /**
   * First phase: each visible entity without a record (obsolete or not) in
   * the list, including records added earlier in this phase, gets a new
   * visible record at the end.
   */
  function Recognize(s: seq<KnownEntity>, visible: seq<Ent>, w: World): (r: seq<KnownEntity>)
    ensures |s| <= |r| && r[..|s|] == s
    ensures forall i :: 0 <= i < |visible| ==> IndexOf(r, Some(visible[i])).Some?
    ensures NewRecords(s, r, visible, w)
    ensures Unique(s) ==> Unique(r)
    decreases |visible|
  {
    if |visible| == 0 then s
    else
      var before := Recognize(s, visible[..|visible| - 1], w);
      var e := visible[|visible| - 1];
      var r := if IndexOf(before, Some(e)).None? then before + [Recognized(e, w)] else before;
      RecognizeStepKnows(before, visible, w, r);
      RecognizeStepNew(s, before, visible, w, r);
      RecognizeStepUnique(before, e, w, r);
      r
  }

  /** The records of `r` past `s` are fresh records about visible entities `s` has no record of. */
  predicate NewRecords(s: seq<KnownEntity>, r: seq<KnownEntity>, visible: seq<Ent>, w: World) {
    forall k :: |s| <= k < |r| ==>
      && r[k].entity.Some? && r[k].entity.value in visible
      && r[k] == Recognized(r[k].entity.value, w)
      && IndexOf(s, r[k].entity).None?
  }

  lemma RecognizeStepKnows(before: seq<KnownEntity>, visible: seq<Ent>, w: World, r: seq<KnownEntity>)
    requires |visible| > 0
    requires forall i :: 0 <= i < |visible| - 1 ==> IndexOf(before, Some(visible[i])).Some?
    requires var e := visible[|visible| - 1];
      r == if IndexOf(before, Some(e)).None? then before + [Recognized(e, w)] else before
    ensures forall i :: 0 <= i < |visible| ==> IndexOf(r, Some(visible[i])).Some?
  {
    var e := visible[|visible| - 1];
    if IndexOf(before, Some(e)).None? {
      KnownStaysKnown(before, [Recognized(e, w)]);
      assert r[|before|] == Recognized(e, w);
    }
  }

  lemma RecognizeStepNew(s: seq<KnownEntity>, before: seq<KnownEntity>, visible: seq<Ent>, w: World, r: seq<KnownEntity>)
    requires |visible| > 0
    requires |s| <= |before| && before[..|s|] == s
    requires NewRecords(s, before, visible[..|visible| - 1], w)
    requires var e := visible[|visible| - 1];
      r == if IndexOf(before, Some(e)).None? then before + [Recognized(e, w)] else before
    ensures |s| <= |r| && r[..|s|] == s
    ensures NewRecords(s, r, visible, w)
  {
    var e := visible[|visible| - 1];
    if IndexOf(before, Some(e)).None? {
      assert r[..|s|] == before[..|s|];
      forall j | 0 <= j < |s|
        ensures s[j].entity != Some(e)
      {
        assert s[j] == before[j];
      }
    }
  }

  lemma RecognizeStepUnique(before: seq<KnownEntity>, e: Ent, w: World, r: seq<KnownEntity>)
    requires r == if IndexOf(before, Some(e)).None? then before + [Recognized(e, w)] else before
    ensures Unique(before) ==> Unique(r)
  {
  }

  /** Appending records keeps every known entity known. */
  lemma KnownStaysKnown(s: seq<KnownEntity>, t: seq<KnownEntity>)
    ensures forall who :: IndexOf(s, who).Some? ==> IndexOf(s + t, who).Some?
  {
    forall who | IndexOf(s, who).Some?
      ensures IndexOf(s + t, who).Some?
    {
      var i := IndexOf(s, who).value;
      assert (s + t)[i] == s[i];
    }
  }

  /** The records that survive the second phase: those not obsolete, in order. */
  function Live(s: seq<KnownEntity>, w: World): (r: seq<KnownEntity>)
    ensures |r| <= |s| && forall k :: 0 <= k < |r| ==> !IsObsolete(r[k], w)
    decreases |s|
  {
    if |s| == 0 then []
    else Live(s[..|s| - 1], w) + if IsObsolete(s[|s| - 1], w) then [] else [s[|s| - 1]]
  }

  /** Every surviving record comes from the list. */
  lemma {:induction false} LiveFrom(s: seq<KnownEntity>, w: World, k: nat) returns (m: nat)
    requires k < |Live(s, w)|
    ensures m < |s| && s[m] == Live(s, w)[k]
    decreases |s|
  {
    var init := s[..|s| - 1];
    if k < |Live(init, w)| {
      m := LiveFrom(init, w, k);
      assert s[m] == init[m];
    } else {
      m := |s| - 1;
    }
  }

  /** Every record that is not obsolete survives. */
  lemma {:induction false} LiveHas(s: seq<KnownEntity>, w: World, m: nat) returns (k: nat)
    requires m < |s| && !IsObsolete(s[m], w)
    ensures k < |Live(s, w)| && Live(s, w)[k] == s[m]
    decreases |s|
  {
    var init := s[..|s| - 1];
    if m < |s| - 1 {
      k := LiveHas(init, w, m);
      assert init[m] == s[m];
    } else {
      k := |Live(init, w)|;
    }
  }

  /** Dropping records keeps them unique. */
  lemma {:induction false} LiveUnique(s: seq<KnownEntity>, w: World)
    requires Unique(s)
    ensures Unique(Live(s, w))
    decreases |s|
  {
    if |s| > 0 {
      var init := s[..|s| - 1];
      LiveUnique(init, w);
      var li := Live(init, w);
      forall k | 0 <= k < |li|
        ensures li[k].entity != s[|s| - 1].entity
      {
        var m := LiveFrom(init, w, k);
        assert init[m] == s[m];
      }
    }
  }

  /**
   * Second phase, for a record that is kept: a visible entity has its
   * position refreshed and is marked visible; a record that stops being
   * visible is marked invisible; an invisible one notes when its last known
   * position is itself in view.
   */
  function Refresh(k: KnownEntity, visible: seq<Ent>, w: World, canSee: Vec3 -> bool): (r: KnownEntity)
    ensures r.entity == k.entity && r.whenBecameKnown == k.whenBecameKnown
    ensures r.isVisible <==> k.entity.Some? && k.entity.value in visible
    ensures !IsObsolete(k, w) ==> !IsObsolete(r, w)
    ensures r.isVisible && !IsObsolete(k, w) ==>
      r.lastKnownPosition == w.position(k.entity.value) && r.whenLastSeen == w.now && r.whenLastKnown == w.now
    ensures !r.isVisible ==> r.lastKnownPosition == k.lastKnownPosition && r.whenLastSeen == k.whenLastSeen
    ensures k.hasLastKnownPositionBeforeSeen ==> r.hasLastKnownPositionBeforeSeen
  {
    if k.entity.Some? && k.entity.value in visible then
      UpdateVisibilityStatus(UpdatePosition(k, w), true, w.now)
    else
      var k1 := if k.isVisible then UpdateVisibilityStatus(k, false, w.now) else k;
      if !k1.hasLastKnownPositionBeforeSeen && canSee(k1.lastKnownPosition) then
        k1.(hasLastKnownPositionBeforeSeen := true)
      else k1
  }

  function RefreshAll(s: seq<KnownEntity>, visible: seq<Ent>, w: World, canSee: Vec3 -> bool): (r: seq<KnownEntity>)
    ensures |r| == |s| && forall k :: 0 <= k < |s| ==> r[k] == Refresh(s[k], visible, w, canSee)
    decreases |s|
  {
    if |s| == 0 then []
    else RefreshAll(s[..|s| - 1], visible, w, canSee) + [Refresh(s[|s| - 1], visible, w, canSee)]
  }

  /** Record `i` raises LostSight: it is marked visible and its entity is not visible now. */
  predicate LosesSight(s: seq<KnownEntity>, visible: seq<Ent>, i: nat)
    requires i < |s|
  {
    s[i].isVisible && s[i].entity.Some? && s[i].entity.value !in visible
  }

  /** The entities a LostSight event is raised for, in list order. */
  function Lost(s: seq<KnownEntity>, visible: seq<Ent>): (r: seq<Ent>)
    ensures |r| <= |s| && forall k :: 0 <= k < |r| ==> r[k] !in visible
    decreases |s|
  {
    if |s| == 0 then []
    else
      var last := s[|s| - 1];
      Lost(s[..|s| - 1], visible) + if LosesSight(s, visible, |s| - 1) then [last.entity.value] else []
  }

  /** Every LostSight comes from a record that loses sight. */
  lemma {:induction false} LostFrom(s: seq<KnownEntity>, visible: seq<Ent>, k: nat) returns (i: nat)
    requires k < |Lost(s, visible)|
    ensures i < |s| && LosesSight(s, visible, i) && s[i].entity == Some(Lost(s, visible)[k])
    decreases |s|
  {
    var init := s[..|s| - 1];
    if k < |Lost(init, visible)| {
      i := LostFrom(init, visible, k);
      assert s[i] == init[i];
    } else {
      i := |s| - 1;
    }
  }

  /** Every record that loses sight raises LostSight. */
  lemma {:induction false} LostHas(s: seq<KnownEntity>, visible: seq<Ent>, i: nat) returns (k: nat)
    requires i < |s| && LosesSight(s, visible, i)
    ensures k < |Lost(s, visible)| && Lost(s, visible)[k] == s[i].entity.value
    decreases |s|
  {
    var init := s[..|s| - 1];
    if i < |s| - 1 {
      assert init[i] == s[i];
      k := LostHas(init, visible, i);
    } else {
      k := |Lost(init, visible)|;
    }
  }

  /** With unique records, no entity raises LostSight twice. */
  lemma {:induction false} LostDistinct(s: seq<KnownEntity>, visible: seq<Ent>)
    requires Unique(s)
    ensures var r := Lost(s, visible); forall i, j :: 0 <= i < j < |r| ==> r[i] != r[j]
    decreases |s|
  {
    if |s| > 0 {
      var init := s[..|s| - 1];
      LostDistinct(init, visible);
      var li := Lost(init, visible);
      forall k | 0 <= k < |li|
        ensures Some(li[k]) != s[|s| - 1].entity
      {
        var i := LostFrom(init, visible, k);
        assert init[i] == s[i];
      }
    }
  }

  /** `UpdateKnownEntities` as a function: the new list and the LostSight events, in order. */
  function UpdateKnown(s: seq<KnownEntity>, visible: seq<Ent>, w: World, canSee: Vec3 -> bool): (seq<KnownEntity>, seq<Ent>) {
    var live := Live(Recognize(s, visible, w), w);
    (RefreshAll(live, visible, w, canSee), Lost(live, visible))
  }

  /** The first loop of `UpdateKnownEntities`: each visible entity is looked up by a linear scan. */
  method RecognizeNew(s: seq<KnownEntity>, visible: seq<Ent>, w: World) returns (known: seq<KnownEntity>)
    ensures known == Recognize(s, visible, w)
  {
    known := s;
    var i := 0;
    while i < |visible|
      invariant 0 <= i <= |visible|
      invariant known == Recognize(s, visible[..i], w)
    {
      var j := 0;
      while j < |known| && Some(visible[i]) != known[j].entity
        invariant 0 <= j <= |known|
        invariant forall m :: 0 <= m < j ==> known[m].entity != Some(visible[i])
      {
        j := j + 1;
      }
      assert visible[..i + 1][..i] == visible[..i];
      if j == |known| {
        known := known + [Recognized(visible[i], w)];
      }
      i := i + 1;
    }
    assert visible[..i] == visible;
  }

  /**
   * The second loop of `UpdateKnownEntities`: obsolete records are removed
   * in place (the index steps back), the others refreshed, and LostSight
   * raised for each record that stops being visible.
   */
  method Sweep(recognized: seq<KnownEntity>, visible: seq<Ent>, w: World, canSee: Vec3 -> bool)
    returns (known: seq<KnownEntity>, lost: seq<Ent>)
    ensures known == RefreshAll(Live(recognized, w), visible, w, canSee)
    ensures lost == Lost(Live(recognized, w), visible)
  {
    known := recognized;
    var consumed: nat := 0;
    var i: nat := 0;
    lost := [];
    while i < |known|
      invariant SweepInv(recognized, visible, w, canSee, known, i, consumed, lost)
      decreases |known| - i
    {
      known, i, lost := SweepOne(recognized, visible, w, canSee, known, i, consumed, lost);
      consumed := consumed + 1;
    }
    assert recognized[..consumed] == recognized;
  }

  /**
   * Where the second loop stands after `consumed` records: the first `i`
   * entries are the refreshed live records so far, the rest are the records
   * not yet looked at, and `lost` the LostSight events so far.
   */
  predicate SweepInv(recognized: seq<KnownEntity>, visible: seq<Ent>, w: World, canSee: Vec3 -> bool,
                     known: seq<KnownEntity>, i: nat, consumed: nat, lost: seq<Ent>) {
    && consumed <= |recognized| && i <= |known|
    && known[..i] == RefreshAll(Live(recognized[..consumed], w), visible, w, canSee)
    && known[i..] == recognized[consumed..]
    && lost == Lost(Live(recognized[..consumed], w), visible)
  }

  /**
   * One turn of the second loop on record `i`: an obsolete record is removed
   * and `i` stays; another is refreshed in place, raises LostSight when it
   * was visible and its entity no longer is, and `i` moves on.
   */
  method SweepOne(recognized: seq<KnownEntity>, visible: seq<Ent>, w: World, canSee: Vec3 -> bool,
                  known: seq<KnownEntity>, i: nat, consumed: nat, lost: seq<Ent>)
    returns (known': seq<KnownEntity>, i': nat, lost': seq<Ent>)
    requires SweepInv(recognized, visible, w, canSee, known, i, consumed, lost) && i < |known|
    ensures SweepInv(recognized, visible, w, canSee, known', i', consumed + 1, lost')
    ensures |known'| - i' < |known| - i
  {
    if IsObsolete(known[i], w) {
      known' := SweepDrop(recognized, visible, w, canSee, known, i, consumed, lost);
      i', lost' := i, lost;
    } else {
      known', lost' := SweepKeep(recognized, visible, w, canSee, known, i, consumed, lost);
      i' := i + 1;
    }
  }

  /** An obsolete record at `i` is removed from the list. */
  method SweepDrop(recognized: seq<KnownEntity>, visible: seq<Ent>, w: World, canSee: Vec3 -> bool,
                   known: seq<KnownEntity>, i: nat, consumed: nat, lost: seq<Ent>)
    returns (known': seq<KnownEntity>)
    requires SweepInv(recognized, visible, w, canSee, known, i, consumed, lost) && i < |known|
    requires IsObsolete(known[i], w)
    ensures SweepInv(recognized, visible, w, canSee, known', i, consumed + 1, lost)
    ensures |known'| == |known| - 1
  {
    assert known[i] == recognized[consumed];
    SweepDropStep(recognized, consumed, w);
    known' := known[..i] + known[i + 1..];
    assert known'[..i] == known[..i];
    assert known'[i..] == recognized[consumed + 1..];
  }

  /**
   * A record at `i` that is not obsolete is refreshed in place, and LostSight
   * is raised for it when it was visible and its entity no longer is.
   */
  method SweepKeep(recognized: seq<KnownEntity>, visible: seq<Ent>, w: World, canSee: Vec3 -> bool,
                   known: seq<KnownEntity>, i: nat, consumed: nat, lost: seq<Ent>)
    returns (known': seq<KnownEntity>, lost': seq<Ent>)
    requires SweepInv(recognized, visible, w, canSee, known, i, consumed, lost) && i < |known|
    requires !IsObsolete(known[i], w)
    ensures SweepInv(recognized, visible, w, canSee, known', i + 1, consumed + 1, lost')
    ensures |known'| == |known|
  {
    var k := known[i];
    assert k == recognized[consumed];
    SweepKeepStep(recognized, consumed, visible, w, canSee);
    known' := known[i := Refresh(k, visible, w, canSee)];
    assert known'[..i] == known[..i];
    assert known'[i + 1..] == recognized[consumed + 1..];
    assert known'[..i + 1] == known'[..i] + [known'[i]];
    lost' := lost;
    if !(k.entity.Some? && k.entity.value in visible) {
      if k.isVisible {
        lost' := lost + [k.entity.value];
      }
    }
  }

  /** A removed record leaves the live records seen so far unchanged. */
  lemma SweepDropStep(s: seq<KnownEntity>, c: nat, w: World)
    requires c < |s| && IsObsolete(s[c], w)
    ensures Live(s[..c + 1], w) == Live(s[..c], w)
  {
    LiveStep(s, c, w);
  }

  /** A kept record is refreshed onto the result and may add one LostSight. */
  lemma SweepKeepStep(s: seq<KnownEntity>, c: nat, visible: seq<Ent>, w: World, canSee: Vec3 -> bool)
    requires c < |s| && !IsObsolete(s[c], w)
    ensures RefreshAll(Live(s[..c + 1], w), visible, w, canSee)
      == RefreshAll(Live(s[..c], w), visible, w, canSee) + [Refresh(s[c], visible, w, canSee)]
    ensures Lost(Live(s[..c + 1], w), visible)
      == Lost(Live(s[..c], w), visible)
         + if s[c].isVisible && s[c].entity.Some? && s[c].entity.value !in visible then [s[c].entity.value] else []
  {
    LiveStep(s, c, w);
    var live := Live(s[..c], w);
    assert Live(s[..c + 1], w) == live + [s[c]];
    RefreshAllSnoc(live, s[c], visible, w, canSee);
    LostSnoc(live, s[c], visible);
    assert (live + [s[c]])[|live|] == s[c];
  }

  lemma LiveStep(s: seq<KnownEntity>, c: nat, w: World)
    requires c < |s|
    ensures Live(s[..c + 1], w) == Live(s[..c], w) + if IsObsolete(s[c], w) then [] else [s[c]]
  {
    assert s[..c + 1][..c] == s[..c];
  }

  lemma RefreshAllSnoc(a: seq<KnownEntity>, x: KnownEntity, visible: seq<Ent>, w: World, canSee: Vec3 -> bool)
    ensures RefreshAll(a + [x], visible, w, canSee) == RefreshAll(a, visible, w, canSee) + [Refresh(x, visible, w, canSee)]
  {
    assert (a + [x])[..|a|] == a;
  }

  lemma LostSnoc(a: seq<KnownEntity>, x: KnownEntity, visible: seq<Ent>)
    ensures Lost(a + [x], visible)
      == Lost(a, visible) + if LosesSight(a + [x], visible, |a|) then [x.entity.value] else []
  {
    assert (a + [x])[..|a|] == a;
    assert (a + [x])[|a|] == x;
  }

  /** `UpdateKnownEntities`: both loops, in order. */
  method UpdateKnownEntities(s: seq<KnownEntity>, visible: seq<Ent>, w: World, canSee: Vec3 -> bool)
    returns (known: seq<KnownEntity>, lost: seq<Ent>)
    ensures (known, lost) == UpdateKnown(s, visible, w, canSee)
  {
    var recognized := RecognizeNew(s, visible, w);
    known, lost := Sweep(recognized, visible, w, canSee);
  }

  /**
   * `Update`: with `nb_blind` set every record is dropped and nothing else
   * happens; otherwise the known list is brought up to date.
   */
  method Update(s: seq<KnownEntity>, blind: bool, visible: seq<Ent>, w: World, canSee: Vec3 -> bool)
    returns (known: seq<KnownEntity>, lost: seq<Ent>)
    ensures blind ==> known == [] && lost == []
    ensures !blind ==> (known, lost) == UpdateKnown(s, visible, w, canSee)
  {
    if blind {
      return [], [];
    }
    known, lost := UpdateKnownEntities(s, visible, w, canSee);
  }

  // ------------------------------------------------- properties of one update

  /**
   * After an update no record is obsolete, and a record is marked visible
   * exactly when its entity is visible now.
   */
  lemma UpdatedRecordsAreCurrent(s: seq<KnownEntity>, visible: seq<Ent>, w: World, canSee: Vec3 -> bool)
    ensures var r := UpdateKnown(s, visible, w, canSee).0;
      forall k :: 0 <= k < |r| ==>
        && r[k].entity.Some? && !IsObsolete(r[k], w)
        && (r[k].isVisible <==> r[k].entity.value in visible)
  {
    var live := Live(Recognize(s, visible, w), w);
    var r := UpdateKnown(s, visible, w, canSee).0;
    forall k | 0 <= k < |r|
      ensures r[k].entity.Some? && !IsObsolete(r[k], w) && (r[k].isVisible <==> r[k].entity.value in visible)
    {
      assert r[k] == Refresh(live[k], visible, w, canSee);
      assert !IsObsolete(live[k], w);
    }
  }

  /** An update never creates a duplicate record. */
  lemma UpdateKeepsUnique(s: seq<KnownEntity>, visible: seq<Ent>, w: World, canSee: Vec3 -> bool)
    requires Unique(s)
    ensures Unique(UpdateKnown(s, visible, w, canSee).0)
  {
    var rec := Recognize(s, visible, w);
    LiveUnique(rec, w);
    var live := Live(rec, w);
    var r := UpdateKnown(s, visible, w, canSee).0;
    assert forall k :: 0 <= k < |r| ==> r[k].entity == live[k].entity;
  }

  /** A visible entity with no record, or whose first record is not obsolete, is known after the update. */
  lemma VisibleEntityKnown(s: seq<KnownEntity>, visible: seq<Ent>, w: World, canSee: Vec3 -> bool, e: Ent)
    requires e in visible && w.valid(e) && w.alive(e)
    requires IndexOf(s, Some(e)).None? || !IsObsolete(s[IndexOf(s, Some(e)).value], w)
    ensures IndexOf(UpdateKnown(s, visible, w, canSee).0, Some(e)).Some?
  {
    var rec := Recognize(s, visible, w);
    var idx := RecognizedLive(s, visible, w, e);
    var k := LiveHas(rec, w, idx);
    var live := Live(rec, w);
    var r := RefreshAll(live, visible, w, canSee);
    assert r[k].entity == Some(e);
  }

  /** The first record of a visible entity after the first phase, when it is not obsolete. */
  lemma RecognizedLive(s: seq<KnownEntity>, visible: seq<Ent>, w: World, e: Ent) returns (idx: nat)
    requires e in visible && w.valid(e) && w.alive(e)
    requires IndexOf(s, Some(e)).None? || !IsObsolete(s[IndexOf(s, Some(e)).value], w)
    ensures var rec := Recognize(s, visible, w);
      idx < |rec| && rec[idx].entity == Some(e) && !IsObsolete(rec[idx], w)
  {
    var rec := Recognize(s, visible, w);
    var vi :| 0 <= vi < |visible| && visible[vi] == e;
    assert IndexOf(rec, Some(visible[vi])).Some?;
    idx := IndexOf(rec, Some(e)).value;
    if idx < |s| {
      assert rec[idx] == s[idx];
      assert forall j :: 0 <= j < idx ==> s[j] == rec[j];
      assert IndexOf(s, Some(e)) == Some(idx);
    } else {
      assert rec[idx] == Recognized(e, w);
    }
  }

  /**
   * An entity whose record is obsolete is not known after the update, even
   * if it is visible now: the first loop finds the stale record and adds no
   * new one, the second removes the stale one.
   */
  lemma StaleRecordDropped(s: seq<KnownEntity>, visible: seq<Ent>, w: World, canSee: Vec3 -> bool, e: Ent)
    requires Unique(s) && IndexOf(s, Some(e)).Some? && IsObsolete(s[IndexOf(s, Some(e)).value], w)
    ensures IndexOf(UpdateKnown(s, visible, w, canSee).0, Some(e)).None?
  {
    var i := IndexOf(s, Some(e)).value;
    var rec := Recognize(s, visible, w);
    var live := Live(rec, w);
    var r := UpdateKnown(s, visible, w, canSee).0;
    forall k | 0 <= k < |r|
      ensures r[k].entity != Some(e)
    {
      assert r[k] == Refresh(live[k], visible, w, canSee);
      var m := LiveFrom(rec, w, k);
      if m < |s| {
        assert rec[m] == s[m];
        assert m != i;
      } else {
        assert IndexOf(s, rec[m].entity).None?;
      }
    }
  }

  /**
   * A visible entity is known after the update exactly when it had no record
   * or its first record was not obsolete.
   */
  lemma VisibleEntityKnownIff(s: seq<KnownEntity>, visible: seq<Ent>, w: World, canSee: Vec3 -> bool, e: Ent)
    requires Unique(s) && e in visible && w.valid(e) && w.alive(e)
    ensures var r := UpdateKnown(s, visible, w, canSee).0;
      IndexOf(r, Some(e)).Some? <==> (IndexOf(s, Some(e)).None? || !IsObsolete(s[IndexOf(s, Some(e)).value], w))
  {
    if IndexOf(s, Some(e)).None? || !IsObsolete(s[IndexOf(s, Some(e)).value], w) {
      VisibleEntityKnown(s, visible, w, canSee, e);
    } else {
      StaleRecordDropped(s, visible, w, canSee, e);
    }
  }

  /**
   * LostSight is raised for an entity exactly when it had a record that was
   * not obsolete, was marked visible, and the entity is no longer visible.
   */
  lemma LostSightIff(s: seq<KnownEntity>, visible: seq<Ent>, w: World, canSee: Vec3 -> bool, e: Ent)
    ensures e in UpdateKnown(s, visible, w, canSee).1
      <==> exists i :: 0 <= i < |s| && s[i].entity == Some(e) && s[i].isVisible && !IsObsolete(s[i], w) && e !in visible
  {
    var rec := Recognize(s, visible, w);
    var live := Live(rec, w);
    var lost := Lost(live, visible);
    if e in lost {
      var k :| 0 <= k < |lost| && lost[k] == e;
      var i := LostFrom(live, visible, k);
      var m := LiveFrom(rec, w, i);
      assert m < |s|;
      assert rec[m] == s[m];
    }
    if exists i :: 0 <= i < |s| && s[i].entity == Some(e) && s[i].isVisible && !IsObsolete(s[i], w) && e !in visible {
      var i :| 0 <= i < |s| && s[i].entity == Some(e) && s[i].isVisible && !IsObsolete(s[i], w) && e !in visible;
      assert rec[i] == s[i];
      var k := LiveHas(rec, w, i);
      var j := LostHas(live, visible, k);
    }
  }

  /** With unique records, each entity raises LostSight at most once per update. */
  lemma LostSightOnce(s: seq<KnownEntity>, visible: seq<Ent>, w: World, canSee: Vec3 -> bool)
    requires Unique(s)
    ensures var lost := UpdateKnown(s, visible, w, canSee).1;
      forall i, j :: 0 <= i < j < |lost| ==> lost[i] != lost[j]
  {
    var rec := Recognize(s, visible, w);
    assert Unique(rec);
    LiveUnique(rec, w);
    LostDistinct(Live(rec, w), visible);
    assert UpdateKnown(s, visible, w, canSee).1 == Lost(Live(rec, w), visible);
  }
}
