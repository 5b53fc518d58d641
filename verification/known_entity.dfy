/**
 * What a bot remembers about one entity (KnownEntity.cs).  Entities are
 * opaque ids; the engine's view of them (validity, life state, whether an
 * entity is the world, its position) and the clock are a `World` passed in.
 * Float seconds and coordinates are reals.
 */
module Knowledge {
  import opened Wrappers

  type Ent = nat

  datatype Vec3 = Vec3(x: real, y: real, z: real)

  function Zero(): Vec3 { Vec3(0.0, 0.0, 0.0) }

  function Sub(a: Vec3, b: Vec3): Vec3 { Vec3(a.x - b.x, a.y - b.y, a.z - b.z) }

  function LengthSquared(v: Vec3): real { v.x * v.x + v.y * v.y + v.z * v.z }

  /** The engine state the bot reads: `Time.Now` and, per entity, `IsValid`, `LifeState == Alive`, `IsWorld` and `Position`. */
  datatype World = World(now: real, valid: Ent -> bool, alive: Ent -> bool, isWorld: Ent -> bool, position: Ent -> Vec3)

  /** `who != null && who.IsValid` */
  predicate IsValidEntity(w: World, who: Option<Ent>) {
    who.Some? && w.valid(who.value)
  }

  datatype KnownEntity = KnownEntity(
    entity: Option<Ent>,
    lastKnownPosition: Vec3,
    hasLastKnownPositionBeforeSeen: bool,
    isVisible: bool,
    whenLastSeen: real,
    whenLastBecameVisible: real,
    whenLastKnown: real,
    whenBecameKnown: real)

  /** `UpdatePosition`: only a valid entity refreshes the position and the time it was last known. */
  function UpdatePosition(k: KnownEntity, w: World): (r: KnownEntity)
    ensures IsValidEntity(w, k.entity) ==>
      r == k.(lastKnownPosition := w.position(k.entity.value), whenLastKnown := w.now)
    ensures !IsValidEntity(w, k.entity) ==> r == k
  {
    if IsValidEntity(w, k.entity) then
      k.(lastKnownPosition := w.position(k.entity.value), whenLastKnown := w.now)
    else k
  }

  /**
   * The constructor: never seen, not visible, known since now, and the
   * position refreshed when the entity is valid; otherwise the position keeps
   * its zero default and the last-known time stays 0.
   */
  function NewKnown(who: Option<Ent>, w: World): (r: KnownEntity)
    ensures r.entity == who && !r.isVisible && !r.hasLastKnownPositionBeforeSeen
    ensures r.whenLastSeen == -1.0 && r.whenLastBecameVisible == -1.0 && r.whenBecameKnown == w.now
    ensures IsValidEntity(w, who) ==> r.lastKnownPosition == w.position(who.value) && r.whenLastKnown == w.now
    ensures !IsValidEntity(w, who) ==> r.lastKnownPosition == Zero() && r.whenLastKnown == 0.0
    ensures !WasEverVisible(r)
  {
    UpdatePosition(KnownEntity(who, Zero(), false, false, -1.0, -1.0, 0.0, w.now), w)
  }

  /**
   * `UpdateVisibilityStatus(visible)`: seeing the entity stamps the time it
   * was last seen, and the time it became visible only on a change from
   * invisible; losing it only clears the flag.
   */
  function UpdateVisibilityStatus(k: KnownEntity, visible: bool, now: real): (r: KnownEntity)
    ensures r.isVisible == visible
    ensures r.entity == k.entity && r.lastKnownPosition == k.lastKnownPosition
    ensures r.whenLastKnown == k.whenLastKnown && r.whenBecameKnown == k.whenBecameKnown
    ensures r.hasLastKnownPositionBeforeSeen == k.hasLastKnownPositionBeforeSeen
    ensures visible ==> r.whenLastSeen == now
    ensures r.whenLastBecameVisible == if visible && !k.isVisible then now else k.whenLastBecameVisible
    ensures !visible ==> r.whenLastSeen == k.whenLastSeen
  {
    if visible then
      var k1 := if !k.isVisible then k.(whenLastBecameVisible := now) else k;
      k1.(whenLastSeen := now, isVisible := true)
    else k.(isVisible := false)
  }

  /** `WasEverVisible`: seen at a positive time. */
  predicate WasEverVisible(k: KnownEntity) {
    k.whenLastSeen > 0.0
  }

  /** `IsObsolete`: null, invalid or dead, or last known more than 10 seconds ago. */
  predicate IsObsolete(k: KnownEntity, w: World) {
    || k.entity.None?
    || !w.valid(k.entity.value)
    || !w.alive(k.entity.value)
    || w.now - k.whenLastKnown > 10.0
  }

  /** `IsVisibleRecently`: visible, or ever seen and seen less than 3 seconds ago. */
  predicate IsVisibleRecently(k: KnownEntity, now: real) {
    if k.isVisible then true
    else if WasEverVisible(k) && now - k.whenLastSeen < 3.0 then true
    else false
  }

  /**
   * A sighting at a positive time makes the record ever-visible and
   * recently visible; losing sight never changes whether it was ever seen.
   */
  lemma SightingMakesEverVisible(k: KnownEntity, now: real)
    requires now > 0.0
    ensures WasEverVisible(UpdateVisibilityStatus(k, true, now))
    ensures IsVisibleRecently(UpdateVisibilityStatus(k, true, now), now)
    ensures WasEverVisible(UpdateVisibilityStatus(k, false, now)) == WasEverVisible(k)
    ensures !IsVisibleRecently(UpdateVisibilityStatus(k, false, now), now) <==> !WasEverVisible(k) || now - k.whenLastSeen >= 3.0
  {
  }

  /** `Equals`: the same non-null entity; a record about null equals nothing, not even itself. */
  function Equals(a: KnownEntity, b: KnownEntity): (r: bool)
    ensures r ==> a.entity.Some? && a.entity == b.entity
    ensures a.entity.Some? && a.entity == b.entity ==> r
  {
    if a.entity.None? || b.entity.None? then false
    else a.entity == b.entity
  }

  /** `Equals` is symmetric, and reflexive exactly on records about a real entity. */
  lemma EqualsSymmetricNotReflexive(a: KnownEntity, b: KnownEntity)
    ensures Equals(a, b) == Equals(b, a)
    ensures Equals(a, a) <==> a.entity.Some?
  {
  }

  /**
   * A record seen at a positive time and then lost stays "visible recently"
   * for less than 3 seconds after it was last seen, and not afterwards.
   */
  lemma LostSightStaysRecentForThreeSeconds(k: KnownEntity, seen: real, lost: real, later: real)
    requires 0.0 < seen
    ensures var r := UpdateVisibilityStatus(UpdateVisibilityStatus(k, true, seen), false, lost);
      !r.isVisible && (IsVisibleRecently(r, later) <==> later - seen < 3.0)
  {
  }

  /**
   * The constructor's record for a valid, living entity is obsolete only
   * after 10 seconds have gone by without news; a record about null is
   * obsolete at once.
   */
  lemma NewRecordObsoleteAfterTenSeconds(who: Option<Ent>, w: World, later: World)
    requires later.valid == w.valid && later.alive == w.alive
    ensures var k := NewKnown(who, w);
      IsValidEntity(w, who) && w.alive(who.value) ==> (IsObsolete(k, later) <==> later.now - w.now > 10.0)
    ensures who.None? ==> IsObsolete(NewKnown(who, w), later)
  {
  }
}
