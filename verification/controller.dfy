/**
 * The collision damage controller (Deform): rate limiting of collision
 * callbacks, the impulse gate and contact cap, sequential composition of
 * the engine's Calculate across contacts, routing of damaged vertices to
 * the parts associated with them, the notification counts, the one-time
 * vertex-to-parts association and the DamageDisabled fan-out.
 *
 * Contact points are taken in the mesh's local space (the world-to-local
 * transform is already applied); `sqrt` stands for Mathf.Sqrt.  The two
 * broadcast events (onCollision, onMaxDeform) are modelled by counting
 * their invocations.
 */
module Controller {
  import opened Vectors
  import opened Calculation
  import opened Parts

  const MaxContactPerCollision: nat := 2
  const MaxCollisionPerFrame: nat := 1

  /** A list reference that may be null. */
  datatype Option<T> = None | Some(value: T)

  /**
   * What the controller reads from a collision: the impulse magnitude,
   * whether the other body has a rigidbody, and the contact points in local
   * space (their count is the contact count).
   */
  datatype Collision = Collision(impulseMagnitude: real, hasRigidbody: bool, contacts: seq<Vec3>)

  /** Normalised impulse: magnitude over mass times 0.25, clamped to [0, 1.25]. */
  function NormalizedImpulse(impulseMagnitude: real, mass: real): (r: real)
    requires mass > 0.0
    ensures 0.0 <= r <= 1.25
    ensures 0.0 <= impulseMagnitude / mass * 0.25 <= 1.25 ==> r == impulseMagnitude / mass * 0.25
  {
    Clamp(impulseMagnitude / mass * 0.25, 0.0, 1.25)
  }

  /** Collisions with a body without rigidbody count for a fifth. */
  function RoadRatio(hasRigidbody: bool): real {
    if hasRigidbody then 1.0 else 0.2
  }

  /** The impulse gate: the weighted impulse exceeds the minimum damage. */
  predicate AboveMinDamage(impulse: real, roadRatio: real, minDamage: real) {
    impulse * roadRatio > minDamage
  }

  /** The contacts QuickDeform processes: the first two at most, in order. */
  function ProcessedContacts(contacts: seq<Vec3>): (r: seq<Vec3>)
    ensures |r| <= MaxContactPerCollision && |r| <= |contacts|
    ensures |r| == MaxContactPerCollision || |r| == |contacts|
    ensures r == contacts[..|r|]
  {
    if |contacts| < MaxContactPerCollision then contacts else contacts[..MaxContactPerCollision]
  }

  // ---------------------------------------------------------------------
  // Rate limiting

  /** A collision callback is processed unless damage is disabled or the frame's count is over the limit. */
  predicate Admits(disabled: bool, collisionCount: int) {
    !(disabled || collisionCount > MaxCollisionPerFrame)
  }

  /**
   * How many of a frame's collision callbacks are processed, starting from
   * `collisionCount`; `disabledAt[k]` is DamageDisabled at the k-th callback.
   */
  function AdmittedInFrame(collisionCount: int, disabledAt: seq<bool>): nat
    decreases |disabledAt|
  {
    if disabledAt == [] then 0
    else if Admits(disabledAt[0], collisionCount) then 1 + AdmittedInFrame(collisionCount + 1, disabledAt[1..])
    else AdmittedInFrame(collisionCount, disabledAt[1..])
  }

  /**
   * Between two LateUpdate resets at most MaxCollisionPerFrame + 1 (that is,
   * two) callbacks are processed, because the guard rejects only counts
   * strictly above the limit.
   */
  lemma {:induction false} AtMostTwoPerFrame(collisionCount: nat, disabledAt: seq<bool>)
    ensures AdmittedInFrame(collisionCount, disabledAt)
         <= if collisionCount <= MaxCollisionPerFrame + 1 then MaxCollisionPerFrame + 1 - collisionCount else 0
    decreases |disabledAt|
  {
    if disabledAt != [] {
      AtMostTwoPerFrame(collisionCount + 1, disabledAt[1..]);
      AtMostTwoPerFrame(collisionCount, disabledAt[1..]);
    }
  }

  /** With damage enabled throughout, a fresh frame processes exactly min(n, 2) callbacks. */
  lemma {:induction false} EnabledFrameProcessesTwo(collisionCount: nat, disabledAt: seq<bool>)
    requires collisionCount <= MaxCollisionPerFrame + 1
    requires forall k :: 0 <= k < |disabledAt| ==> !disabledAt[k]
    ensures var room := MaxCollisionPerFrame + 1 - collisionCount;
            AdmittedInFrame(collisionCount, disabledAt) == if |disabledAt| < room then |disabledAt| else room
    decreases |disabledAt|
  {
    if disabledAt != [] {
      if collisionCount <= MaxCollisionPerFrame {
        EnabledFrameProcessesTwo(collisionCount + 1, disabledAt[1..]);
      } else {
        AtMostTwoPerFrame(collisionCount, disabledAt[1..]);
      }
    }
  }

  // ---------------------------------------------------------------------
  // Vertex-to-parts association

  /** The part's local position is closer than its MinDistance to the vertex. */
  predicate IsNear(p: Part, vertex: Vec3, sqrt: real -> real) {
    sqrt(SqrMagnitude(Sub(p.localPosition, vertex))) < p.minDistance
  }

  /** The parts near `vertex`, in the order of `parts`. */
  function NearParts(parts: seq<Part>, vertex: Vec3, sqrt: real -> real): (near: seq<Part>)
    ensures forall p :: p in near ==> p in parts
    ensures forall p :: p in parts ==> multiset(near)[p] == if IsNear(p, vertex, sqrt) then multiset(parts)[p] else 0
    ensures |near| <= |parts|
    decreases |parts|
  {
    if parts == [] then []
    else
      var last := parts[|parts| - 1];
      assert parts == parts[..|parts| - 1] + [last];
      NearParts(parts[..|parts| - 1], vertex, sqrt) + (if IsNear(last, vertex, sqrt) then [last] else [])
  }

  /** Looking at one more part appends it when it is near. */
  lemma NearPartsStep(parts: seq<Part>, j: nat, vertex: Vec3, sqrt: real -> real)
    requires j < |parts|
    ensures NearParts(parts[..j + 1], vertex, sqrt)
         == NearParts(parts[..j], vertex, sqrt) + if IsNear(parts[j], vertex, sqrt) then [parts[j]] else []
  {
    assert parts[..j + 1][..j] == parts[..j];
  }

  /** The inner loop of GetChildParts: the parts near `vertex`, collected in order. */
  method CollectNear(children: seq<Part>, vertex: Vec3, sqrt: real -> real) returns (list: seq<Part>)
    ensures list == NearParts(children, vertex, sqrt)
  {
    list := [];
    for j := 0 to |children|
      invariant list == NearParts(children[..j], vertex, sqrt)
    {
      var part := children[j];
      var dst := sqrt(SqrMagnitude(Sub(part.localPosition, vertex)));
      if dst < part.minDistance {
        list := list + [part];
      }
      NearPartsStep(children, j, vertex, sqrt);
    }
    assert children[..|children|] == children;
  }

  /**
   * The association built by GetChildParts: index `i` gets the list of the
   * parts near vertex `i` when `i` is a multiple of the stride, and stays null
   * otherwise.
   */
  function Association(mesh: seq<Vec3>, children: seq<Part>, stride: int, sqrt: real -> real)
    : (table: seq<Option<seq<Part>>>)
    requires stride >= 1
    ensures |table| == |mesh|
    ensures forall i, q :: 0 <= i < |table| && table[i].Some? && q in table[i].value ==> q in children
  {
    seq(|mesh|, i requires 0 <= i < |mesh| =>
      if i % stride == 0 then Some(NearParts(children, mesh[i], sqrt)) else None)
  }

  /** The association as far as index `i`: the entries below `i` are filled, the rest null. */
  function Filled(table: seq<Option<seq<Part>>>, i: nat): (r: seq<Option<seq<Part>>>)
    ensures |r| == |table|
  {
    if i < |table| then table[..i] + seq(|table| - i, _ => None) else table
  }

  /** Before the first step nothing is filled. */
  lemma FilledEmpty(table: seq<Option<seq<Part>>>)
    ensures Filled(table, 0) == seq(|table|, _ => None)
  {
  }

  /**
   * One step of GetChildParts' outer loop: filling entry `i` (a multiple of
   * the stride) with the near parts fills the association up to the next
   * multiple.
   */
  lemma FillStep(mesh: seq<Vec3>, children: seq<Part>, stride: int, sqrt: real -> real, i: nat, next: nat)
    requires stride >= 1 && i < |mesh| && i % stride == 0 && next == i + stride
    ensures next % stride == 0
    ensures var table := Association(mesh, children, stride, sqrt);
      Filled(table, i)[i := Some(NearParts(children, mesh[i], sqrt))] == Filled(table, next)
  {
    StrideStep(i, stride);
    var table := Association(mesh, children, stride, sqrt);
    var lhs := Filled(table, i)[i := Some(NearParts(children, mesh[i], sqrt))];
    var rhs := Filled(table, i + stride);
    forall k | 0 <= k < |table|
      ensures lhs[k] == rhs[k]
    {
      if i < k < i + stride {
        assert k % stride != 0;
      }
    }
  }

  /** Between two consecutive multiples of the stride there is no other. */
  lemma StrideStep(i: int, stride: int)
    requires stride >= 1 && i >= 0 && i % stride == 0
    ensures (i + stride) % stride == 0
    ensures forall k :: i < k < i + stride ==> k % stride != 0
  {
    var q := i / stride;
    assert i == q * stride;
    ModOfMultiplePlus(q + 1, stride, 0);
    assert (q + 1) * stride == i + stride;
    forall k | i < k < i + stride
      ensures k % stride != 0
    {
      ModOfMultiplePlus(q, stride, k - i);
    }
  }

  /** `(q * s + r) % s == r` for `0 <= r < s`. */
  lemma ModOfMultiplePlus(q: int, s: int, r: int)
    requires s >= 1 && 0 <= r < s
    ensures (q * s + r) % s == r
  {
    var k := q * s + r;
    var d := k / s - q;
    assert k == (k / s) * s + k % s;
    assert d * s == r - k % s by {
      assert (k / s) * s == (d + q) * s == d * s + q * s;
    }
    if d >= 1 {
      MulAtLeast(d, s);
    } else if d <= -1 {
      MulAtLeast(-d, s);
    }
  }

  lemma MulAtLeast(a: int, s: int)
    requires a >= 1 && s >= 1
    ensures a * s >= s
  {
    assert a * s == (a - 1) * s + s;
    assert (a - 1) * s >= 0;
  }

  // ---------------------------------------------------------------------
  // Specification of QuickDeform

  /** Buffers after some contacts, and the damaged flags each contact reported. */
  datatype Progress = Progress(verticies: seq<Vec3>, states: seq<bool>, damaged: seq<seq<bool>>)

  /**
   * Calculate run for each contact in turn, each on the buffers the previous
   * one produced.
   */
  function RunContacts(verts: seq<Vec3>, states: seq<bool>, starts: seq<Vec3>, points: seq<Vec3>,
                       s: Settings, impulse: real, sqrt: real -> real): (p: Progress)
    requires |states| == |verts| && |starts| == |verts|
    ensures |p.verticies| == |verts| && |p.states| == |verts| && |p.damaged| == |points|
    ensures forall j :: 0 <= j < |p.damaged| ==> |p.damaged[j]| == |verts|
    ensures forall i :: 0 <= i < |verts| && states[i] ==> p.states[i]
    decreases |points|
  {
    if points == [] then Progress(verts, states, [])
    else
      var prev := RunContacts(verts, states, starts, points[..|points| - 1], s, impulse, sqrt);
      var o := Collect(Sweep(prev.verticies, starts, prev.states, points[|points| - 1], s, impulse, sqrt));
      Progress(o.verticies, o.verticiesState, prev.damaged + [o.verticiesDamaged])
  }

  /** One more contact runs Calculate on the buffers the earlier ones left. */
  lemma RunContactsStep(verts: seq<Vec3>, states: seq<bool>, starts: seq<Vec3>, contacts: seq<Vec3>, i: nat,
                        s: Settings, impulse: real, sqrt: real -> real)
    requires |states| == |verts| && |starts| == |verts| && i < |contacts|
    ensures var prev := RunContacts(verts, states, starts, contacts[..i], s, impulse, sqrt);
      var o := Collect(Sweep(prev.verticies, starts, prev.states, contacts[i], s, impulse, sqrt));
      RunContacts(verts, states, starts, contacts[..i + 1], s, impulse, sqrt)
        == Progress(o.verticies, o.verticiesState, prev.damaged + [o.verticiesDamaged])
  {
    assert contacts[..i + 1][..i] == contacts[..i];
  }

  /**
   * Across all the contacts of a collision a flagged vertex never moves, as
   * long as every flag marks a vertex at its ceiling to begin with; the
   * flags left behind mark vertices at their ceiling again.
   */
  lemma {:induction false} FlaggedVerticesNeverMove(verts: seq<Vec3>, states: seq<bool>, starts: seq<Vec3>,
                                                    points: seq<Vec3>, s: Settings, impulse: real,
                                                    sqrt: real -> real)
    requires |states| == |verts| && |starts| == |verts|
    requires CeilingFlags(verts, starts, states, s)
    ensures var p := RunContacts(verts, states, starts, points, s, impulse, sqrt);
      (forall i :: 0 <= i < |verts| && states[i] ==> p.verticies[i] == verts[i]) &&
      CeilingFlags(p.verticies, starts, p.states, s)
    decreases |points|
  {
    if points != [] {
      var prev := RunContacts(verts, states, starts, points[..|points| - 1], s, impulse, sqrt);
      FlaggedVerticesNeverMove(verts, states, starts, points[..|points| - 1], s, impulse, sqrt);
      FlaggedVerticesStay(prev.verticies, starts, prev.states, points[|points| - 1], s, impulse, sqrt);
    }
  }

  /** No list of the table holds `p`. */
  predicate Unassociated(p: Part, table: seq<Option<seq<Part>>>) {
    forall a :: 0 <= a < |table| && table[a].Some? ==> p !in table[a].value
  }

  /** How many GetDamage calls `p` receives for one contact's damaged flags. */
  function VertexHits(p: Part, damaged: seq<bool>, table: seq<Option<seq<Part>>>): (n: nat)
    requires |damaged| == |table|
    ensures Unassociated(p, table) ==> n == 0
    ensures (forall a :: 0 <= a < |damaged| ==> !damaged[a]) ==> n == 0
    decreases |damaged|
  {
    if damaged == [] then 0
    else
      var k := |damaged| - 1;
      VertexHits(p, damaged[..k], table[..k])
        + (if damaged[k] && table[k].Some? then multiset(table[k].value)[p] else 0)
  }

  /**
   * Every part in the list of a damaged vertex is hit at least once per
   * occurrence in that list.
   */
  lemma {:induction false} DamagedVertexHitsItsParts(p: Part, damaged: seq<bool>, table: seq<Option<seq<Part>>>, a: nat)
    requires |damaged| == |table| && a < |damaged| && damaged[a] && table[a].Some?
    ensures VertexHits(p, damaged, table) >= multiset(table[a].value)[p]
    decreases |damaged|
  {
    var k := |damaged| - 1;
    if a < k {
      DamagedVertexHitsItsParts(p, damaged[..k], table[..k], a);
    }
  }

  /** Taking one more vertex into account adds that vertex's calls. */
  lemma VertexHitsStep(p: Part, damaged: seq<bool>, table: seq<Option<seq<Part>>>, a: nat)
    requires |damaged| == |table| && a < |damaged|
    ensures VertexHits(p, damaged[..a + 1], table[..a + 1])
         == VertexHits(p, damaged[..a], table[..a])
            + if damaged[a] && table[a].Some? then multiset(table[a].value)[p] else 0
  {
    assert damaged[..a + 1][..a] == damaged[..a] && table[..a + 1][..a] == table[..a];
  }

  /** A part's state after vertex `a` of one contact has been handled. */
  lemma PartAfterVertex(p: Part, start: PartState, mid: PartState, end: PartState, amount: int,
                        damaged: seq<bool>, table: seq<Option<seq<Part>>>, a: nat)
    requires |damaged| == |table| && a < |damaged|
    requires mid == DamageN(start, amount, VertexHits(p, damaged[..a], table[..a]))
    requires end == DamageN(mid, amount, if damaged[a] && table[a].Some? then multiset(table[a].value)[p] else 0)
    ensures end == DamageN(start, amount, VertexHits(p, damaged[..a + 1], table[..a + 1]))
  {
    VertexHitsStep(p, damaged, table, a);
    DamageNAdd(start, amount, VertexHits(p, damaged[..a], table[..a]),
               if damaged[a] && table[a].Some? then multiset(table[a].value)[p] else 0);
  }

  /** How many GetDamage calls `p` receives over all processed contacts. */
  function Hits(p: Part, damaged: seq<seq<bool>>, table: seq<Option<seq<Part>>>): (n: nat)
    requires forall j :: 0 <= j < |damaged| ==> |damaged[j]| == |table|
    ensures Unassociated(p, table) ==> n == 0
    decreases |damaged|
  {
    if damaged == [] then 0
    else Hits(p, damaged[..|damaged| - 1], table) + VertexHits(p, damaged[|damaged| - 1], table)
  }

  /** The calls of all contacts include those of each single contact. */
  lemma {:induction false} HitsIncludeEachContact(p: Part, damaged: seq<seq<bool>>, table: seq<Option<seq<Part>>>, j: nat)
    requires forall c :: 0 <= c < |damaged| ==> |damaged[c]| == |table|
    requires j < |damaged|
    ensures Hits(p, damaged, table) >= VertexHits(p, damaged[j], table)
    decreases |damaged|
  {
    var k := |damaged| - 1;
    if j < k {
      HitsIncludeEachContact(p, damaged[..k], table, j);
    }
  }

  /** One more contact adds the calls its damaged flags cause. */
  lemma HitsStep(p: Part, damaged: seq<seq<bool>>, last: seq<bool>, table: seq<Option<seq<Part>>>)
    requires forall j :: 0 <= j < |damaged| ==> |damaged[j]| == |table|
    requires |last| == |table|
    ensures Hits(p, damaged + [last], table) == Hits(p, damaged, table) + VertexHits(p, last, table)
  {
    assert (damaged + [last])[..|damaged|] == damaged;
  }

  /**
   * A part's state after one more contact: the calls of the earlier contacts
   * and those of the new one add up.
   */
  lemma PartAfterContact(p: Part, start: PartState, mid: PartState, end: PartState, amount: int,
                         damaged: seq<seq<bool>>, last: seq<bool>, table: seq<Option<seq<Part>>>)
    requires forall j :: 0 <= j < |damaged| ==> |damaged[j]| == |table|
    requires |last| == |table|
    requires mid == DamageN(start, amount, Hits(p, damaged, table))
    requires end == DamageN(mid, amount, VertexHits(p, last, table))
    ensures end == DamageN(start, amount, Hits(p, damaged + [last], table))
  {
    HitsStep(p, damaged, last, table);
    DamageNAdd(start, amount, Hits(p, damaged, table), VertexHits(p, last, table));
  }

  /** Number of set flags. */
  function CountTrue(flags: seq<bool>): (n: nat)
    ensures n == multiset(flags)[true]
    ensures n <= |flags|
    ensures n == 0 <==> forall i :: 0 <= i < |flags| ==> !flags[i]
    decreases |flags|
  {
    if flags == [] then 0
    else
      assert flags == flags[..|flags| - 1] + [flags[|flags| - 1]];
      CountTrue(flags[..|flags| - 1]) + (if flags[|flags| - 1] then 1 else 0)
  }

  /** One more flag of the prefix adds one when it is set. */
  lemma CountTrueStep(flags: seq<bool>, a: nat)
    requires a < |flags|
    ensures CountTrue(flags[..a + 1]) == CountTrue(flags[..a]) + if flags[a] then 1 else 0
  {
    assert flags[..a + 1][..a] == flags[..a];
  }

  /** Extending a prefix by one element adds one occurrence of that element. */
  lemma CountStep(parts: seq<Part>, j: nat, p: Part)
    requires j < |parts|
    ensures multiset(parts[..j + 1])[p] == multiset(parts[..j])[p] + if p == parts[j] then 1 else 0
  {
    assert parts[..j + 1] == parts[..j] + [parts[j]];
  }

  /** A part's state after the `j`-th call of the foreach, which hits it or not. */
  lemma PartAfterHit(parts: seq<Part>, j: nat, p: Part, start: PartState, mid: PartState, end: PartState, amount: int)
    requires j < |parts|
    requires mid == DamageN(start, amount, multiset(parts[..j])[p])
    requires end == if p == parts[j] then AfterDamage(mid, amount) else mid
    ensures end == DamageN(start, amount, multiset(parts[..j + 1])[p])
  {
    CountStep(parts, j, p);
  }

  /** `foreach (Part part in parts) part.GetDamage(velocity, amount)`. */
  method DamageParts(parts: seq<Part>, velocity: Vec3, amount: int, ghost scope: seq<Part>)
    requires forall q :: q in parts ==> q in scope
    modifies parts
    ensures forall p :: p in scope ==> p.State() == DamageN(old(p.State()), amount, multiset(parts)[p])
  {
    for j := 0 to |parts|
      invariant forall p :: p in scope ==> p.State() == DamageN(old(p.State()), amount, multiset(parts[..j])[p])
    {
      var part := parts[j];
      label before:
      part.GetDamage(velocity, amount);
      forall p: Part | p in scope
        ensures p.State() == DamageN(old(p.State()), amount, multiset(parts[..j + 1])[p])
      {
        PartAfterHit(parts, j, p, old(p.State()), old@before(p.State()), p.State(), amount);
      }
    }
    assert parts[..|parts|] == parts;
  }

  /** The controller component of one deformable body. */
  class Deform {
    const deformRadius: real
    const maxDeform: real
    const damageFalloff: real
    const damageMultiplier: real
    const minDamage: real
    const simplifyInit: int
    /** The rigidbody's mass. */
    const mass: real
    const sqrt: real -> real
    const calculation: DeformCalculation
    const startingVerticies: seq<Vec3>
    var meshVerticies: seq<Vec3>
    var meshVerticiesState: seq<bool>
    var childParts: seq<Part>
    var vertexChildParts: array<Option<seq<Part>>>
    var damageDisabled: bool
    var collisionCount: int
    /** Number of onCollision invocations. */
    var collisionEvents: nat
    /** Number of onMaxDeform invocations. */
    var maxDeformEvents: nat

    ghost predicate Valid()
      reads this`meshVerticies, this`meshVerticiesState, this`childParts, this`vertexChildParts, this`collisionCount
      reads vertexChildParts, calculation, calculation.verticies, calculation.verticiesState
      reads calculation.startVerticies
    {
      simplifyInit >= 1 && mass > 0.0 &&
      calculation.Valid() && !calculation.disposed &&
      calculation.settings == NewSettings(deformRadius, maxDeform, damageFalloff, damageMultiplier, minDamage) &&
      calculation.verticies[..] == meshVerticies &&
      calculation.verticiesState[..] == meshVerticiesState &&
      calculation.startVerticies[..] == startingVerticies &&
      vertexChildParts[..] == Association(startingVerticies, childParts, simplifyInit, sqrt) &&
      FlagsAtCeiling() &&
      0 <= collisionCount <= MaxCollisionPerFrame + 1
    }

    /** Every vertex whose state flag is set is at its ceiling. */
    ghost predicate FlagsAtCeiling()
      reads this`meshVerticies, this`meshVerticiesState
    {
      |meshVerticies| == |startingVerticies| == |meshVerticiesState| &&
      CeilingFlags(meshVerticies, startingVerticies, meshVerticiesState, calculation.settings)
    }

    /**
     * Init (run from Awake): both vertex copies are the mesh, every state
     * flag is clear, the association is built and the engine is set up.
     */
    constructor Init(deformRadius: real, maxDeform: real, damageFalloff: real, damageMultiplier: real,
                     minDamage: real, simplifyInit: int, mass: real, sqrt: real -> real,
                     mesh: seq<Vec3>, children: seq<Part>)
      requires simplifyInit >= 1 && mass > 0.0
      ensures Valid() && fresh(calculation) && fresh(vertexChildParts)
      ensures startingVerticies == mesh && meshVerticies == mesh
      ensures |meshVerticiesState| == |mesh| && forall i :: 0 <= i < |mesh| ==> !meshVerticiesState[i]
      ensures childParts == children
      ensures forall i :: 0 <= i < |mesh| ==>
        vertexChildParts[i] == if i % simplifyInit == 0 then Some(NearParts(children, mesh[i], sqrt)) else None
      ensures calculation.settings == NewSettings(deformRadius, maxDeform, damageFalloff, damageMultiplier, minDamage)
      ensures !damageDisabled && collisionCount == 0 && collisionEvents == 0 && maxDeformEvents == 0
    {
      this.deformRadius := deformRadius;
      this.maxDeform := maxDeform;
      this.damageFalloff := damageFalloff;
      this.damageMultiplier := damageMultiplier;
      this.minDamage := minDamage;
      this.simplifyInit := simplifyInit;
      this.mass := mass;
      this.sqrt := sqrt;
      var settings := NewSettings(deformRadius, maxDeform, damageFalloff, damageMultiplier, minDamage);
      var state := seq(|mesh|, _ => false);
      assert forall i :: 0 <= i < |mesh| ==> !state[i];
      assert CeilingFlags(mesh, mesh, state, settings);
      startingVerticies := mesh;
      meshVerticies := mesh;
      meshVerticiesState := state;
      childParts := [];
      vertexChildParts := new Option<seq<Part>>[0];
      damageDisabled := false;
      collisionCount := 0;
      collisionEvents := 0;
      maxDeformEvents := 0;
      calculation := new DeformCalculation.Init(mesh, state, settings);
      new;
      GetChildParts(children);
      assert meshVerticies == mesh && meshVerticiesState == state && calculation.settings == settings;
    }

    /** Builds the association from the current mesh, one strided vertex at a time. */
    method GetChildParts(children: seq<Part>)
      requires simplifyInit >= 1
      modifies this`childParts, this`vertexChildParts
      ensures childParts == children && fresh(vertexChildParts)
      ensures vertexChildParts[..] == Association(meshVerticies, children, simplifyInit, sqrt)
    {
      childParts := children;
      var n := |meshVerticies|;
      var table := new Option<seq<Part>>[n](_ => None);
      ghost var expected := Association(meshVerticies, children, simplifyInit, sqrt);
      FilledEmpty(expected);
      var i := 0;
      while i < n
        invariant 0 <= i && i % simplifyInit == 0
        invariant childParts == children
        invariant table[..] == Filled(expected, i)
        decreases n - i
      {
        var list := CollectNear(children, meshVerticies[i], sqrt);
        table[i] := Some(list);
        var next := i + simplifyInit;
        FillStep(meshVerticies, children, simplifyInit, sqrt, i, next);
        i := next;
      }
      vertexChildParts := table;
    }

    /** The DamageDisabled setter: the flag and every child part's flag take `value`. */
    method SetDamageDisabled(value: bool)
      requires Valid()
      modifies this`damageDisabled, childParts
      ensures Valid()
      ensures damageDisabled == value
      ensures forall p :: p in childParts ==> p.damageDisabled == value
      ensures forall p :: p in childParts ==>
        p.hp == old(p.hp) && p.demolished == old(p.demolished) &&
        p.demolitions == old(p.demolitions) && p.damageHooks == old(p.damageHooks)
    {
      damageDisabled := value;
      for k := 0 to |childParts|
        invariant damageDisabled == value
        invariant forall j :: 0 <= j < k ==> childParts[j].damageDisabled == value
        invariant forall p :: p in childParts ==>
          p.hp == old(p.hp) && p.demolished == old(p.demolished) &&
          p.demolitions == old(p.demolitions) && p.damageHooks == old(p.damageHooks)
      {
        childParts[k].damageDisabled := value;
      }
    }

    /** LateUpdate: a new frame starts with no collision processed. */
    method LateUpdate()
      requires Valid()
      modifies this`collisionCount
      ensures Valid() && collisionCount == 0
    {
      collisionCount := 0;
    }

    /** What one QuickDeform call does to the mesh, the parts and the notification counts. */
    twostate predicate QuickDeformed(collision: Collision)
      requires old(Valid())
      reads this, vertexChildParts, childParts
    {
      childParts == old(childParts) && vertexChildParts == old(vertexChildParts) &&
      damageDisabled == old(damageDisabled) &&
      var impulse := NormalizedImpulse(collision.impulseMagnitude, mass);
      if AboveMinDamage(impulse, RoadRatio(collision.hasRigidbody), minDamage) then
        var prog := RunContacts(old(meshVerticies), old(meshVerticiesState), startingVerticies,
                                ProcessedContacts(collision.contacts), calculation.settings, impulse, sqrt);
        meshVerticies == prog.verticies && meshVerticiesState == prog.states &&
        (forall p :: p in childParts ==>
           p.State() == DamageN(old(p.State()), simplifyInit, Hits(p, prog.damaged, old(vertexChildParts[..])))) &&
        maxDeformEvents == old(maxDeformEvents) + CountTrue(prog.states) &&
        collisionEvents == old(collisionEvents) + 1
      else
        meshVerticies == old(meshVerticies) && meshVerticiesState == old(meshVerticiesState) &&
        (forall p :: p in childParts ==> p.State() == old(p.State())) &&
        maxDeformEvents == old(maxDeformEvents) && collisionEvents == old(collisionEvents)
    }

    /** Every list of the association holds child parts only. */
    ghost predicate ListsInChildParts()
      reads this, vertexChildParts
    {
      forall a, q :: 0 <= a < vertexChildParts.Length && vertexChildParts[a].Some? && q in vertexChildParts[a].value ==>
        q in childParts
    }

    /** Every part in the list of each damaged vertex gets GetDamage(velocity, simplifyInit). */
    method DamageVertices(damaged: seq<bool>, velocity: Vec3)
      requires ListsInChildParts() && |damaged| == vertexChildParts.Length
      modifies childParts
      ensures forall p :: p in childParts ==>
        p.State() == DamageN(old(p.State()), simplifyInit, VertexHits(p, damaged, vertexChildParts[..]))
    {
      ghost var table := vertexChildParts[..];
      for a := 0 to |damaged|
        invariant vertexChildParts[..] == table && ListsInChildParts()
        invariant forall p :: p in childParts ==>
          p.State() == DamageN(old(p.State()), simplifyInit, VertexHits(p, damaged[..a], table[..a]))
      {
        if damaged[a] && vertexChildParts[a].Some? {
          var list: seq<Part> := vertexChildParts[a].value;
          assert forall i :: 0 <= i < |list| ==> list[i] in childParts;
          label before:
          DamageParts(list, velocity, simplifyInit, childParts);
          forall p: Part | p in childParts
            ensures p.State() == DamageN(old(p.State()), simplifyInit, VertexHits(p, damaged[..a + 1], table[..a + 1]))
          {
            PartAfterVertex(p, old(p.State()), old@before(p.State()), p.State(), simplifyInit, damaged, table, a);
          }
        } else {
          forall p: Part | p in childParts
            ensures p.State() == DamageN(old(p.State()), simplifyInit, VertexHits(p, damaged[..a + 1], table[..a + 1]))
          {
            PartAfterVertex(p, old(p.State()), p.State(), p.State(), simplifyInit, damaged, table, a);
          }
        }
      }
      assert damaged[..|damaged|] == damaged && table[..|damaged|] == table;
    }

    /**
     * One iteration of QuickDeform's contact loop: Calculate for `point`, the
     * mesh fields take the result, and the damaged vertices' parts are hit.
     */
    method ApplyContact(point: Vec3, impulse: real, velocity: Vec3) returns (damaged: seq<bool>)
      requires Valid()
      modifies this`meshVerticies, this`meshVerticiesState, calculation.verticies, calculation.verticiesState, childParts
      ensures Valid()
      ensures var o := Collect(Sweep(old(meshVerticies), startingVerticies, old(meshVerticiesState),
                                     point, calculation.settings, impulse, sqrt));
        meshVerticies == o.verticies && meshVerticiesState == o.verticiesState && damaged == o.verticiesDamaged
      ensures forall p :: p in childParts ==>
        p.State() == DamageN(old(p.State()), simplifyInit, VertexHits(p, damaged, vertexChildParts[..]))
    {
      var data := calculation.Calculate(impulse, point, sqrt);
      meshVerticies := data.verticies;
      meshVerticiesState := data.verticiesState;
      damaged := data.verticiesDamaged;
      DamageVertices(damaged, velocity);
    }

    /**
     * The notifications that close QuickDeform: onMaxDeform once per vertex
     * whose state flag is set, then onCollision.
     */
    method Notify()
      requires Valid()
      modifies this`maxDeformEvents, this`collisionEvents
      ensures Valid()
      ensures maxDeformEvents == old(maxDeformEvents) + CountTrue(meshVerticiesState)
      ensures collisionEvents == old(collisionEvents) + 1
    {
      var flags := meshVerticiesState;
      var a := 0;
      while a < |flags|
        invariant 0 <= a <= |flags|
        invariant maxDeformEvents == old(maxDeformEvents) + CountTrue(flags[..a])
        modifies this`maxDeformEvents
      {
        CountTrueStep(flags, a);
        if flags[a] {
          maxDeformEvents := maxDeformEvents + 1;  // onMaxDeform
        }
        a := a + 1;
      }
      assert flags[..a] == flags;
      collisionEvents := collisionEvents + 1;  // onCollision
    }

    /**
     * QuickDeform's contact loop: Calculate for each of the first
     * MaxContactPerCollision contacts in turn, each followed by the damage of
     * the parts of the vertices it damaged.
     */
    method DeformContacts(contacts: seq<Vec3>, impulse: real, velocity: Vec3)
      requires Valid()
      modifies this`meshVerticies, this`meshVerticiesState, calculation.verticies, calculation.verticiesState, childParts
      ensures Valid()
      ensures var prog := RunContacts(old(meshVerticies), old(meshVerticiesState), startingVerticies,
                                      ProcessedContacts(contacts), calculation.settings, impulse, sqrt);
        meshVerticies == prog.verticies && meshVerticiesState == prog.states &&
        forall p :: p in childParts ==>
          p.State() == DamageN(old(p.State()), simplifyInit, Hits(p, prog.damaged, old(vertexChildParts[..])))
    {
      ghost var verts, states := meshVerticies, meshVerticiesState;
      ghost var table := vertexChildParts[..];
      var i := 0;
      while i < |contacts| && i < MaxContactPerCollision
        invariant 0 <= i <= |contacts| && i <= MaxContactPerCollision
        invariant Valid() && vertexChildParts[..] == table
        invariant var prog := RunContacts(verts, states, startingVerticies, contacts[..i],
                                          calculation.settings, impulse, sqrt);
          meshVerticies == prog.verticies && meshVerticiesState == prog.states &&
          forall p :: p in childParts ==>
            p.State() == DamageN(old(p.State()), simplifyInit, Hits(p, prog.damaged, table))
      {
        ghost var prev := RunContacts(verts, states, startingVerticies, contacts[..i],
                                      calculation.settings, impulse, sqrt);
        RunContactsStep(verts, states, startingVerticies, contacts, i, calculation.settings, impulse, sqrt);
        label before:
        var damaged := ApplyContact(contacts[i], impulse, velocity);
        assert vertexChildParts[..] == table;
        forall p: Part | p in childParts
          ensures p.State() == DamageN(old(p.State()), simplifyInit, Hits(p, prev.damaged + [damaged], table))
        {
          PartAfterContact(p, old(p.State()), old@before(p.State()), p.State(), simplifyInit,
                           prev.damaged, damaged, table);
        }
        i := i + 1;
      }
      assert contacts[..i] == ProcessedContacts(contacts);
    }

    /** QuickDeform: the gated, capped, contact-by-contact deformation of one collision. */
    method QuickDeform(collision: Collision, velocity: Vec3)
      requires Valid()
      modifies this`meshVerticies, this`meshVerticiesState, this`maxDeformEvents, this`collisionEvents
      modifies calculation.verticies, calculation.verticiesState, childParts
      ensures Valid()
      ensures QuickDeformed(collision)
    {
      var roadRatio := RoadRatio(collision.hasRigidbody);
      var impulse := NormalizedImpulse(collision.impulseMagnitude, mass);
      if AboveMinDamage(impulse, roadRatio, minDamage) {
        DeformContacts(collision.contacts, impulse, velocity);
        Notify();
      }
    }

    /** OnCollisionEnter: rate-limited entry to QuickDeform. */
    method OnCollisionEnter(collision: Collision, velocity: Vec3)
      requires Valid()
      modifies this, calculation.verticies, calculation.verticiesState, childParts
      ensures Valid()
      ensures collisionCount == old(collisionCount) + if Admits(old(damageDisabled), old(collisionCount)) then 1 else 0
      ensures Admits(old(damageDisabled), old(collisionCount)) ==> QuickDeformed(collision)
      ensures !Admits(old(damageDisabled), old(collisionCount)) ==>
        unchanged(this) && unchanged(calculation.verticies, calculation.verticiesState) &&
        forall p :: p in childParts ==> p.State() == old(p.State())
    {
      if damageDisabled || collisionCount > MaxCollisionPerFrame {
        return;
      }
      QuickDeform(collision, velocity);
      collisionCount := collisionCount + 1;
    }

    /** OnCollisionStay: the same rate-limited entry to QuickDeform. */
    method OnCollisionStay(collision: Collision, velocity: Vec3)
      requires Valid()
      modifies this, calculation.verticies, calculation.verticiesState, childParts
      ensures Valid()
      ensures collisionCount == old(collisionCount) + if Admits(old(damageDisabled), old(collisionCount)) then 1 else 0
      ensures Admits(old(damageDisabled), old(collisionCount)) ==> QuickDeformed(collision)
      ensures !Admits(old(damageDisabled), old(collisionCount)) ==>
        unchanged(this) && unchanged(calculation.verticies, calculation.verticiesState) &&
        forall p :: p in childParts ==> p.State() == old(p.State())
    {
      if damageDisabled || collisionCount > MaxCollisionPerFrame {
        return;
      }
      QuickDeform(collision, velocity);
      collisionCount := collisionCount + 1;
    }
  }
}
