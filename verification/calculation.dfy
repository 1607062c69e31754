/**
 * The deformation kernel and the buffer engine (DeformCalculation).
 *
 * The kernel `Execute` is the body of the parallel job for one vertex index:
 * it reads the current vertex, its start vertex, the local-space contact
 * point, the settings and the impulse, and produces the three values that
 * end up in slot `index` of the three output buffers.  The output buffers
 * are seeded before the job runs (positions with the current vertices, the
 * state buffer is the persistent state buffer itself, and the damaged buffer
 * with a copy of the state buffer), so a slot the kernel does not write keeps
 * its seed; `Execute` takes the two seeds it needs (vertex and state) and
 * returns the final contents of the slot.
 */
module Calculation {
  import opened Vectors

  /** Settings: radius and ceiling are stored squared. */
  datatype Settings = Settings(
    sqrDeformRadius: real,
    sqrMaxDeform: real,
    damageFalloff: real,
    damageMultiplier: real,
    minDamage: real)

  /** The two squared fields are non-negative, as squares always are. */
  predicate WellFormed(s: Settings) {
    s.sqrDeformRadius >= 0.0 && s.sqrMaxDeform >= 0.0
  }

  /** The Settings constructor: squares radius and ceiling, copies the rest. */
  function NewSettings(deformRadius: real, maxDeform: real, damageFalloff: real,
                       damageMultiplier: real, minDamage: real): (s: Settings)
    ensures WellFormed(s)
    ensures s.sqrDeformRadius == deformRadius * deformRadius
    ensures s.sqrMaxDeform == maxDeform * maxDeform
    ensures s.damageFalloff == damageFalloff && s.damageMultiplier == damageMultiplier
    ensures s.minDamage == minDamage
  {
    Settings(deformRadius * deformRadius, maxDeform * maxDeform,
             damageFalloff, damageMultiplier, minDamage)
  }

  /** Final contents of one slot of the three output buffers. */
  datatype Slot = Slot(position: Vec3, exceeded: bool, damaged: bool)

  /** The vertex lies strictly inside the deform radius around the contact point. */
  predicate InsideRadius(vertex: Vec3, point: Vec3, s: Settings) {
    SqrMagnitude(Sub(vertex, point)) < s.sqrDeformRadius
  }

  /** The vertex has moved at least the (squared) ceiling away from its start. */
  predicate AtCeiling(vertex: Vec3, start: Vec3, s: Settings) {
    SqrMagnitude(Sub(start, vertex)) >= s.sqrMaxDeform
  }

  /** Linear radial falloff; `sqrt` stands for Mathf.Sqrt. */
  function Falloff(vertex: Vec3, point: Vec3, s: Settings, sqrt: real -> real): real
    requires InsideRadius(vertex, point, s)
  {
    1.0 - sqrt(SqrMagnitude(Sub(vertex, point)) / s.sqrDeformRadius) * s.damageFalloff
  }

  /**
   * Per-axis displacement: the contact coordinate times the falloff, clamped
   * to [0, sqrMaxDeform] (the job clamps by the squared ceiling).
   */
  function Displacement(point: Vec3, falloff: real, s: Settings): (d: Vec3)
    ensures s.sqrMaxDeform >= 0.0 ==>
      0.0 <= d.x <= s.sqrMaxDeform && 0.0 <= d.y <= s.sqrMaxDeform && 0.0 <= d.z <= s.sqrMaxDeform
    ensures 0.0 <= point.x * falloff <= s.sqrMaxDeform ==> d.x == point.x * falloff
    ensures 0.0 <= point.y * falloff <= s.sqrMaxDeform ==> d.y == point.y * falloff
    ensures 0.0 <= point.z * falloff <= s.sqrMaxDeform ==> d.z == point.z * falloff
  {
    Vec3(Clamp(point.x * falloff, 0.0, s.sqrMaxDeform),
         Clamp(point.y * falloff, 0.0, s.sqrMaxDeform),
         Clamp(point.z * falloff, 0.0, s.sqrMaxDeform))
  }

  /** Position of a vertex that is inside the radius and under the ceiling. */
  function Moved(vertex: Vec3, point: Vec3, falloff: real, s: Settings, impulse: real): Vec3 {
    Sub(vertex, Scale(Scale(Displacement(point, falloff, s), s.damageMultiplier), impulse))
  }

  /**
   * DeformJob.Execute for one index: `vertex` and `state` are the slot's
   * seeds, `start` the start vertex at the same index.
   */
  function Execute(vertex: Vec3, start: Vec3, state: bool, point: Vec3, s: Settings,
                   impulse: real, sqrt: real -> real): (r: Slot)
    // outside the radius: nothing is written, every slot keeps its seed
    ensures !InsideRadius(vertex, point, s) ==> r == Slot(vertex, state, state)
    // at the ceiling: the vertex stays, the state flag and damaged are set
    ensures InsideRadius(vertex, point, s) && AtCeiling(vertex, start, s) ==>
      r == Slot(vertex, true, true)
    // under the ceiling: the vertex moves, the state flag is kept, damaged is set
    ensures InsideRadius(vertex, point, s) && !AtCeiling(vertex, start, s) ==>
      r == Slot(Moved(vertex, point, Falloff(vertex, point, s, sqrt), s, impulse), state, true)
    // the state flag is never cleared
    ensures state ==> r.exceeded
    // damaged is reported exactly for vertices inside the radius and for
    // vertices whose state flag was already set
    ensures r.damaged <==> InsideRadius(vertex, point, s) || state
    // only a vertex inside the radius and under the ceiling changes position
    ensures r.position != vertex ==> InsideRadius(vertex, point, s) && !AtCeiling(vertex, start, s)
  {
    if SqrMagnitude(Sub(vertex, point)) < s.sqrDeformRadius then
      if SqrMagnitude(Sub(start, vertex)) < s.sqrMaxDeform then
        Slot(Moved(vertex, point, Falloff(vertex, point, s, sqrt), s, impulse), state, true)
      else
        Slot(vertex, true, true)
    else
      Slot(vertex, state, state)
  }

  /**
   * A moving vertex goes down on every axis by at most the squared ceiling
   * times damageMultiplier times impulse, and never up.
   */
  lemma MoveIsBounded(vertex: Vec3, point: Vec3, falloff: real, s: Settings, impulse: real)
    requires WellFormed(s) && s.damageMultiplier >= 0.0 && impulse >= 0.0
    ensures Within(Moved(vertex, point, falloff, s, impulse), vertex, s.sqrMaxDeform * s.damageMultiplier * impulse)
  {
    PushBounded(vertex, Displacement(point, falloff, s), s.sqrMaxDeform, s.damageMultiplier, impulse);
  }

  /** Every coordinate of `m` lies in `[v - bound, v]`. */
  predicate Within(m: Vec3, v: Vec3, bound: real) {
    v.x - bound <= m.x <= v.x && v.y - bound <= m.y <= v.y && v.z - bound <= m.z <= v.z
  }

  lemma PushBounded(v: Vec3, d: Vec3, max: real, mult: real, impulse: real)
    requires 0.0 <= d.x <= max && 0.0 <= d.y <= max && 0.0 <= d.z <= max
    requires mult >= 0.0 && impulse >= 0.0
    ensures Within(Sub(v, Scale(Scale(d, mult), impulse)), v, max * mult * impulse)
  {
    AxisMove(v.x, d.x, max, mult, impulse);
    AxisMove(v.y, d.y, max, mult, impulse);
    AxisMove(v.z, d.z, max, mult, impulse);
  }

  /** One axis of PushBounded: `v - d*m*i` lies in `[v - max*m*i, v]`. */
  lemma AxisMove(v: real, d: real, max: real, m: real, i: real)
    requires 0.0 <= d <= max && m >= 0.0 && i >= 0.0
    ensures v - max * m * i <= v - d * m * i <= v
  {
    var k := m * i;
    assert k >= 0.0 by { NonNegativeProduct(m, i); }
    assert d * m * i == d * k && max * m * i == max * k;
    NonNegativeProduct(d, k);
    NonNegativeProduct(max - d, k);
    assert (max - d) * k == max * k - d * k;
  }

  lemma NonNegativeProduct(a: real, b: real)
    requires a >= 0.0 && b >= 0.0
    ensures a * b >= 0.0
  {
  }

  /** The whole sweep of one Calculate call, index by index. */
  function Sweep(verts: seq<Vec3>, starts: seq<Vec3>, states: seq<bool>, point: Vec3,
                 s: Settings, impulse: real, sqrt: real -> real): (slots: seq<Slot>)
    requires |starts| == |verts| && |states| == |verts|
    ensures |slots| == |verts|
  {
    seq(|verts|, i requires 0 <= i < |verts| =>
      Execute(verts[i], starts[i], states[i], point, s, impulse, sqrt))
  }

  function Positions(slots: seq<Slot>): (r: seq<Vec3>)
    ensures |r| == |slots| && forall i :: 0 <= i < |slots| ==> r[i] == slots[i].position
  {
    seq(|slots|, i requires 0 <= i < |slots| => slots[i].position)
  }

  function ExceededFlags(slots: seq<Slot>): (r: seq<bool>)
    ensures |r| == |slots| && forall i :: 0 <= i < |slots| ==> r[i] == slots[i].exceeded
  {
    seq(|slots|, i requires 0 <= i < |slots| => slots[i].exceeded)
  }

  function DamagedFlags(slots: seq<Slot>): (r: seq<bool>)
    ensures |r| == |slots| && forall i :: 0 <= i < |slots| ==> r[i] == slots[i].damaged
  {
    seq(|slots|, i requires 0 <= i < |slots| => slots[i].damaged)
  }

  /** Calculate's Output: copies of the two persistent buffers and the damaged flags. */
  datatype Output = Output(verticies: seq<Vec3>, verticiesState: seq<bool>, verticiesDamaged: seq<bool>)

  /** The Output that a sweep produces. */
  function Collect(slots: seq<Slot>): (o: Output)
    ensures |o.verticies| == |slots| && |o.verticiesState| == |slots| && |o.verticiesDamaged| == |slots|
  {
    Output(Positions(slots), ExceededFlags(slots), DamagedFlags(slots))
  }

  /**
   * One sweep never clears a state flag, reports every vertex whose state
   * flag is set as damaged, and leaves every vertex outside the radius where
   * it was.
   */
  lemma SweepFacts(verts: seq<Vec3>, starts: seq<Vec3>, states: seq<bool>, point: Vec3,
                   s: Settings, impulse: real, sqrt: real -> real)
    requires |starts| == |verts| && |states| == |verts|
    ensures var o := Collect(Sweep(verts, starts, states, point, s, impulse, sqrt));
      forall i :: 0 <= i < |verts| ==>
        (states[i] ==> o.verticiesState[i] && o.verticiesDamaged[i]) &&
        (!InsideRadius(verts[i], point, s) ==>
           o.verticies[i] == verts[i] && o.verticiesState[i] == states[i] &&
           o.verticiesDamaged[i] == states[i])
  {
  }

  /**
   * Every vertex whose state flag is set is at its ceiling: flags are set
   * only there, and the start buffer never changes.
   */
  predicate CeilingFlags(verts: seq<Vec3>, starts: seq<Vec3>, states: seq<bool>, s: Settings)
    requires |starts| == |verts| && |states| == |verts|
  {
    forall i {:trigger AtCeiling(verts[i], starts[i], s)} ::
      0 <= i < |verts| && states[i] ==> AtCeiling(verts[i], starts[i], s)
  }

  /**
   * A flagged vertex never moves again: when every flag marks a vertex at its
   * ceiling, a sweep leaves each flagged vertex where it was, and every flag
   * after the sweep again marks a vertex at its ceiling.
   */
  lemma FlaggedVerticesStay(verts: seq<Vec3>, starts: seq<Vec3>, states: seq<bool>, point: Vec3,
                            s: Settings, impulse: real, sqrt: real -> real)
    requires |starts| == |verts| && |states| == |verts|
    requires CeilingFlags(verts, starts, states, s)
    ensures var o := Collect(Sweep(verts, starts, states, point, s, impulse, sqrt));
      (forall i :: 0 <= i < |verts| && states[i] ==> o.verticies[i] == verts[i]) &&
      CeilingFlags(o.verticies, starts, o.verticiesState, s)
  {
  }

  /**
   * What one execution of the job writes into its slot of the three output
   * buffers: only the fields its branch sets, every other field keeps what
   * the slot held.  The kernel reads only the read-only inputs.
   */
  function Write(slot: Slot, vertex: Vec3, start: Vec3, point: Vec3, s: Settings,
                 impulse: real, sqrt: real -> real): (r: Slot)
    // outside the radius nothing is written
    ensures !InsideRadius(vertex, point, s) ==> r == slot
    // inside the radius the damaged flag is written
    ensures InsideRadius(vertex, point, s) ==> r.damaged
    // at the ceiling only the state flag is written besides it
    ensures InsideRadius(vertex, point, s) && AtCeiling(vertex, start, s) ==>
      r == slot.(exceeded := true, damaged := true)
    // under the ceiling only the position is written besides it
    ensures InsideRadius(vertex, point, s) && !AtCeiling(vertex, start, s) ==>
      r == slot.(position := Moved(vertex, point, Falloff(vertex, point, s, sqrt), s, impulse), damaged := true)
  {
    if SqrMagnitude(Sub(vertex, point)) < s.sqrDeformRadius then
      if SqrMagnitude(Sub(start, vertex)) < s.sqrMaxDeform then
        slot.(position := Sub(vertex, Scale(Scale(Displacement(point, Falloff(vertex, point, s, sqrt), s),
                                                  s.damageMultiplier), impulse)),
              damaged := true)
      else
        slot.(exceeded := true, damaged := true)
    else
      slot
  }

  /**
   * On a slot seeded as `Calculate` seeds it (position from the current
   * vertex, state and damaged from the state flag), the write yields exactly
   * the kernel's result `Execute`.
   */
  lemma SeededWriteIsExecute(vertex: Vec3, start: Vec3, state: bool, point: Vec3,
                              s: Settings, impulse: real, sqrt: real -> real)
    ensures Write(Slot(vertex, state, state), vertex, start, point, s, impulse, sqrt)
         == Execute(vertex, start, state, point, s, impulse, sqrt)
  {
  }

  /** Running the same index twice writes the same values again. */
  lemma WriteTwice(slot: Slot, vertex: Vec3, start: Vec3, point: Vec3, s: Settings,
                   impulse: real, sqrt: real -> real)
    ensures var once := Write(slot, vertex, start, point, s, impulse, sqrt);
      Write(once, vertex, start, point, s, impulse, sqrt) == once
  {
  }

  /** The output slots as `Calculate` seeds them before scheduling the job. */
  function Seeds(verts: seq<Vec3>, states: seq<bool>): (out: seq<Slot>)
    requires |states| == |verts|
    ensures |out| == |verts|
    ensures forall i :: 0 <= i < |verts| ==> out[i] == Slot(verts[i], states[i], states[i])
  {
    seq(|verts|, i requires 0 <= i < |verts| => Slot(verts[i], states[i], states[i]))
  }

  /**
   * The job as the scheduler may run it: slot by slot in the order `order`
   * (any interleaving of any partition of the index range among workers,
   * an index possibly more than once), each execution writing into its own
   * slot of `out`.
   */
  function RunInOrder(order: seq<int>, out: seq<Slot>, verts: seq<Vec3>, starts: seq<Vec3>,
                      point: Vec3, s: Settings, impulse: real, sqrt: real -> real): seq<Slot>
    requires |starts| == |verts| && |out| == |verts|
    requires forall k :: 0 <= k < |order| ==> 0 <= order[k] < |verts|
    decreases |order|
  {
    if order == [] then out
    else
      var i := order[0];
      RunInOrder(order[1..], out[i := Write(out[i], verts[i], starts[i], point, s, impulse, sqrt)],
                 verts, starts, point, s, impulse, sqrt)
  }

  /** After running `order`, a slot holds the write into its old contents iff its index was run. */
  lemma {:induction false} RunInOrderSlots(order: seq<int>, out: seq<Slot>, verts: seq<Vec3>,
                                           starts: seq<Vec3>, point: Vec3,
                                           s: Settings, impulse: real, sqrt: real -> real)
    requires |starts| == |verts| && |out| == |verts|
    requires forall k :: 0 <= k < |order| ==> 0 <= order[k] < |verts|
    ensures var r := RunInOrder(order, out, verts, starts, point, s, impulse, sqrt);
      |r| == |out| &&
      forall i :: 0 <= i < |out| ==>
        r[i] == if i in order then Write(out[i], verts[i], starts[i], point, s, impulse, sqrt)
                else out[i]
    decreases |order|
  {
    if order != [] {
      var i := order[0];
      var out' := out[i := Write(out[i], verts[i], starts[i], point, s, impulse, sqrt)];
      RunInOrderSlots(order[1..], out', verts, starts, point, s, impulse, sqrt);
      WriteTwice(out[i], verts[i], starts[i], point, s, impulse, sqrt);
      forall j | 0 <= j < |out|
        ensures (j in order) == (j == i || j in order[1..])
      {
        assert order == [i] + order[1..];
      }
    }
  }

  /**
   * Order independence: any schedule that executes every index at least once,
   * starting from the seeded output slots, yields exactly the sequential sweep.
   */
  lemma OrderIndependent(order: seq<int>, verts: seq<Vec3>, starts: seq<Vec3>,
                         states: seq<bool>, point: Vec3, s: Settings, impulse: real,
                         sqrt: real -> real)
    requires |starts| == |verts| && |states| == |verts|
    requires forall k :: 0 <= k < |order| ==> 0 <= order[k] < |verts|
    requires forall i :: 0 <= i < |verts| ==> i in order
    ensures RunInOrder(order, Seeds(verts, states), verts, starts, point, s, impulse, sqrt)
         == Sweep(verts, starts, states, point, s, impulse, sqrt)
  {
    RunInOrderSlots(order, Seeds(verts, states), verts, starts, point, s, impulse, sqrt);
    forall i | 0 <= i < |verts| {
      SeededWriteIsExecute(verts[i], starts[i], states[i], point, s, impulse, sqrt);
    }
  }

  /**
   * The engine (the DeformCalculation component): the persistent current,
   * start and state buffers, the settings, and the disposed flag.
   */
  class DeformCalculation {
    const verticies: array<Vec3>
    const startVerticies: array<Vec3>
    const verticiesState: array<bool>
    const settings: Settings
    var disposed: bool
    /** How many times the buffers have been released. */
    ghost var releases: nat

    ghost predicate Valid()
      reads this
    {
      verticies.Length == startVerticies.Length == verticiesState.Length &&
      verticies != startVerticies &&
      releases == (if disposed then 1 else 0)
    }

    /** Init: both vertex buffers are copies of `mesh`, the state buffer a copy of `state`. */
    constructor Init(mesh: seq<Vec3>, state: seq<bool>, settings: Settings)
      requires |state| == |mesh|
      ensures Valid() && !disposed
      ensures fresh(verticies) && fresh(startVerticies) && fresh(verticiesState)
      ensures verticies[..] == mesh && startVerticies[..] == mesh && verticiesState[..] == state
      ensures this.settings == settings
    {
      verticies := new Vec3[|mesh|](i requires 0 <= i < |mesh| => mesh[i]);
      startVerticies := new Vec3[|mesh|](i requires 0 <= i < |mesh| => mesh[i]);
      verticiesState := new bool[|state|](i requires 0 <= i < |state| => state[i]);
      this.settings := settings;
      disposed := false;
      releases := 0;
    }

    /** Releases the buffers once; every later call does nothing. */
    method Dispose()
      requires Valid()
      modifies this
      ensures Valid() && disposed
      ensures old(disposed) ==> unchanged(this)
      ensures !old(disposed) ==> releases == old(releases) + 1
    {
      if disposed {
        return;
      }
      releases := releases + 1;
      disposed := true;
    }

    /**
     * Runs the kernel over every index for one contact point (given in local
     * space) and copies the results back into the persistent buffers.
     */
    method Calculate(impulse: real, point: Vec3, sqrt: real -> real) returns (output: Output)
      requires Valid() && !disposed
      modifies verticies, verticiesState
      ensures Valid()
      ensures var slots := Sweep(old(verticies[..]), startVerticies[..], old(verticiesState[..]),
                                 point, settings, impulse, sqrt);
        verticies[..] == Positions(slots) &&
        verticiesState[..] == ExceededFlags(slots) &&
        output == Collect(slots)
      ensures output.verticies == verticies[..] && output.verticiesState == verticiesState[..]
      ensures forall i :: 0 <= i < verticiesState.Length && old(verticiesState[i]) ==> verticiesState[i]
      // with every flag at its ceiling, flagged vertices keep their position
      // and the flags still mark vertices at their ceiling
      ensures CeilingFlags(old(verticies[..]), startVerticies[..], old(verticiesState[..]), settings) ==>
        CeilingFlags(verticies[..], startVerticies[..], verticiesState[..], settings) &&
        forall i :: 0 <= i < verticies.Length && old(verticiesState[i]) ==> verticies[i] == old(verticies[i])
    {
      var n := verticies.Length;
      ghost var verts, states := verticies[..], verticiesState[..];
      var starts := startVerticies[..];
      var outVerticies := new Vec3[n](i requires 0 <= i < n reads verticies => verticies[i]);
      var outDamaged := new bool[n](i requires 0 <= i < n reads verticiesState => verticiesState[i]);
      var i := 0;
      while i < n
        invariant 0 <= i <= n
        invariant verticies[..] == verts
        invariant forall k :: 0 <= k < i ==>
          var r := Execute(verts[k], starts[k], states[k], point, settings, impulse, sqrt);
          outVerticies[k] == r.position && verticiesState[k] == r.exceeded && outDamaged[k] == r.damaged
        invariant forall k :: i <= k < n ==> verticiesState[k] == states[k]
      {
        var r := Execute(verticies[i], startVerticies[i], verticiesState[i], point, settings, impulse, sqrt);
        outVerticies[i] := r.position;
        verticiesState[i] := r.exceeded;
        outDamaged[i] := r.damaged;
        i := i + 1;
      }
      forall k | 0 <= k < n {
        verticies[k] := outVerticies[k];
      }
      ghost var slots := Sweep(verts, starts, states, point, settings, impulse, sqrt);
      assert verticies[..] == Positions(slots);
      assert verticiesState[..] == ExceededFlags(slots);
      assert outDamaged[..] == DamagedFlags(slots);
      if CeilingFlags(verts, starts, states, settings) {
        FlaggedVerticesStay(verts, starts, states, point, settings, impulse, sqrt);
      }
      output := Output(verticies[..], verticiesState[..], outDamaged[..]);
    }
  }
}
