# QuickDeform in Dafny

A model of the core of QuickDeform, a Unity component set. It deforms a mesh
where collisions hit it and damages the destructible parts attached near the
vertices that were hit. The model has four modules:

- `Vectors` (vectors.dfy): `Vector3` as three reals, its squared length and
  `Mathf.Clamp`.
- `Calculation` (calculation.dfy): the `DeformCalculation` engine.
  - `Settings` stores the deform radius and the ceiling squared.
  - `Execute` is the per-vertex kernel of the parallel deform job.
  - The `DeformCalculation` class owns the persistent current, start and
    state buffers. `Calculate` runs the kernel over every vertex for one
    contact point and copies the results back. `Dispose` releases the
    buffers once.
- `Parts` (parts.dfy): the hit-point state machine of a `Part`.
  - `GetDamage` is modelled as a function on a state value (`AfterDamage`)
    and as a method of the `Part` class that is proved to implement it.
  - The `Demolish` response and the `OnGetDamage` hook are counted, not
    executed.
- `Controller` (controller.dfy): the `Deform` controller.
  - The per-frame rate limit of the collision callbacks, reset in
    `LateUpdate`.
  - The impulse gate and the cap of two contacts per collision.
  - The contact-by-contact composition of `Calculate`.
  - The routing of damaged vertices to the parts associated with them, each
    getting `GetDamage(velocity, simplifyInit)`.
  - The `onMaxDeform` / `onCollision` notification counts.
  - The one-time, strided vertex-to-parts association built by
    `GetChildParts`.
  - The `DamageDisabled` fan-out to the child parts.

`QuickDeform` is specified by pure functions:
- `RunContacts` is `Calculate` applied for each processed contact in turn,
  each time on the buffers the previous contact left.
- `Hits` counts how many `GetDamage` calls a part receives over all the
  damaged flags those contacts reported.
- `DamageN` applies that many calls to the part's state.

Each method of the `Deform` class is proved against these functions. The
properties of the functions are proved as lemmas: order independence of the
parallel job, at most one demolition per part, inert parts staying inert, at
most two processed collisions per frame, bounds on a vertex's movement, and
that a vertex whose state flag is set never moves again. The last holds
because `Deform` keeps an invariant: every flagged vertex is at its ceiling.

Floating-point numbers are modelled as reals. `Mathf.Sqrt` is an arbitrary
function `sqrt: real -> real`, passed as a parameter or held as a constant
of `Deform`. The two broadcast events are invocation counters.

## Model

| member | source | states |
|---|---|---|
| Vectors.SqrMagnitude | Assets/Scripts/DeformCalculation.cs:118-119 | the squared distance is never negative |
| Vectors.Clamp | Assets/Scripts/DeformCalculation.cs:131-133 | `Mathf.Clamp`: the result lies in `[min, max]`; a value in range is returned unchanged; a value below gives `min`; a value above gives `max` |
| Calculation.NewSettings | Assets/Scripts/DeformCalculation.cs:90-97 | radius and ceiling are stored squared, hence non-negative; the other three settings are copied |
| Calculation.Displacement | Assets/Scripts/DeformCalculation.cs:127-133 | each axis of the push is clamped to `[0, sqrMaxDeform]` (the squared ceiling, as the job is written); an axis whose `point * falloff` already lies in that range is that product |
| Calculation.Execute | Assets/Scripts/DeformCalculation.cs:113-146 | the three cases of the kernel, by their effect on the slot: (1) outside the radius every output keeps its seed; (2) inside the radius and at the ceiling the state flag and the damaged flag are set and the vertex stays; (3) inside the radius and under the ceiling the vertex moves and the damaged flag is set. A state flag is never cleared. Damaged holds iff the vertex is inside the radius or its state flag was already set, because the damaged buffer is seeded from the state buffer. Only case (3) changes the position |
| Calculation.MoveIsBounded | Assets/Scripts/DeformCalculation.cs:127-137 | a moving vertex never moves up on any axis, and moves down by at most `sqrMaxDeform * damageMultiplier * impulse` |
| Calculation.Collect | Assets/Scripts/DeformCalculation.cs:57-81 | the `Output` of a sweep holds one position, one state flag and one damaged flag per vertex |
| Calculation.SweepFacts | Assets/Scripts/DeformCalculation.cs:50-51 | over a whole sweep: a set state flag stays set and is reported as damaged; a vertex outside the radius keeps its position and flags |
| Calculation.FlaggedVerticesStay | Assets/Scripts/DeformCalculation.cs:121-141 | when every set state flag marks a vertex at its ceiling (`CeilingFlags`), one sweep leaves every flagged vertex where it was, and afterwards every set flag again marks a vertex at its ceiling |
| Calculation.Write | Assets/Scripts/DeformCalculation.cs:121-145 | one execution of the job writes only the fields its branch sets: nothing outside the radius; the state and damaged flags at the ceiling; the position and the damaged flag under it. Every other field keeps what the slot held |
| Calculation.SeededWriteIsExecute | Assets/Scripts/DeformCalculation.cs:43-51 | on a slot seeded as `Calculate` seeds it (position from the current vertex, state and damaged from the state flag), the write is exactly `Execute` |
| Calculation.WriteTwice | Assets/Scripts/DeformCalculation.cs:121-145 | running an index a second time writes the same values again |
| Calculation.Seeds | Assets/Scripts/DeformCalculation.cs:43-51 | the output slots before the job: the current vertex, and the state flag in both the state and the damaged slot |
| Calculation.RunInOrderSlots | Assets/Scripts/DeformCalculation.cs:54-55 | after the job has run the indices of any schedule (repeats allowed), a slot holds the write into its old contents iff its index was scheduled, and its old contents otherwise |
| Calculation.OrderIndependent | Assets/Scripts/DeformCalculation.cs:43-55 | any schedule that runs every index, starting from the seeded output slots, yields exactly the sequential sweep |
| Calculation.DeformCalculation.Init | Assets/Scripts/DeformCalculation.cs:19-26 | three fresh buffers: current and start vertices both equal the mesh, the state buffer equals `state`; the settings are stored |
| Calculation.DeformCalculation.Dispose | Assets/Scripts/DeformCalculation.cs:27-35 | the first call releases the buffers exactly once and sets `disposed`; every later call changes nothing |
| Calculation.DeformCalculation.Calculate | Assets/Scripts/DeformCalculation.cs:37-67 | the current and state buffers become the positions and state flags of the kernel's sweep over the old buffers; the returned `Output` is that sweep's (copies of both buffers plus the damaged flags); no state flag is cleared; when every set flag marks a vertex at its ceiling, flagged vertices keep their position and the flags still mark vertices at their ceiling |
| Parts.AfterDamage | Assets/Scripts/Part.cs:33-47 | a demolished or damage-disabled part ignores the call; otherwise exactly `damage` hit points are taken. The part is demolished iff it already was or hp dropped to zero or below. Demolish runs exactly in the call that sets `Demolished`; `OnGetDamage` runs exactly when a live, enabled part survives the hit. The invariant "demolitions = 1 iff demolished" is kept |
| Parts.DemolishAtMostOnce | Assets/Scripts/Part.cs:33-47 | over any sequence of `GetDamage` calls, Demolish runs at most once |
| Parts.InertStaysInert | Assets/Scripts/Part.cs:35-36 | a demolished or damage-disabled part is left entirely unchanged by any sequence of calls |
| Parts.DemolishedIsMonotone | Assets/Scripts/Part.cs:38-42 | `Demolished` is never cleared, and `GetDamage` never changes `DamageDisabled` |
| Parts.DamageNAdd | Assets/Scripts/Part.cs:33-47 | `m` calls of one amount followed by `n` calls equal `m + n` calls |
| Parts.DamageNIsRun | Assets/Scripts/Part.cs:33-47 | `n` calls of the same amount are the general run of `n` copies of it |
| Parts.UnitDamages | Assets/Scripts/Part.cs:33-47 | `n` default (damage 1) calls on a live part with more than `n` hp take exactly `n` hp, keep it alive and run `OnGetDamage` `n` times |
| Parts.Part.constructor | Assets/Scripts/Part.cs:60-68 | Awake: hp starts at `maxHp`; the part is alive and enabled; no callback has run |
| Parts.Part.GetDamage | Assets/Scripts/Part.cs:33-47 | the part's new state is `AfterDamage` of its old state |
| Controller.NormalizedImpulse | Assets/Scripts/Deform.cs:206 | the normalised impulse lies in `[0, 1.25]` and equals `magnitude / mass * 0.25` when that is in range |
| Controller.ProcessedContacts | Assets/Scripts/Deform.cs:10 | the processed contacts are the first `min(contactCount, 2)` contacts, in order |
| Controller.AtMostTwoPerFrame | Assets/Scripts/Deform.cs:105-128 | between two `LateUpdate` resets, at most `MAX_COLLISION_PER_FRAME + 1 = 2` callbacks reach `QuickDeform`, whatever `DamageDisabled` does (the guard only rejects counts strictly above the limit) |
| Controller.EnabledFrameProcessesTwo | Assets/Scripts/Deform.cs:105-128 | with damage enabled, a frame processes exactly `min(n, 2 - count)` of its `n` callbacks |
| Controller.NearParts | Assets/Scripts/Deform.cs:88-94 | the list for a vertex holds each child part exactly as often as it occurs in the children when its distance is below its `MinDistance`, and never otherwise |
| Controller.CollectNear | Assets/Scripts/Deform.cs:86-94 | the inner loop collects exactly `NearParts`, in child order |
| Controller.Association | Assets/Scripts/Deform.cs:82-100 | one entry per vertex; every list holds only child parts |
| Controller.FillStep | Assets/Scripts/Deform.cs:84-86 | filling entry `i` (a stride multiple) fills the association up to the next multiple, with no index in between |
| Controller.RunContacts | Assets/Scripts/Deform.cs:210-217 | after the contacts, the buffers have one position and one state flag per vertex, and there is one damaged-flag array per contact; no state flag is cleared |
| Controller.FlaggedVerticesNeverMove | Assets/Scripts/Deform.cs:210-217 | when every set flag marks a vertex at its ceiling, no flagged vertex moves over all the contacts of a collision, and the flags left behind again mark vertices at their ceiling |
| Controller.RunContactsStep | Assets/Scripts/Deform.cs:214-217 | one more contact runs `Calculate` on the buffers the earlier contacts left |
| Controller.VertexHits | Assets/Scripts/Deform.cs:219-228 | a part in no list, or a contact that damaged no vertex, causes no `GetDamage` call |
| Controller.DamagedVertexHitsItsParts | Assets/Scripts/Deform.cs:221-226 | every part in the list of a damaged vertex is hit at least once per occurrence in that list |
| Controller.Hits | Assets/Scripts/Deform.cs:210-229 | an unassociated part receives no call over the whole collision |
| Controller.HitsIncludeEachContact | Assets/Scripts/Deform.cs:210-229 | the calls over the whole collision include those of each processed contact |
| Controller.CountTrue | Assets/Scripts/Deform.cs:230-236 | the number of `onMaxDeform` calls is the number of set state flags (`multiset(flags)[true]`), hence at most the vertex count, and zero iff no flag is set |
| Controller.DamageParts | Assets/Scripts/Deform.cs:223-226 | after the foreach, each part has received one `GetDamage(velocity, amount)` per occurrence in the list |
| Controller.Deform.Init | Assets/Scripts/Deform.cs:56-78 | both vertex copies are the mesh; every state flag is clear (so the invariant that flagged vertices are at their ceiling holds from the start); the association is built; the engine holds copies of the mesh and the states, with the squared settings; damage is enabled and all counters are zero |
| Controller.Deform.GetChildParts | Assets/Scripts/Deform.cs:79-103 | the child list is stored, and the table equals `Association`: the near parts at every `simplifyInit`-th vertex, null elsewhere |
| Controller.Deform.SetDamageDisabled | Assets/Scripts/Deform.cs:35-48 | the controller's flag and every child part's flag take the value; nothing else of the parts changes |
| Controller.Deform.LateUpdate | Assets/Scripts/Deform.cs:125-128 | the per-frame collision count returns to zero |
| Controller.Deform.DamageVertices | Assets/Scripts/Deform.cs:219-228 | each child part's new state is `VertexHits` calls of `GetDamage(_, simplifyInit)` applied to its old state |
| Controller.Deform.ApplyContact | Assets/Scripts/Deform.cs:212-228 | one contact: the mesh fields take the engine's new buffers, and the parts of the damaged vertices are hit |
| Controller.Deform.Notify | Assets/Scripts/Deform.cs:230-238 | `onMaxDeform` runs once per vertex whose state flag is set, then `onCollision` runs once |
| Controller.Deform.DeformContacts | Assets/Scripts/Deform.cs:210-229 | the mesh fields are `RunContacts` over the processed contacts; each child part receives `Hits` calls of `GetDamage(_, simplifyInit)` |
| Controller.Deform.QuickDeform | Assets/Scripts/Deform.cs:203-241 | below the gate nothing changes. Above it: the mesh and the parts are as in `DeformContacts`; `onMaxDeform` runs once per vertex whose state flag is set after the last contact; `onCollision` runs once. The association, the child list and `DamageDisabled` are untouched |
| Controller.Deform.OnCollisionEnter | Assets/Scripts/Deform.cs:105-114 | when damage is enabled and the frame count is at most the limit, `QuickDeform` runs and the count goes up by one; otherwise nothing changes |
| Controller.Deform.OnCollisionStay | Assets/Scripts/Deform.cs:115-124 | the same as `OnCollisionEnter` |

## Left out

- `SlowDeform` (Deform.cs:130-202) is not modelled: no code calls it.
- Demolish and OnGetDamage: the concrete `Demolish(velocity)` implementations and the `OnGetDamage` hook are counted (`demolitions`, `damageHooks`), not executed. BasePart is not part of this model.
- Engine side effects are not modelled: `Physics.IgnoreCollision` in `GetChildParts` and `UpdateMeshVerticies` (writing the mesh back to the renderer and collider).
- The job scheduler and native buffers are modelled as a sequential loop over the indices. The loop in `Calculate` stores `Execute`'s whole slot. `Write` models the job's partial writes, and `SeededWriteIsExecute` with `OrderIndependent` shows that any schedule on the seeded slots gives the same result. The batch size of 4 (`CORE_COUNT`) passed to `Schedule` has no effect on the result.
- Transforms: the `worldToLocalMatrix` transform is not modelled; contact points are given already in the mesh's local space. `velocityDot` is computed and passed in, but the kernel never reads it, so it is omitted.
- Numbers: float rounding is not modelled (reals are used), and `Mathf.Sqrt` is an uninterpreted function. As a result, the falloff value itself is not constrained.
- `HpProcent` and the other trivial getters are not modelled.
- Controller.Deform.Init: the early return when the game object is inactive is not modelled. Re-running `Init` on a live component is not modelled either.
- Controller.Deform.OnCollisionEnter: the branch where `calculation` is null is not modelled. That happens once the engine component has been destroyed (its `OnDestroy`, DeformCalculation.cs:149-152); the callback then skips both `QuickDeform` and the count increment. The same holds for Controller.Deform.OnCollisionStay, and for the null check on `childParts` in the `DamageDisabled` setter, which cannot fail after `Init`.
- Calculation.DeformCalculation.Calculate: requires the buffers not to be disposed, and `Deform`'s invariant keeps the engine undisposed. This excludes calls after `OnApplicationQuit` (DeformCalculation.cs:153-156), which releases the buffers while the component still exists; the source would then run the job on released buffers.
- Controller.Deform.Init: the model creates the engine before it builds the association, while the source does it in the other order. The two steps touch disjoint state, so the order is not observable.
- Controller.Deform.Init: requires `simplifyInit >= 1` (the inspector range is 1 to 10, and 0 would make the loop never end) and a positive rigidbody mass.
- Calculation.DeformCalculation.Init: requires the state array to be as long as the mesh, which its only caller guarantees.
- Parts.AfterDamage: hp is an unbounded integer, so 32-bit wrap-around of `Hp -= damage` is not modelled. hp starts at most 5000 and each call subtracts `simplifyInit`, which is at most 10.
- Inputs as parameters: the child parts (`GetComponentsInChildren`) and the mesh vertices are parameters of `Init`, and `rigidbody.velocity` is a parameter of the collision callbacks.
- `DamageDisabled` getter: not modelled beyond reading the field.
- Subscriptions: `SubcribeForCollision` and `SubcribeForCrash` are not modelled; the events they register are represented only by invocation counts.
- `OnDestroy` and `OnApplicationQuit` both just call `Dispose`, which is modelled.
