/**
 * The hit-point state machine of a destructible part (Part).
 *
 * A part has an integer hit-point pool, a terminal Demolished flag and a
 * DamageDisabled gate.  The Demolish response (physics) and the OnGetDamage
 * hook are callbacks whose behaviour lies outside this model; the state
 * counts how many times each one was invoked.
 */
module Parts {
  import opened Vectors

  /** The observable state of a part, including the two callback counters. */
  datatype PartState = PartState(
    hp: int,
    demolished: bool,
    damageDisabled: bool,
    demolitions: nat,
    damageHooks: nat)

  /** Demolish has run exactly when the part is demolished. */
  predicate Consistent(s: PartState) {
    s.demolitions == (if s.demolished then 1 else 0)
  }

  /** The effect of one GetDamage(velocity, damage) call. */
  function AfterDamage(s: PartState, damage: int): (t: PartState)
    // a demolished or damage-disabled part ignores the call entirely
    ensures s.demolished || s.damageDisabled ==> t == s
    // otherwise exactly `damage` hit points are taken
    ensures !s.demolished && !s.damageDisabled ==> t.hp == s.hp - damage
    // the part becomes demolished exactly when the call drives hp to zero or below
    ensures t.demolished <==> s.demolished || (!s.damageDisabled && t.hp <= 0)
    // Demolish is invoked in exactly the call that sets Demolished
    ensures t.demolitions == s.demolitions + (if t.demolished && !s.demolished then 1 else 0)
    // OnGetDamage is invoked exactly when damage was taken and the part survived
    ensures t.damageHooks == s.damageHooks + (if !s.demolished && !s.damageDisabled && t.hp > 0 then 1 else 0)
    ensures t.damageDisabled == s.damageDisabled
    ensures Consistent(s) ==> Consistent(t)
  {
    if s.demolished || s.damageDisabled then s
    else
      var hp := s.hp - damage;
      if hp <= 0 then s.(hp := hp, demolished := true, demolitions := s.demolitions + 1)
      else s.(hp := hp, damageHooks := s.damageHooks + 1)
  }

  /** A sequence of GetDamage calls, applied in order. */
  function Run(s: PartState, damages: seq<int>): PartState
    decreases |damages|
  {
    if damages == [] then s else Run(AfterDamage(s, damages[0]), damages[1..])
  }

  /** `n` GetDamage calls that all deal `amount`. */
  function DamageN(s: PartState, amount: int, n: nat): PartState
    decreases n
  {
    if n == 0 then s else AfterDamage(DamageN(s, amount, n - 1), amount)
  }

  /** Across any sequence of calls Demolish runs at most once in total. */
  lemma {:induction false} DemolishAtMostOnce(s: PartState, damages: seq<int>)
    requires Consistent(s)
    ensures Consistent(Run(s, damages)) && Run(s, damages).demolitions <= 1
    decreases |damages|
  {
    if damages != [] {
      DemolishAtMostOnce(AfterDamage(s, damages[0]), damages[1..]);
    }
  }

  /**
   * A demolished part, and a part whose damage is disabled, never changes
   * again: hit points, flags and callback counts stay as they are.
   */
  lemma {:induction false} InertStaysInert(s: PartState, damages: seq<int>)
    requires s.demolished || s.damageDisabled
    ensures Run(s, damages) == s
    decreases |damages|
  {
    if damages != [] {
      InertStaysInert(AfterDamage(s, damages[0]), damages[1..]);
    }
  }

  /** Demolished is only ever set: once true it stays true. */
  lemma {:induction false} DemolishedIsMonotone(s: PartState, damages: seq<int>)
    ensures s.demolished ==> Run(s, damages).demolished
    ensures Run(s, damages).damageDisabled == s.damageDisabled
    decreases |damages|
  {
    if damages != [] {
      DemolishedIsMonotone(AfterDamage(s, damages[0]), damages[1..]);
    }
  }

  /** Repeated damage composes: `m` calls followed by `n` calls are `m + n` calls. */
  lemma {:induction false} DamageNAdd(s: PartState, amount: int, m: nat, n: nat)
    ensures DamageN(DamageN(s, amount, m), amount, n) == DamageN(s, amount, m + n)
    decreases n
  {
    if n > 0 {
      DamageNAdd(s, amount, m, n - 1);
    }
  }

  /** `n` calls of the same amount are the run of `n` copies of that amount. */
  lemma {:induction false} DamageNIsRun(s: PartState, amount: int, n: nat)
    ensures DamageN(s, amount, n) == Run(s, seq(n, _ => amount))
    decreases n
  {
    if n > 0 {
      DamageNIsRun(s, amount, n - 1);
      RunSnoc(s, seq(n - 1, _ => amount), amount);
      assert seq(n - 1, _ => amount) + [amount] == seq(n, _ => amount);
    }
  }

  /** Running one more call at the end applies it to the run so far. */
  lemma {:induction false} RunSnoc(s: PartState, damages: seq<int>, last: int)
    ensures Run(s, damages + [last]) == AfterDamage(Run(s, damages), last)
    decreases |damages|
  {
    if damages == [] {
      assert [] + [last] == [last];
    } else {
      assert (damages + [last])[1..] == damages[1..] + [last];
      RunSnoc(AfterDamage(s, damages[0]), damages[1..], last);
    }
  }

  /**
   * `n` calls of damage 1 on a live, enabled part with more than `n` hit
   * points take exactly `n` hit points and leave it alive.
   */
  lemma {:induction false} UnitDamages(s: PartState, n: nat)
    requires !s.demolished && !s.damageDisabled && s.hp > n
    ensures DamageN(s, 1, n).hp == s.hp - n
    ensures !DamageN(s, 1, n).demolished && !DamageN(s, 1, n).damageDisabled
    ensures DamageN(s, 1, n).demolitions == s.demolitions
    ensures DamageN(s, 1, n).damageHooks == s.damageHooks + n
    decreases n
  {
    if n > 0 {
      UnitDamages(s, n - 1);
    }
  }

  /**
   * A destructible part.  `minDistance` (minDstToParent) and `localPosition`
   * (its transform's local position) are read when the vertex association is
   * built.
   */
  class Part {
    const maxHp: int
    const minDistance: real
    const localPosition: Vec3
    var hp: int
    var demolished: bool
    var damageDisabled: bool
    /** Number of Demolish invocations. */
    var demolitions: nat
    /** Number of OnGetDamage invocations. */
    var damageHooks: nat

    function State(): PartState
      reads this
    {
      PartState(hp, demolished, damageDisabled, demolitions, damageHooks)
    }

    /** Awake: the pool starts full, the part alive and enabled. */
    constructor (maxHp: int, minDistance: real, localPosition: Vec3)
      ensures hp == maxHp && !demolished && !damageDisabled
      ensures demolitions == 0 && damageHooks == 0 && Consistent(State())
      ensures this.maxHp == maxHp && this.minDistance == minDistance
      ensures this.localPosition == localPosition
    {
      this.maxHp := maxHp;
      this.minDistance := minDistance;
      this.localPosition := localPosition;
      hp := maxHp;
      demolished := false;
      damageDisabled := false;
      demolitions := 0;
      damageHooks := 0;
    }

    /** GetDamage: `velocity` would be handed to Demolish. */
    method GetDamage(velocity: Vec3, damage: int)
      modifies this
      ensures State() == AfterDamage(old(State()), damage)
    {
      if demolished || damageDisabled {
        return;
      }
      hp := hp - damage;
      if hp <= 0 {
        demolitions := demolitions + 1;  // Demolish(velocity)
        demolished := true;
      } else {
        damageHooks := damageHooks + 1;  // OnGetDamage()
      }
    }
  }
}
