/** The attack and spell timelines that the diagrams in
    Plugins/MOBA/Source/MOBA/Public/BasicUnit.h draw, with lengths in seconds as
    reals. A running counter (`AttackingCounting`, `SpellingCounting`) is seen
    only at the instants the game ticks, so an event "at" a boundary fires in the
    one tick whose counter value reaches the boundary from below. */
module Timeline {

  ghost predicate Nondecreasing(s: seq<real>)
  {
    forall i, j :: 0 <= i <= j < |s| ==> s[i] <= s[j]
  }

  /** The tick that takes the counter from `prev` to `next` reaches `mark`. */
  predicate Reaches(prev: real, next: real, mark: real)
  {
    prev < mark <= next
  }

  /** How many ticks between consecutive counter samples reach `mark`. */
  function Crossings(s: seq<real>, mark: real): (c: nat)
    ensures c <= |s|
  {
    if |s| < 2 then 0
    else Crossings(s[..|s| - 1], mark) + (if Reaches(s[|s| - 2], s[|s| - 1], mark) then 1 else 0)
  }

  /** Samples that all stay below the mark have not reached it yet. */
  lemma {:induction false} NotReachedYet(s: seq<real>, mark: real)
    requires forall i :: 0 <= i < |s| ==> s[i] < mark
    ensures Crossings(s, mark) == 0
    decreases |s|
  {
    if |s| >= 2 {
      NotReachedYet(s[..|s| - 1], mark);
    }
  }

  /** A counter that only grows, starting below the mark and ending at or past it,
      reaches the mark in exactly one tick. */
  lemma {:induction false} ReachedExactlyOnce(s: seq<real>, mark: real)
    requires Nondecreasing(s)
    requires |s| > 0 && s[0] < mark <= s[|s| - 1]
    ensures Crossings(s, mark) == 1
    decreases |s|
  {
    var n := |s|;
    assert n >= 2;
    var p := s[..n - 1];
    assert Nondecreasing(p);
    if s[n - 2] < mark {
      forall i | 0 <= i < |p| ensures p[i] < mark {
        assert p[i] == s[i] <= s[n - 2];
      }
      NotReachedYet(p, mark);
    } else {
      assert p[0] == s[0] && p[|p| - 1] == s[n - 2];
      ReachedExactlyOnce(p, mark);
    }
  }

  // ---------------------------------------------------------------- attack

  /** One normal attack (BasicUnit.h:350-376): the attack time gap
      (`CurrentAttackSpeedSecond`), the animation, its wind-up (begin) and its
      recovery (ending). */
  datatype AttackTimeline = AttackTimeline(timeGap: real, animation: real, begin: real, ending: real)

  /** The relations the attack diagram draws: the animation is the wind-up followed
      by the recovery, and it ends inside one attack time gap. */
  predicate AttackWellFormed(t: AttackTimeline)
  {
    0.0 <= t.begin && 0.0 <= t.ending && t.animation == t.begin + t.ending && t.animation <= t.timeGap
  }

  datatype AttackPhase = AttackWindUp | AttackRecovery | WaitingForNextAttack

  /** The phase at counter value `c`, measured from the start of the attack. */
  function AttackPhaseAt(t: AttackTimeline, c: real): AttackPhase
  {
    if c < t.begin then AttackWindUp
    else if c < t.animation then AttackRecovery
    else WaitingForNextAttack
  }

  /** The instant the attack causes its damage: the end of the wind-up. */
  function DamagePoint(t: AttackTimeline): (p: real)
    requires AttackWellFormed(t)
    ensures 0.0 <= p <= t.animation <= t.timeGap
    ensures t.animation - p == t.ending
  {
    t.begin
  }

  /** The phases follow each other in the drawn order and never go back. */
  lemma AttackPhasesInOrder(t: AttackTimeline, c1: real, c2: real)
    requires AttackWellFormed(t)
    requires c1 <= c2
    ensures AttackPhaseAt(t, c1) == AttackRecovery ==> AttackPhaseAt(t, c2) != AttackWindUp
    ensures AttackPhaseAt(t, c1) == WaitingForNextAttack ==> AttackPhaseAt(t, c2) == WaitingForNextAttack
  {
  }

  /** A tick causes the damage exactly when it leaves the wind-up. */
  lemma DamageAtEndOfWindUp(t: AttackTimeline, prev: real, next: real)
    requires AttackWellFormed(t)
    ensures Reaches(prev, next, DamagePoint(t)) <==>
              AttackPhaseAt(t, prev) == AttackWindUp && AttackPhaseAt(t, next) != AttackWindUp
  {
  }

  /** Over the ticks of one attack, from inside the wind-up to past it, the damage
      is caused exactly once. */
  lemma DamageCausedOnce(t: AttackTimeline, samples: seq<real>)
    requires AttackWellFormed(t)
    requires Nondecreasing(samples)
    requires |samples| > 0 && samples[0] < t.begin <= samples[|samples| - 1]
    ensures Crossings(samples, DamagePoint(t)) == 1
  {
    ReachedExactlyOnce(samples, DamagePoint(t));
  }

  /** No damage while the counter is still inside the wind-up. */
  lemma NoDamageDuringWindUp(t: AttackTimeline, samples: seq<real>)
    requires AttackWellFormed(t)
    requires forall i :: 0 <= i < |samples| ==> AttackPhaseAt(t, samples[i]) == AttackWindUp
    ensures Crossings(samples, DamagePoint(t)) == 0
  {
    NotReachedYet(samples, DamagePoint(t));
  }

  // ----------------------------------------------------------------- spell

  /** One spell (BasicUnit.h:378-406): the wait before the cast, then the
      animation made of its wind-up (begin) and recovery (ending). */
  datatype SpellTimeline = SpellTimeline(waiting: real, animation: real, begin: real, ending: real)

  /** The relations the spell diagram draws: a waiting phase, then the animation,
      which is the wind-up followed by the recovery. */
  predicate SpellWellFormed(t: SpellTimeline)
  {
    0.0 <= t.waiting && 0.0 <= t.begin && 0.0 <= t.ending && t.animation == t.begin + t.ending
  }

  datatype SpellPhase = SpellWaiting | SpellWindUp | SpellRecovery | SpellFinished

  /** The phase at counter value `c`, measured from the start of the waiting phase. */
  function SpellPhaseAt(t: SpellTimeline, c: real): SpellPhase
  {
    if c < t.waiting then SpellWaiting
    else if c < t.waiting + t.begin then SpellWindUp
    else if c < t.waiting + t.animation then SpellRecovery
    else SpellFinished
  }

  /** The instant the skill's cooldown starts: the end of the wind-up. */
  function CooldownPoint(t: SpellTimeline): (p: real)
    requires SpellWellFormed(t)
    ensures t.waiting <= p <= t.waiting + t.animation
    ensures t.waiting + t.animation - p == t.ending
  {
    t.waiting + t.begin
  }

  /** The spell phases follow each other in the drawn order and never go back. */
  lemma SpellPhasesInOrder(t: SpellTimeline, c1: real, c2: real)
    requires SpellWellFormed(t)
    requires c1 <= c2
    ensures SpellPhaseAt(t, c1) == SpellWindUp ==> SpellPhaseAt(t, c2) != SpellWaiting
    ensures SpellPhaseAt(t, c1) == SpellRecovery ==> SpellPhaseAt(t, c2) in {SpellRecovery, SpellFinished}
    ensures SpellPhaseAt(t, c1) == SpellFinished ==> SpellPhaseAt(t, c2) == SpellFinished
  {
  }

  /** A tick starts the cooldown exactly when it leaves the waiting phase or the
      wind-up for the recovery or beyond. */
  lemma CooldownAtEndOfWindUp(t: SpellTimeline, prev: real, next: real)
    requires SpellWellFormed(t)
    ensures Reaches(prev, next, CooldownPoint(t)) <==>
              SpellPhaseAt(t, prev) in {SpellWaiting, SpellWindUp} &&
              SpellPhaseAt(t, next) in {SpellRecovery, SpellFinished}
  {
  }

  /** Over the ticks of one cast, from before the end of the wind-up to past it,
      the cooldown starts exactly once. */
  lemma CooldownStartedOnce(t: SpellTimeline, samples: seq<real>)
    requires SpellWellFormed(t)
    requires Nondecreasing(samples)
    requires |samples| > 0 && samples[0] < CooldownPoint(t) <= samples[|samples| - 1]
    ensures Crossings(samples, CooldownPoint(t)) == 1
  {
    ReachedExactlyOnce(samples, CooldownPoint(t));
  }
}
