/** A unit of the game (`ABasicUnit`, Plugins/MOBA/Source/MOBA/Public/BasicUnit.h):
    its action queue, its buff list with the parallel list of remaining durations,
    and the lengths of its attack and spell phases. The header declares the
    operations and documents them in comments; the model gives each operation the
    behaviour its comment states and nothing more. */
module BasicUnit {
  import opened Wrappers
  import opened BuffList
  import opened AsciiText
  import Timeline

  /** What an action asks the unit to do. HeroAction.h is not part of this model:
      the kinds follow the `DoAction_*` handlers the header declares. */
  datatype ActionStatus =
    | Idle
    | MovingAttackToPosition
    | MoveToPosition
    | AttackActor
    | SpellToActor
    | SpellToDirection
    | SpellChannelling
    | MoveToPickup
    | MoveToThrowEquipment

  datatype Vector = Vector(x: real, y: real, z: real)

  /** One queued intent (`FHeroAction`): its kind, a target position, an optional
      target unit and a skill or item index. */
  datatype HeroAction = HeroAction(status: ActionStatus, targetPosition: Vector, targetUnit: Option<nat>, targetIndex: int)

  /** The action of a unit that does nothing. */
  const IdleAction := HeroAction(Idle, Vector(0.0, 0.0, 0.0), None, 0)

  class Unit {
    /** The actions still to do, worked through from the front (BasicUnit.h:481-483). */
    var ActionQueue: seq<HeroAction>
    var CurrentAction: HeroAction
    /** All buffs (BuffQueue) and, at the same index, each one's remaining time
        (BuffDuration), BasicUnit.h:491-496. */
    var BuffQueue: seq<Buff>
    var BuffDuration: seq<real>
    /** The engine's pending-kill flag, which `IsValid` reads. */
    var IsPendingKill: bool

    var CurrentAttackSpeedSecond: real
    var CurrentAttackingAnimationTimeLength: real
    var CurrentAttackingBeginingTimeLength: real
    var CurrentAttackingEndingTimeLength: real

    var CurrentSpellingWatingTimeLength: real
    var CurrentSpellingAnimationTimeLength: real
    var CurrentSpellingBeginingTimeLength: real
    var CurrentSpellingEndingTimeLength: real

    /** The two buff lists stay parallel, and the attack and spell lengths keep the
        relations their diagrams draw. */
    ghost predicate Valid()
      reads this
    {
      BuffsParallel() && PhasesWellFormed()
    }

    /** Entry `i` of `BuffDuration` is the remaining time of buff `i` of `BuffQueue`
        (BasicUnit.h:491-496), so both lists have the same length. */
    ghost predicate BuffsParallel()
      reads this
    {
      |BuffQueue| == |BuffDuration|
    }

    /** The attack and spell lengths keep the relations their diagrams draw
        (BasicUnit.h:350-406). */
    ghost predicate PhasesWellFormed()
      reads this
    {
      && Timeline.AttackWellFormed(Timeline.AttackTimeline(CurrentAttackSpeedSecond, CurrentAttackingAnimationTimeLength,
                                                           CurrentAttackingBeginingTimeLength, CurrentAttackingEndingTimeLength))
      && Timeline.SpellWellFormed(Timeline.SpellTimeline(CurrentSpellingWatingTimeLength, CurrentSpellingAnimationTimeLength,
                                                         CurrentSpellingBeginingTimeLength, CurrentSpellingEndingTimeLength))
    }

    constructor ()
      ensures ActionQueue == [] && CurrentAction == IdleAction
      ensures BuffQueue == [] && BuffDuration == [] && !IsPendingKill
      ensures Valid()
    {
      ActionQueue, CurrentAction := [], IdleAction;
      BuffQueue, BuffDuration := [], [];
      IsPendingKill := false;
      CurrentAttackSpeedSecond, CurrentAttackingAnimationTimeLength := 0.0, 0.0;
      CurrentAttackingBeginingTimeLength, CurrentAttackingEndingTimeLength := 0.0, 0.0;
      CurrentSpellingWatingTimeLength, CurrentSpellingAnimationTimeLength := 0.0, 0.0;
      CurrentSpellingBeginingTimeLength, CurrentSpellingEndingTimeLength := 0.0, 0.0;
      new;
      // All lengths start at zero, which both diagrams allow.
      assert CurrentAttackSpeedSecond == 0.0 && CurrentAttackingAnimationTimeLength == 0.0;
      assert CurrentAttackingBeginingTimeLength == 0.0 && CurrentAttackingEndingTimeLength == 0.0;
      assert CurrentSpellingWatingTimeLength == 0.0 && CurrentSpellingAnimationTimeLength == 0.0;
      assert CurrentSpellingBeginingTimeLength == 0.0 && CurrentSpellingEndingTimeLength == 0.0;
    }

    /** The attack and spell lengths, in the order the header declares them. */
    function PhaseLengths(): seq<real>
      reads this
    {
      [CurrentAttackSpeedSecond, CurrentAttackingAnimationTimeLength,
       CurrentAttackingBeginingTimeLength, CurrentAttackingEndingTimeLength,
       CurrentSpellingWatingTimeLength, CurrentSpellingAnimationTimeLength,
       CurrentSpellingBeginingTimeLength, CurrentSpellingEndingTimeLength]
    }

    /** The current attack lengths, read as the attack diagram's timeline. A valid
        unit's timeline is well formed, and it causes its damage when the attack
        counter reaches the wind-up length. */
    function AttackTimeline(): (t: Timeline.AttackTimeline)
      requires Valid()
      reads this
      ensures Timeline.AttackWellFormed(t)
      ensures Timeline.DamagePoint(t) == CurrentAttackingBeginingTimeLength
    {
      Timeline.AttackTimeline(CurrentAttackSpeedSecond, CurrentAttackingAnimationTimeLength,
                              CurrentAttackingBeginingTimeLength, CurrentAttackingEndingTimeLength)
    }

    /** The current spell lengths, read as the spell diagram's timeline. A valid
        unit's timeline is well formed, and its cooldown starts when the spell
        counter reaches the waiting length plus the wind-up length. */
    function SpellTimeline(): (t: Timeline.SpellTimeline)
      requires Valid()
      reads this
      ensures Timeline.SpellWellFormed(t)
      ensures Timeline.CooldownPoint(t) == CurrentSpellingWatingTimeLength + CurrentSpellingBeginingTimeLength
    {
      Timeline.SpellTimeline(CurrentSpellingWatingTimeLength, CurrentSpellingAnimationTimeLength,
                             CurrentSpellingBeginingTimeLength, CurrentSpellingEndingTimeLength)
    }

    /** A valid unit whose attack counter only grows, from inside the wind-up to
        past it, causes the damage of one attack exactly once. */
    lemma AttackCausesDamageOnce(samples: seq<real>)
      requires Valid()
      requires Timeline.Nondecreasing(samples)
      requires |samples| > 0 && samples[0] < CurrentAttackingBeginingTimeLength <= samples[|samples| - 1]
      ensures Timeline.Crossings(samples, Timeline.DamagePoint(AttackTimeline())) == 1
    {
      Timeline.DamageCausedOnce(AttackTimeline(), samples);
    }

    /** A valid unit whose spell counter only grows, from before the end of the
        wind-up to past it, starts the cooldown of one cast exactly once. */
    lemma SpellStartsCooldownOnce(samples: seq<real>)
      requires Valid()
      requires Timeline.Nondecreasing(samples)
      requires |samples| > 0
      requires samples[0] < CurrentSpellingWatingTimeLength + CurrentSpellingBeginingTimeLength <= samples[|samples| - 1]
      ensures Timeline.Crossings(samples, Timeline.CooldownPoint(SpellTimeline())) == 1
    {
      Timeline.CooldownStartedOnce(SpellTimeline(), samples);
    }

    /** Removes the finished action at the front; the rest keep their order. An
        empty queue stays empty. */
    method PopAction()
      modifies this`ActionQueue
      ensures old(ActionQueue) == [] ==> ActionQueue == []
      ensures old(ActionQueue) != [] ==> [old(ActionQueue)[0]] + ActionQueue == old(ActionQueue)
    {
      if |ActionQueue| > 0 {
        ActionQueue := ActionQueue[1..];
      }
    }

    /** Stops all current actions: nothing stays queued and the current action is
        the idle one. */
    method DoNothing()
      modifies this`ActionQueue, this`CurrentAction
      ensures ActionQueue == [] && CurrentAction == IdleAction
    {
      ActionQueue := [];
      CurrentAction := IdleAction;
    }

    /** Adds a buff with its remaining time at the end of the buff list. */
    method AddBuff(buff: Buff, duration: real)
      requires BuffsParallel()
      modifies this`BuffQueue, this`BuffDuration
      ensures BuffsParallel()
      ensures old(Valid()) ==> Valid()
      ensures BuffQueue == old(BuffQueue) + [buff] && BuffDuration == old(BuffDuration) + [duration]
    {
      BuffQueue := BuffQueue + [buff];
      BuffDuration := BuffDuration + [duration];
    }

    /** Removes every entry that `s` selects from both lists, keeping the others in
        order. */
    method DropSelected(s: Selector)
      requires BuffsParallel()
      modifies this`BuffQueue, this`BuffDuration
      ensures BuffsParallel()
      ensures old(Valid()) ==> Valid()
      ensures (BuffQueue, BuffDuration) == Drop(old(BuffQueue), old(BuffDuration), s)
    {
      var bs, ds := BuffQueue, BuffDuration;
      var kb: seq<Buff>, kd: seq<real> := [], [];
      var i := 0;
      while i < |bs|
        invariant 0 <= i <= |bs|
        invariant (kb, kd) == Drop(bs[..i], ds[..i], s)
      {
        DropSnoc(bs[..i], ds[..i], s, bs[i], ds[i]);
        assert bs[..i + 1] == bs[..i] + [bs[i]];
        assert ds[..i + 1] == ds[..i] + [ds[i]];
        if !Matches(s, bs[i]) {
          kb, kd := kb + [bs[i]], kd + [ds[i]];
        }
        i := i + 1;
      }
      assert bs[..i] == bs && ds[..i] == ds;
      BuffQueue, BuffDuration := kb, kd;
    }

    /** Adds a buff, replacing every buff of the same name. */
    method AddUniqueBuff(buff: Buff, duration: real)
      requires BuffsParallel()
      modifies this`BuffQueue, this`BuffDuration
      ensures BuffsParallel()
      ensures old(Valid()) ==> Valid()
      ensures (BuffQueue, BuffDuration) == ReplaceNamed(old(BuffQueue), old(BuffDuration), buff, duration)
      ensures CountNamed(BuffQueue, buff.name) == 1 && buff in BuffQueue
      ensures UniqueNames(old(BuffQueue)) ==> UniqueNames(BuffQueue)
    {
      ghost var bs, ds := BuffQueue, BuffDuration;
      DropSelected(ByName(buff.name));
      BuffQueue := BuffQueue + [buff];
      BuffDuration := BuffDuration + [duration];
      ReplaceNamedLeavesOne(bs, ds, buff, duration);
      assert BuffQueue[|BuffQueue| - 1] == buff;
      if UniqueNames(bs) {
        ReplaceNamedKeepsUniqueNames(bs, ds, buff, duration);
      }
    }

    /** Removes all buffs with the given name; buffs with other names stay, with
        their durations, in order. */
    method RemoveBuffByName(name: string)
      requires BuffsParallel()
      modifies this`BuffQueue, this`BuffDuration
      ensures BuffsParallel()
      ensures old(Valid()) ==> Valid()
      ensures (BuffQueue, BuffDuration) == Drop(old(BuffQueue), old(BuffDuration), ByName(name))
      ensures forall i :: 0 <= i < |BuffQueue| ==> !EqualsIgnoreCase(BuffQueue[i].name, name)
    {
      ghost var bs, ds := BuffQueue, BuffDuration;
      DropSelected(ByName(name));
      DropRemovesSelected(bs, ds, ByName(name));
    }

    /** Removes a buff; every other buff stays, with its duration, in order. */
    method RemoveBuff(buff: Buff)
      requires BuffsParallel()
      modifies this`BuffQueue, this`BuffDuration
      ensures BuffsParallel()
      ensures old(Valid()) ==> Valid()
      ensures (BuffQueue, BuffDuration) == Drop(old(BuffQueue), old(BuffDuration), ByBuff(buff))
      ensures buff !in BuffQueue
    {
      ghost var bs, ds := BuffQueue, BuffDuration;
      DropSelected(ByBuff(buff));
      DropRemovesSelected(bs, ds, ByBuff(buff));
    }

    /** The first buff with the given name, or none when no buff has it. */
    method GetBuffByName(name: string) returns (r: Option<Buff>)
      ensures r.None? <==> forall i :: 0 <= i < |BuffQueue| ==> !EqualsIgnoreCase(BuffQueue[i].name, name)
      ensures r.Some? ==> EqualsIgnoreCase(r.value.name, name)
      ensures r.Some? ==> exists i :: 0 <= i < |BuffQueue| && BuffQueue[i] == r.value &&
                                      forall j :: 0 <= j < i ==> !EqualsIgnoreCase(BuffQueue[j].name, name)
    {
      var i := 0;
      while i < |BuffQueue|
        invariant 0 <= i <= |BuffQueue|
        invariant forall j :: 0 <= j < i ==> !EqualsIgnoreCase(BuffQueue[j].name, name)
      {
        if EqualsIgnoreCase(BuffQueue[i].name, name) {
          return Some(BuffQueue[i]);
        }
        i := i + 1;
      }
      return None;
    }
  }
}
