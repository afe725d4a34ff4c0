/** The authoritative hero command of the game mode (Source/AON/MOBAGameMode.cpp):
    a server request that sets a hero's action. Engine replication is left to the
    engine; whether this instance has authority (`Role == ROLE_Authority`) is an
    input. */
module MOBAGameMode {
  import opened BasicUnit

  /** The engine's `IsValid`: a unit that exists and is not pending kill. */
  predicate IsValidUnit(hero: Unit?)
    reads hero
  {
    hero != null && !hero.IsPendingKill
  }

  /** Validation of the server request: every hero and action is accepted. */
  function ServerSetHeroActionValidate(hero: Unit?, action: HeroAction): (accepted: bool)
    ensures accepted
  {
    true
  }

  /** The queue a hero has after the request: with authority over a valid hero the
      given action alone, otherwise the queue it had. */
  function QueueAfterSetHeroAction(authority: bool, valid: bool, queue: seq<HeroAction>, action: HeroAction): (q: seq<HeroAction>)
  {
    if authority && valid then [action] else queue
  }

  /** With authority and a valid hero, the queue holds exactly the new action: none
      of the actions queued before are kept, in front of it or behind it. */
  lemma SetHeroActionReplacesQueue(queue: seq<HeroAction>, action: HeroAction)
    ensures |QueueAfterSetHeroAction(true, true, queue, action)| == 1
    ensures QueueAfterSetHeroAction(true, true, queue, action)[0] == action
    ensures forall a :: a in QueueAfterSetHeroAction(true, true, queue, action) ==> a == action
  {
  }

  /** Without authority, or for an invalid hero, the queue stays as it was. */
  lemma SetHeroActionIgnoredWithoutAuthority(authority: bool, valid: bool, queue: seq<HeroAction>, action: HeroAction)
    requires !(authority && valid)
    ensures QueueAfterSetHeroAction(authority, valid, queue, action) == queue
  {
  }

  /** Sending the same action twice leaves the queue that sending it once leaves. */
  lemma SetHeroActionIdempotent(authority: bool, valid: bool, queue: seq<HeroAction>, action: HeroAction)
    ensures QueueAfterSetHeroAction(authority, valid, QueueAfterSetHeroAction(authority, valid, queue, action), action)
         == QueueAfterSetHeroAction(authority, valid, queue, action)
  {
  }

  /** Every field of the hero other than `ActionQueue` keeps its value. */
  twostate predicate OnlyQueueWritten(hero: Unit)
    reads hero
  {
    && hero.CurrentAction == old(hero.CurrentAction)
    && hero.BuffQueue == old(hero.BuffQueue)
    && hero.BuffDuration == old(hero.BuffDuration)
    && hero.IsPendingKill == old(hero.IsPendingKill)
    && hero.PhaseLengths() == old(hero.PhaseLengths())
  }

  /** Empties the hero's queue and adds the action; only `ActionQueue` is written,
      and nothing at all without authority or for an invalid hero. */
  method ServerSetHeroAction(authority: bool, hero: Unit?, action: HeroAction)
    modifies hero
    ensures hero != null ==> hero.ActionQueue == QueueAfterSetHeroAction(authority, IsValidUnit(hero), old(hero.ActionQueue), action)
    ensures authority && IsValidUnit(hero) ==> hero.ActionQueue == [action]
    ensures hero != null && !(authority && IsValidUnit(hero)) ==> unchanged(hero)
    ensures hero != null ==> OnlyQueueWritten(hero)
  {
    if authority && IsValidUnit(hero) {
      hero.ActionQueue := [];
      hero.ActionQueue := hero.ActionQueue + [action];
    }
  }

  /** What a caller of the request can rely on: a second identical request leaves
      the queue the first one left, and the current action is untouched. */
  method ServerSetHeroActionTwice(authority: bool, hero: Unit, action: HeroAction)
    modifies hero
    ensures hero.ActionQueue == QueueAfterSetHeroAction(authority, IsValidUnit(hero), old(hero.ActionQueue), action)
    ensures hero.CurrentAction == old(hero.CurrentAction) && hero.BuffQueue == old(hero.BuffQueue)
  {
    ServerSetHeroAction(authority, hero, action);
    ghost var once := hero.ActionQueue;
    ServerSetHeroAction(authority, hero, action);
    SetHeroActionIdempotent(authority, IsValidUnit(hero), old(hero.ActionQueue), action);
    assert hero.ActionQueue == once;
  }
}
