/**
 * The alternate-level ledger: a per-skill counter kept in the player's
 * integer property map under a reserved key, the price of the next level,
 * and the raise that debits experience and then bumps the counter.
 */
module LevelExtensions {
  import opened Host

  /** First reserved property key; skill `s` is stored under `KEY_BASE + s`. */
  const KEY_BASE: int := 10000

  /** Number of values of the 16-bit property-key enumeration. */
  const KEY_MODULUS: int := 0x1_0000

  /** The property key of a skill's alternate level: `10000 + skill`, cast to the 16-bit key type. */
  function FakeSkillLevels(skill: Skill): PropertyInt
  {
    ((KEY_BASE + skill as int) % KEY_MODULUS) as PropertyInt
  }

  /** Skills whose reserved key does not wrap around the 16-bit key range (every skill the host declares). */
  predicate KeyFits(skill: Skill)
  {
    KEY_BASE + skill as int < KEY_MODULUS
  }

  /** Two skills share a key exactly when their values agree modulo the key range. */
  lemma FakeSkillLevelsCollision(a: Skill, b: Skill)
    ensures FakeSkillLevels(a) == FakeSkillLevels(b) <==> (a as int - b as int) % KEY_MODULUS == 0
  {
  }

  /** Distinct declared skills never share a stored level, and their keys lie in the reserved range. */
  lemma FakeSkillLevelsInjective(a: Skill, b: Skill)
    requires KeyFits(a) && KeyFits(b)
    ensures FakeSkillLevels(a) == FakeSkillLevels(b) <==> a == b
    ensures FakeSkillLevels(a) as int == KEY_BASE + a as int >= KEY_BASE
  {
  }

  /** The alternate level of `skill` in a property map; 0 when it was never stored. */
  function GetSkillLevel(properties: map<PropertyInt, int32>, skill: Skill): int32
  {
    var key := FakeSkillLevels(skill);
    if key in properties then properties[key] else 0
  }

  /**
   * A level never stored reads as 0; storing a level is seen by the next read,
   * and no other declared skill's level moves.
   */
  lemma GetAfterSet(properties: map<PropertyInt, int32>, skill: Skill, level: int32, other: Skill)
    ensures FakeSkillLevels(skill) !in properties ==> GetSkillLevel(properties, skill) == 0
    ensures GetSkillLevel(properties[FakeSkillLevels(skill) := level], skill) == level
    ensures KeyFits(skill) && KeyFits(other) && other != skill ==>
      GetSkillLevel(properties[FakeSkillLevels(skill) := level], other) == GetSkillLevel(properties, other)
  {
  }

  /** Writes the alternate level of `skill` into the player's property map. */
  method SetSkillLevel(player: Player, skill: Skill, level: int32)
    modifies player
    ensures player.Snapshot() == old(player.Snapshot()).(properties := old(player.properties)[FakeSkillLevels(skill) := level])
    ensures GetSkillLevel(player.properties, skill) == level
  {
    player.SetProperty(FakeSkillLevels(skill), level);
  }

  /**
   * The configured price curves, one for each arm of the cost switch: the
   * price of the next level given the current one, already converted to a
   * whole amount of experience. The floating-point formulas behind them are
   * not modelled.
   */
  datatype CostCurve = CostCurve(
    untrained: int32 -> XpCost,
    trained: int32 -> XpCost,
    specialized: int32 -> XpCost)

  /**
   * The cost switch over the advancement class. It has no default arm, so a
   * class outside its three cases (Inactive) has no price: None stands for the
   * exception the switch would throw.
   */
  function SkillCost(curve: CostCurve, sac: AdvancementClass, level: int32): (r: Option<XpCost>)
    ensures r.None? <==> sac == Inactive
  {
    match sac
    case Untrained => Some(curve.untrained(level))
    case Trained => Some(curve.trained(level))
    case Specialized => Some(curve.specialized(level))
    case Inactive => None
  }

  /** A skill can be priced when the player has it and its class is at least Trained. */
  predicate Priceable(c: Character, skill: Skill)
  {
    skill in c.skills && Rank(c.skills[skill]) >= Rank(Trained)
  }

  /**
   * The price of raising `skill` by one level, or None when it cannot be
   * priced. Only the Trained and Specialized curves are ever consulted, at
   * the skill's current alternate level.
   */
  function SkillQuote(c: Character, curve: CostCurve, skill: Skill): (q: Option<XpCost>)
    ensures q.Some? <==> Priceable(c, skill)
    ensures q.Some? ==>
      var level := GetSkillLevel(c.properties, skill);
      (c.skills[skill] == Trained && q.value == curve.trained(level)) ||
      (c.skills[skill] == Specialized && q.value == curve.specialized(level))
  {
    if !Priceable(c, skill) then None
    else
      match SkillCost(curve, c.skills[skill], GetSkillLevel(c.properties, skill))
      case Some(cost) => Some(cost)
      case None => assert false; None
  }

  /** The quote depends only on the skill's advancement class and its current alternate level. */
  lemma QuoteDependsOnClassAndLevel(c1: Character, c2: Character, curve: CostCurve, skill: Skill)
    requires skill in c1.skills <==> skill in c2.skills
    requires skill in c1.skills ==> c1.skills[skill] == c2.skills[skill]
    requires GetSkillLevel(c1.properties, skill) == GetSkillLevel(c2.properties, skill)
    ensures SkillQuote(c1, curve, skill) == SkillQuote(c2, curve, skill)
  {
  }

  /**
   * Prices the next level of `skill`. Returns false, with the cost set to
   * `long.MaxValue`, when the player has no record of the skill or its class
   * is below Trained. Nothing is changed.
   */
  method TryGetSkillCost(player: Player, curve: CostCurve, skill: Skill) returns (ok: bool, cost: int64)
    ensures ok <==> Priceable(player.Snapshot(), skill)
    ensures ok ==> SkillQuote(player.Snapshot(), curve, skill) == Some(cost)
    ensures !ok ==> cost as int == INT64_MAX
  {
    cost := INT64_MAX as int64;
    var creatureSkill := player.GetCreatureSkill(skill);
    if creatureSkill.None? || Rank(creatureSkill.value) < Rank(Trained) {
      return false, cost;
    }
    var currentLevel := GetSkillLevel(player.properties, skill);
    var price := SkillCost(curve, creatureSkill.value, currentLevel);
    cost := price.value;
    return true, cost;
  }

  /** The raise may go ahead as far as the ledger can tell: the skill is priced and the player can pay. */
  predicate CanRaise(c: Character, curve: CostCurve, skill: Skill)
  {
    var q := SkillQuote(c, curve, skill);
    q.Some? && q.value <= c.availableExperience
  }

  /** The state after a successful raise: the quote debited, the level bumped with `int` wrap-around. */
  function Raised(c: Character, curve: CostCurve, skill: Skill): Character
    requires CanRaise(c, curve, skill)
  {
    var cost := SkillQuote(c, curve, skill).value;
    var level := Wrap32(GetSkillLevel(c.properties, skill) as int + 1);
    c.(availableExperience := c.availableExperience - cost,
       properties := c.properties[FakeSkillLevels(skill) := level])
  }

  /** One raise request: a success is a `Raised` step from a state that allowed it, a failure changes nothing. */
  predicate RaiseStep(before: Character, after: Character, curve: CostCurve, skill: Skill, ok: bool)
  {
    if ok then CanRaise(before, curve, skill) && after == Raised(before, curve, skill)
    else after == before
  }

  /**
   * Handles a request to raise `skill` by one level, whatever amount the
   * client asked for: price it, check the balance, have the host debit the
   * experience, and only then store the level one higher.
   */
  method TryRaiseSkill(player: Player, curve: CostCurve, skill: Skill) returns (ok: bool)
    modifies player
    ensures RaiseStep(old(player.Snapshot()), player.Snapshot(), curve, skill, ok)
  {
    var priced, cost := TryGetSkillCost(player, curve, skill);
    if !priced {
      return false;
    }
    if cost > player.availableExperience {
      return false;
    }
    var spent := player.SpendXP(cost);
    if !spent {
      return false;
    }
    var level := Wrap32(GetSkillLevel(player.properties, skill) as int + 1);
    SetSkillLevel(player, skill, level);
    return true;
  }

  /** `level + 1` in C#'s unchecked `int`: one more, except that the largest value wraps to the smallest. */
  lemma IncrementWraps(level: int32)
    ensures level as int < INT32_MAX ==> Wrap32(level as int + 1) as int == level as int + 1
    ensures level as int == INT32_MAX ==> Wrap32(level as int + 1) as int == INT32_MIN
    ensures Wrap32(level as int + 1) != level
  {
  }

  /**
   * A successful raise: the skill was priced and affordable, its level is one
   * more than before (barring `int` wrap-around), the balance is lower by
   * exactly the quote and never negative, and neither the skill table nor any
   * other declared skill's level changes.
   */
  lemma RaiseSucceeded(before: Character, after: Character, curve: CostCurve, skill: Skill)
    requires RaiseStep(before, after, curve, skill, true)
    requires KeyFits(skill)
    ensures Priceable(before, skill)
    ensures var cost := SkillQuote(before, curve, skill).value;
      cost <= before.availableExperience &&
      after.availableExperience == before.availableExperience - cost
    ensures 0 <= after.availableExperience
    ensures GetSkillLevel(before.properties, skill) as int < INT32_MAX ==>
      GetSkillLevel(after.properties, skill) as int == GetSkillLevel(before.properties, skill) as int + 1
    ensures after.skills == before.skills
    ensures forall other :: KeyFits(other) && other != skill ==>
      GetSkillLevel(after.properties, other) == GetSkillLevel(before.properties, other)
  {
  }

  /**
   * A failed raise leaves level and balance as they were. It fails whenever the
   * skill cannot be priced or costs more than the balance, whatever the host.
   */
  lemma RaiseFailed(before: Character, after: Character, curve: CostCurve, skill: Skill, ok: bool)
    requires RaiseStep(before, after, curve, skill, ok)
    ensures !ok ==> after == before
    ensures !Priceable(before, skill) ==> !ok && after == before
    ensures Priceable(before, skill) && SkillQuote(before, curve, skill).value > before.availableExperience ==>
      !ok && after == before
  {
  }

  /**
   * Experience is spent exactly when the level moves: a raise is committed
   * iff it succeeded, and the balance drops by the quote then and by nothing
   * otherwise.
   */
  lemma RaiseCommitsBoth(before: Character, after: Character, curve: CostCurve, skill: Skill, ok: bool)
    requires RaiseStep(before, after, curve, skill, ok)
    ensures ok <==> GetSkillLevel(after.properties, skill) != GetSkillLevel(before.properties, skill)
    ensures before.availableExperience - after.availableExperience ==
      if ok then SkillQuote(before, curve, skill).value else 0
  {
  }

  /** One request raises at most one level of one skill, whatever amount the client asked for. */
  lemma RaiseAtMostOneLevel(before: Character, after: Character, curve: CostCurve, skill: Skill, ok: bool)
    requires RaiseStep(before, after, curve, skill, ok)
    requires KeyFits(skill)
    ensures forall other :: KeyFits(other) ==>
      var was := GetSkillLevel(before.properties, other);
      GetSkillLevel(after.properties, other) == was ||
      (other == skill && ok && GetSkillLevel(after.properties, other) == Wrap32(was as int + 1))
  {
  }
}
