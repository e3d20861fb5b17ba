/**
 * The host-facing hooks: the replacement for the host's skill-raise handler,
 * the addition of the alternate level to a skill's initial level, and the
 * `skills` command that lists what can be levelled.
 */
module PatchClass {
  import opened Host
  import opened SkillOrder
  import opened LevelExtensions

  /**
   * Prefix to the host's raise handler. `result` is the handler's return
   * value; `runOriginal` is false, so the host's own raise logic is skipped.
   * The requested amount is ignored: the outcome is that of one `TryRaiseSkill`.
   */
  method PreHandleActionRaiseSkill(player: Player, curve: CostCurve, skill: Skill, amount: uint32)
    returns (runOriginal: bool, result: bool)
    modifies player
    ensures !runOriginal
    ensures RaiseStep(old(player.Snapshot()), player.Snapshot(), curve, skill, result)
  {
    result := TryRaiseSkill(player, curve, skill);
    return false, result;
  }

  /**
   * Postfix to the getter of a skill's initial level: adds the creature's
   * alternate level for that skill, in unchecked `uint` arithmetic (the
   * level is cast to `uint` first).
   */
  method PostGetInitLevel(creature: Player, skill: Skill, result: uint32) returns (patched: uint32)
    ensures (patched as int - (result as int + GetSkillLevel(creature.properties, skill) as int)) % UINT32_MODULUS == 0
    ensures 0 <= result as int + GetSkillLevel(creature.properties, skill) as int < UINT32_MODULUS ==>
      patched as int == result as int + GetSkillLevel(creature.properties, skill) as int
  {
    var level := GetSkillLevel(creature.properties, skill);
    var widened := WrapU32(level as int);
    patched := WrapU32(result as int + widened as int);
  }

  /** One line of the `skills` listing. */
  datatype SkillRow = SkillRow(level: int32, cost: int64, skill: Skill)

  function SkillsOf(rows: seq<SkillRow>): (skills: seq<Skill>)
    ensures |skills| == |rows|
    ensures forall k :: 0 <= k < |rows| ==> skills[k] == rows[k].skill
  {
    seq(|rows|, k requires 0 <= k < |rows| => rows[k].skill)
  }

  /** The rows the listing loop produces from `skills`, in their order: one per priceable skill. */
  function SkillListing(c: Character, curve: CostCurve, skills: seq<Skill>): seq<SkillRow>
  {
    if skills == [] then []
    else
      var earlier := SkillListing(c, curve, skills[..|skills| - 1]);
      var skill := skills[|skills| - 1];
      match SkillQuote(c, curve, skill)
      case None => earlier
      case Some(cost) => earlier + [SkillRow(GetSkillLevel(c.properties, skill), cost, skill)]
  }

  /**
   * The listing holds exactly the priceable skills of the input, each row
   * with the skill's current alternate level and its quote.
   */
  lemma {:induction false} ListingRows(c: Character, curve: CostCurve, skills: seq<Skill>)
    ensures forall s :: s in SkillsOf(SkillListing(c, curve, skills)) <==> s in skills && Priceable(c, s)
    ensures forall r :: r in SkillListing(c, curve, skills) ==>
      r.level == GetSkillLevel(c.properties, r.skill) && SkillQuote(c, curve, r.skill) == Some(r.cost)
  {
    if skills != [] {
      var prefix := skills[..|skills| - 1];
      var last := skills[|skills| - 1];
      ListingRows(c, curve, prefix);
      assert skills == prefix + [last];
      var earlier := SkillsOf(SkillListing(c, curve, prefix));
      var all := SkillsOf(SkillListing(c, curve, skills));
      if SkillQuote(c, curve, last).Some? {
        assert all == earlier + [last];
      } else {
        assert all == earlier;
      }
    }
  }

  /** The listing keeps the input's order and repeats no skill the input does not repeat. */
  lemma {:induction false} ListingOrder(c: Character, curve: CostCurve, skills: seq<Skill>, name: Skill -> string)
    ensures SortedBy(skills, name) ==> SortedBy(SkillsOf(SkillListing(c, curve, skills)), name)
    ensures Distinct(skills) ==> Distinct(SkillsOf(SkillListing(c, curve, skills)))
  {
    if skills != [] {
      var prefix := skills[..|skills| - 1];
      var last := skills[|skills| - 1];
      ListingOrder(c, curve, prefix, name);
      ListingRows(c, curve, prefix);
      var earlier := SkillsOf(SkillListing(c, curve, prefix));
      var all := SkillsOf(SkillListing(c, curve, skills));
      if SkillQuote(c, curve, last).Some? {
        assert all == earlier + [last];
        if SortedBy(skills, name) {
          assert SortedBy(prefix, name);
          forall i | 0 <= i < |earlier| ensures NameLe(name(earlier[i]), name(last)) {
            var k :| 0 <= k < |prefix| && prefix[k] == earlier[i];
            assert skills[k] == prefix[k];
          }
        }
        if Distinct(skills) {
          assert Distinct(prefix);
          assert last !in prefix by {
            forall k | 0 <= k < |prefix| ensures prefix[k] != last {
              assert skills[k] == prefix[k];
            }
          }
          assert last !in earlier;
        }
      } else {
        assert all == earlier;
        assert SortedBy(skills, name) ==> SortedBy(prefix, name);
        assert Distinct(skills) ==> Distinct(prefix);
      }
    }
  }

  /**
   * The `skills` command: walks the skill enumeration `members` in order of
   * `name`, skips every skill that cannot be priced, and emits a row with the
   * level and the quote of each of the others.
   */
  method HandleSkills(player: Player, curve: CostCurve, members: seq<Skill>, name: Skill -> string)
    returns (rows: seq<SkillRow>)
    ensures rows == SkillListing(player.Snapshot(), curve, OrderBy(members, name))
    ensures forall s :: s in SkillsOf(rows) <==> s in members && Priceable(player.Snapshot(), s)
    ensures forall r :: r in rows ==>
      r.level == GetSkillLevel(player.properties, r.skill) &&
      SkillQuote(player.Snapshot(), curve, r.skill) == Some(r.cost)
    ensures SortedBy(SkillsOf(rows), name)
    ensures Distinct(members) ==> Distinct(SkillsOf(rows))
  {
    var ordered := OrderBy(members, name);
    rows := [];
    var i := 0;
    while i < |ordered|
      invariant 0 <= i <= |ordered|
      invariant rows == SkillListing(player.Snapshot(), curve, ordered[..i])
    {
      var skill := ordered[i];
      assert ordered[..i + 1][..i] == ordered[..i];
      var priced, cost := TryGetSkillCost(player, curve, skill);
      if priced {
        var level := GetSkillLevel(player.properties, skill);
        rows := rows + [SkillRow(level, cost, skill)];
      }
      i := i + 1;
    }
    assert ordered[..i] == ordered;
    OrderByMembers(members, name);
    ListingRows(player.Snapshot(), curve, ordered);
    ListingOrder(player.Snapshot(), curve, ordered, name);
  }
}
