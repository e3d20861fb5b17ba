/**
 * The parts of the game server that the alternate-level ledger leans on:
 * the integer widths of its properties, the skill and advancement-class
 * enumerations, and the player object with its integer property map, its
 * experience balance and its table of skills.
 */
module Host {

  const INT32_MIN: int := -0x8000_0000
  const INT32_MAX: int := 0x7fff_ffff
  const UINT32_MODULUS: int := 0x1_0000_0000
  const INT64_MAX: int := 0x7fff_ffff_ffff_ffff

  newtype uint16 = x: int | 0 <= x < 0x1_0000
  newtype int32 = x: int | -0x8000_0000 <= x < 0x8000_0000
  newtype uint32 = x: int | 0 <= x < 0x1_0000_0000
  newtype int64 = x: int | -0x8000_0000_0000_0000 <= x < 0x8000_0000_0000_0000

  /** An amount of experience that can be charged: a non-negative `long`. */
  type XpCost = c: int64 | 0 <= c

  /** The skill enumeration, by its underlying (non-negative) integer value. */
  newtype Skill = s: int | 0 <= s < 0x1_0000_0000

  /** Keys of the host's integer property map: a 16-bit enumeration. */
  type PropertyInt = uint16

  /** How far a character has advanced a skill, in the host's declaration order. */
  datatype AdvancementClass = Inactive | Untrained | Trained | Specialized

  /** The underlying value of an advancement class, which `<` compares. */
  function Rank(c: AdvancementClass): nat
  {
    match c
    case Inactive => 0
    case Untrained => 1
    case Trained => 2
    case Specialized => 3
  }

  datatype Option<T> = None | Some(value: T)

  /** The value C#'s unchecked `int` arithmetic gives for the mathematical value `x`. */
  function Wrap32(x: int): (r: int32)
    ensures (r as int - x) % UINT32_MODULUS == 0
    ensures INT32_MIN <= x <= INT32_MAX ==> r as int == x
  {
    ((x - INT32_MIN) % UINT32_MODULUS + INT32_MIN) as int32
  }

  /** The value C#'s unchecked `uint` arithmetic gives for the mathematical value `x`. */
  function WrapU32(x: int): (r: uint32)
    ensures (r as int - x) % UINT32_MODULUS == 0
    ensures 0 <= x < UINT32_MODULUS ==> r as int == x
  {
    (x % UINT32_MODULUS) as uint32
  }

  /** A player's state as a value: what the ledger reads and writes. */
  datatype Character = Character(
    properties: map<PropertyInt, int32>,
    availableExperience: int64,
    skills: map<Skill, AdvancementClass>)

  /**
   * The host's player object. Only the three pieces of state the ledger
   * touches are kept; everything else the host stores is left out.
   */
  class Player {
    var properties: map<PropertyInt, int32>
    var availableExperience: int64
    var skills: map<Skill, AdvancementClass>

    constructor (properties: map<PropertyInt, int32>, availableExperience: int64, skills: map<Skill, AdvancementClass>)
      ensures Snapshot() == Character(properties, availableExperience, skills)
    {
      this.properties := properties;
      this.availableExperience := availableExperience;
      this.skills := skills;
    }

    /** The player's current state as a value. */
    function Snapshot(): Character
      reads this
    {
      Character(properties, availableExperience, skills)
    }

    /** The player's record of a skill, absent when the player has none (lookup without adding). */
    function GetCreatureSkill(skill: Skill): (r: Option<AdvancementClass>)
      reads this
      ensures r.Some? <==> skill in skills
      ensures r.Some? ==> r.value == skills[skill]
    {
      if skill in skills then Some(skills[skill]) else None
    }

    /** Writes one integer property; nothing else changes. */
    method SetProperty(key: PropertyInt, value: int32)
      modifies this
      ensures Snapshot() == old(Snapshot()).(properties := old(properties)[key := value])
    {
      properties := properties[key := value];
    }

    /**
     * The host's experience debit. It is an atomic-or-nothing operation whose
     * outcome the ledger cannot predict: either it fails and nothing changes,
     * or it succeeds and exactly `amount` leaves the balance.
     */
    method SpendXP(amount: XpCost) returns (ok: bool)
      requires amount <= availableExperience
      modifies this
      ensures ok ==> Snapshot() == old(Snapshot()).(availableExperience := old(availableExperience) - amount)
      ensures !ok ==> Snapshot() == old(Snapshot())
    {
      ok := *;
      if ok {
        availableExperience := availableExperience - amount;
      }
    }
  }
}
