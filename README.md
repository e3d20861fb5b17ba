# AltLevels: the alternate skill-level ledger

AltLevels is a plugin for an Asheron's Call emulator server (ACE). It
replaces the host's skill-raise handler with its own rule. Each skill has an
"alternate level": a counter in the player's integer property map, stored
under the reserved key `10000 + skill` and reading as 0 until first written.
A skill can be priced only if the player has it at advancement class Trained
or above. The price of the next level depends only on that class and the
current alternate level.

One raise goes like this. The skill is priced and the price is checked
against the available experience. The host is then asked to spend the
experience. Only if the host succeeds is the counter stored one higher. Three
hooks sit around this ledger:

- the raise-request prefix forwards to the raise and skips the host's own logic;
- the `InitLevel` getter postfix adds the alternate level to the host's value;
- the `skills` command lists every priceable skill, in name order, with its level and price.

The project has four modules. Each is one file.

- `Host` (`host.dfy`) holds the parts of the host the ledger depends on:
  - the integer widths (`int32`, `uint32`, `int64`, the 16-bit property key);
  - the `Skill` and `AdvancementClass` enumerations;
  - the `Player` class, with its property map, its experience balance and its skill table;
  - the host operations `GetCreatureSkill`, `SetProperty` and `SpendXP`, modelled only by their contracts.

  `Character` is the value form of a player's state. It is used by the lemmas.
  `SpendXP` is nondeterministic: it either fails and changes nothing, or it
  succeeds and subtracts exactly the amount.
- `SkillOrder` (`skill_order.dfy`) models ordering a sequence by a string
  key, as LINQ `OrderBy` does. It uses ordinal string order and is proved to
  be a sorted permutation.
- `LevelExtensions` (`level_extensions.dfy`) is the ledger. The key function
  is `FakeSkillLevels`. The level is read by `GetSkillLevel` and written by
  `SetSkillLevel`. The cost switch is `SkillCost`, with the price curves
  abstracted into `CostCurve`. `TryGetSkillCost` quotes a price, specified by
  `SkillQuote`. `TryRaiseSkill` does the raise, specified by `RaiseStep` and
  `Raised`. Lemmas state the raise's success and failure guarantees.
- `PatchClass` (`patch_class.dfy`) models the three hooks. `HandleSkills` is
  specified by `SkillListing`.

What the code does, and does not do:

- A raise request moves one level only. `PreHandleActionRaiseSkill` ignores
  `amount` (AltLevels/PatchClass.cs:99), and `TryRaiseSkill` has no loop
  (AltLevels/LevelExtensions.cs:47).
- A raise returns only a boolean. The failure reasons go out as chat text
  (AltLevels/LevelExtensions.cs:50, 56, 63).
- Only skills are levelled. Attributes and vitals have no alternate level in
  this code.
- `Convert.ToInt64` rounds the floating-point price to the nearest integer
  (AltLevels/LevelExtensions.cs:27). The model does not depend on this,
  because the curves are abstract.

Integer widths follow the C# types, with unchecked arithmetic:

- The property key is the 16-bit enumeration `PropertyInt`, so the key is
  `(10000 + skill) mod 2^16`.
- The stored level is an `int`, so `level + 1` wraps at `int.MaxValue`.
- The `InitLevel` sum is `uint` arithmetic, so both the cast and the addition
  wrap modulo 2^32.

## Model

| member | source | states |
|---|---|---|
| `LevelExtensions.FakeSkillLevelsCollision` | AltLevels/LevelExtensions.cs:7 | two skills get the same property key exactly when their values are congruent modulo 2^16, the width of the key type |
| `LevelExtensions.FakeSkillLevelsInjective` | AltLevels/LevelExtensions.cs:7 | for skills whose key does not wrap (every declared skill), distinct skills have distinct keys, and every key is `10000 + skill`, at or above the reserved base |
| `LevelExtensions.GetAfterSet` | AltLevels/LevelExtensions.cs:8-11 | a level never stored reads as 0; after storing `n` for a skill, reading it gives `n`; every other declared skill reads as before |
| `LevelExtensions.SetSkillLevel` | AltLevels/LevelExtensions.cs:10-11 | writes exactly the skill's reserved key in the property map; balance, skill table and all other keys are unchanged |
| `LevelExtensions.SkillCost` | AltLevels/LevelExtensions.cs:35-40 | the switch prices Untrained, Trained and Specialized with their own curve; Inactive, which has no arm, gets no price (the switch would throw) |
| `LevelExtensions.SkillQuote` | AltLevels/LevelExtensions.cs:16-30 | a quote exists if and only if the player has the skill at class Trained or above; it is then the Trained or the Specialized curve at the current alternate level, so the Untrained arm and the missing default arm are never reached |
| `LevelExtensions.QuoteDependsOnClassAndLevel` | AltLevels/LevelExtensions.cs:21-27 | two states that agree on the skill's class and alternate level get the same quote |
| `LevelExtensions.TryGetSkillCost` | AltLevels/LevelExtensions.cs:16-30 | returns true if and only if the skill is priceable; the cost is then the quote, otherwise `long.MaxValue`; no state changes |
| `LevelExtensions.TryRaiseSkill` | AltLevels/LevelExtensions.cs:45-81 | on true, the skill was priced and affordable and the new state is the old one with the quote debited and the level incremented; on false, nothing changed |
| `LevelExtensions.IncrementWraps` | AltLevels/LevelExtensions.cs:69 | the stored `level + 1` is one more below `int.MaxValue`, wraps to `int.MinValue` at it, and is never equal to the old level |
| `LevelExtensions.RaiseSucceeded` | AltLevels/LevelExtensions.cs:54-70 | a successful raise had a quote no larger than the balance; the balance drops by exactly that quote and stays non-negative; the level goes up by one (without wrap-around); the skill table and every other skill's level are unchanged |
| `LevelExtensions.RaiseFailed` | AltLevels/LevelExtensions.cs:48-65 | a failed raise changes nothing; an unpriceable skill (absent or below Trained) or a quote above the balance always fails |
| `LevelExtensions.RaiseCommitsBoth` | AltLevels/LevelExtensions.cs:60-70 | a raise succeeded if and only if the skill's level moved; the balance drops by the quote on success and by nothing on failure |
| `LevelExtensions.RaiseAtMostOneLevel` | AltLevels/LevelExtensions.cs:47-70 | after one request, every declared skill's level is unchanged, except that the requested skill may go up by one step on success |
| `Host.Player.SpendXP` | AltLevels/LevelExtensions.cs:61 | the host debit, called only when the amount is at most the balance: on success exactly `amount` is subtracted; on failure nothing changes |
| `Host.Player.GetCreatureSkill` | AltLevels/LevelExtensions.cs:21 | returns the player's class for the skill, or nothing when the player has no record of it; no record is added |
| `SkillOrder.OrderBy` | AltLevels/PatchClass.cs:135 | the result is a permutation of the input, sorted by the key |
| `SkillOrder.OrderByMembers` | AltLevels/PatchClass.cs:135 | ordering keeps the same members and length; a duplicate-free input stays duplicate-free |
| `PatchClass.PreHandleActionRaiseSkill` | AltLevels/PatchClass.cs:96-106 | always returns false, so the host's raise logic never runs; the result and the state change are those of one `TryRaiseSkill`, whatever the requested amount |
| `PatchClass.PostGetInitLevel` | AltLevels/PatchClass.cs:110-115 | the patched value is congruent modulo 2^32 to the host's value plus the alternate level, and equals that sum when it does not overflow |
| `PatchClass.ListingRows` | AltLevels/PatchClass.cs:135-141 | a skill is listed if and only if it is in the input and priceable; each row carries the skill's current level and its quote |
| `PatchClass.ListingOrder` | AltLevels/PatchClass.cs:135-141 | the listing keeps the input order: a name-sorted input gives name-sorted rows, and a duplicate-free input gives no repeated skill |
| `PatchClass.HandleSkills` | AltLevels/PatchClass.cs:129-145 | the rows are the listing of the enumeration ordered by name; they hold exactly the priceable skills, in ascending name order, each with its level and quote, and each once when the enumeration has no repeated value |

## Left out

- Floating-point cost formulas: `Math.Pow` and `Convert.ToInt64` are abstracted. `CostCurve` holds three given functions from level to a non-negative `long`. For a negative level, the real formula gives NaN and the conversion throws; the model does not capture that.
- `Convert.ToInt64` throws when the price does not fit in a `long`. The model has no such overflow.
- The host's actual order is `OrderBy`'s default, culture-aware string comparer. `SkillOrder` uses ordinal, character-by-character order instead; the two differ only on case and culture-specific collation.
- `Host.Player.SpendXP`: the host's real debit is not modelled. Its success or failure is a nondeterministic choice.
- `AvailableExperience` is a nullable `long` in the host. The model takes it as always present. In C#, a null balance makes `cost > AvailableExperience` false.
- The player's skill table is taken to be fixed during a raise. The second `GetCreatureSkill` call in `TryRaiseSkill` only feeds the network update, and it is left out.
- Network and chat side effects are host messaging: the `GameMessagePrivateUpdateSkill` sends, the `SendMessage` texts, and the text and column formatting of the `skills` listing. `HandleSkills` returns the row values instead.
- The run-rate hook guarded by `PropertyManager.GetBool` is a host call with no effect on the ledger.
- The code commented out after `TryRaiseSkill` (total cost and purchasable counts) is dead.
- These are host and I/O plumbing: settings JSON load and save, file retries, mod start, shutdown and state transitions, and the Harmony attributes and runtime patching. The hooks are plain methods.
- The skill enumeration's values and names are not part of this model. `HandleSkills` takes them as parameters. The properties that depend on no duplicate values assume it, as the C# enumeration guarantees.
- Concurrency: the read, debit and write in a raise are not atomic in the host. The model treats each call as sequential.
