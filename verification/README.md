# Verified model of the game server's catalog and player-state logic

This project models, in Dafny, the parts of the Go server that decide what a player is shown, given and charged with:
condition tables, gacha draws, the mass weapon upgrade, gimmick ordering, threshold rewards, memoir sets, and the method
cache shared by concurrent requests. Each module follows one source file or one component of it, and states what that
component guarantees for every table, every user state, every random outcome, every map iteration order or every
interleaving.

Objects that the server updates in place are classes, arrays or Go slices with a backing array; loops are loops with
invariants; the pure tests are functions. A random number is any value of its range, and ranging over a Go map takes
some remaining key. Integers are mathematical; the one narrowing the logic depends on, `int64` to `int32` of condition
values, is written out (`Common.ToInt32`). Tables arrive as sequences of rows, and clocks and ids as parameters.

## What is proved, by module

- `Conditions`: the evaluator with its visiting set and depth cutoff accepts exactly the ids derivable in 33 levels of
  the AND/OR equations; derivable means in the least solution; the cutoff is harmless exactly for tables of at most 33
  conditions; on acyclic tables the answer is plain formula evaluation. `ConditionRows` says the same on the rows: what
  each kind of row asks of the user's stored fields.
- `HiddenStory`: the static collector, with one `seen` set for all roots and a cutoff at depth 16, described by a
  relation over every visiting order. It never gathers what is not asked for, and it gathers everything, cyclic tables
  included, exactly while tables have at most 17 conditions, or simple paths at most 17. `HiddenStoryRows`: the same
  promise on the rows of the tables.
- `HiddenStoryRequirements`: below that bound, clearing what was gathered satisfies a clear condition in the evaluator
  of `Conditions` exactly when it is solid, a truth table over the quests that the condition table asks about.
- `GachaRates`, `GachaDraw`: weighted selection is exact, rate adjustment never lowers the total, duplicates happen only
  in exhausted buckets, and guarantee slots hold under an exact condition on the pool. `GachaSlots`: the slots before
  them give exactly what a plain roll gives, after duplicate replacement.
- `GachaBox`: draws without replacement over any run of draws and resets, within every limit exactly when the ids of
  the materials differ.
- `GachaPity`, with `UserStore` for the mailbox and possession helpers: conservation over the medal exchange loop.
- `GachaPool`, `GachaFeatured`, `GachaOverride`: bucket invariants from load to banner pools, no shared storage, the
  featured sets of terms and shops, and overrides that depend neither on map order nor on how extra weapons were
  registered. `GachaPoolRows`, `GachaFeaturedRows` and `GachaOverrideRows` say item by item what the pools hold and
  feature, and `GachaUnpaired` exactly which banners some draw gives an unpaired costume from.
- `MassUpgradeState`, `MassUpgrade`, `MassUpgradeOrder`, `MassUpgradeRerun`, with `Evolution`, `EvolutionTables` and
  `Exp`: the states from which the order of the weapons makes no difference, exactly, and the same states for
  idempotence up to timestamps; evolution chains from their table rows; and levels equal to the server's.
  `MassUpgradeRows`: what any run stores, from the catalog's tables.
- `GimmickChains`, `GimmickSchedules`: shortest-path order of chains on any graph, an order-free choice of schedule, and
  a user's capped table of rows that fills in priority order and loses nothing between calls. `GimmickChainRows`
  and `GimmickRows` say it on the rows of the tables: what a chain lists, which schedules are chosen, in what order, and
  who gets rows for them.
- `Rewards`: incremental reward collection telescopes over whole runs.
- `Parts`: memoir sets are the maximal runs of consecutive group ids.
- `DiffInterceptor`: invariants of every interleaving of any number of requests, and which methods each run inspects.

## Where the code does less than its comments or name suggest

The model follows the code. Each of these gives an exact boundary and names a lemma with an input on its failing side.

- The collector's cutoff loses no requirement exactly for tables of at most 17 conditions
  (`HiddenStory.CompleteExactForSize`) or simple paths of at most 17 (`HiddenStory.CompleteExactForPaths`). A root close
  to a leaf does not save it: `seen` is shared, so another root may have marked what lies between
  (`HiddenStory.NearLeafIsLost`).
- Clearing what was gathered suffices for the solid clear conditions and no others
  (`HiddenStoryRequirements.RequirementsSuffice`); that is so for all tables exactly up to the same size
  (`HiddenStoryRequirements.SufficientExactForSize`, with the chain of 18 in
  `HiddenStoryRequirements.LongChainInsufficient`).
- The evaluator's cutoff rejects some derivable condition as soon as a table may have 34 conditions
  (`Conditions.CutoffExactForSize`, with the levels of a chain in `Conditions.ChainLevel`).
- A guaranteed slot can end below its minimum, over whole draws, exactly when a weapon bucket is empty and the rare one
  is not (`GachaDraw.GuaranteeExact`, `GachaDraw.FallbackSafeForWeapons`, with one rare weapon in
  `GachaDraw.GuaranteeBroken`).
- Box counts are kept by item id, so some draw of a fresh box exceeds a limit exactly when two of the materials used
  share an id, or one of fewer than five is the fallback item (`GachaBox.InLimitsIffMaterialsDiffer`, with one material
  in `GachaBox.FallbackItemOverdraws`); then every draw that empties the box does (`GachaBox.SharedIdOverdraws`).
- Posting the exchange mails to a full gift box drops the oldest other mails (`GachaPity.OtherMailsKept`, with a box of
  997 in `GachaPity.CrowdedBoxDropsOldest`), and a medal item that is a stamina item would be paid in gold
  (`GachaPity.DrainExactIffNotStamina`, `GachaPity.StaminaMedalIsGold`).
- The exclusion list of an overridden banner does not apply to registered extra weapons
  (`GachaOverride.ExcludedIffNotExtra`, with one weapon in `GachaOverride.ExcludedWeaponInPool`).
- Pruning runs before featured sets and banner pools are built, and yet some draw from a banner gives an unpaired costume
  exactly when the launch term, or a term that starts with a banner that is no chapter, lists one of rarity SR or SSR
  (`GachaUnpaired.UnpairedIffInTerms`, with one costume in `GachaUnpaired.UnpairedLaunchCostume`). The pruned catalog
  that draws fall back to gives none (`GachaUnpaired.PrunedCatalogIsPaired`).
- The order of the weapons in a mass upgrade can make a difference only to a story row that is missing, is forwarded to,
  and could also be unlocked with an index that is not positive and exceeds the forwarded ones
  (`MassUpgradeOrder.OrderMattersIffSensitive`, `MassUpgradeRerun.ConfluentIffOrderFree`, with two weapons in
  `MassUpgradeOrder.TwoOrdersDiffer`). From the same states a second run can change more than timestamps
  (`MassUpgradeRerun.IdempotentIffOrderFree`). With a level cap for every weapon there is no such row, negative story
  indices or not (`MassUpgradeOrder.CappedIsOrderFree`).
- The fast path of the diff interceptor skips a diff if a method's responses ever differ in carrying one
  (`DiffInterceptor.FastPathSoundIffUniform`, with two responses in `DiffInterceptor.MixedMethodMissesDiff`).

## Model

| member | source | states |
|---|---|---|
| Conditions.Evaluate | internal/masterdata/conditions.go:99-196 | The recursive evaluation restores the visiting set, accepts only ids derivable in the levels left at its depth, and rejects only ids with no derivation in those levels that avoids the ids being visited |
| Conditions.Satisfied | internal/masterdata/conditions.go:95-97 | True exactly for the ids derivable in 33 levels of the AND/OR equations, on any table, cyclic or not |
| Conditions.BlockedIsUnreached | internal/masterdata/conditions.go:103-140 | Pruning on an id being visited loses no shortest derivation |
| Conditions.DerivableIffSomeLevel | internal/masterdata/conditions.go:99-196 | Membership in the least set closed under the equations is derivability in some number of levels |
| Conditions.LevelsBoundedByTable | internal/masterdata/conditions.go:103-105 | A table of at most n conditions derives everything it can in n levels |
| Conditions.CutoffExactForSize | internal/masterdata/conditions.go:103-105 | The depth cutoff changes no answer exactly when tables have at most 33 conditions |
| Conditions.FormulaIsLevel | internal/masterdata/conditions.go:122-140 | On an acyclic table an id of rank below the level count is satisfied exactly when its formula is true, however sub-conditions are shared |
| Conditions.Load | internal/masterdata/conditions.go:40-92 | Conditions indexed by id, value groups complete and sorted by index, quest gates resolved, scene choices and their groupings indexed |
| Conditions.LoadScenes | internal/masterdata/conditions.go:72-84 | Both scene-choice loops leave the last row of each key |
| Conditions.LoadedSceneChoice | internal/masterdata/conditions.go:165-193 | On tables with unique keys a scene-choice condition holds exactly when the choice its values name is the one the user took in its grouping |
| Conditions.LoadedValueAt | internal/masterdata/conditions.go:63-71 | With unique indices a value lookup after loading finds exactly the value of the table row |
| Conditions.RequiredQuestDecides | internal/masterdata/conditions.go:54-62 | A quest-gate condition is satisfied exactly when the quest resolved for it at load time is cleared |
| ConditionRows.MissionClear | internal/masterdata/conditions.go:147-149 | On tables with unique keys a mission-clear row is satisfied exactly when the mission its group lists under index 1 has a stored status of at least 2 |
| ConditionRows.ClaimedMissionCounts | internal/masterdata/conditions.go:147-149 | A mission of status 9, its reward claimed, counts as cleared like one of status 2; status 0 or 1 does not |
| ConditionRows.PassedOn | internal/masterdata/conditions.go:123-149 | A condition whose group lists a mission-clear condition alone is satisfied with it, a claimed mission included |
| ConditionRows.QuestClear | internal/masterdata/conditions.go:141-143 | A quest-clear row is satisfied exactly when the quest listed has a stored state of 2 |
| ConditionRows.QuestNotClear | internal/masterdata/conditions.go:144-146 | A quest-not-clear row is satisfied exactly when a quest is listed and its state is missing or not 2 |
| ConditionRows.QuestMissionClear | internal/masterdata/conditions.go:150-153 | A quest-mission row is satisfied exactly when the quest mission listed under the indices 1 and 2 is stored as cleared |
| ConditionRows.WeaponAcquired | internal/masterdata/conditions.go:154-164 | A weapon row is satisfied exactly when some stored weapon has the id listed |
| ConditionRows.TutorialDone | internal/masterdata/conditions.go:165-168 | A tutorial row is satisfied exactly when the tutorial listed is stored |
| ConditionRows.SceneChosen | internal/masterdata/conditions.go:169-192 | A scene-choice row is satisfied exactly when the effect of the choice listed is the one stored for its grouping |
| ConditionRows.SomeSub | internal/masterdata/conditions.go:123-134 | An OR row is derived one level above some sub-condition that its group lists |
| ConditionRows.EverySub | internal/masterdata/conditions.go:135-140 | Any other recursion row is derived exactly when its group lists something and all of it is derived one level down |
| ConditionRows.OthersFail | internal/masterdata/conditions.go:100-109 | Id 0 is satisfied, and an id without a row, or with a row of any other function type, is not |
| ConditionRows.RequiredQuestIs | internal/masterdata/conditions.go:54-62 | The quest required of a condition is the one its group lists under index 1, on rows of both types 4 alone |
| HiddenStory.Collector.Resolve | internal/masterdata/hiddenstory.go:54-89 | The walk sees what some visiting order of the modelled walk sees, in one step per recursion level with the shared marks and the cutoff, and records exactly the requirements of the conditions seen |
| HiddenStory.Collector.ResolveGroup | internal/masterdata/hiddenstory.go:65-70 | The sub-conditions are walked one after the other, each once, in some order, one level deeper |
| HiddenStory.Collector.RecordLeaf | internal/masterdata/hiddenstory.go:71-83 | A leaf adds its mission or quest mission and nothing else |
| HiddenStory.CollectRequirements | internal/masterdata/hiddenstory.go:91-106 | The outcome is one of some visiting orders, every requirement in it is that of a leaf at most 16 steps below some root, and when no simple path below a root has more than 17 conditions every reachable requirement is in it |
| HiddenStory.LoadTables | internal/masterdata/hiddenstory.go:35-47 | The collector's indexes agree with the tables the evaluator loads |
| HiddenStory.SomeSeen | internal/masterdata/hiddenstory.go:49-106 | On every table and list of gimmicks the walk has an outcome, so what is claimed of all outcomes is not empty |
| HiddenStory.GathersOnlyNear | internal/masterdata/hiddenstory.go:54-57 | In every visiting order each requirement gathered is that of a leaf at most 16 steps below a hidden-story clear condition |
| HiddenStory.GathersAll | internal/masterdata/hiddenstory.go:54-106 | In every visiting order nothing is lost, cycles and shared conditions included, when no simple path below a root has more than 17 conditions |
| HiddenStory.CompleteExactForSize | internal/masterdata/hiddenstory.go:54-106 | Every requirement of every table is gathered in every visiting order exactly for tables of at most 17 conditions |
| HiddenStory.CompleteExactForPaths | internal/masterdata/hiddenstory.go:54-106 | The same with a bound on the simple paths below the clear conditions |
| HiddenStory.DeepLeafIsMissed | internal/masterdata/hiddenstory.go:54-57 | Below an AND-chain of n conditions every outcome has the leaf's mission exactly when n is at most 17, while up to 33 the evaluator asks for it |
| HiddenStory.NearLeafIsLost | internal/masterdata/hiddenstory.go:54-60 | With a second gimmick at condition k of the chain the leaf is gathered exactly when the chain has at most 17 conditions, or k lies beyond the first walk and within 16 steps of the leaf; being near is not enough |
| HiddenStoryRows.GatheredIsAsked | internal/masterdata/hiddenstory.go:49-106 | Each mission and quest mission gathered is asked for by a row of type 8 or 9 at most 16 rows below the clear condition of a gimmick of type 9 or 10; without such a gimmick nothing is gathered |
| HiddenStoryRows.AskedIsGathered | internal/masterdata/hiddenstory.go:49-106 | While no simple path below such a clear condition has more than 17 conditions, everything asked for below it is gathered |
| HiddenStoryRows.GatheredIffAsked | internal/masterdata/hiddenstory.go:49-106 | On tables of at most 17 condition rows exactly what is asked for below such clear conditions is gathered |
| HiddenStoryRows.OneGimmick | internal/masterdata/hiddenstory.go:91-96 | One gimmick whose condition asks for mission 1 gathers it when it is of type 9 or 10, and nothing otherwise |
| HiddenStoryRequirements.LoadedAgree | internal/masterdata/hiddenstory.go:35-47 | With unique indices the indexes the collector and the evaluator load from the same rows agree on every condition |
| HiddenStoryRequirements.ClearingDerives | internal/masterdata/hiddenstory.go:65-83 | A user who cleared the requirements below a condition that is solid under the quests the user cleared satisfies it in the evaluator's equations |
| HiddenStoryRequirements.SolidIsTruthTable | internal/masterdata/conditions.go:141-146 | Whether a condition is solid is decided by the finitely many quests its table asks about |
| HiddenStoryRequirements.RequirementsSuffice | internal/masterdata/hiddenstory.go:49-106 | Below the bound, in every visiting order, clearing what was gathered satisfies a clear condition in the evaluator exactly when it is solid |
| HiddenStoryRequirements.SufficientIsSolid | internal/masterdata/hiddenstory.go:49-106 | Whatever was gathered on whatever table, if all who cleared it satisfy a condition then the condition is solid |
| HiddenStoryRequirements.BothWaysHoldAnyway | internal/masterdata/conditions.go:141-146 | A disjunction of a quest being cleared and the same quest not being cleared is solid, and holds for every user with nothing gathered |
| HiddenStoryRequirements.CollectableIsSolid | internal/masterdata/hiddenstory.go:65-83 | Nested at most b deep, with only recursions and well-formed mission leaves below it, a condition is solid within b + 1 levels |
| HiddenStoryRequirements.NestedConditionsSuffice | internal/masterdata/hiddenstory.go:49-106 | Clear conditions nested at most 16 deep over such leaves, AND and OR alike, are all satisfied by clearing what was gathered |
| HiddenStoryRequirements.SufficientExactForSize | internal/masterdata/hiddenstory.go:49-106 | What is gathered suffices for the solid clear conditions and no others exactly for tables of at most 17 conditions |
| GachaRates.ScanIsShare | internal/gacha/draw.go:225-241 | A roll selects tier i exactly when it lies in the i-th share of the weights |
| GachaRates.ScanTotal | internal/gacha/draw.go:225-241 | No roll below the total falls through, and only positive weights are selected, negative ones among them or not |
| GachaRates.SelectionIsExact | internal/gacha/draw.go:225-241 | Of the rolls below the total exactly weight-many select each tier |
| GachaRates.SelectTier | internal/gacha/draw.go:226-234 | The cumulative scan selects the tier of the share the roll lies in |
| GachaRates.SelectGrade | internal/gacha/handler.go:460-467 | The subtractive scan selects the same index as the cumulative one, and its fall-through return is unreachable |
| GachaRates.RollDupGrade | internal/gacha/handler.go:454-467 | Of the hundred rolls 5 give dup-exchange grade 1, 10 grade 2, 20 grade 3, 30 grade 4 and 35 grade 5 |
| GachaRates.AdjustRates | internal/gacha/draw.go:193-223 | The adjusted table is the specified one, however the products are rounded, and the base table is never written |
| GachaRates.Boost | internal/gacha/draw.go:200-210 | The first pass raises SSR tiers in place and sums the extra and the other weight |
| GachaRates.Lower | internal/gacha/draw.go:212-220 | The second pass takes the extra from the other tiers in proportion, none below 1 |
| GachaRates.AdjustedTotal | internal/gacha/draw.go:193-223 | For any extras that are not negative, whatever the rounding, the total never falls, and while the extra is below the non-SSR weight it rises by less than the number of non-SSR tiers |
| GachaRates.AdjustedTier | internal/gacha/draw.go:213-221 | For any such extras every tier keeps a weight of at least 1, and no clamp fires while the extra is below the non-SSR weight |
| GachaRates.ExactMultiplier | internal/gacha/draw.go:203-206 | Without rounding a multiplier that is not negative takes no more than a weight has, and one of at least 1 takes nothing |
| GachaRates.AdjustedWeight | internal/gacha/draw.go:193-223 | A weight of rarity SSR or better rises by its own extra; any other loses its proportional share of all the extras, cut to an integer, but keeps at least 1; nothing else of a tier changes |
| GachaRates.DoubledPremium | internal/gacha/draw.go:32-38 | The premium rates, doubled: 200, 300, 500, 1000, 8000 become 400, 600, 474, 948, 7579; multipliers 1 and 0 change nothing |
| GachaRates.ExtraIsCut | internal/gacha/draw.go:203-206 | The extra of an unrounded product is the product cut toward zero |
| GachaDraw.PickFromPool | internal/gacha/draw.go:280-313 | The pick is from the bucket, from its fallback bucket when that is empty, or the phantom weapon |
| GachaDraw.TryFeaturedRateUp | internal/gacha/draw.go:243-263 | A rate-up gives only a featured item of the tier's type and rarity, and does so exactly for the 35 lowest of 100 chances when there is one |
| GachaDraw.RollOne | internal/gacha/draw.go:225-241 | A roll gives only what some tier of positive weight can give |
| GachaDraw.RollAtMinRarity | internal/gacha/draw.go:265-278 | A re-roll gives only what the tiers at or above the minimum can give, or a weapon pick when they weigh nothing |
| GachaDraw.DedupeHighRarity | internal/gacha/draw.go:88-140 | An SSR costume or weapon already marked is replaced by an unmarked one of its bucket if there is any, and what is handed out is marked |
| GachaDraw.DrawPremium | internal/gacha/draw.go:47-82 | For all rates that rand.Intn accepts the result is an outcome of slots of the modelled rolls, guaranteed at the end, for the player's sets, which stay unchanged, under any rounding of the multiplier; the first roll of a slot is what it gives, unless the slot is one of the last fixedCount and the roll misses the minimum, or the roll is an SSR item checked for duplicates |
| GachaDraw.PremiumRollable | internal/gacha/draw.go:47-53 | No multiplier that is not negative makes the premium rates panic, re-rolls at any minimum included |
| GachaDraw.MarksAreTaken | internal/gacha/draw.go:55-80 | At every slot the marks are the player's ids plus the SSR drops handed out so far |
| GachaDraw.NewOrExhausted | internal/gacha/draw.go:88-140 | An SSR costume or weapon repeats only when every id of its bucket is already owned or handed out |
| GachaDraw.NoDuplicates | internal/gacha/draw.go:88-140 | With as many unowned ids in a bucket as slots, all drops from it are unowned and pairwise distinct |
| GachaDraw.RerolledRarity | internal/gacha/draw.go:265-313 | A re-roll always meets the minimum exactly when no reachable empty bucket falls back below it |
| GachaDraw.GuaranteeCondition | internal/gacha/draw.go:69-80 | A guarantee slot meets its minimum for every outcome exactly under the fallback condition |
| GachaDraw.GuaranteeKept | internal/gacha/draw.go:47-140 | The last fixedCount items meet the minimum, duplicate replacement included |
| GachaDraw.GuaranteeExact | internal/gacha/draw.go:47-140 | Over whole draws of any size and for any player, all guaranteed items meet the minimum exactly under the fallback condition |
| GachaDraw.GuaranteeBroken | internal/gacha/draw.go:265-313 | A pool of one rare weapon: a draw of one guaranteed SR slot gives that weapon |
| GachaDraw.FallbackSafeForWeapons | internal/gacha/draw.go:299-302 | For SR and SSR minimums the condition is that the weapon buckets at or above the minimum are filled, or the rare one is empty |
| GachaSlots.CanRollIs | internal/gacha/draw.go:225-313 | What a roll gives, on the pool's own maps: for a tier of positive weight a featured item of its type and rarity, or an item of its bucket, of the SSR costume or rare weapon bucket when that is empty, or weapon 0; only costumes and featured items keep a character |
| GachaSlots.PlainSlot | internal/gacha/draw.go:69-80 | For a player not checked for duplicates every slot before the last fixedCount gives what a plain roll gives |
| GachaSlots.PlainSlotGiven | internal/gacha/draw.go:69-140 | For any other player it gives what a plain roll becomes: an SSR costume or weapon that is owned or was drawn before gives way to one of its bucket that is neither, if there is one |
| GachaSlots.PlainItemOccurs | internal/gacha/draw.go:47-82 | Whatever a plain roll gives below SSR, every such slot gives in some draw of any size, for any player and minimum |
| GachaSlots.RareWeaponFirst | internal/gacha/draw.go:69-80 | A ten-draw with one SR guarantee gives any weapon of the rare bucket in its first slot, in some draw |
| GachaBox.Tickets | internal/gacha/draw.go:142-149 | The ticket list has exactly as many copies of an index as remain of its item |
| GachaBox.DrawTicket | internal/gacha/draw.go:152-163 | One draw uses one ticket and counts it against its item |
| GachaBox.DrawBox | internal/gacha/draw.go:142-165 | Draws are without replacement, give min(count, remaining) items, and raise the counts by exactly what was drawn |
| GachaBox.BuildBoxPool | internal/gacha/handler.go:370-394 | The first 50 materials, with a fallback item below five |
| GachaBox.BoxPoolIs | internal/gacha/handler.go:370-394 | Each of the first 50 materials ten times, and below five materials twenty of material 100001 as well |
| GachaBox.DrawRestored | internal/gacha/handler.go:351-359 | What is drawn is some sequence of draws without replacement from the restored box, as long as asked for or as much as is left |
| GachaBox.DrawnHasLeft | internal/gacha/draw.go:142-165 | Everything drawn is an item of the pool whose stored count is below its maximum, without a character |
| GachaBox.DrawFromBox | internal/gacha/handler.go:351-368 | Any draw is such an outcome and adds itself to the stored counts; with distinct ids these stay the multiset drawn, within every limit, and the draw gives what is asked for or left |
| GachaBox.SpreadOverPool | internal/gacha/handler.go:351-368 | What remains in the restored box is its capacity less all that was drawn |
| GachaBox.SharedIdOverdraws | internal/gacha/handler.go:351-394 | With a repeated id, every draw that empties a fresh box draws that id beyond its limit |
| GachaBox.InLimitsIffDistinct | internal/gacha/handler.go:351-394 | From a fresh box every draw stays within every limit exactly when the ids of the pool are distinct |
| GachaBox.InLimitsIffMaterialsDiffer | internal/gacha/handler.go:351-394 | For a banner that is: exactly when the first 50 materials have different ids and, below five, none is the fallback item |
| GachaBox.FallbackItemOverdraws | internal/gacha/handler.go:370-394 | With the fallback item as the only material some draw exceeds its limit |
| GachaBox.BoxBanner.constructor | internal/gacha/handler.go:370-394 | A fresh banner has drawn nothing |
| GachaBox.BoxBanner.Draw | internal/gacha/handler.go:351-368 | After any run of draws and resets a draw gives what is asked for or left, and the counts stay the multiset drawn since the last reset |
| GachaBox.BoxBanner.Reset | internal/gacha/handler.go:239-248 | A reset empties the tally and counts the box up |
| UserStore.AddGift | internal/store/helpers.go:474-483 | Posting keeps the newest mails up to the cap and the badge in sync |
| UserStore.AddGiftsOrdered | internal/store/helpers.go:490-501 | Mails posted together are stamped 1 ms apart and kept newest up to the cap |
| UserStore.ConsolidateGifts | internal/store/helpers.go:508-521 | Removes exactly the mails of the keys, returns their summed counts, keeps the rest in order |
| UserStore.GrantConsumable | internal/store/helpers.go:123-139 | Medal variants go to the base medal, stamina items become gold, others are added |
| UserStore.GrantArrives | internal/store/helpers.go:82-139 | Medals 53 and 54 arrive as medal 22, medals 63 to 65 as medal 29, items 3001 to 3003 as 120 gold each, everything else as itself; no other balance moves |
| GachaPity.ExchangeMails | internal/gacha/handler.go:144-182 | One pass folds the stale mails of the payout items into three new mails |
| GachaPity.DrainMedals | internal/gacha/handler.go:127-137 | Up to a hundred medals go, never more than the balance |
| GachaPity.SettleMedals | internal/gacha/handler.go:107-188 | The loop makes one exchange per full hundred, ends with the counter at the remainder, and leaves mailbox and medal item as that many exchanges leave them |
| GachaPity.PayoutsConserved | internal/gacha/handler.go:124-183 | Each payout item's gift-box total rises by exactly one payout per exchange, in exactly one mail |
| GachaPity.PityPays | internal/gacha/handler.go:144-182 | n exchanges pay 1000n of (11, 0), 100n of (6, 9001) and 10n of (6, 242) |
| GachaPity.PityMailsLast | internal/gacha/handler.go:144-182 | The three mails stand at the end of the box, stamped 1 ms apart, and last thirty days |
| GachaPity.ExchangesAre | internal/gacha/handler.go:124-126 | Every full hundred of the counter is one exchange |
| GachaPity.OtherMailsKept | internal/gacha/handler.go:144-182 | The other mails survive, in order, exactly when there are at most 996 of them, so that the new ones fit within the cap of 999 |
| GachaPity.CrowdedBoxDropsOldest | internal/gacha/handler.go:144-182 | One exchange posts to a box of 997 other mails and its oldest mail is gone |
| GachaPity.DrainedBalance | internal/gacha/handler.go:127-137 | n drains take min(balance, 100n) of the medal item and touch nothing else |
| GachaPity.DrainExactIffNotStamina | internal/gacha/handler.go:112-137 | The medal item ends at its balance plus the bonus less a hundred per exchange, exactly when it is no stamina item |
| GachaPity.StaminaMedalIsGold | internal/store/helpers.go:123-139 | With stamina item 3001 as the medal a bonus of one is 120 gold |
| GachaPity.NothingSettled | internal/gacha/handler.go:112-137 | Without a medal item no balance moves, nor on a draw of nothing that exchanges nothing |
| GachaPity.NothingDrained | internal/gacha/handler.go:127-137 | No exchange touches a balance that is not positive |
| GachaPity.CounterAndItemInStep | internal/gacha/handler.go:112-137 | A counter equal to the medal item before a draw is equal after it |
| GachaPool.Append | internal/masterdata/gacha_pool.go:446-457 | An append, in place or to a grown array, adds the item and leaves the earlier slice's items as they were |
| GachaPool.PruneSlice | internal/masterdata/gacha_pool.go:333-338 | The in-place filter leaves exactly the paired items, in order, in the same array |
| GachaPool.PairedHolds | internal/masterdata/gacha_pool.go:334-338 | Filtering keeps every paired item as often as it occurs and no other |
| GachaPool.PruneAll | internal/masterdata/gacha_pool.go:332-340 | Every bucket is filtered, whatever order the map is visited in, with no new arrays |
| GachaPool.BucketedByRarity | internal/masterdata/gacha_pool.go:200-230 | A bucket holds exactly the items of its rarity, in order |
| GachaPool.CloneRarityMap | internal/masterdata/gacha_pool.go:470-476 | A clone has the same items in fresh arrays, one for each bucket |
| GachaPool.LoadCostumes | internal/masterdata/gacha_pool.go:182-202 | Buckets and id index hold exactly the eligible costumes |
| GachaPool.LoadWeapons | internal/masterdata/gacha_pool.go:204-231 | The id index holds the eligible weapons, the buckets those that can be discarded |
| GachaPool.LoadStandard | internal/masterdata/gacha_pool.go:234-263 | The standard pool holds the launch term's catalog items, restricted weapons left out |
| GachaPool.ByIdHolds | internal/masterdata/gacha_pool.go:201-221 | The id index is keyed by the items' own ids and holds nothing else |
| GachaPool.FeatureCostume | internal/masterdata/gacha_pool.go:446-455 | A featured costume joins its bucket and its paired weapon joins that weapon's |
| GachaPool.BuildBanner | internal/masterdata/gacha_pool.go:441-465 | A banner pool is the standard pool with its featured items appended, in arrays of its own; nothing that exists is written |
| GachaPool.NothingShared | internal/masterdata/gacha_pool.go:436-476 | Two buckets of any banners share an array only if they are the same bucket |
| GachaPool.AddingKeepsBuckets | internal/masterdata/gacha_pool.go:446-457 | Appending keeps buckets to one rarity and type, and puts each item where it can be drawn |
| GachaPool.PruningKeepsBuckets | internal/masterdata/gacha_pool.go:332-340 | Pruning keeps buckets to one rarity |
| GachaPool.BannersAreWellFormed | internal/masterdata/gacha_pool.go:436-468 | A banner pool is well formed and everything it features lies in its bucket |
| GachaPool.LoadedBannersAreWellFormed | internal/masterdata/gacha_pool.go:182-468 | From any tables, loading and building gives well-formed banner pools that hold what they feature |
| GachaPoolRows.LoadedBuckets | internal/masterdata/gacha_pool.go:178-231 | Each costume bucket holds exactly the rows of its rarity, SR or better, that the catalog lists and no quest grants; each weapon bucket those that nothing evolves into and that can be discarded |
| GachaPoolRows.LoadedIndexes | internal/masterdata/gacha_pool.go:178-231 | The costume index holds the same rows, the weapon index also those that cannot be discarded |
| GachaPoolRows.StandardBuckets | internal/masterdata/gacha_pool.go:234-263 | Each standard bucket holds exactly the launch term's items of its rarity among those rows, weapons that cannot be discarded left out |
| GachaPoolRows.BannerHolds | internal/masterdata/gacha_pool.go:436-468 | A banner holds and features exactly its featured costumes and weapons and the weapons paired with those costumes, beside the standard pool |
| GachaPool.Catalog.constructor | internal/masterdata/gacha_pool.go:154-276 | Loading gives the catalog both bucket maps, both id indexes, the standard pool and the pairings, with no array shared among its maps |
| GachaPool.Catalog.PruneUnpairedCostumes | internal/masterdata/gacha_pool.go:324-342 | Exactly the paired costumes stay, in order; weapons and the standard pool are untouched |
| GachaPool.Catalog.BuildFeatured | internal/masterdata/gacha_pool.go:348-378 | The featured sets are those of the terms and shops over the index the catalog has at the time, pruned or not |
| GachaFeatured.UnionTermFeatured | internal/masterdata/gacha_pool.go:380-408 | The items of all terms but the standard one, SR and above, each id once at its first place |
| GachaFeatured.FeaturedFromShop | internal/masterdata/gacha_pool.go:410-434 | The costumes the index sells, each once, and the weapons that come with none of them |
| GachaFeatured.BuildFeaturedFromTerms | internal/masterdata/gacha_pool.go:348-378 | Each banner that is no chapter gets the items of its terms or else of its shop, sorted; of entries with one id the last that has any counts |
| GachaFeatured.ChosenDiffer | internal/masterdata/gacha_pool.go:380-434 | Nothing is featured twice |
| GachaFeatured.FeaturedIsUnique | internal/masterdata/gacha_pool.go:371-374 | The sort, though not stable, leaves one possible set |
| GachaFeaturedRows.TermsAreFeatured | internal/masterdata/gacha_pool.go:348-408 | While terms that start with the banner, term 1 left out, list items of rarity SR or better, each such id is featured and nothing else |
| GachaFeaturedRows.ShopIsFeatured | internal/masterdata/gacha_pool.go:357-434 | Otherwise the catalogued SR costumes that the shop of the banner's medal sells are featured, and the weapons it sells other than those in the first row of such a costume |
| GachaFeaturedRows.FeaturedOfLast | internal/masterdata/gacha_pool.go:348-379 | A banner has a featured set exactly when some entry of its id is no chapter and has something to feature, and it is that of the last such entry |
| GachaFeaturedRows.FeaturedByIds | internal/masterdata/gacha_pool.go:371-372 | Featured items are listed by id |
| GachaUnpaired.ResolvedCatalogued | internal/masterdata/gacha_pool.go:234-252 | The items a term is given are those of the catalog index |
| GachaUnpaired.ChosenUnpaired | internal/masterdata/gacha_pool.go:356-434 | A featured set has an unpaired SR or SSR costume exactly when the terms list one; the shop gives paired ones only |
| GachaUnpaired.BuiltFeatures | internal/masterdata/gacha_pool.go:348-378 | With no gacha id repeated every entry finds its own featured set, and a chapter none |
| GachaUnpaired.SlotInDrawable | internal/gacha/draw.go:88-140 | A costume that any slot gives, re-rolled or replaced, lies in an SR or SSR bucket |
| GachaUnpaired.DrawsWhatItHas | internal/gacha/draw.go:34-82 | Some draw gives some player an unpaired costume exactly when an SR or SSR bucket holds one |
| GachaUnpaired.UnpairedIffLaunchOrFeatured | internal/runtime/build.go:112-114 | For any featured set of catalog items, some draw from a banner built after pruning gives an unpaired costume exactly when the launch term or the set has one of rarity SR or SSR |
| GachaUnpaired.UnpairedIffInTerms | internal/runtime/build.go:111-114 | With featured sets built after pruning as the server does, exactly when the launch term or, for a banner that is no chapter, a term starting with it lists one of rarity SR or SSR |
| GachaUnpaired.UnpairedLaunchCostume | internal/runtime/build.go:112-114 | With nothing featured, one launch costume without a pairing is drawn exactly when it is SR or SSR, not when it is rarer |
| GachaUnpaired.PrunedCatalogIsPaired | internal/gacha/handler.go:305-308 | No draw from the catalog buckets that a banner without a pool falls back to gives an unpaired costume, once pruned |
| GachaPool.Catalog.BuildBannerPools | internal/masterdata/gacha_pool.go:436-468 | One pool for each entry, sharing no array with the catalog or with each other |
| GachaOverride.CollectCostumes | internal/masterdata/gacha_pool.go:499-505 | The buckets hold the group's costumes once each, and the allowed types are those they are skilled with |
| GachaOverride.CollectRegular | internal/masterdata/gacha_pool.go:506-514 | The buckets hold exactly the weapons not excluded or restricted whose type is allowed |
| GachaOverride.CollectExtras | internal/masterdata/gacha_pool.go:519-546 | Registered extras join once each, if not present, not evolved, known and wieldable |
| GachaOverride.SortRarityMap | internal/masterdata/gacha_pool.go:617-624 | Every bucket is sorted by id, and the count is zero exactly when all are empty |
| GachaOverride.FlattenRarityMap | internal/masterdata/gacha_pool.go:626-637 | The flattening lists the items once each by rarity and then id |
| GachaOverride.FlatteningIsUnique | internal/masterdata/gacha_pool.go:626-637 | Items with distinct ids have one flattening |
| GachaOverride.Banners.OverrideBannerForCharacters | internal/masterdata/gacha_pool.go:490-576 | One banner's pool and featured set become those of the group, or nothing changes when either side is empty |
| GachaOverride.OverrideIsOrderFree | internal/masterdata/gacha_pool.go:490-576 | The outcome does not depend on the order the maps are visited in |
| GachaOverride.OverrideIsSound | internal/masterdata/gacha_pool.go:490-576 | An overridden pool is well formed and features every item once |
| GachaOverride.EveryWeaponIsWielded | internal/masterdata/gacha_pool.go:506-546 | Each weapon of the pool can be wielded by a costume in it |
| GachaOverride.ExcludedIffNotExtra | internal/masterdata/gacha_pool.go:506-570 | The pool an override leaves holds an excluded weapon exactly when it is a registered extra, not evolved, that some costume of the pool can wield |
| GachaOverride.ExcludedWeaponInPool | internal/masterdata/gacha_pool.go:506-570 | One weapon both excluded and registered: the override leaves it in the pool |
| GachaOverrideRows.OverriddenPool | internal/masterdata/gacha_pool.go:490-570 | An overridden pool holds, by rarity, exactly the catalogued costumes of the characters that are not excluded, the weapons of a type one of them wields that are neither excluded nor restricted, and the registered ones of such a type that nothing evolves into; all are featured |
| GachaOverrideRows.OverriddenOrder | internal/masterdata/gacha_pool.go:549-567 | Featured costumes come before featured weapons, each by rarity and then by id |
| GachaOverride.Banners.AddExtraGachaWeapons | internal/masterdata/gacha_pool.go:592-599 | Every banner named gets the weapons appended, as often as it is named, and no other banner changes |
| GachaOverride.AfterCallsHolds | internal/masterdata/gacha_pool.go:592-599 | After any run of registrations a banner has exactly the extra weapons that some call asked for it |
| GachaOverride.RegistrationIsASet | internal/masterdata/gacha_pool.go:490-599 | Two runs of registrations that ask for the same weapons, in whatever order and however often, give the banner the same pool and featured set |
| Evolution.WalkToEnd | cmd/lunar-base-grant/mass_upgrades.go:173-181 | On a chain that ends, the walk finds its end |
| Evolution.FinalIsFixed | cmd/lunar-base-grant/mass_upgrades.go:173-181 | Walking again from the end stays there |
| Evolution.AllEndIffAcyclic | cmd/lunar-base-grant/mass_upgrades.go:175-181 | Every walk ends exactly when the successor map has no cycle |
| Evolution.LoadEvolution | internal/masterdata/weapon.go:232-241 | Sorted groups that list no weapon twice give each its place and successor, and no cycle |
| EvolutionTables.GroupRows | internal/masterdata/weapon.go:228-231 | Every group has its rows, in table order |
| EvolutionTables.SortGroups | internal/masterdata/weapon.go:232-235 | Every group is sorted by evolution order, whatever order the groups come in |
| EvolutionTables.LoadEvolutionRows | internal/masterdata/weapon.go:228-241 | From rows that list no weapon twice the successor map has no cycle, and without ties it holds exactly the next row of each group |
| Exp.LevelAndCap | internal/gameutil/exp.go:6-19 | The loop computes the specified level and capped experience |
| Exp.ApplyExpWithMaxLevel | internal/gameutil/exp.go:25-32 | The loop's result under a per-instance cap |
| Exp.GreatestReached | internal/gameutil/exp.go:6-19 | The level is the greatest one whose threshold is reached, else 1 |
| Exp.LevelMonotone | internal/gameutil/exp.go:6-19 | More experience never lowers level or capped experience |
| Exp.CappedExpKeepsLevel | internal/gameutil/exp.go:6-19 | Storing the capped experience and computing again changes nothing |
| Exp.AppliedIsCappedAndIdempotent | internal/gameutil/exp.go:25-32 | A positive cap is never exceeded, and applying it again changes nothing |
| Exp.MassLevelIsServerLevel | cmd/lunar-base-grant/mass_upgrades.go:230-242 | The mass upgrade stores, for weapons and likewise for costumes (lines 483-495), what the server computes from the last threshold under the same cap |
| MassUpgrade.RebuildRows | cmd/lunar-base-grant/mass_upgrades.go:292-305 | The loop keeps the first occurrence of each slot |
| MassUpgradeState.RowsCoverSlots | cmd/lunar-base-grant/mass_upgrades.go:283-329 | Every slot of the group gets exactly one row at the maximal level |
| MassUpgrade.GrantWeaponStoryUnlock | internal/store/helpers.go:819-844 | A story row is raised to the index if that is an increase and the weapon is owned |
| MassUpgrade.UnlockStories | cmd/lunar-base-grant/mass_upgrades.go:337-372 | The story row gains exactly the indices of the release conditions the upgraded weapon meets |
| MassUpgrade.ForwardStory | cmd/lunar-base-grant/mass_upgrades.go:182-194 | The old id's story index, of whatever sign, is handed on to the final id, creating or raising its row |
| MassUpgrade.UpdateNote | cmd/lunar-base-grant/mass_upgrades.go:253-265 | The note keeps the highest level reported |
| MassUpgrade.MaxWeapon | cmd/lunar-base-grant/mass_upgrades.go:203-242 | The weapon gets the final id, limit break, level and experience of its cap |
| MassUpgrade.UpgradeWeapon | cmd/lunar-base-grant/mass_upgrades.go:168-274 | One more weapon of any state reached so far is added at the end of the visiting order |
| MassUpgrade.UpgradeAllWeapons | cmd/lunar-base-grant/mass_upgrades.go:165-276 | On every state the result is that of some visiting order, on order-free states it is described by the set of weapons alone, and the count is that of the weapons with a master row |
| MassUpgradeState.CommuteExactly | cmd/lunar-base-grant/mass_upgrades.go:184-193 | Forwarding index j and unlocking index g commute on every row exactly when g is positive or no greater than j |
| MassUpgradeOrder.OrderMattersIffSensitive | cmd/lunar-base-grant/mass_upgrades.go:165-276 | All visiting orders leave the same story rows exactly when no missing row is forwarded to and can drop an unlocked index that is not positive |
| MassUpgradeOrder.TwoOrdersDiffer | cmd/lunar-base-grant/mass_upgrades.go:165-276 | Two weapons, a negative stored index and a story of index 0: the two orders leave different rows |
| MassUpgradeOrder.CappedIsOrderFree | cmd/lunar-base-grant/mass_upgrades.go:222-242 | With a level cap for every weapon the order makes no difference to any state, negative story indices included |
| MassUpgradeRerun.SomeRun | cmd/lunar-base-grant/mass_upgrades.go:165-276 | A run can visit the weapons in every order: each order has a result |
| MassUpgradeRerun.Confluent | cmd/lunar-base-grant/mass_upgrades.go:165-276 | Whatever order the weapons came in, everything but the story rows is the same, and in an order-free state those too |
| MassUpgradeRerun.ConfluentIffOrderFree | cmd/lunar-base-grant/mass_upgrades.go:165-276 | The whole upgrade has a single result exactly from the order-free states |
| MassUpgradeRerun.NextRunIsOrderFree | cmd/lunar-base-grant/mass_upgrades.go:165-276 | After a run in any order the order of the next run makes no difference |
| MassUpgradeRerun.Idempotent | cmd/lunar-base-grant/mass_upgrades.go:165-276 | From an order-free state a second run, in any order, changes nothing but the timestamps of upgraded weapons and of the notes they report to, a note of id 0 included |
| MassUpgradeRerun.SecondRunRaises | cmd/lunar-base-grant/mass_upgrades.go:165-276 | From any other state some visiting order, which has results, leaves story rows that every second run changes |
| MassUpgradeRerun.IdempotentIffOrderFree | cmd/lunar-base-grant/mass_upgrades.go:165-276 | Second runs move timestamps only, whatever the two orders, exactly from the order-free states |
| MassUpgrade.UpgradedAsServer | cmd/lunar-base-grant/mass_upgrades.go:222-242 | Level and experience stored are what the server's cap computation gives, within the cap |
| MassUpgradeRows.StoredLevel | cmd/lunar-base-grant/mass_upgrades.go:165-276 | After any run an owned weapon whose chain ends at a master row has that id, four limit breaks, and the smaller of the greatest level of its experience table and its cap, with that threshold; the cap is f(4), plus the awakening increase when the id is listed |
| MassUpgradeRows.RefinedReachesHundred | cmd/lunar-base-grant/mass_upgrades.go:217-242 | With f(4) of 90 a weapon listed for an awakening of 10 ends at level 100, one not listed at 90 |
| MassUpgradeRows.UnlistedIsLeft | cmd/lunar-base-grant/mass_upgrades.go:196-201 | A weapon whose chain ends without a master row keeps its row and the rows keyed by it |
| MassUpgradeRows.StoredSkills | cmd/lunar-base-grant/mass_upgrades.go:283-306 | Its skills are every slot of its group once, at f(4) or 15; without slots they stay |
| MassUpgradeRows.StoredAbilities | cmd/lunar-base-grant/mass_upgrades.go:308-331 | The same for its abilities |
| MassUpgradeRows.StoredAwakening | cmd/lunar-base-grant/mass_upgrades.go:206-215 | A listed weapon is awakened now or stays awakened since it was, and no other row appears |
| MassUpgradeRows.StoredNote | cmd/lunar-base-grant/mass_upgrades.go:250-265 | The note of the id has the highest level of the weapons that became it and of the note before |
| MassUpgradeRows.ReleasedIsUnlocked | cmd/lunar-base-grant/mass_upgrades.go:337-372 | Every story of positive index whose condition, by its type 1 to 5, the stored level or the evolution meets is unlocked after any run |
| MassUpgradeRows.StoriesAreKept | cmd/lunar-base-grant/mass_upgrades.go:174-194 | The story of an earlier id is handed on to the id the weapon became, and no story row falls |
| MassUpgradeRows.ChangedStoryIsEarned | cmd/lunar-base-grant/mass_upgrades.go:174-274 | A story row that changed carries an index handed on to it or released by a weapon that became its id |
| GimmickChains.LoadIndex | internal/masterdata/gimmick.go:565-572 | Group members in table order, and the last row of each sequence |
| GimmickChains.Expand | internal/masterdata/gimmick.go:579-592 | Taking one sequence off the queue keeps the walk's frontier invariant |
| GimmickChains.Chain | internal/masterdata/gimmick.go:575-595 | The walk ends on any graph; the chain starts with its sequence, repeats none, holds exactly the reachable ones, nearest first |
| GimmickChains.WalkedIsShortest | internal/masterdata/gimmick.go:575-595 | The depth at which the walk finds a sequence is its distance |
| GimmickChains.ChainsNest | internal/masterdata/gimmick.go:574-596 | The chain of a member of a chain lies within it |
| GimmickChains.LoadChains | internal/masterdata/gimmick.go:553-597 | Every sequence has its chain |
| GimmickChainRows.ChainLists | internal/masterdata/gimmick.go:553-597 | With unique sequence ids a chain starts with its sequence and lists, once each, exactly the sequences that rows lead to, a row leading to the members of the next group it names, 0 naming none |
| GimmickChainRows.ChainIsNearestFirst | internal/masterdata/gimmick.go:574-596 | Nothing in a chain stands behind something that takes more rows to reach |
| GimmickSchedules.PickSchedules | internal/masterdata/gimmick.go:160-190 | For each sequence an entry of one of its rows that no other row beats by (expired, start, id) |
| GimmickSchedules.PickIsOrderFree | internal/masterdata/gimmick.go:160-190 | With unique ids every permutation of the rows gives the same choice |
| GimmickSchedules.Prioritise | internal/masterdata/gimmick.go:192-210 | The chosen entries, once each, in (rank, schedule id) order |
| GimmickSchedules.HiddenFillFirst | internal/service/gimmick.go:212-220 | While an active hidden story is left without a row, the table is full and every row added is a hidden story's |
| GimmickSchedules.ActiveScheduleKeys | internal/masterdata/gimmick.go:456-474 | The loop lists the keys of the started schedules that are hidden, ungated or unlocked |
| GimmickSchedules.ActiveKeysOrdered | internal/masterdata/gimmick.go:456-474 | The active keys are a subsequence of the priority order |
| GimmickSchedules.ActiveKeysDistinct | internal/masterdata/gimmick.go:456-474 | The active keys repeat nothing |
| GimmickSchedules.ActiveKeysGrow | internal/masterdata/gimmick.go:456-474 | As time advances and quests are cleared the list only grows, in the same order |
| GimmickSchedules.ActiveIffReleased | internal/masterdata/gimmick.go:171-175 | A gated, started, visible schedule is active exactly when the evaluator finds its release condition satisfied |
| GimmickRows.PickedIsBest | internal/masterdata/gimmick.go:160-190 | Each sequence that occurs keeps the entry of a row that none of its sequence beats: running beats expired, then the earlier start, then the lower id |
| GimmickRows.EntryIs | internal/masterdata/gimmick.go:42-62 | An entry has its row's fields, is hidden exactly for types 9 and 10, has the priority of its type by number, and asks for the quest the resolver requires |
| GimmickRows.ListedByPriority | internal/masterdata/gimmick.go:192-210 | The list is by priority of the types, and by schedule id within one |
| GimmickRows.ActiveByRows | internal/masterdata/gimmick.go:456-474 | A key is active exactly as that of an unbeaten row that has started and is a hidden story, or requires no quest, or one the user has in state 2 |
| GimmickSchedules.UserGimmicks.InitSequenceSchedule | internal/service/gimmick.go:188-226 | Rows neither active nor cleared go, then each missing active key gets a new row in priority order until the cap |
| GimmickSchedules.Prune | internal/service/gimmick.go:198-207 | Deleting while ranging over the map keeps exactly the rows that are active or cleared |
| GimmickSchedules.FilledHolds | internal/service/gimmick.go:209-218 | Filling changes no row, adds new rows for active keys only, never beyond the cap, and stops short of one only at the cap |
| GimmickSchedules.InitialisingTwice | internal/service/gimmick.go:188-226 | A second call with the same active keys changes nothing |
| GimmickSchedules.NothingIsDropped | internal/service/gimmick.go:188-226 | As time advances and quests are cleared a later call drops and changes no row, and a cleared row is always kept |
| GimmickRows.RowsAfterInit | internal/service/gimmick.go:188-226 | A call keeps a row exactly when it is active or cleared, adds new ones for active keys alone, and leaves an active key without a row only at 1000 rows |
| Rewards.CollectTiers | internal/masterdata/bighunt.go:109-118 | The rewards of the tiers above the old maximum and up to the new one |
| Rewards.TierPays | internal/masterdata/bighunt.go:109-118 | A tier pays its rewards exactly when its threshold lies above the old score and not above the new one |
| Rewards.TiersPayInOrder | internal/masterdata/bighunt.go:109-118 | Tiers pay one after the other, however the table is split |
| Rewards.CollectedSplits | internal/masterdata/bighunt.go:109-118 | Collecting in two steps is collecting once |
| Rewards.RunTelescopes | internal/masterdata/bighunt.go:109-118 | Over any run of non-decreasing maxima no tier is paid twice and none is lost |
| Rewards.PrefixIsReached | internal/masterdata/bighunt.go:128-135 | On sorted thresholds the scan with its break covers exactly the tiers reached |
| Rewards.CollectHighestReward | internal/masterdata/bighunt.go:124-140 | The reward of the last tier reached and of no other |
| Rewards.CollectAccumulationRewards | internal/masterdata/labyrinth.go:43-55 | The rewards of the tiers passed and the highest threshold among them |
| Rewards.NothingAboveHighest | internal/masterdata/labyrinth.go:43-55 | The highest threshold returned is a tier's, and up to the target none lies above it |
| Rewards.StageRecord.Receive | internal/service/labyrinth.go:44-66 | A request pays the tiers passed and records the highest, or changes nothing |
| Rewards.RequestsPayOnce | internal/service/labyrinth.go:44-66 | Whatever targets a client sends, in any order, everything paid is one collection up to the largest |
| Parts.SplitSeries | internal/masterdata/parts.go:106-117 | Each id of a sorted series is mapped to the run of consecutive ids through it, and other series keep their sets |
| Parts.RunIsMaximal | internal/masterdata/parts.go:107-116 | On distinct ids a run holds exactly what is linked to its members by consecutive ids |
| Parts.LoadMemoirSets | internal/masterdata/parts.go:99-117 | With unique group ids each group has as memoir set exactly the ids of its series linked to it, whatever order the series are visited in |
| Parts.MembersShareTheirSet | internal/masterdata/parts.go:109-114 | All members of a memoir set have that same set |
| DiffInterceptor.StepKeepsInvariant | internal/interceptor/diff.go:35-106 | Each atomic step of any request keeps: known methods have a verdict, field and method verdicts come from real response types |
| DiffInterceptor.EveryRunKeepsInvariant | internal/interceptor/diff.go:55-142 | Every interleaving of any number of requests keeps the invariant |
| DiffInterceptor.AssertionSafeIffVerdictFirst | internal/interceptor/diff.go:67-68 | The type assertion never fails exactly because the verdict is stored before the mark |
| DiffInterceptor.FastPathSoundIffUniform | internal/interceptor/diff.go:65-71 | The fast path skips only responses without such a field exactly when each method is consistent about carrying one |
| DiffInterceptor.MixedMethodMissesDiff | internal/interceptor/diff.go:65-71 | With two responses, one with a diff and one without, some run skips a diff |
| DiffInterceptor.InspectedByItsType | internal/interceptor/diff.go:35-48 | An inspected response is found to carry a diff exactly when it is a struct, or one pointer to a struct, with a field DiffUserData of the map type, cached or not |
| DiffInterceptor.HasDiffIs | internal/interceptor/diff.go:40-46 | The reflection test is membership of that field in the struct, through at most one pointer |
| DiffInterceptor.CarryingIsByField | internal/interceptor/diff.go:40-46 | A struct with the field and one pointer to it carry a diff; two pointers, another field type and no field do not |
| DiffInterceptor.DiffMethodIsInspected | internal/interceptor/diff.go:65-106 | In every run a method that answers only with pointers to structs with the field is never on the fast path, and its inspected responses are found to carry a diff |
| DiffInterceptor.DifflessMethodIsFast | internal/interceptor/diff.go:65-71 | A request for a known method whose responses lack the field takes the fast path |
| DiffInterceptor.SkippedIffListed | internal/interceptor/diff.go:61-63 | In every run a request is passed through unseen exactly when its method is on the skip list |
| DiffInterceptor.ReflectionSafeIffStructs | internal/interceptor/diff.go:40-44 | No run panics in reflection exactly when every response inspected is a struct or one pointer to one |
| DiffInterceptor.KnownIsFinal | internal/interceptor/diff.go:99-102 | A known method stays known, and with consistent responses its verdict never changes |

## Left out

- GachaDraw.DrawPremium: asks for rates that rand.Intn does not panic on; the panic itself is not an outcome.
- HiddenStory.CollectRequirements: requirements are sets; the random order of the returned lists is not modelled.
- GachaOverride.Banners.OverrideBannerForCharacters: buckets are values here, not slices, since the override builds them all afresh.
- GachaPool.Catalog.constructor: the catalog sets (quest grants, evolved weapons, the launch term's ids) are parameters.
- GachaPool.Catalog.BuildFeatured: terms arrive by start time and shops as entries by medal, not as table rows.
- GimmickSchedules.UserGimmicks.InitSequenceSchedule: the schedules are those of the loaded catalog, passed in; progress updates and sequence rewards are not part of it.
- DiffInterceptor.EveryRunKeepsInvariant: the skip list is a parameter; loading users, the daily refresh, computing the diff and the trailer are not part of the steps.
- EvolutionTables.LoadEvolutionRows: the successors are claimed for groups without ties, which an unstable sort orders either way.
- Parts.LoadMemoirSets: the partition is claimed for unique group ids; SplitSeries also says what repeated ids in a series do.
- Rewards.StageRecord.Receive: granting the collected items to the user is not part of it.
- GachaBox.DrawTicket: the ticket list is a value, so the element moves of its in-place deletion are not modelled; the items are updated in place.
- GachaPity.SettleMedals: mail ids are arbitrary strings, and possession types other than consumables are not granted through it.
- Integer widths other than the narrowing of condition values: wrap-around of counters and sums.
- gRPC, HTTP, SQLite, file reading, logging and generated message code.
- Price payment: a failed payment is only logged and the draw proceeds, so nothing is claimed about cost.
- Granting drawn items, duplicate exchange, overflow weapons and bonus items of a draw.
- Step-up counters, daily draw limits and reward draws of the gacha handler.
- The costume side of the mass upgrade beyond its level step, companions, thoughts and karma slots.
- Score schedules, grade icons and season milestones of the reward catalogs.
- Campaigns, exploration, login bonuses, limited content, mission templates, banner promotions and authentication.
