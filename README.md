# Tier-list game client: a verified Dafny model

This project models the client side of a Telegram mini-app game. The player
sorts the footballers of a club into tiers ("goat", "Хорош", "норм",
"Бездарь"). Each tier has a fixed number of slots. The player can replace a
placed player, undo one step at a time, swap positions afterwards and share the
result.

The main model is the game store. One value `GameState` holds every store
field, and one total transition per action computes the next value
(`GameEngine`). The store object `GameStore.GameStore` has one field per store
field. Its methods compute the new values step by step and write them back.
Each method is proved to land on the state its transition computes, and to keep
the store invariant (`GameProperties`):

- capacity: no list is longer than its tier's slots, in the committed lists and
  in the scratch copy;
- the history length equals the cursor;
- the queue grows by exactly the number of replacements;
- the processed count equals the number of placements;
- at most two players are selected.

Undo is proved to restore the state exactly after a placement, when the placed
player's id is not already in that tier, and after a replacement, when the ids
involved are unambiguous. Swapping twice is proved to restore the scratch
lists when the ids in the two touched lists are distinct.

No duplicate placement is proved as a preserved property (`GameUniqueness`):
no id sits in two slots of the committed lists, and the players still to be
sorted are distinct and not yet placed. Loading a roster of distinct players
and resetting establish it. Placing keeps it, and so does replacing a player
who sits in the named tier. Undo keeps it when the last history entry agrees
with the game, which placing and replacing are proved to leave behind. The
position editor keeps it, and its scratch copy holds the same ids as the
committed lists, so saving keeps it too.

Beside the game store, these smaller cores are modelled:

- the modal dialog store (`ModalStore`);
- the tier tables (`Categories`);
- the results page helpers (`Results`);
- the error classification and the per-context error counter (`ErrorHandler`);
- the input sanitiser, origin check and click window (`SecurityUtils`);
- the API base-URL normaliser and the environment checks (`ApiConfig`);
- the share-text builder and the share fallback order (`ShareUtils`);
- the request limiter, the retry schedule and the response mappers (`ApiService`);
- the image URL cache (`ImageService`).

The error counter and the request limiter share the one-minute counting window
in `WindowCounter`.

Time enters only as a `now` parameter. The network, the browser and the
Telegram client enter only as inputs: a fetched list, a batch answer, whether
a share channel worked. Strings are `seq<char>`, and JavaScript numbers are
unbounded integers.

## Model

| member | source | states |
|---|---|---|
| Util.NatToString | src/api/apiService.ts:149 | `toString()` of a whole number is a non-empty run of digits without a leading zero |
| Util.DecimalRoundTrip | src/api/apiService.ts:112 | reading the decimal text of `n` back gives `n` |
| Util.NatToStringInjective | src/api/apiService.ts:149 | distinct numbers print as distinct texts |
| Util.IntToString | src/api/apiService.ts:175 | `toString()` of an integer: the decimal text, after a minus sign when negative |
| Util.IntToStringInjective | src/api/apiService.ts:175 | distinct integers print as distinct texts |
| Util.ToLower | src/utils/shareUtils.ts:136 | `toLowerCase` leaves no capital letter, keeps every character that is not a capital, and replaces each capital by its small letter |
| Util.ToUpper | src/utils/shareUtils.ts:16 | `toUpperCase` leaves no small letter and keeps every character that is not a small letter |
| Util.SmallLetterPairs | src/utils/shareUtils.ts:16 | each small letter upper-cases to a capital that lower-cases back to it |
| Util.ToLowerIgnoresCase | src/pages/Results.tsx:28 | lower-casing twice is lower-casing once, and lower-casing an upper-cased text gives the original's lower case |
| Categories.GetCategories | src/config/categories.ts:56-62 | at most 10 players get the compact table with 10 slots, more get the standard table with 20 |
| Categories.StandardTable | src/config/categories.ts:4-26 | the standard table has 20 slots over four distinct names, each slot count positive |
| Categories.CompactTable | src/config/categories.ts:28-54 | the compact table has 10 slots over four distinct names, each slot count positive |
| Categories.LocalTable | src/config/categories.ts:64 | the table the store uses is the standard one |
| GameEngine.FindCategory | src/store/gameStore.ts:113 | `find` returns the first category with the name, or none when no category has it |
| GameEngine.FindIndexById | src/store/gameStore.ts:420-425 | `findIndex` returns the first index holding the id, or -1 exactly when none does |
| GameEngine.CurrentPlayer | src/store/gameStore.ts:246-249 | the player under the cursor exists exactly when the cursor is inside the queue |
| GameEngine.RemoveById | src/store/gameStore.ts:326-328 | the filter keeps exactly the players with another id |
| GameEngine.EmptyLists | src/store/gameStore.ts:253-256 | one empty list under exactly the names the table finds |
| GameEngine.InitialState | src/store/gameStore.ts:86-102 | the initial state has nothing placed or queued, no table and no undo |
| GameEngine.ResetGame | src/store/gameStore.ts:251-261 | reset loads the local table with an empty list per tier, empty queue and history, and the cursor at zero |
| GameEngine.InitializeGame | src/store/gameStore.ts:263-296 | a failed fetch only records the error; a fetch of `n` players starts a game over exactly those players with `maxPlayersToProcess = n`, the local table and empty lists |
| GameEngine.CompleteInitialStep | src/store/gameStore.ts:473-475 | sets the flag and changes nothing else |
| GameEngine.GetCategoryFilled | src/store/gameStore.ts:235-244 | "count / slots" for a known tier, "0 / 0" otherwise |
| GameEngine.AddPlayerToCategory | src/store/gameStore.ts:111-173 | the checks run in source order (unknown tier, full tier, no player) and a failed check changes nothing; on success the current player is appended to that tier only, cursor and count go up by one, one placement is pushed, and the game is finished exactly when the count reaches the maximum |
| GameEngine.ReplacePlayerInCategory | src/store/gameStore.ts:175-233 | without a current player nothing changes; otherwise every entry with the bumped id becomes the current player, the bumped player goes to the end of the queue, the cursor advances, the processed count stays, a replacement is pushed, and the game is finished exactly when the unchanged count already reaches the maximum; the tier is not looked up |
| GameEngine.GoBackToPreviousPlayer | src/store/gameStore.ts:298-351 | refuses, changing nothing, without history; otherwise pops the last entry, moves the cursor back, and undoes a placement by id or a replacement by restoring the bumped player and dropping the queue tail |
| GameEngine.EnterEditMode | src/store/gameStore.ts:354-361 | editing starts with no selection and the scratch copy equal to the committed lists |
| GameEngine.ExitEditMode | src/store/gameStore.ts:363-369 | editing ends, the scratch copy and the selection are dropped, the committed lists stay |
| GameEngine.SavePositionChanges | src/store/gameStore.ts:463-471 | the scratch copy becomes the committed lists and editing ends |
| GameEngine.Deselect | src/store/gameStore.ts:380-386 | the filter removes exactly the entries matching the pair |
| GameEngine.SelectPlayerForSwap | src/store/gameStore.ts:371-397 | toggles the pair: a selected pair is removed, a new pair is appended while fewer than two are selected, otherwise nothing changes; no edit-mode check |
| GameEngine.SwapSelectedPlayers | src/store/gameStore.ts:399-461 | fails, changing nothing, unless two players are selected and both are found; then the scratch lists are `SwappedLists` at the first indices of the two ids: within one list the two entries trade places and the rest stay; across two lists slot `i` receives the second record, slot `j` the first, and the rest stay; every other list is kept and the selection is cleared |
| GameEngine.SwappedLists | src/store/gameStore.ts:432-453 | same keys, untouched lists kept, the two slots exchanged within one list or written across two, every other slot kept |
| GameProperties.FilledWithinSlots | src/store/gameStore.ts:235-244 | in a reachable state the text for a known tier is two decimal numbers, the count read back being at most the slots read back |
| GameProperties.CountsAppend | src/store/gameStore.ts:163 | pushing an entry adds one to exactly the counter of its kind |
| GameProperties.FitsAfterUpdate | src/store/gameStore.ts:133-136 | writing a list that fits its tier keeps capacity |
| GameProperties.FoundSlotsPositive | src/config/categories.ts:4-26 | a tier found in the loaded table has positive slots |
| GameProperties.AllEmptyFits | src/store/gameStore.ts:253-256 | empty lists fit any table with positive slots |
| GameProperties.ListFits | src/store/gameStore.ts:121-126 | under capacity the list a name finds fits its tier |
| GameProperties.InitialStateInvariant | src/store/gameStore.ts:86-102 | the initial state satisfies the invariant |
| GameProperties.ResetEstablishesInvariant | src/store/gameStore.ts:251-261 | reset establishes the invariant |
| GameProperties.InitializeKeepsInvariant | src/store/gameStore.ts:263-296 | loading a game keeps the invariant |
| GameProperties.AddKeepsInvariant | src/store/gameStore.ts:111-173 | placing keeps capacity, the cursor bookkeeping and the selection bound |
| GameProperties.ReplaceKeepsInvariant | src/store/gameStore.ts:175-233 | replacing keeps capacity and the queue grows by exactly one replacement |
| GameProperties.GoBackKeepsUnstarted | src/store/gameStore.ts:298-351 | undo in a state with nothing placed or queued leaves it so |
| GameProperties.GoBackKeepsCounters | src/store/gameStore.ts:298-351 | undo keeps history length, cursor, placements and queue growth in step |
| GameProperties.GoBackKeepsCapacity | src/store/gameStore.ts:298-351 | undo never overfills a tier |
| GameProperties.GoBackKeepsInvariant | src/store/gameStore.ts:298-351 | undo keeps the invariant |
| GameProperties.SelectKeepsInvariant | src/store/gameStore.ts:371-397 | selecting keeps the invariant, at most two selected |
| GameProperties.SwapKeepsInvariant | src/store/gameStore.ts:399-461 | swapping keeps the invariant and the scratch copy's capacity |
| GameProperties.EditModeKeepsInvariant | src/store/gameStore.ts:354-369 | entering, leaving, saving and completing the first step keep the invariant |
| GameProperties.EnterKeepsInvariant | src/store/gameStore.ts:354-361 | entering the editor keeps the invariant |
| GameProperties.ExitKeepsInvariant | src/store/gameStore.ts:363-369 | leaving the editor keeps the invariant |
| GameProperties.SaveKeepsInvariant | src/store/gameStore.ts:463-471 | saving keeps the invariant |
| GameProperties.CompleteKeepsInvariant | src/store/gameStore.ts:473-475 | completing the first step keeps the invariant |
| GameProperties.FinishedIffEnoughPlacements | src/store/gameStore.ts:167-229 | a placement finishes the game exactly when the placements on the history reach the maximum; a replacement leaves the placements unchanged and finishes exactly when they already reach it |
| GameProperties.RemoveAppended | src/store/gameStore.ts:325-328 | filtering out the id of an appended new player gives the list back |
| GameProperties.PopPushed | src/store/gameStore.ts:346 | popping a pushed entry gives the stack back |
| GameProperties.AddThenGoBack | src/store/gameStore.ts:111-173 | placing a player not yet in the tier and then undoing restores every field |
| GameProperties.ReplaceThenGoBack | src/store/gameStore.ts:175-233 | replacing and then undoing restores every field when the ids are unambiguous |
| GameProperties.DeselectAppended | src/store/gameStore.ts:380-386 | removing a pair just appended gives the selection back |
| GameProperties.SelectTwiceRestores | src/store/gameStore.ts:371-397 | selecting a new pair twice is no change |
| GameProperties.FirstIndexAt | src/store/gameStore.ts:420-425 | `findIndex` returns the first index with the id |
| GameProperties.SelectPair | src/store/gameStore.ts:371-397 | two selections from empty list both pairs in order |
| GameProperties.SwapWithinTwice | src/store/gameStore.ts:432-442 | exchanging two entries of one list twice restores it |
| GameProperties.SwapAcrossTwice | src/store/gameStore.ts:443-453 | writing two records across lists twice restores both lists |
| GameProperties.SwappedWithinTwice | src/store/gameStore.ts:432-442 | the same-tier swap of the scratch lists is its own inverse |
| GameProperties.SwappedAcrossTwice | src/store/gameStore.ts:443-453 | the cross-tier swap of the scratch lists is its own inverse |
| GameProperties.SwapKeepsPlacedPlayers | src/store/gameStore.ts:432-453 | a successful swap keeps every untouched list, keeps the multiset of players of a list swapped within, and keeps the multiset of ids of two lists swapped across |
| GameProperties.SwapTwiceRestores | src/store/gameStore.ts:399-461 | swapping, selecting the same two where they now sit, and swapping again restores the scratch lists |
| GameUniqueness.ResetUnique | src/store/gameStore.ts:251-261 | a reset game has no duplicate placement |
| GameUniqueness.InitializeUnique | src/store/gameStore.ts:263-296 | loading a roster of distinct players starts a game with no duplicate placement; a failed load keeps the property |
| GameUniqueness.RemoveKeepsDistinct | src/store/gameStore.ts:326-328 | filtering an id out of a list of distinct ids leaves them distinct |
| GameUniqueness.RemovedSlotOrigin | src/store/gameStore.ts:326-328 | when the id sits only in that tier, each slot left after filtering it out holds another id that sat in the same tier before |
| GameUniqueness.RemoveSlot | src/store/gameStore.ts:326-328 | filtering a placed id out of its tier unplaces exactly that id and keeps every id in one slot |
| GameUniqueness.ReplaceSlot | src/store/gameStore.ts:186-191 | putting an unplaced player into the slot of a placed id unplaces exactly that id, places the newcomer, and keeps every id in one slot |
| GameUniqueness.AddKeepsUnique | src/store/gameStore.ts:111-173 | placing keeps no duplicate placement, and the new history entry agrees with the game |
| GameUniqueness.ReplaceKeepsUnique | src/store/gameStore.ts:175-233 | replacing a player who sits in the named tier keeps no duplicate placement, and the new history entry agrees with the game |
| GameUniqueness.OtherTierGameUnique | src/store/gameStore.ts:175-233 | the example game used below has no duplicate placement |
| GameUniqueness.ReplaceFromOtherTier | src/store/gameStore.ts:185-191 | bumping a player who sits in another tier leaves every list unchanged, drops the current player and queues a placed player again, so no duplicate placement fails |
| GameUniqueness.GoBackKeepsUnique | src/store/gameStore.ts:298-350 | undoing keeps no duplicate placement when the last history entry agrees with the game |
| GameUniqueness.UndoPlacementKeepsUnique | src/store/gameStore.ts:325-330 | undoing a placement puts the player back among those still to be sorted and keeps no duplicate placement |
| GameUniqueness.UndoReplacementKeepsUnique | src/store/gameStore.ts:317-323 | undoing a replacement gives the bumped player its slot back, drops it from the queue and keeps no duplicate placement |
| GameUniqueness.EditorKeepsUnique | src/store/gameStore.ts:354-475 | entering and leaving the editor, selecting, swapping and completing the first step keep no duplicate placement |
| GameUniqueness.EnterMirrors | src/store/gameStore.ts:354-361 | the scratch copy starts with no id twice and with the committed lists' ids |
| GameUniqueness.SelectKeepsMirrors | src/store/gameStore.ts:371-397 | selecting keeps the scratch copy free of duplicates and equal in ids to the committed lists |
| GameUniqueness.SwapMovesIds | src/store/gameStore.ts:432-453 | a swap moves each id to the partner slot and leaves every other slot's id in place |
| GameUniqueness.SwapKeepsMirrors | src/store/gameStore.ts:399-461 | a swap keeps the scratch copy free of duplicates and equal in ids to the committed lists |
| GameUniqueness.SaveKeepsUnique | src/store/gameStore.ts:463-471 | saving a scratch copy that mirrors the committed lists keeps no duplicate placement |
| GameStore.GameStore.constructor | src/store/gameStore.ts:86-102 | the store starts in the initial state and satisfies the invariant |
| GameStore.GameStore.Set | src/store/gameStore.ts:107 | the merge writes every field of the given state |
| GameStore.GameStore.AddPlayerToCategory | src/store/gameStore.ts:111-173 | the fields become the transition's state, the result is its result, the invariant holds |
| GameStore.GameStore.AddPlayerToCategoryBody | src/store/gameStore.ts:111-173 | the step-by-step computation lands on the transition's state |
| GameStore.GameStore.ReplacePlayerInCategory | src/store/gameStore.ts:175-233 | the fields become the transition's state, the result is its result, the invariant holds |
| GameStore.GameStore.ResetGame | src/store/gameStore.ts:251-261 | the fields become the reset state |
| GameStore.GameStore.InitializeGame | src/store/gameStore.ts:263-296 | the fields become the loaded state, or record the load error |
| GameStore.GameStore.GoBackToPreviousPlayer | src/store/gameStore.ts:298-351 | the fields become the undo transition's state, the flag is its result, the invariant holds |
| GameStore.GameStore.GoBackToPreviousPlayerBody | src/store/gameStore.ts:298-351 | the step-by-step undo lands on the transition's state |
| GameStore.GameStore.EnterEditMode | src/store/gameStore.ts:354-361 | the fields become the editor's starting state |
| GameStore.GameStore.ExitEditMode | src/store/gameStore.ts:363-369 | the fields become the state after leaving the editor |
| GameStore.GameStore.SelectPlayerForSwap | src/store/gameStore.ts:371-397 | the selection toggles as the transition says |
| GameStore.GameStore.SwapSelectedPlayers | src/store/gameStore.ts:399-461 | the fields become the swap transition's state, the flag is its result |
| GameStore.GameStore.SwapSelectedPlayersBody | src/store/gameStore.ts:399-461 | the step-by-step swap lands on the transition's state |
| GameStore.GameStore.SavePositionChanges | src/store/gameStore.ts:463-471 | the scratch copy becomes the committed lists |
| GameStore.GameStore.CompleteInitialStep | src/store/gameStore.ts:473-475 | only the first-step flag changes |
| GameStore.SwapInCopies | src/store/gameStore.ts:432-453 | the exchange on array copies gives the swapped scratch lists |
| GameStore.CopyToArray | src/store/gameStore.ts:434 | the spread copy is a fresh array holding the list |
| GameStore.ExchangeInCopy | src/store/gameStore.ts:434-441 | the two entries trade places, nothing else moves, and the list is a permutation of the old one |
| GameStore.WriteInCopy | src/store/gameStore.ts:445-449 | the record is written at its slot and nothing else changes |
| ModalStore.WellFormedIsReachable | src/store/modalStore.ts:21-55 | a well-formed dialog state is exactly closed, a message, or a replacement offer |
| ModalStore.ShownStatesDistinct | src/store/modalStore.ts:27-55 | the three written states are well formed and pairwise distinct |
| ModalStore.ModalStore.constructor | src/store/modalStore.ts:21-25 | the dialog starts closed |
| ModalStore.ModalStore.ShowMessageModal | src/store/modalStore.ts:27-35 | opens with the message and clears the replacement fields, whatever was shown |
| ModalStore.ModalStore.ShowReplacePlayerModal | src/store/modalStore.ts:37-45 | opens with the tier and players and clears the message |
| ModalStore.ModalStore.CloseModal | src/store/modalStore.ts:47-55 | restores every field to its initial value |
| Results.FirstSeasonFrom | src/pages/Results.tsx:32 | the regular expression's leftmost `YYYY/YY` match, or none when there is none |
| Results.DisplayClubName | src/pages/Results.tsx:27-40 | a name containing "клуб" in any case and a season becomes "Твой тир-лист клубов " with the first season; any other name is unchanged |
| Results.TitleHasClub | src/pages/Results.tsx:29 | every season title contains "клуб" |
| Results.NoSeasonInTitle | src/pages/Results.tsx:32 | no season match starts inside the title text |
| Results.TitleShownAsIs | src/pages/Results.tsx:27-40 | a season title is shown unchanged |
| Results.UpperKeepsSeasonChar | src/pages/Results.tsx:31 | upper-casing keeps digits and the slash and turns no other character into one |
| Results.SeasonIgnoresCase | src/pages/Results.tsx:31 | upper-casing neither creates nor removes a season match, and keeps the matched text |
| Results.FirstSeasonIgnoresCase | src/pages/Results.tsx:31 | the leftmost season is found at the same place in the upper-cased name |
| Results.DisplayClubNameIgnoresCase | src/pages/Results.tsx:27-40 | the upper-cased name gets the same title exactly when the rule applies to the name, and is shown as it is otherwise |
| Results.DisplayClubNameIdempotent | src/pages/Results.tsx:27-40 | applying the rule to its own output changes nothing |
| Results.HasGameData | src/pages/Results.tsx:75-78 | true exactly when there is a tier and some tier list holds a player |
| Results.GameDataAfterPlay | src/pages/Results.tsx:75-78 | a reset game has no data, and any placed player gives the page data |
| Results.IsShareAvailable | src/pages/Results.tsx:95-99 | offered before the stats load, then exactly when allowed and shares remain |
| Results.CeilMinutes | src/pages/Results.tsx:90 | `Math.ceil(diff / 60000)` is the fewest whole minutes covering the difference |
| Results.CeilMinutesUnique | src/pages/Results.tsx:90 | only one count of minutes covers a difference |
| Results.FormatTimeUntilAvailable | src/pages/Results.tsx:81-92 | empty for a missing time, "Доступно сейчас" when the time has come, otherwise "через N мин" with the rounded-up minutes |
| Results.WaitTextMinutes | src/pages/Results.tsx:81-92 | the number printed in the wait text reads back as the minutes that cover the wait |
| Results.CategorizedPlayerIds | src/pages/Results.tsx:207-211 | the same tier names, and under each the ids of its players in order |
| Results.DisplayData | src/pages/Results.tsx:424-426 | the scratch copy while editing, the committed lists otherwise |
| Results.DisplayAcrossEditing | src/pages/Results.tsx:424-426 | after entering or leaving the editor the committed lists are shown (leaving discards unsaved edits); saving keeps the edited lists on screen |
| ErrorHandler.ErrorTypeByStatus | src/utils/errorHandler.ts:41-47 | 500 and above is a server error; 401 authentication, 403 authorization, other 4xx validation, the rest unknown; never a network error |
| ErrorHandler.IsRetryableError | src/utils/errorHandler.ts:147-149 | authentication, authorization, validation and unknown errors are not retried; network and server errors are |
| ErrorHandler.RetryableIffServerStatus | src/utils/errorHandler.ts:147-149 | a response error is retryable exactly when its status is 500 or above |
| ErrorHandler.ErrorMessage | src/utils/errorHandler.ts:26-36 | every error type has a non-empty user message |
| ErrorHandler.ResponseError | src/utils/errorHandler.ts:72-91 | the type comes from the status, the status is kept, and the server's text wins over the stock message when non-empty |
| ErrorHandler.WarningNeedsManyErrors | src/utils/errorHandler.ts:166-173 | from a zero count inside one window, after `n` errors the next one warns exactly when `n` is above 50 |
| ErrorHandler.ErrorCounter.constructor | src/utils/errorHandler.ts:153-154 | the counter starts empty with its window ending a minute later |
| ErrorHandler.ErrorCounter.Handle | src/utils/errorHandler.ts:156-177 | renews a passed window, counts the error for its context, and warns exactly when the count found was above 50 |
| WindowCounter.Renewed | src/utils/errorHandler.ts:160-163 | a passed window is cleared and ends a minute after now; otherwise nothing changes |
| WindowCounter.CountedCounts | src/api/apiService.ts:37-44 | one call raises its own key by one (from zero after renewal), leaves other keys or zeroes them on renewal, and the window ends no earlier than now |
| WindowCounter.CountWithinWindow | src/api/apiService.ts:37-44 | calls inside one window keep the window and add exactly their number to the key's count |
| SecurityUtils.Sanitize | src/utils/securityUtils.ts:18-20 | the result is no longer than the input and holds no `<` or `>` |
| SecurityUtils.SanitizeAppend | src/utils/securityUtils.ts:18-20 | sanitising works piece by piece, so kept characters stay in order |
| SecurityUtils.SanitizeKeepsClean | src/utils/securityUtils.ts:18-20 | text without brackets is unchanged |
| SecurityUtils.SanitizeIdempotent | src/utils/securityUtils.ts:18-20 | sanitising twice is sanitising once |
| SecurityUtils.SanitizeKeepsOthers | src/utils/securityUtils.ts:18-20 | every other character occurs as often as in the input, and no bracket remains |
| SecurityUtils.CheckOrigin | src/utils/securityUtils.ts:23-26 | allowed exactly for Telegram's origin and the page's own origin |
| SecurityUtils.Recent | src/utils/securityUtils.ts:9 | only clicks of the last second remain |
| SecurityUtils.RecentKeepsWindow | src/utils/securityUtils.ts:9 | every click inside the window is kept as often as recorded, every older one dropped |
| SecurityUtils.RecentLater | src/utils/securityUtils.ts:9 | filtering at an earlier time and then a later one equals filtering at the later one |
| SecurityUtils.RecentAppend | src/utils/securityUtils.ts:9 | filtering works piece by piece |
| SecurityUtils.BotDetection.constructor | src/utils/securityUtils.ts:4 | no clicks recorded at the start |
| SecurityUtils.BotDetection.Track | src/utils/securityUtils.ts:7-14 | keeps the last second's clicks plus this one, and flags exactly when more than ten are then recorded |
| ApiConfig.StripTrailingSlashes | src/config/api.ts:36 | the result is a prefix of the URL with no trailing slash, and only slashes were removed |
| ApiConfig.Split | src/config/api.ts:44 | `split('/')` gives at least one piece and no piece holds a slash |
| ApiConfig.JoinSplit | src/config/api.ts:44-65 | joining the pieces with `/` gives the string back |
| ApiConfig.KeptPartsFrom | src/config/api.ts:48-63 | every kept piece comes from the input and is not empty |
| ApiConfig.KeptDomainsOnce | src/config/api.ts:48-63 | no domain piece is kept twice |
| ApiConfig.UniqueParts | src/config/api.ts:45-63 | the loop with its set of seen domains keeps exactly the pieces the filter keeps, in order |
| ApiConfig.NormalizeApiUrl | src/config/api.ts:32-74 | the method returns the normalised URL |
| ApiConfig.JoinEndsWithLast | src/config/api.ts:65 | a joined list ends with its last piece |
| ApiConfig.NormalizedNoTrailingSlash | src/config/api.ts:32-74 | no normalised URL ends with a slash |
| ApiConfig.SplitNoSlash | src/config/api.ts:44 | a non-empty piece does not end with a slash |
| ApiConfig.NormalizedKeepsFullUrl | src/config/api.ts:38-41 | a URL with a scheme and no trailing slash is returned as it is |
| ApiConfig.NormalizedDomains | src/config/api.ts:65-73 | `https://` is added exactly when the joined pieces hold a dot and have no scheme, and no domain appears twice |
| ApiConfig.MissingVarsExactly | src/config/api.ts:12-27 | a name is reported exactly when `VITE_` plus the key of an entry whose value is unset or only white space |
| ApiConfig.ValidateEnvVars | src/config/api.ts:12-27 | the loop collects exactly the missing names, in entry order |
| ApiConfig.IsApiConfigured | src/config/api.ts:96-98 | ready exactly when the base URL and the bot name are both non-empty |
| ApiConfig.ConfiguredBotName | src/config/api.ts:96-98 | a bot name the validator accepts, with a base URL, makes the client ready |
| ShareUtils.TierEmojis | src/utils/shareUtils.ts:128-137 | the four standard tiers get four distinct emojis other than the football; the compact "Бездна" gets the football |
| ShareUtils.CategoryEmoji | src/utils/shareUtils.ts:128-137 | each of the four emojis is returned exactly for the name whose lower case is its key |
| ShareUtils.CategoryEmojiIgnoresCase | src/utils/shareUtils.ts:136 | the emoji of a name is the emoji of its lower-cased and of its upper-cased form |
| ShareUtils.EmojiFallback | src/utils/shareUtils.ts:128-137 | the football is returned exactly for names whose lower case is none of the four keys |
| ShareUtils.ConcatAppend | src/utils/shareUtils.ts:18-33 | writing two runs of pieces is writing each run in order |
| ShareUtils.ConcatLayout | src/utils/shareUtils.ts:18-33 | each piece is written right after the pieces before it |
| ShareUtils.Lines | src/utils/shareUtils.ts:27-29 | one line per player |
| ShareUtils.Blocks | src/utils/shareUtils.ts:18-33 | one block per tier |
| ShareUtils.GenerateShareText | src/utils/shareUtils.ts:11-38 | the loops build exactly the summary text |
| ShareUtils.AppendedStep | src/utils/shareUtils.ts:18-33 | appending the next piece extends the text by exactly that piece |
| ShareUtils.AppendBlock | src/utils/shareUtils.ts:19-32 | one outer pass appends exactly the tier's block |
| ShareUtils.AppendPlayerLines | src/utils/shareUtils.ts:27-29 | the inner loop appends exactly the numbered lines |
| ShareUtils.ShareTextLayout | src/utils/shareUtils.ts:11-38 | the text opens with the header, ends with the signature, and holds each tier's block after the blocks of the tiers before it |
| ShareUtils.PiecesLayout | src/utils/shareUtils.ts:11-38 | the same layout on any head, pieces and tail |
| ShareUtils.PlayerLinesLayout | src/utils/shareUtils.ts:27-29 | the line of the k-th player, numbered k+1, follows the lines before it |
| ShareUtils.EmptyTierBlock | src/utils/shareUtils.ts:22-32 | an empty tier shows "(0/slots)" and the empty marker |
| ShareUtils.UniversalShare | src/utils/shareUtils.ts:311-350 | succeeds exactly when an offered channel works, reports the last channel tried, offers the Web Share sheet exactly on a phone that supports it, and reaches the download exactly when the earlier channels failed |
| ShareUtils.UniversalShareOrder | src/utils/shareUtils.ts:311-350 | channels are tried in the fixed order, every tried one but the last failed, the reported one worked, and failure with "none" exactly when every channel failed |
| ApiService.AllowedCount | src/api/apiService.ts:43-46 | no more calls pass than were made |
| ApiService.AllowedWithinWindow | src/api/apiService.ts:34-47 | inside one window an endpoint passes exactly its remaining allowance of 100 |
| ApiService.AtMostMaxPerWindow | src/api/apiService.ts:34-47 | no endpoint passes more than 100 calls in one window |
| ApiService.RequestLimiter.constructor | src/api/apiService.ts:30-31 | the limiter starts empty with its window ending a minute later |
| ApiService.RequestLimiter.Check | src/api/apiService.ts:34-47 | renews a passed window, counts the call, and allows it exactly when the count found was below 100 |
| ApiService.Pow2 | src/api/apiService.ts:72 | a power of two is at least one |
| ApiService.RetryDelay | src/api/apiService.ts:72 | the wait before a retry lies between one and five seconds |
| ApiService.FetchWithRetry | src/api/apiService.ts:51-78 | at most `retries + 1` attempts, one wait before each retry, each wait the back-off for the budget left |
| ApiService.FetchWithRetryStopsAtFirst | src/api/apiService.ts:51-78 | the run stops at the first attempt that works and succeeds exactly when some attempt within the budget works |
| ApiService.DefaultSchedule | src/api/apiService.ts:54-76 | with the default budget a run that never works makes four attempts with waits of 1000, 2000 and 4000 ms |
| ApiService.MapClubs | src/api/apiService.ts:110-116 | one club per record: the id in decimal, the name, the logo or `''` |
| ApiService.MapPlayers | src/api/apiService.ts:147-154 | one player per record: ids "1".."n" by position, the avatar or `''`, club "1" |
| ApiService.MapClubPlayers | src/api/apiService.ts:173-180 | one player per record in order: the id in decimal, the avatar or `''`, the requested club |
| ApiService.MapPlayersDistinctIds | src/api/apiService.ts:147-154 | players of the general list get distinct ids |
| ApiService.MapClubPlayersDistinctIds | src/api/apiService.ts:173-180 | distinct record ids give distinct player ids |
| ApiService.MapClubsIds | src/api/apiService.ts:112 | a club id reads back as the server's number |
| ImageService.CacheKeyInjective | src/api/imageService.ts:141 | under the same options distinct file keys have distinct cache keys |
| ImageService.PartitionExactly | src/api/imageService.ts:139-150 | a key is served from the cache exactly when requested, non-empty and fresh, with the cached URL; it is fetched exactly when requested, non-empty and not fresh |
| ImageService.PartitionKeys | src/api/imageService.ts:136-150 | the loop fills the cached results and the keys to fetch as the partition says |
| ImageService.MakeBatches | src/api/imageService.ts:159-164 | batches of one to ten keys, only the last shorter than ten, which together are the keys to fetch in order |
| ImageService.BatchResult | src/api/imageService.ts:177-187 | an ok answer is taken as it is; a failed batch maps exactly its keys, each to `''` |
| ImageService.MergeAllExactly | src/api/imageService.ts:193-195 | the merge holds a key exactly when a batch result does, with the last such batch's value |
| ImageService.Combined | src/api/imageService.ts:209 | fresh URLs override cached ones and every key of either is kept |
| ImageService.FallbackResult | src/api/imageService.ts:210-218 | the cached URLs plus `''` for every key left to fetch |
| ImageService.ImageService.constructor | src/api/imageService.ts:1-20 | the cache starts empty |
| ImageService.ImageService.StoreUrls | src/api/imageService.ts:198-206 | every non-empty fetched URL is cached with the given expiry, no other entry changes and none is removed |
| ImageService.ImageService.GetOptimizedUrls | src/api/imageService.ts:121-219 | no keys gives an empty result; all cached gives the cached results; a thrown request gives the fallback with the cache unchanged; otherwise the keys are cut into full batches of ten and a shorter last one, the merged batch answers override the cached results, their non-empty URLs are cached for 22 hours, and no other entry changes or is removed |
| ImageService.SingleKeyUrls | src/api/imageService.ts:159-194 | one key is sent as one batch, and the merged answers are that batch's answer |
| ImageService.ImageService.GetOptimizedUrl | src/api/imageService.ts:224-238 | `''` for an empty key; the cached URL for a fresh key; `''` when the fetch throws; otherwise the single batch's URL for the key or `''`, with that batch's non-empty URLs cached for 22 hours and no other entry changed |
| ImageService.ImageService.ClearCache | src/api/imageService.ts:352-354 | the cache is emptied |
| ImageService.ImageService.CleanExpiredCache | src/api/imageService.ts:359-366 | removes exactly the entries whose expiry is not after now |
| ImageService.Unexpired | src/api/imageService.ts:359-366 | keeps exactly the entries that expire after now, unchanged |
| ImageService.UnexpiredProperties | src/api/imageService.ts:359-366 | cleaning twice is cleaning once, and cleaning never drops an entry that would serve a request at that time |

## Left out

- `progressPercentage` is a floating-point ratio, so it is not a field of `GameState`.
- Action ids and timestamps come from `Date.now()`, so history entries do not carry them.
- Undo never reads the history snapshot, so the snapshot is not modelled.
- The `persist` and `devtools` middleware of the stores serialise state; they are not modelled.
- `initializeGame`'s fetch is an input: the fetched list, or none when it threw.
- GameProperties.AddThenGoBack, ReplaceThenGoBack and SwapTwiceRestores assume distinct ids. Undo removes a placement by filtering out every entry with the player's id, so with a duplicate id it removes the earlier entry too; the round trips are not promised for duplicate ids.
- GameEngine.ReplacePlayerInCategory: the source does not check that the bumped player sits in the named tier. Bumping any other player leaves the lists unchanged, drops the current player and queues a player who may still be placed, so sorting it places it twice (GameUniqueness.ReplaceFromOtherTier). No duplicate placement is therefore promised only for a bumped player of the named tier, which is all the game page offers.
- GameUniqueness.GoBackKeepsUnique holds only when the last history entry agrees with the game. That is so right after a placement or a replacement; a whole-history invariant, and undo after a saved swap moved the entry's player, are not covered.
- ImageService.ImageService.GetOptimizedUrls treats the call as instantaneous: the 22 hours count from the call's `now`, while the client reads the clock again once the batch answers arrive.
- Undo after a saved position edit is not modelled: the history refers to the committed lists, and undo is offered only while sorting.
- Network I/O, `async` and timers are not modelled. Every server answer, the outcome of each share channel, and each retry attempt's outcome are inputs.
- Util.ToLower and Util.ToUpper map only the Latin and Russian letters (including Ё). The full Unicode case tables of `toLowerCase` and `toUpperCase` are left out.
- ShareUtils.CategoryEmoji looks the key up in a four-entry table. The JavaScript object's inherited keys (such as `constructor`) are left out.
- ApiService.RetryDelay requires a budget between 1 and 3. A larger budget would give first waits under one second (500 ms for a budget of 4, fractional from a budget of 7), and the client only uses the default budget of 3.
- ApiService.FetchWithRetry models only the schedule of attempts and waits; the request itself, including the limiter check inside each attempt, is one boolean per attempt.
- ErrorHandler: only the response branch of `handleApiError` is modelled. The `navigator.onLine`, `TypeError` and generic-error branches, and `logError`, read browser state or log.
- ErrorHandler.ErrorCounter.Handle returns whether the warning is logged instead of logging it.
- SecurityUtils.BotDetection.Track returns whether the clicking is suspicious instead of throwing.
- SecurityUtils.CheckOrigin takes the page's origin as a parameter instead of reading `window.location`.
- `detectPlatform`, `supportsWebShare`, `getAvailableShareMethods` and the individual share channels read browser state, so they are inputs or left out.
- The share image, image compression and thumbnails use canvas and floating-point arithmetic, so they are left out.
- ImageService: the request options are one serialised string (`optionsTag`), standing for `JSON.stringify(options)`.
- ImageService.GetOptimizedUrls: a batch answer's failure to parse is folded into `thrown`.
- Results.FormatTimeUntilAvailable takes times as milliseconds. An unparseable date, which would print `NaN`, is left out.
- Results.DisplayClubName matches seasons with ASCII digits only, as JavaScript's `\d` does.
- The React components, pages and admin forms render UI and are not modelled.
