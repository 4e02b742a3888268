# Kanban note board: the board and card rules in Dafny

The board is a single-page note board. It has three ordered columns, "New", "In process" and "Done". Each column holds cards, and each card holds a checklist of 3 to 5 entries. Column capacities are 3, 5 and unbounded. A board-wide lock is set while "In process" is full and is copied onto every card in "New". Every change to a card's checklist except reopening an entry for editing (`editItem`) re-evaluates the card from its completion percentage:

- an "In process" card with every entry checked is completed and moves to "Done";
- an "In process" card under half done is sent back to "New";
- a "New" card over half done moves forward to "In process".

This project models the rule engine of the two Vue components in `js/main.js` that hold that logic: `columns` (the board) and `card`.

- `splice.dfy`, module `Splice`: `Array.prototype.splice(start, 1)`. It is the only list primitive the board removes with, and it is modelled with JavaScript's handling of negative and out-of-range starts.
- `cards.dfy`, module `Cards`: the pure part of the card rules.
  - The data: `Item`, `Card` and `Status`.
  - The completion percentage, using exact reals and a `NaN` case for an empty checklist.
  - `Decide`, the branch `checkCardStatus` takes.
  - `Mark`, the fields `checkCardStatus` writes on the card.
  - The card `addCard` builds.
  - The checklist commands `addItem`, `removeItem`, `saveItem` and `editItem`, plus the two input bindings, as functions from card to card.
- `rules.dfy`, module `Rules`: the board as a value (`BoardState`), with one function per board operation and per card command. A card command ends in `checkCardStatus` and the move it emits. The module also holds the preserved invariant `Valid`, the lock invariant `LockConsistent`, and lemmas that relate several operations.
- `columns.dfy`, module `Columns`: class `Board`, with the three lists and the lock as fields. Its methods update the fields in place: splice and push on the lists, field writes on cards, and a `while` loop for the `forEach` of `checkLock`. Each method that mirrors an operation is proved to compute the `Rules` function of the same name, and to keep `Valid`; the two write-back helpers `SetCard` and `SetColumn` compute `UpdateCard` and `WithCards`.

Modelling choices:

- **Cards are values.** JavaScript object identity (`indexOf(card)`) becomes the card's position, a column and an index. Looking the card up in another column finds nothing, which is the `-1` case of `indexOf`. This relies on each card object occurring at most once on the board. That holds by construction: a new card is pushed once, and every move splices before it pushes.
- **Events become direct calls.** The chain from a card through its `column` to `columns` becomes a direct call. The Done column binds no move handler (`js/main.js:16`), so a move emitted from a card in Done is dropped. The model does the same.
- **Percentages are exact reals.** `(completed / total) * 100` is computed exactly. `PercentageThresholds` and `DecideByCounts` restate every threshold in whole numbers: `2 * done < total`, `2 * done > total` and `done == total`. For the checklist sizes a card can have, the floating-point comparisons in the source give the same answers.

Where the code departs from what its limits and its interface text suggest, the model follows the code:

- **The card component never sees the lock.** The component declares only the prop `card` (`js/main.js:213`), so `this.locked` in `removeItem`, `saveItem`, `editItem` and `removeCard` is `undefined`. Those guards are therefore decided by the status alone; `Cards.ComponentLocked` is that `false`. Only the template's `:disabled` bindings, which are not modelled, read `card.locked`.
- **The board-wide total check never fires.** `addCard` compares the card total with 3 + 5 + `Infinity`, which no total reaches (`Rules.AddCardCheck`).
- **The lock can go stale.** It is recomputed by `removeCard`, by both forward moves and by `checkLock`, but not by `moveCardToNew`. After a card is sent back from a full "In process", the lock stays set with four cards there (`Rules.SendBackLeavesLockStale`).
- **Only `addCard` enforces the limit of "New".** A card sent back is appended with no test (`Rules.SendBackOverfillsNew`). "New" and "In process" together never hold more than 7 cards (part of `Rules.Valid`), one fewer than the 3 + 5 that the limits of the two columns suggest.
- **`moveCardToNew` never puts the card back into "In process" on its own path.** Through `checkCardStatus` the card is always under half done, so the branch that re-appends it to "In process" is never taken (`Rules.StatusCheckSendsBack`).
- **A refused forward move still changes the status.** When "In process" is full, the card stays in "New" but is already marked "In process" (`Rules.StatusCheckStrands`). If that card is later completed, it is marked "Done" while it is still in "New" (`Rules.StrandedCardCompletesInNew`).
- **`addItem`, `removeItem` and `saveItem` save through the card, so they run `checkCardStatus`.** Adding an entry can therefore send a card back (`Rules.AddItemCanSendBack`).
- **"Done" is final only in the template.** `addItem` has no status guard and the input bindings have none either. Only the template hides or disables those controls on a "Done" card, and the model lets those commands run. An entry added to a "Done" card can never be removed, because `removeItem` refuses a "Done" card (`Cards.DoneCardKeepsAddedEntry`).

## Model

| member | source | states |
|---|---|---|
| `Splice.ActualStart` | js/main.js:73 | The start `splice` uses is never past the end. It equals the given start when that is in range, and counts back from the end when the start is negative. A start before the beginning is clamped to 0, and one past the end to the length. |
| `Splice.RemoveAt` | js/main.js:73 | `splice(start, 1)` removes exactly the element at the actual start index. The other elements keep their order, the multiset loses just that element, and nothing is removed when the start is past the end. |
| `Splice.RemoveAfterPush` | js/main.js:69-73 | Splicing out, at its own index, an element just pushed gives back the original list. |
| `Cards.Completed` | js/main.js:163 | The filtered entries are all checked, are entries of the checklist, and are no more than the checklist. They are as many as the checklist exactly when every entry is checked. |
| `Cards.CompletionPercentage` | js/main.js:162-166 | `NaN` exactly for an empty checklist. Otherwise the percentage lies between 0 and 100, and it equals 100 exactly when every entry is checked. |
| `Cards.RatioFacts` | js/main.js:165 | Compares `d / t * 100` with 0, 50 and 100 as integer comparisons of `d` and `t`. |
| `Cards.PercentageThresholds` | js/main.js:275-286 | Below 50% iff `2 * done < total`. Above 50% iff `2 * done > total`. 100% iff `done == total`. |
| `Cards.Decide` | js/main.js:272-290 | Completion and sending back happen only to an "In process" card; completion needs every entry checked and sending back does not. Forward moves happen only to a "New" card. A "Done" card never moves. |
| `Cards.DecideByCounts` | js/main.js:273-289 | Each outcome of the decision, in both directions and in counts. Complete: "In process", not empty, all checked. Send back: "In process" and under half. Forward: "New" and over half. Anything else, an exact half included, stays. |
| `Cards.ExactHalfStays` | js/main.js:281-286 | A checklist exactly half done never moves a card, whatever its status. |
| `Cards.StatusScenarios` | js/main.js:272-290 | A "New" card with 2 of 3 entries checked moves forward. An "In process" card with 1 of 3 is sent back. An "In process" card with 3 of 3 is completed. |
| `Cards.ModifiedNote` | js/main.js:121 | The forward comment is "Modified (", then the time, then ")". |
| `Cards.SentBackNote` | js/main.js:148 | The send-back comment is "Sent for Modified (", then the time, then ")", and it differs from the forward comment. |
| `Cards.Mark` | js/main.js:277-288 | The writes before the emit keep the checklist, the title and the card's lock. Whenever the decision is a move, they change the status. Completing sets "Done" and the date. Sending back sets "New" and the "Sent for Modified" comment. Moving forward sets "In process" only. Staying writes nothing. |
| `Cards.NewCard` | js/main.js:59-68 | A new card has three blank, unchecked, editable entries. Its status is "New", it is unlocked, and it has no comment and no date. Its title is the custom title when that is non-empty and "New note" when it is empty. Nothing is checked, so it does not move. |
| `Cards.AddItem` | js/main.js:236-243 | Appends a blank entry iff the checklist has 3 or 4 entries, and otherwise alerts. The result is always within 3 to 5 entries. |
| `Cards.RemoveItem` | js/main.js:244-249 | Splices out an entry iff more than 3 remain and the card is not "Done". The result never has fewer than 3 entries, and a card within 3 to 5 stays within 3 to 5. |
| `Cards.SaveItem` | js/main.js:257-262 | Clears `editing` of exactly that entry; its text and checkbox stay, and so do the card's title, status, lock, comment and date. Acts iff the card is not "Done" and the entry exists (otherwise the source throws and nothing changes). Every other entry is unchanged. |
| `Cards.EditItem` | js/main.js:263-267 | Sets `editing` of exactly that entry, under the same condition as `SaveItem`; its text and checkbox stay, and so do the card's other fields. Every other entry is unchanged. |
| `Cards.SetCompleted` | js/main.js:220 | The checkbox sets that entry's flag and writes nothing else: the entry's other fields, the other entries and the card's fields stay. The checked count changes by exactly what the old and the new flag contribute. |
| `Cards.SetText` | js/main.js:221 | The text input sets that entry's text and writes nothing else: the entry's other fields, the other entries and the card's fields stay. The checked count is unchanged. |
| `Cards.CountAfterUpdate` | js/main.js:163 | Replacing one entry changes the checked count by the old and the new entry's contribution, and by nothing else. |
| `Cards.CountAppendBlank` | js/main.js:238 | A blank entry pushed on the checklist adds nothing to the checked count. |
| `Cards.DoneCardKeepsAddedEntry` | js/main.js:236-249 | After `addItem` accepts a "Done" card, `removeItem` refuses it for every index. |
| `Cards.RemoveUndoesAdd` | js/main.js:236-249 | For a card that is not "Done", adding an entry and then removing the entry just added gives back the card. |
| `Cards.EditUndoesSave` | js/main.js:257-267 | Saving an entry that was being edited and then reopening it gives back the card. |
| `Cards.EditingKeepsDecision` | js/main.js:257-267 | Saving or reopening an entry never changes what `checkCardStatus` decides. |
| `Rules.MaxCards` | js/main.js:24-28 | The limits: Done alone is unbounded (`Infinity`); New and In process have positive limits of at most 5. |
| `Rules.Plus` | js/main.js:39 | Adding limits gives `Infinity` iff either side is `Infinity`, and otherwise adds them. |
| `Rules.Reached` | js/main.js:54 | `count >= limit` can hold only for a finite limit, and never below it. |
| `Rules.WithCards` | js/main.js:73 | Writing `this[column]` replaces exactly that list and leaves the other two and the lock. |
| `Rules.UpdateCard` | js/main.js:277-284 | A field write on a card changes only that card, keeps the other columns, the lock and the total, and keeps `Valid` when the new card is well-formed. |
| `Rules.Valid` | js/main.js:37-57 | The invariant that `addCard`'s limits establish: 3 to 5 entries per card, at most 5 cards in In process, at most 7 in New and In process together. |
| `Rules.LockConsistent` | js/main.js:154-161 | What `checkLock` leaves: the lock is set iff In process holds 5 or more cards, and every New card carries it. |
| `Rules.AddCardCheck` | js/main.js:37-57 | `addCard` accepts iff the target is New, New holds fewer than 3 cards and In process fewer than 5. The board-wide total check never fires. A full New is reported as such. |
| `Rules.AddCard` | js/main.js:37-71 | A rejected `addCard` leaves the board unchanged. An accepted one appends exactly the new card to the end of New and leaves the other columns and the lock unchanged. It keeps `Valid` and the lock invariant. |
| `Rules.CheckLock` | js/main.js:154-161 | Afterwards the lock is set iff In process holds 5 or more cards, and every New card carries the lock. Cards change only in their lock flag, and the other columns are untouched. |
| `Rules.Relock` | js/main.js:160 | The `forEach` gives every card the lock value. The list keeps its length and each card keeps everything but its lock flag. |
| `Rules.CheckLockFixpoint` | js/main.js:154-161 | `checkLock` changes nothing on a board whose lock is consistent, so running it twice changes nothing the first run did not. |
| `Rules.RemoveCard` | js/main.js:72-76 | Removes exactly the card at the index from that column, keeping the rest in order. Other columns are unchanged except for the lock flags written on New, whose cards otherwise stay as they were. The total drops by one for an index in range. The lock invariant holds afterwards. |
| `Rules.SpliceKeepsValid` | js/main.js:72-76 | Splicing one card out of a column keeps every checklist well-formed and keeps both column bounds. It removes exactly one card when the actual start is in range and none otherwise. |
| `Rules.MoveCardToInProgress` | js/main.js:107-127 | A no-op unless the card is in New and In process holds fewer than 5. Otherwise the card leaves New and is appended to In process, marked "In process" with the "Modified" comment, and the lock is recomputed. The total is conserved. |
| `Rules.MoveCardToCompleted` | js/main.js:128-137 | A card in In process leaves it and is appended to Done, with no limit. `checkLock` runs in every case. The total is conserved. |
| `Rules.MoveCardToNew` | js/main.js:138-153 | A card in In process leaves it with status "New". It is re-appended to In process with "Modified" when over half done, and appended to New with "Sent for Modified" otherwise. In process never grows, the lock and Done are unchanged, and the total is conserved. |
| `Rules.CheckCardStatus` | js/main.js:272-290 | A card that does not move (or is not on the board) leaves the board unchanged. The total is conserved, and `Valid` is kept. |
| `Rules.StatusCheckCompletes` | js/main.js:277-280 | A completed In process card is marked "Done", dated, and appended to Done. It is removed from In process and the lock is recomputed; New's cards change only in their lock flag. |
| `Rules.StatusCheckSendsBack` | js/main.js:281-285 | An In process card under half done lands at the end of New with "Sent for Modified", and never back in In process. The lock is unchanged. |
| `Rules.StatusCheckMovesForward` | js/main.js:286-288 | A New card over half done, with In process not full, is appended to In process as "In process" with "Modified", and the lock is recomputed. The rest of New keeps its order and changes only in the lock flag. |
| `Rules.StatusCheckStrands` | js/main.js:286-288 | With In process full, the card stays at its place in New, marked "In process". |
| `Rules.StrandedCardSentBackInPlace` | js/main.js:281-285 | A card marked "In process" that sits in New and drops under half done is marked "New" with the send-back comment where it sits. The move back finds nothing in In process, and the lock is not recomputed. |
| `Rules.StrandedCardCompletesInNew` | js/main.js:128-137 | A card marked "In process" that sits in New and is fully checked becomes "Done" in place, followed only by `checkLock`. |
| `Rules.CardRemoveCard` | js/main.js:250-256 | A "Done" card is never removed. Any other card is exactly the board's `removeCard` of that position. Outside New, the card at that index is the one cut out, and the rest keep their order. The total drops by one, and the lock invariant holds. |
| `Rules.CardAddItem` | js/main.js:236-243 | A card refused by `addItem` (already at 5 entries, or below 3) leaves the board unchanged. Otherwise the card with the blank entry appended is written back and the status check runs on it. When that card stays, it sits changed at its place. The total is conserved and `Valid` is kept. |
| `Rules.CardRemoveItem` | js/main.js:244-249 | A card with 3 entries, or a "Done" card, leaves the board unchanged. Otherwise the card with the entry spliced out is written back and the status check runs on it. When that card stays, it sits changed at its place. The total is conserved and `Valid` is kept. |
| `Rules.CardSaveItem` | js/main.js:257-262 | A "Done" card, or an entry index outside the checklist (where the write throws), leaves the board unchanged. Otherwise the card with the entry saved is written back and the status check runs on it. When that card stays, it sits changed at its place. The total is conserved and `Valid` is kept. |
| `Rules.CardEditItem` | js/main.js:263-267 | An accepted `editItem` changes only that card, in place, with no status check. A "Done" card, or an entry index outside the checklist (where the write throws), leaves the board unchanged. |
| `Rules.ToggleItem` | js/main.js:220 | For an existing entry, the card with the checkbox written back is re-evaluated by the status check. When it stays, it sits changed at its place. The total is conserved and `Valid` is kept. |
| `Rules.EditItemText` | js/main.js:221 | For an existing entry, the card with the text written back is re-evaluated by the status check. When it stays, it sits changed at its place. The total is conserved and `Valid` is kept. |
| `Rules.CheckingLastEntryCompletes` | js/main.js:220 | Checking the last unchecked entry of an In process card appends it to Done, marked "Done" and dated, and removes it from In process. |
| `Rules.AddItemCanSendBack` | js/main.js:236-243 | An In process card at 2 of 4 checked sent through `addItem` has 2 of 5. The status check that saving runs sends it to the end of New. |
| `Rules.RemoveUndoesAddCard` | js/main.js:59-76 | Adding a card and then removing it at its index gives back a board whose lock was consistent. |
| `Rules.SendBackLeavesLockStale` | js/main.js:138-153 | From a valid, lock-consistent board with 5 cards in In process, sending one back leaves the lock set with 4 there. An unlocked card is then in New. |
| `Rules.SendBackOverfillsNew` | js/main.js:149 | With New at 3 cards, a card sent back makes it 4. |
| `Rules.Initial` | js/main.js:19-35 | The first board with an empty store is valid, lock-consistent, empty and unlocked. |
| `Columns.Board.constructor` | js/main.js:19-35 | The board starts empty, then `checkLock` runs; it is valid and unlocked. |
| `Columns.Board.CheckLock` | js/main.js:154-161 | The loop writes the lock into every New card in place; the new state is `Rules.CheckLock` of the old. |
| `Columns.Board.AddCard` | js/main.js:37-71 | Returns the alert raised, if any, and leaves the state that `Rules.AddCard` gives. |
| `Columns.Board.RemoveCard` | js/main.js:72-76 | Splices the column in place, then runs `checkLock`; the state is `Rules.RemoveCard`. |
| `Columns.Board.MoveCardToInProgress` | js/main.js:107-127 | The in-place splice, field writes and push give `Rules.MoveCardToInProgress`. |
| `Columns.Board.MoveCardToCompleted` | js/main.js:128-137 | The in-place splice, push and `checkLock` give `Rules.MoveCardToCompleted`. |
| `Columns.Board.MoveCardToNew` | js/main.js:138-153 | The in-place splice, status and comment writes and push give `Rules.MoveCardToNew`. |
| `Columns.Board.CheckCardStatus` | js/main.js:268-290 | Writes the status (and the date or comment), then makes the emitted move; the state is `Rules.CheckCardStatus`. |
| `Columns.Board.CardRemoveCard` | js/main.js:250-256 | Applies the card's guard, then the board's `removeCard`. |
| `Columns.Board.CardAddItem` | js/main.js:236-243 | Pushes the entry in place, then re-evaluates the card. |
| `Columns.Board.CardRemoveItem` | js/main.js:244-249 | Splices the entry in place, then re-evaluates the card. |
| `Columns.Board.CardSaveItem` | js/main.js:257-262 | Clears `editing` in place, then re-evaluates the card. |
| `Columns.Board.CardEditItem` | js/main.js:263-267 | Sets `editing` in place. |
| `Columns.Board.ToggleItem` | js/main.js:220 | Writes the checkbox, then re-evaluates the card. |
| `Columns.Board.EditItemText` | js/main.js:221 | Writes the text, then re-evaluates the card. |

## Left out

- Persistence: `saveToLocalStorage` and `loadFromLocalStorage` (`js/main.js:77-94`) are browser I/O on a JSON string. Saving is left out of every operation. The board starts from an empty store, so a stored board (which need not satisfy `Valid`) is never loaded, and the `!!item.completed` coercion on loading is not modelled.
- The root `new Vue` instance (`js/main.js:294-331`): it only repeats removal and persistence, without the lock logic.
- Templates, component registration and the `column` component's re-emitting methods (`js/main.js:1-17`, `js/main.js:170-234`). The events they route are direct method calls here.
- The template's `:disabled` and `v-if` bindings (`js/main.js:220-231`): these are user-interface restrictions. The commands run whatever those bindings would have shown.
- `alert` messages: `AddCard` returns which test failed. Every other refusal leaves the board unchanged.
- `getColumnTitle` (`js/main.js:95-106`): a display string used only inside alert texts.
- `new Date().toLocaleString()`: it is the `now` parameter, and one user action uses one `now`. For a card sent back, the source reads the clock twice (`js/main.js:283` and `js/main.js:143`), and a second boundary between those two reads is not modelled.
- Floating point: percentages are exact reals. For checklists of 3 to 5 entries, the comparisons with 50 and 100 come out as they do in floating point.
- Vue reactivity and rendering.

