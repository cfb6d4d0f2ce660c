# Chat review labelling: focus stepper, navigator and input rules in Dafny

This project models the logic under the chat-explorer review screen. A reviewer
uploads a CSV of chat transcripts and walks through each conversation message by
message. For each advertiser or bot message, the reviewer labels one category
after another: a multi-select choice set, a 1–5 slider with "N/A"/"D/K"
overrides, or free text. The labelled transcript is then exported. The React
handlers are modelled as pure transitions over immutable values:

- `ChatTypes`: messages, label values (`Choices(seq<string>) | Num(int) | Str(string)`,
  with `'N/A'`, `'D/K'` and the unset `''` carried as strings, as the source does), and the
  sender-to-category-list rule. The category lists are parameters `advCats`, `botCats`.
- `Sequences`: the JavaScript array operations the handlers use: `slice(start)` with
  its negative-start rule, `filter(x => x !== v)`, and `[...new Set(xs)]`.
- `Selection`: the toggle with its sliding window (`handleSelection` in the
  multi-select control and in `LabelCategory`, one shared function), the
  case-insensitive shortcut lookup, and the control's click, shortcut and Enter handlers.
- `FocusedCategory`: one focused category's pending state, its seeding from the stored
  value, the shortcut and slider keys, and the Enter handler that commits, moves back or
  refuses.
- `TextInput`: inserting a line break at the caret on Alt/Meta+Enter.
- `CsvParser`: the row-to-message mapping inside the parse callback.
- `ChatReview`: the screen state (message list, conversation ids, conversation snapshot,
  cursors, focus, shown labels). It covers load, message/conversation navigation, the
  confirm-and-advance stepper, the message-change reset, and export.
  `StepKeepsValid` proves that every event keeps the cursor invariant.

Modelling notes (the model follows the code):

- Export columns are the message's property names (`advertiserID`, `messageText`, …) plus a
  `labelCategories` column holding the label map, not the upload's header names. So an
  exported file does not satisfy the upload's required-field check (`ExportUsesPropertyNames`).
- For a confirm, any sender other than `advertiser` uses the bot category list.
  Visitor messages are excluded only because no category is rendered for them.
- The current conversation is a snapshot taken when the conversation is entered. A confirm
  updates the message list but not the snapshot, so returning to an earlier message of the
  same conversation shows its labels as they were when the conversation was entered.
- When the last category of a conversation's last message is confirmed, the handler rebuilds
  the next conversation from the message list as it was before the confirm. The model does the
  same and proves that this gives the same messages (`OtherConversationUntouched`).
- The message-change reset runs when the current message object changes. Within one snapshot
  every position holds a different object, and different conversations hold different objects.
  So the model runs the reset when the (conversation, message) position changes, and on every
  successful load, which creates new objects.
- With nothing loaded, "next message" sets the index to `min(-1, index + 1) = -1`. This is
  harmless: no message is shown. The invariant allows it.
- A missing required field is thrown inside the parser callback. The model treats it as a
  failed load that shows the row message.
- `handleCategorySelectionConfirmed` stores `selection === 'D/K' ? 'D/K' : selection`, which
  is `selection`. The model writes `selection`.
- The text control's caret position `pos` is the textarea's `selectionStart`, which always lies
  in `[0, |value|]`. That is the only `requires` of the text functions.
- Text lengths are compared as JavaScript counts them, in UTF-16 code units (`Utf16Length`).
  A Dafny string counts Unicode scalar values, so a character outside the Basic Multilingual
  Plane counts twice.

## Model

| member | source | states |
|---|---|---|
| Sequences.SliceFrom | app/components/multi-select-button-control.tsx:34 | `slice(start)` returns a suffix of the array. A negative start keeps `min(-start, length)` elements, and a start past the end keeps none. |
| Sequences.Utf16Length | app/components/focused-label-category.tsx:144 | A string's JavaScript `length` lies between its character count and twice that. It equals the character count exactly when no character is astral, and twice it exactly when all are. A single character counts 2 if astral and 1 otherwise. |
| Sequences.Utf16LengthAppend | app/components/focused-label-category.tsx:144 | The `length` of a concatenation is the sum of the two lengths. With the one-character values, this fixes the count of every string. |
| Sequences.Utf16LengthCountsAstral | app/components/focused-label-category.tsx:144 | The `length` is exactly the number of characters plus the number of astral characters. |
| Sequences.Without | app/components/multi-select-button-control.tsx:32 | `filter(item => item !== x)` drops `x`, keeps every other element, and gets shorter when `x` was present. |
| Sequences.RemoveUnique | app/components/multi-select-button-control.tsx:31-32 | In a duplicate-free selection, removing an option deletes exactly its one position and keeps the rest in order. |
| Sequences.DistinctElements | app/components/chat-review.tsx:35 | `[...new Set(ids)]` contains exactly the ids of the input. |
| Sequences.DistinctNoDup | app/components/chat-review.tsx:35 | `[...new Set(ids)]` contains no id twice. |
| Sequences.DistinctFirstOccurrenceOrder | app/components/chat-review.tsx:35 | `[...new Set(ids)]` lists ids in first-occurrence order: an earlier id in the result first occurs earlier in the input. |
| Selection.ShortcutIndex | app/components/multi-select-button-control.tsx:44-48 | The lookup returns the first option in declaration order whose shortcut matches. It returns none exactly when no shortcut matches. |
| Selection.ShortcutCaseInsensitive | app/components/multi-select-button-control.tsx:44-45 | A key and its upper-case form pick the same option. |
| Selection.HandleSelection | app/components/multi-select-button-control.tsx:25-38 | With a cap of 1 the result is `[option]`, with no deselect. Otherwise a chosen option is filtered out and the rest keep their order. A new option comes last, after the newest `cap - 1` earlier entries. With a cap of 0 nothing is dropped (`slice(-0)`); a negative cap drops the first `-cap` entries. |
| Selection.SelectionStaysWithinCap | app/components/multi-select-button-control.tsx:27-37 | A duplicate-free selection within the cap stays duplicate-free and within the cap. |
| Selection.DeselectKeepsOrder | app/components/multi-select-button-control.tsx:31-32 | Deselecting removes exactly that option and keeps the relative order of the rest. |
| Selection.SlidingWindow | app/components/multi-select-button-control.tsx:34 | Clicking distinct options in turn leaves exactly the newest `cap` of them, in click order, never fewer. |
| Selection.ControlClick | app/components/multi-select-button-control.tsx:25-38 | A click clears the error flag and reports the shared rule's new selection. With cap 1 it reports `[option]`; with a cap above 1 the option ends up selected exactly when it was not selected before. |
| Selection.ControlShortcut | app/components/multi-select-button-control.tsx:40-55 | When the control is unfocused, or the key matches no shortcut, nothing is reported. Otherwise the first matching option is clicked. |
| Selection.ControlEnter | app/components/multi-select-button-control.tsx:57-61 | On Enter the error flag is set exactly when fewer than `minSelection` options are chosen. Nothing is reported. |
| Selection.LabelCategorySelect | app/components/label-categories.tsx:15-28 | The stored selection is the one the multi-select control would report for the same click. Cap 1 gives `[option]`, a chosen option is filtered out, and a new option comes last after the newest earlier entries. The callback gets the category and exactly the stored selection. |
| Selection.LabelCategoryKey | app/components/label-categories.tsx:30-43 | A key with no matching shortcut leaves the selection unchanged and sends nothing. A matching key selects the first matching option. |
| FocusedCategory.MinLength | app/components/focused-label-category.tsx:144 | The text minimum is 10 when it is missing or 0, and the configured value otherwise. |
| FocusedCategory.Initial | app/components/focused-label-category.tsx:34-39 | The `useState` initial selection is empty; the seeding effect (`Seed`) then runs on mount. The slider is the stored number, or 3 when the stored value is not a number. Each override flag is set exactly when its token is stored. The text is the stored string (tokens included), else empty. |
| FocusedCategory.Seed | app/components/focused-label-category.tsx:105-117 | An array sets the selection, a number the slider, `'N/A'` the N/A flag, `'D/K'` the D/K flag, and any other string the text. Every other piece of state is left alone. |
| FocusedCategory.SeedCorrected | app/components/focused-label-category.tsx:105-117 | Corrected seeding: the override flags agree with the stored value; everything else matches `Seed`. |
| FocusedCategory.ClearIfEmpty | app/components/focused-label-category.tsx:119-123 | A focused choice set whose stored value is falsy or an empty array starts empty. Nothing else changes. |
| FocusedCategory.ShortcutToggle | app/components/focused-label-category.tsx:44-58 | Only the selection changes. The first matching option is filtered out if chosen, and the rest keep their order. Otherwise it is appended. With a positive cap only the newest `maxSelection` entries are kept. With no cap or a zero cap nothing is dropped; a negative cap drops the first `-maxSelection` entries. |
| FocusedCategory.ClickOption | app/components/focused-label-category.tsx:161-170 | The new selection is exactly the control's `handleSelection` result for cap `maxSelection \|\| 1`, with every cap covered. The error is hidden and nothing else changes. |
| FocusedCategory.ClickAndShortcutDiffer | app/components/focused-label-category.tsx:52-56 | With no cap, a click on a chosen option keeps it as the only choice, while the shortcut listener removes it. |
| FocusedCategory.SliderKey | app/components/focused-label-category.tsx:65-82 | 'j' gives `max(1, v-1)` and 'k' gives `min(5, v+1)`. 'n' and 'd' toggle their flag only when that override is allowed. Other keys, or an unfocused or non-slider category, change nothing. |
| FocusedCategory.SliderStaysInRange | app/components/focused-label-category.tsx:69-72 | A slider value in [1,5] stays in [1,5] after any sequence of keys. |
| FocusedCategory.SliderValue | app/components/focused-label-category.tsx:142 | N/A wins: the N/A flag commits `'N/A'`, otherwise the D/K flag commits `'D/K'`. Otherwise the slider number is committed. |
| FocusedCategory.OverrideBeatsNumber | app/components/focused-label-category.tsx:142 | With an override set, the committed token does not depend on the slider value. |
| FocusedCategory.KeyDown | app/components/focused-label-category.tsx:125-150 | Alt/Meta+Enter does nothing, and Shift+Enter only asks to move back. A plain Enter commits the candidate exactly when the control accepts it: at least `minSelection \|\| 0` choices, any slider state, or text of at least the minimum length in UTF-16 units. A refused choice set shows its error; refused text changes nothing. |
| FocusedCategory.SubmitText | app/components/focused-label-category.tsx:202-207 | The Submit button commits the text exactly when its UTF-16 length reaches the minimum. It does what a plain Enter does. |
| FocusedCategory.TextMinimumDefault | app/components/focused-label-category.tsx:143-146 | With the default minimum, a text of 9 UTF-16 units is refused and one of 10 is committed. |
| FocusedCategory.AstralTextMeetsMinimum | app/components/focused-label-category.tsx:144 | Five emoji outside the Basic Multilingual Plane (5 characters, 10 UTF-16 units) meet the default minimum and are committed. |
| FocusedCategory.SeedKeepsStaleOverride | app/components/focused-label-category.tsx:105-117 | As written, a component showing N/A that is seeded with the number 4 still commits N/A. |
| FocusedCategory.CorrectedSeedRoundTrip | app/components/focused-label-category.tsx:105-117 | With corrected seeding, confirming a slider right after seeding commits exactly the stored value. |
| FocusedCategory.InitialRoundTrip | app/components/focused-label-category.tsx:35-37 | A freshly mounted slider category commits exactly its stored number or token. |
| TextInput.InsertNewline | app/components/text-input-control.tsx:26-27 | The result is one character longer, with `'\n'` at `pos` and the text before and after `pos` unchanged. |
| TextInput.InsertNewlineUndo | app/components/text-input-control.tsx:27 | Removing the inserted break gives back the original text. |
| TextInput.KeyDown | app/components/text-input-control.tsx:21-37 | Alt/Meta+Enter inserts the break at the caret and requests the caret at `pos + 1`. Any other key, plain Enter included, leaves the value unchanged. |
| CsvParser.InitialLabels | app/utils/csv-parser.ts:25-34 | The label keys are exactly the advertiser and bot category names, and every value is `''`. |
| CsvParser.MapRows | app/utils/csv-parser.ts:19-46 | The mapping succeeds exactly when every row is complete, giving one message per row in order. Otherwise it fails at the first incomplete row, numbered index + 2. |
| CsvParser.ParseCsv | app/utils/csv-parser.ts:12-46 | A library error fails with its first message. Otherwise rows map in order: each column goes to its field, `text` to the message text, and labels start unset. A missing field fails at its 1-based row. |
| CsvParser.LoadedLabelsComplete | app/utils/csv-parser.ts:25-34 | Every loaded message carries every category of both lists, unset, whatever its sender. |
| CsvParser.ErrorText | app/utils/csv-parser.ts:15-22 | A library error shows its message. A missing field shows `Row N is missing required fields`, with N printed in decimal. |
| CsvParser.DecimalRoundTrip | app/utils/csv-parser.ts:22 | The printed row number reads back as the row number. |
| ChatReview.InConversationMembers | app/components/chat-review.tsx:37 | The filter keeps exactly the messages with the given conversation id. |
| ChatReview.InConversationAppend | app/components/chat-review.tsx:37 | The filter distributes over concatenation, so a conversation keeps load order. |
| ChatReview.Load | app/components/chat-review.tsx:35-40 | After a load the ids are the deduplicated conversation ids and both cursors are 0. The current conversation is the filter on the first id. When it is non-empty, focus is 0 and the shown labels are its first message's. |
| ChatReview.Settle | app/components/chat-review.tsx:69-75 | When the position changes onto a message, focus returns to 0 and the shown labels become that message's. Otherwise nothing changes; only focus and shown labels can ever change. |
| ChatReview.ResetFocus | app/components/chat-review.tsx:71-74 | With a current message, focus is 0 and the shown labels are its labels. With none, nothing changes. |
| ChatReview.LoadConversationOrder | app/components/chat-review.tsx:35-37 | The loaded ids are duplicate-free, cover every message's id, and follow first-occurrence order. The current conversation holds exactly the messages with the first id. |
| ChatReview.Upload | app/components/chat-review.tsx:28-46 | A failed parse only shows its error. A successful one clears the error and loads. |
| ChatReview.PreviousMessage | app/components/chat-review.tsx:97-99 | The index becomes `max(0, index - 1)`. When it lands on a message that changed, focus and selections reset. With no message there, they are kept. Nothing else changes. |
| ChatReview.NextMessage | app/components/chat-review.tsx:101-103 | The index becomes exactly `min(length - 1, index + 1)`, so it stays in range when it started in range. When it lands on a message that changed, focus and selections reset. With no message there, they are kept. Nothing else changes. |
| ChatReview.PreviousConversation | app/components/chat-review.tsx:105-111 | Nothing happens at the first conversation. Otherwise it moves back exactly one, rebuilds the conversation by filtering on the new id, and resets the index to 0. Focus and selections reset to the new first message when there is one. Nothing else changes. |
| ChatReview.NextConversation | app/components/chat-review.tsx:113-119 | Nothing happens at the last conversation. Otherwise it moves forward exactly one, rebuilds the conversation by filtering on the new id, and resets the index to 0. Focus and selections reset to the new first message when there is one. Nothing else changes. |
| ChatReview.Scrub | app/components/chat-review.tsx:92-95 | The scrubber jumps to the chosen position, and focus resets if the position changed. Choosing the current position changes nothing. |
| ChatReview.NavKey | app/components/chat-review.tsx:121-137 | A Tab that is not a repeat steps back (with Shift) or forward, but not past the end it approaches. A repeated Tab, or one at that end, does nothing. The arrow keys step conversations, and other keys do nothing. |
| ChatReview.ApplyLabel | app/components/chat-review.tsx:153-165 | The label is written into every message with the current conversation id and time. No other message, and no other label key, changes. |
| ChatReview.OtherConversationUntouched | app/components/chat-review.tsx:189-192 | A confirm leaves every other conversation's messages unchanged. |
| ChatReview.MoveToNext | app/components/chat-review.tsx:184-197 | It moves to the next message with focus 0, else to the first message of the next conversation (rebuilt from the list the handler closed over) with focus 0. At the very last message it changes nothing. The messages, ids, selections and error are never touched. |
| ChatReview.Confirm | app/components/chat-review.tsx:146-182 | The label is written into the matching messages. Before the sender's last category, focus moves to the next category and nothing else moves. After the last category of the very last message, the shown selections gain the written value and nothing else changes. |
| ChatTypes.CategoriesFor | app/components/chat-review.tsx:170-172 | An `advertiser` message uses the advertiser list, and any other sender the bot list. |
| ChatReview.Back | app/components/chat-review.tsx:199-201 | Focus becomes `max(0, focus - 1)`, and nothing stored changes. |
| ChatReview.StepKeepsValid | app/components/chat-review.tsx:97-201 | Every event keeps the cursor invariant. Ids stay deduplicated, and a loaded transcript has a current message whose snapshot matches the list up to labels. Focus stays within the sender's categories. |
| ChatReview.ConfirmValid | app/components/chat-review.tsx:146-197 | A confirm keeps the cursor invariant, including when it moves on. |
| ChatReview.FocusResetsWhenMessageChanges | app/components/chat-review.tsx:69-75 | Whatever the event, when the shown message changes, focus is 0 and the shown labels are that message's. |
| ChatReview.ConfirmAdvancesFocus | app/components/chat-review.tsx:174-177 | Before the last category, a confirm moves focus to the next one and keeps the position. |
| ChatReview.ConfirmMovesToNextMessage | app/components/chat-review.tsx:184-188 | After the last category of a non-final message, it moves to the next message with focus 0. |
| ChatReview.ConfirmMovesToNextConversation | app/components/chat-review.tsx:189-195 | After the last category of a conversation's last message, it moves to the next conversation's first message with focus 0. That conversation is up to date. |
| ChatReview.ConfirmAtEndKeepsCursors | app/components/chat-review.tsx:146-197 | On the last message of the last conversation, no cursor moves. The shown selections hold the written value, and nothing else but the messages changes. |
| ChatReview.ExportRow | app/components/chat-review.tsx:49-54 | A row has the message's properties plus one column per label. A label wins over a property of the same name. |
| ChatReview.Export | app/components/chat-review.tsx:48-54 | Export gives exactly one row per loaded message, in load order, across all conversations. |
| ChatReview.ExportAfterLoad | app/components/chat-review.tsx:48-54 | Right after a load there is one row per data row, with every category column present and unset. |
| ChatReview.ExportUsesPropertyNames | app/components/chat-review.tsx:49-54 | Exported rows carry `advertiserID`/`messageText`, not the upload's `advertiser_id`/`text`. |

## Findings

| source | as written | input that shows it | evidently intended | confidence | as-written member | corrected member |
|---|---|---|---|---|---|---|
| app/components/focused-label-category.tsx:105-117 | The seeding effect sets only the state matching the stored value's type and never clears the N/A or D/K flag. Same-sender messages reuse the component (it is keyed by category name), so a flag outlives the message it was set on. | A slider category is set to N/A on one message. The next message of the same sender stores `4` (or `''`) for it. The flag is still set, so Enter commits `'N/A'`. | The flags follow the stored value, so a confirm right after seeding commits the stored value. | medium; not executed | FocusedCategory.SeedKeepsStaleOverride | FocusedCategory.CorrectedSeedRoundTrip |

## Left out

- CSV reading and writing by the parsing library (`Papa.parse`, `Papa.unparse`), the file input and the download link are left out. The model starts from rows already keyed by header and ends at rows as maps; column order and cell serialization are the library's.
- The parse promise is left out. The missing-field error is thrown inside the library callback, so the promise may never settle; the model shows it as a failed load instead.
- React rendering, effect scheduling, state batching, stale closures and listener registration are left out. Each handler is one sequential transition, and the message-change effect is applied at the end of the transition that moves.
- Composition of the two shortcut listeners that fire on the same key press (`ShortcutToggle` and `ControlShortcut`) is left out. The outcome depends on event order; each rule is verified on its own, and `ClickAndShortcutDiffer` shows they can disagree.
- The global Enter `preventDefault` listener (focused-label-category.tsx:84-93), the focus and scroll effects, CSS, and the textarea's `maxLength` are left out. They are browser behaviour.
- `TextInput.KeyDown` covers only the caret position it requests. Whether the element can still be reached in the next animation frame is browser behaviour outside the model.
- The screenshot lookup (`getScreenshotUrl`) and the JSON configuration files are left out because they are static configuration. Category lists are parameters.
- slider-control.tsx is left out: it is presentation over library components, which enforce the slider's 1..5 bounds.
- app/types/chat.ts is used only for the datatypes; the unused reviewer-notes state has no behaviour.
- Selection.Upper: case conversion covers ASCII letters only. Unicode case mapping is not modelled.
- Selection.ShortcutIndex: options are given in `Object.entries` order. JavaScript's placement of integer-like keys first is not modelled.
- ChatReview.Scrub: the range input's string value and `parseInt` are not modelled. The position is taken as an integer the control offers.
- TextInput.InsertNewline: `pos` and the requested caret are character indexes, while the browser's `selectionStart` counts UTF-16 units. The two agree when no astral character comes before the caret; the model does not translate between them.
- TextInput.KeyDown: the same character-index reading of `selectionStart` as `TextInput.InsertNewline`.
