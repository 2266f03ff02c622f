# Learning-center progress, user store and learning modal — a Dafny model

This project models the parts of the DeepSea home page (`src/App.tsx`) that carry state:

- **Progress calculator.** `courseProgress` gives the share of a course's lessons that are completed. `nextLesson` gives the lesson to resume. The progress bar rounds and clamps the ratio to a percentage.
- **Learning-center mutations.** `purchasedCourses` and `recent` are the derived lists. `markComplete` and `jumpTo` build the new `progress` map that the page hands to the store.
- **User store (`useUser`).** It holds one persisted blob under the key `"dsq-user"`. The blob is read once at start-up, with a fixed demo state as the fallback. `patch` shallow-merges a partial state over the previous state and writes the whole result back.
- **Learning modal.** Opening locks page scrolling, remembers the focused element, focuses the dialog and registers an Escape listener. Closing undoes all of this. "View tracks" forgets the remembered element before closing, so focus is not given back.

Files and modules:

- `catalog.dfy`: module `Types` holds the data model of `src/App.tsx:14-40`. Module `Catalog` holds the static course catalog and the demo purchases (`src/App.tsx:42-84`).
- `progress.dfy`: module `Progress`, the calculator and its lemmas.
- `learning_center.dfy`: module `LearningCenter`, the derived lists, the two mutations and their lemmas.
- `user_store.dfy`: module `UserStore`. It holds the codec, `Load` and `Merge` as functions, and the class `Store`, whose `state` and `stored` fields are updated in place.
- `modal.dfy`: module `Modal`, the class `LearningModal` with its lifecycle methods and three client methods that chain them.
- `scenarios.dfy`: module `Scenarios`, a three-lesson walkthrough checked on concrete values.

Modelling choices:

- The ratio is an exact `real`, or `NotANumber` for the `0 / 0` of a started course that has no lessons. `Math.round(x)` is `floor(x + 1/2)`.
- `completed` is an optional list. The page always writes one, but the readers guard against a missing one, and `jumpTo`'s spread keeps a missing one missing.
- JSON serialisation is an identity codec. The storage slot holds the serialised state, holds text that does not parse, or is empty.
- Focus is abstracted to four kinds of element: the body, the dialog (which stands for everything inside it), other HTML elements, and non-HTML elements such as SVG ones.

In these places the model follows the code as written:

- **Reading the blob.** A stored blob that parses is returned verbatim, whatever its shape. Only a missing blob or a parse failure gives the default state.
- **Writing the blob.** `patch` always writes to storage. It has no in-memory fallback when storage is unavailable.
- **`completed`.** It is a list, not a set. `markComplete` de-duplicates the whole list, keeping first occurrences in order.
- **`courseProgress`.** It is also 0 when a record has no completed list, and it is NaN for a started course without lessons.
- **Repeated open and close.** Opening an open modal or closing a closed one changes nothing.

## Model

| member | source | states |
|---|---|---|
| `Catalog.CatalogWellFormed` | src/App.tsx:42-84 | The shipped catalog has three courses with distinct keys. Every course has at least one lesson, and lesson ids are distinct within a course. Both demo purchase keys are catalog keys. |
| `Progress.CompletedLessons` | src/App.tsx:379 | The filtered lessons are exactly the course's lessons whose id is completed, and there are no more of them than the course has lessons. |
| `Progress.CompletedCountIsIndexCount` | src/App.tsx:379 | The filtered count equals the number of lesson positions whose id is completed. |
| `Progress.CountDependsOnCourseIdsOnly` | src/App.tsx:379 | Two completed lists that agree on the course's own lesson ids give the same filtered lessons. |
| `Progress.CountMonotone` | src/App.tsx:379 | If one completed list contains another, its filtered count is at least as large. |
| `Progress.CountStrictlyGrows` | src/App.tsx:379 | Adding the id of a lesson that is not yet completed raises the filtered count. |
| `Progress.CountAllDone` | src/App.tsx:379 | With every lesson id completed, the filtered count is the full lesson count. |
| `Progress.CourseProgress` | src/App.tsx:376-381 | The ratio is 0 without a record or without a completed list. It is NaN exactly when a completed list exists and the course has no lessons. Otherwise it lies in [0, 1]. |
| `Progress.CourseProgressIsFraction` | src/App.tsx:379-380 | For a started course with lessons, the ratio is the number of completed lesson positions divided by the full lesson count. |
| `Progress.ProgressIgnoresForeignIds` | src/App.tsx:379-380 | Appending ids that are not lesson ids of the course leaves its ratio unchanged. |
| `Progress.ProgressMonotone` | src/App.tsx:379-380 | Appending ids to a course's completed list never lowers its ratio. |
| `Progress.ProgressFull` | src/App.tsx:379-380 | A course with every lesson completed has ratio 1. |
| `Progress.FirstIncomplete` | src/App.tsx:387 | The result is the first position whose lesson id is not done, with every earlier one done. It is absent only when every lesson is done. |
| `Progress.NextLesson` | src/App.tsx:383-388 | The result is present exactly when the course has lessons, and it is always one of them. Without a record it is the first lesson. With a record, it is the first lesson not completed, with every earlier lesson completed. When all lessons are completed it is the last lesson. |
| `Progress.Round` | src/App.tsx:115 | The result is the integer within half a unit of the input, with halves rounded up. |
| `Progress.Percent` | src/App.tsx:115 | The bar percentage is present exactly for a numeric ratio and lies in [0, 100]. For a ratio in [0, 1] the clamp changes nothing. |
| `Progress.PercentOfProgress` | src/App.tsx:464-477 | For every numeric ratio the calculator yields, the clamped bar value equals the unclamped badge value, and both are within half a point of the exact percentage. |
| `LearningCenter.PurchasedCourses` | src/App.tsx:391-394 | The result holds exactly the catalog courses whose key was purchased, and it keeps catalog order. |
| `LearningCenter.Recent` | src/App.tsx:396-400 | The result holds exactly the given courses whose bookmark is present and non-empty, each paired with its bookmark, in the given order. |
| `LearningCenter.Dedup` | src/App.tsx:404 | The result has no duplicates and the same members as the input. |
| `LearningCenter.DedupKeepsFirstOccurrenceOrder` | src/App.tsx:404 | De-duplication keeps the order of first occurrence: of any two elements of the result, the earlier one occurs in the input before the later one first does. |
| `LearningCenter.DedupOfDistinct` | src/App.tsx:404 | A list without duplicates comes through de-duplication unchanged. |
| `LearningCenter.AddToDistinct` | src/App.tsx:404 | Adding an id to a list without duplicates keeps the list's order. The id is appended only if it is new. |
| `LearningCenter.MarkComplete` | src/App.tsx:402-411 | The course's record is bookmarked at the lesson. Its completed list has no duplicates and holds the old ids plus the lesson's id. Every other course's record is unchanged, and only the course's key may be new. |
| `LearningCenter.MarkCompleteAppends` | src/App.tsx:403-404 | If the old list has no duplicates, the new list is the old list itself when the id was present, and the old list with the id appended otherwise. |
| `LearningCenter.MarkCompleteIdempotent` | src/App.tsx:402-411 | Marking the same lesson twice gives the same progress map as marking it once. |
| `LearningCenter.MarkCompleteFixedPoint` | src/App.tsx:402-411 | A record that already lists the lesson once and bookmarks it is left as it is. |
| `LearningCenter.NothingCompleted` | src/App.tsx:378-379 | An empty completed list selects no lesson. |
| `LearningCenter.ProgressOfRecordOrFresh` | src/App.tsx:376-381 | For a course with lessons, a missing record or a missing list gives the same ratio as an empty completed list. |
| `LearningCenter.ProgressAfterMark` | src/App.tsx:402-411 | After marking, the course's ratio is the share of lessons whose id is in the old list plus the marked id. |
| `LearningCenter.MarkCompleteNeverLowers` | src/App.tsx:402-411 | Marking any lesson of a course with lessons never lowers that course's ratio. |
| `LearningCenter.MarkNextLessonAdvances` | src/App.tsx:465-492 | Pressing "complete" on the suggested next lesson of an unfinished course strictly raises its ratio. |
| `LearningCenter.JumpTo` | src/App.tsx:413-421 | The course's record is bookmarked at the lesson, and its completed list is kept as it was. A fresh record gets an empty list. Every other record is unchanged. |
| `LearningCenter.JumpToKeepsProgress` | src/App.tsx:413-421 | For a course with lessons, jumping changes neither its ratio nor its next lesson. |
| `LearningCenter.JumpToEmptyCourse` | src/App.tsx:376-381 | For a course without lessons and without a record, jumping turns a ratio of 0 into NaN. |
| `LearningCenter.MutationsKeepOtherCourses` | src/App.tsx:405-410 | Neither mutation changes another course's ratio or next lesson. |
| `LearningCenter.MutationsKeepProgressFitting` | src/App.tsx:440-443 | A record fits its course when its completed ids and bookmark are all lesson ids of that course. If every record fits, the keys are unique, and the lesson belongs to the course, both mutations keep every record fitting. Every recent bookmark then names a lesson of its course. |
| `LearningCenter.RecentLastIsALesson` | src/App.tsx:440-443 | When every record fits its course, each recent bookmark is found among its course's lessons. |
| `LearningCenter.NextLessonOnPurchasedCatalog` | src/App.tsx:463-465 | Every purchased catalog course has a next lesson, so the non-null assertion on it holds. |
| `UserStore.Decode` | src/App.tsx:352-353 | Parsing fails exactly on unparsable text. |
| `UserStore.DecodeEncode` | src/App.tsx:352-353 | Parsing gives back exactly the state that was serialised. |
| `UserStore.Load` | src/App.tsx:350-362 | A missing or unparsable blob gives the default state: name "Demo 用户", the demo purchases, empty progress, logged in. A stored serialised state is returned as it is. |
| `UserStore.Merge` | src/App.tsx:367 | Each field the patch gives replaces the previous value whole. Each field it leaves out is kept. |
| `UserStore.MergeLaws` | src/App.tsx:365-371 | The empty patch changes nothing, merging is idempotent, and two merges in a row equal one merge of the combined patch. |
| `UserStore.Store.constructor` | src/App.tsx:350-362 | The initial state is what the slot loads to, and the slot is not written. |
| `UserStore.Store.Patch` | src/App.tsx:365-371 | The new state is the merge over the previous state. The slot then holds its serialisation, so a reload reads back exactly the new state. |
| `UserStore.Store.MarkComplete` | src/App.tsx:402-411 | Only `progress` changes, to the map `markComplete` builds from it, and the result is persisted. |
| `UserStore.Store.JumpTo` | src/App.tsx:413-421 | Only `progress` changes, to the map `jumpTo` builds from it, and the result is persisted. |
| `UserStore.Store.LogOut` | src/App.tsx:433 | Only the login flag changes, to false, and the result is persisted. |
| `UserStore.Store.DemoLogIn` | src/App.tsx:528 | The state is logged in with the demo purchases. Name and progress are kept, and the result is persisted. |
| `UserStore.RestartAfterMark` | src/App.tsx:350-371 | A fresh demo user who completes a lesson and reloads finds the default profile. The progress then holds only that course, with the lesson completed and bookmarked. |
| `Modal.LearningModal.constructor` | src/App.tsx:228-230 | The modal starts closed with no listener and no remembered element, on the given overflow and focus. The dialog is not rendered, so it cannot be the focused element. |
| `Modal.LearningModal.Open` | src/App.tsx:232-245 | From closed, it remembers the focused element if it is an HTML element, saves the overflow, sets it to "hidden", focuses the dialog and registers the Escape listener (lines 247-256). It changes nothing when already open. |
| `Modal.LearningModal.Close` | src/App.tsx:241-244 | From open, it restores the saved overflow and removes the listener (lines 257-259). Focus inside the removed dialog falls to the body. Then the remembered element, if there is one, is focused. Focusing a remembered body does nothing, so focus that had left the dialog stays where it was. It changes nothing when closed. |
| `Modal.LearningModal.FocusMoves` | src/App.tsx:289-300 | Focus moves to the given element and nothing else changes. The overlay has no focus trap, and the modal is rendered before the page header (line 604), so while open focus may leave the dialog. The dialog itself is focusable only while rendered (lines 262-264). |
| `Modal.LearningModal.Escape` | src/App.tsx:250-255 | With the listener registered, Escape has the effect of a close. Without it, nothing changes. |
| `Modal.LearningModal.ClickOverlay` | src/App.tsx:289-303 | On the open modal, the mouse press first moves focus. A press on the backdrop, which cannot take focus, moves it to the body. A press inside the dialog moves it to the dialog, whose container has `tabIndex={-1}`. A click on the backdrop itself then closes with the full cleanup of a close: the saved overflow is restored, the listener is removed, and focus goes to a remembered element other than the body, or stays on the body. A click elsewhere inside the dialog (not on one of its buttons, which close through `Close` or `GoTracks`) keeps the modal open, with its listener, overflow and remembered element unchanged. While closed, nothing is rendered and nothing changes. |
| `Modal.LearningModal.GoTracks` | src/App.tsx:266-287 | A button of the open dialog (lines 325-331), so it runs only while open. It forgets the remembered element, then closes. The overflow is restored and focus is not given back: focus in the dialog falls to the body, focus elsewhere stays. It scrolls to the tracks section if the section exists, and sets the location hash otherwise. |
| `Modal.OpenThenClose` | src/App.tsx:232-260 | Open followed by close restores the overflow and leaves no listener. Focus returns to the element focused before when that was an HTML element, and goes to the body otherwise. |
| `Modal.OpenThenGoTracks` | src/App.tsx:266-270 | Open followed by "view tracks" restores the overflow but leaves focus on the body. |
| `Modal.OpenThenFocusAwayThenEscape` | src/App.tsx:232-260 | Open, Tab to an element behind the overlay, then Escape: the overflow is restored, and focus returns to the element focused before opening when that was an HTML element other than the body. Otherwise focus stays on the element Tab reached. |
| `Modal.OpenThenEscapeTwice` | src/App.tsx:247-260 | Open then Escape closes through the listener. A second Escape finds no listener. The page ends exactly as one close leaves it: the overflow is restored, no listener is left, and the remembered element is the one captured at opening. Focus is on the earlier element when that was an HTML element, and on the body otherwise. |
| `Scenarios.StartsAtFirstLesson` | src/App.tsx:383-385 | With no progress, resume starts at the first lesson. |
| `Scenarios.FirstCompletion` | src/App.tsx:402-411 | Completing the first lesson gives the record with completed ["l1"] and bookmark "l1". |
| `Scenarios.FirstPercent` | src/App.tsx:115 | One lesson of three completed shows 33 percent. |
| `Scenarios.SecondCompletion` | src/App.tsx:402-411 | Completing the second lesson appends it: the list becomes ["l1", "l2"]. |
| `Scenarios.SecondPercent` | src/App.tsx:115 | Two lessons of three completed show 67 percent. |
| `Scenarios.ThirdCompletion` | src/App.tsx:402-411 | Completing the third lesson gives the list ["l1", "l2", "l3"]. |
| `Scenarios.FinishedCourse` | src/App.tsx:383-388 | A finished course shows 100 percent and resumes at its last lesson. |
| `Scenarios.JumpDoesNotComplete` | src/App.tsx:413-421 | A jump on a fresh record bookmarks the lesson with an empty completed list, and the course stays at 0 percent. |

## Left out

- Layout, JSX, styling, the static track and case data, titles and durations: they are display only. Catalog titles are kept as data.
- The smoke tests and extra checks: they query and log the rendered DOM and never change state.
- The clock interval: it is a timer that formats wall-clock time.
- Real `localStorage` and `JSON`. A `getItem` that throws is the same as a missing blob. `setItem` runs inside the state updater, so a `setItem` that throws (quota exceeded, storage unavailable) makes React's next render of the page throw. The model's write always succeeds.
- The scrolling itself (`requestAnimationFrame` versus an immediate `scrollIntoView`) and the hash write. Only the choice between scrolling and setting the hash is modelled.
- React scheduling and re-rendering. Each effect with its cleanup is a method call. `markComplete` and `jumpTo` read the rendered `progress` snapshot; the store methods build from the current state, which is the same thing once each click is rendered before the next.
- The guards for a missing `document` or `window` (server-side rendering): the model always runs in a browser.
- Unmounting the whole page runs the same cleanup as `Close`; it is not a separate method.
- Focus moving between elements inside the open dialog: the dialog is one element in the model. Focus leaving the dialog for the page behind the overlay is modelled by `FocusMoves`.
- Blobs that parse to something other than a user state. The model's parsed blob always holds a `UserState`, with only `completed` and `last` optional. The code returns any parsed value as is, such as `null` or an object without `purchased`. Such a value would then throw on first use; the model cannot represent it.
- Floating-point rounding: ratios and percentages are exact rationals and integers.
