# Trip planner: itinerary store and page helpers, in Dafny

This project models the core of a personal travel-itinerary manager. Authenticated
users keep "roteiros" (itineraries). Each roteiro has a destination, a date range, an
optional budget, optional notes and an ordered list of "atividades" (activities).

Two parts are modelled:

- **The `/api/roteiros` route** (`src/app/api/roteiros/route.ts`). The `GET`, `POST`,
  `PUT` and `DELETE` handlers are pure transitions over an abstract store.
  - The store (`Store.Db`) maps a roteiro id to its record and carries the id generator.
  - Activities live inside their roteiro, so deleting a roteiro deletes them with it.
  - Each handler takes the store, the session (the caller identity, which may be
    missing), the request fields and a `Backend` flag standing for storage failure.
  - `POST`, `PUT` and `DELETE` return a `Route.Step`: the response and the new store.
    `GET` is a method that returns the response.
  - Responses carry their status code: 401, 404, 200, 201, 500, or `NoResponse`.
    `NoResponse` is the catch block that logs the error and returns nothing.
- **The client page's helpers** (`src/app/page.tsx`). These are:
  - the case-insensitive destination filter;
  - adding an activity with the Enter key and removing one by index;
  - loading a record into the form for editing;
  - the create-or-update request the save sends, and what the form does with the answer.

The store invariant `Store.Valid` says:

- every record is stored under its own id;
- every id in use is below the generator's next id;
- no activity id is used twice;
- no record keeps a falsy budget or an empty activity date.

Every handler keeps this invariant.

Three behaviours of the code worth knowing:

- A budget of 0 is stored as null, the same as an absent budget.
- Write-path failures return no response, not an explicit error status.
- The route checks neither that the start date is before the end date nor that the destination is non-empty. The page's `required` attribute (src/app/page.tsx:210, 214, 218) only refuses an empty field, and a blank one passes.

## Model

| member | source | states |
|---|---|---|
| Route.Caller | src/app/api/roteiros/route.ts:15-22 | the authentication gate `!session \|\| !session.user`, repeated at lines 38, 74 and 120: a caller exists exactly when there is a session with a user, and the caller is that user's id, the identity every ownership test uses (lines 22, 59, 87, 131) |
| Route.Get | src/app/api/roteiros/route.ts:13-34 | 401 without a session user. 500 when storage fails. Otherwise 200 with exactly the caller's itineraries, each once, each with its activities, newest first |
| Route.InsertNewest | src/app/api/roteiros/route.ts:27 | inserting one itinerary keeps a list ordered by `createdAt` descending and changes nothing else in it |
| Route.Post | src/app/api/roteiros/route.ts:36-70 | 401 without a session user. No response when `atividades` is missing or storage fails. Otherwise 201: one new itinerary under an id not yet in the store, owned by the session user, with fields from the body and activities matching the input one for one; existing records untouched; invariant kept |
| Route.Put | src/app/api/roteiros/route.ts:72-116 | 401 without a session user. No response on storage failure or missing id. 404, store unchanged, for a missing or foreign id. No response when `atividades` is missing. Otherwise 200: scalar fields rewritten, absent notes kept, id/owner/creation time kept, activity list replaced by fresh activities matching the input, other records untouched |
| Route.Delete | src/app/api/roteiros/route.ts:118-143 | 401 without a session user. No response on storage failure or missing id. 404, store unchanged, for a missing or foreign id. Otherwise 200 and exactly that itinerary is removed |
| Route.WriteKeepsValid | src/app/api/roteiros/route.ts:46-64 | writing a record whose activities carry freshly generated ids keeps the store invariant, including unique activity ids |
| Store.StoredBudget | src/app/api/roteiros/route.ts:51 | a budget is stored as null exactly when it is absent or 0, and unchanged otherwise |
| Store.StoredDate | src/app/api/roteiros/route.ts:56 | an activity date is stored as null exactly when it is absent or empty, and unchanged otherwise |
| Store.CreateActivities | src/app/api/roteiros/route.ts:53-58 | the created activities match the inputs one for one and in order (same name, normalised date) under consecutive fresh ids |
| RouteProps.PostIgnoresClaimedOwner | src/app/api/roteiros/route.ts:44-59 | whatever `userId` the body claims, `POST` behaves identically; the owner comes from the session |
| RouteProps.CreatedIsListedOnce | src/app/api/roteiros/route.ts:46-66 | after a successful create, any listing of the caller's itineraries contains the created one exactly once |
| RouteProps.DeleteTwiceIsNotFound | src/app/api/roteiros/route.ts:127-139 | deleting an owned itinerary succeeds; deleting it again is a 404 that changes nothing |
| RouteProps.OthersRecordsUntouchable | src/app/api/roteiros/route.ts:87-89 | `PUT` and `DELETE` on another user's itinerary return 404 and leave the store as it was; for both, the response is the same as for an id that does not exist |
| RouteProps.DeleteCascades | src/app/api/roteiros/route.ts:135-137 | after `DELETE` the store's activity ids are the previous ones minus those of the deleted itinerary |
| RouteProps.PutReplacesActivities | src/app/api/roteiros/route.ts:99-105 | after `PUT` the itinerary's list matches the new input, and none of its previous activities exists anywhere in the store |
| RouteProps.ReplaceAfterCreate | src/app/api/roteiros/route.ts:91-110 | creating with one activity list and then replacing with another leaves only the second list; no activity of the first survives |
| Text.Trim | src/app/page.tsx:154 | the trimmed name is a slice of the input with only white space around it; it neither starts nor ends with white space; it is empty exactly when the input is blank |
| Text.Lower | src/app/page.tsx:149 | lower-casing keeps the length, leaves no ASCII capital, and agrees with the input up to case |
| Text.Includes | src/app/page.tsx:149 | `includes` is true exactly when the needle occurs at some position of the text |
| Page.Filtrados | src/app/page.tsx:148-150 | the filtered list is no longer than the list, and every kept itinerary matches the search, ignoring case |
| Arrays.FilterCounts | src/app/page.tsx:148-150 | `filter` keeps each element its callback accepts exactly as often as the list holds it, and no other element |
| PageProps.FiltradosCounts | src/app/page.tsx:148-150 | the filter keeps each matching itinerary exactly as often as the list holds it, and no non-matching one |
| Arrays.FilterAppend | src/app/page.tsx:148-150 | `filter` distributes over concatenation, so it keeps relative order |
| PageProps.FiltradosAppend | src/app/page.tsx:148-150 | filtering a concatenation is the concatenation of the filtered parts, so relative order is preserved |
| PageProps.FiltradosEmptySearch | src/app/page.tsx:148-150 | an empty search keeps the whole list in order |
| PageProps.FiltradosIdempotent | src/app/page.tsx:148-150 | filtering twice with the same search is the same as filtering once |
| Page.AdicionarAtividade | src/app/page.tsx:152-172 | a key other than Enter changes nothing. Enter on a blank name changes nothing and raises an error toast. Otherwise exactly one activity is appended: trimmed name, no id, empty date made absent. Both inputs are cleared and nothing else changes |
| Arrays.FilterOutIndex | src/app/page.tsx:175 | filtering out one position removes exactly that element when it is in range, and nothing otherwise |
| Page.RemoverAtividade | src/app/page.tsx:174-176 | removes exactly the activity at the index and keeps the others in order; an out-of-range index changes nothing; other form fields are untouched |
| PageProps.AddThenRemoveLast | src/app/page.tsx:152-176 | removing the last activity undoes adding one |
| Page.BudgetInput | src/app/page.tsx:144 | the budget input is empty exactly when the record has no budget |
| Page.EditarRoteiro | src/app/page.tsx:139-146 | enters edit mode for the record's id and loads its scalar fields; absent notes become empty text; the form's activity list, new-activity inputs and search are left as they were |
| Page.Initial | src/app/page.tsx:33-42 | the form starts in create mode with no activities and every text input and the budget empty |
| Page.ToInputs | src/app/page.tsx:84 | the body's `atividades` has one entry per form activity, with the same name and date, in order |
| Page.SaveRequest | src/app/page.tsx:71-86 | the request is a PUT to the record's URL exactly when an id is being edited, and otherwise a POST to the collection; the body carries the form's destination, dates, budget and notes, and each activity's name and date in order, with no id and no owner |
| Page.AfterSave | src/app/page.tsx:88-111 | on success every form field is reset, edit mode ends, and the new-activity inputs and search stay; on failure the form is unchanged and an error toast shows |
| PageProps.SavedFormIsCreated | src/app/page.tsx:68-86 | saving a new form creates an itinerary owned by the session user with the form's destination and activities, one for one and in order |
| PageProps.EditAsWrittenDropsActivities | src/app/page.tsx:139-146 | with the code as written, editing a record that has one activity and saving it unchanged leaves the record with no activity |
| Page.EditarRoteiroWithActivities | src/app/page.tsx:139-146 | corrected edit: same as `Page.EditarRoteiro`, and also loads the record's activities (names and dates, in order) into the form |
| PageProps.EditSaveKeepsRecord | src/app/page.tsx:139-146 | with the corrected edit, saving a record unchanged keeps its fields, owner, creation time and activities (names and dates, in order); absent notes come back as empty text |

## Left out

- Prisma, next-auth's `getServerSession`, `fetch`, JSON parsing and `NextResponse` are not modelled as code. Their meaning is taken as the store, session and response values shown above.
- Ids are natural numbers from a counter kept in the store. Prisma's generated string ids are not modelled. The page's `/api/roteiros/{id}` URL is a `Page.Url` value, not a string.
- The dynamic route that serves `/api/roteiros/{id}` is not part of this model. The page's body carries no `id`, while the modelled route reads `id` from the body. The page-to-route lemmas put the URL's id into the body to stand for that route.
- Route.Post: missing or invalid `destino` and dates, a missing activity `nome`, and a malformed JSON body are not modelled. These fields are always present; only a missing `atividades` list is modelled.
- Route.Put: the same fields are not modelled as missing. A JSON `null` for `notas` (as opposed to absent) is not modelled either.
- Storage failure: in all four handlers, storage failure is a single flag under which every storage call throws. A failure between two calls of one handler is not distinguished. The nested writes are atomic, so the store is unchanged either way.
- Route.Get: the order among itineraries with equal `createdAt` is left open, as the query leaves it.
- A session whose `user` has no `id` is not modelled.
- `parseFloat`, `NaN`, and budgets sent as strings are not modelled, because they are floating point. Budgets are `real` values, and only the rule that a falsy budget becomes null is kept.
- Text.Lower: lower-cases ASCII letters only. Unicode case mapping of `toLowerCase` is not modelled.
- Dates are opaque text. `new Date(...)` parsing and `toLocaleDateString` are not modelled.
- Page.SaveRequest: the code tests whether `editandoId` is truthy; the model tests whether it is present. The program's ids are non-empty generated strings (src/app/page.tsx:20, 41), which are always truthy, so the two tests agree. The model's ids are numbers, and its id 0 stands for such a string, not for a falsy value.
- Activity order: a record's activities are kept as a sequence and read back in insertion order. The queries that return them (`include: { atividades: true }` with no `orderBy`) do not guarantee that order. The in-order parts of the contracts of Route.Post, Route.Put and Route.Get, and of PageProps.EditSaveKeepsRecord, rest on this assumption; what they say about the set of activities holds regardless.
- `fetchRoteiros`, `excluirRoteiro`, the "Cancelar" button, rendering, toast texts, theming and `src/app/layout.tsx` are left out. They are I/O or UI only.
- Concurrency between requests is not modelled.

## Findings

| source | as written | input that shows it | evidently intended | confidence | as-written member | corrected member |
|---|---|---|---|---|---|---|
| src/app/page.tsx:139-146 | `editarRoteiro` loads the scalar fields but not the activities. The save sends the form's activity list, and `PUT` replaces the stored list with it. | A record with one activity; the form freshly reset; click edit. The listing returns the two dates as ISO date-time strings, which the `type="date"` inputs (src/app/page.tsx:214, 218) clear, and `required` then blocks the submit. Re-enter the two dates and save without other changes: the record ends up with no activity. | Editing loads the record's activities into the form, so saving unchanged keeps them. | medium, not executed | PageProps.EditAsWrittenDropsActivities | Page.EditarRoteiroWithActivities |
