# A verified model of the nextapp01 todo list

nextapp01 is a small Next.js todo app. Every todo belongs to the signed-in
user who created it. This project models the app's two pieces of logic in
Dafny and proves their properties.

- **The server side** (`src/app/page.tsx`):
  - `getTodos` is the owner-scoped query: the caller's records, highest id
    first.
  - The three server actions, `createTodo`, `updateTodo` and `deleteTodo`,
    change the store.
  - The store is a map from integer id to `Todo(id, title, ownerId)`, plus
    the next id the autoincrement sequence will hand out.
  - Each action is specified as a function of the store before the call
    (`Page.Create`, `Page.Update`, `Page.Delete`). The class
    `Page.TodoStore` changes its fields in place with early returns, as the
    source does, and each of its methods is proved to leave exactly the
    state and the refresh flag that this function gives.
- **The client side** (`src/app/components/TodoList.tsx`):
  - The `draftTitles` state is the field of `TodoList.TodoListState`.
  - The handlers `handleTitleChange`, `handleUpdate` and `handleDelete` are
    its methods.
  - The per-row values `currentDraft`, `isDirty` and the button's
    `disabled` are functions.

The JavaScript primitives the code relies on are modelled concretely in
module `JsStrings`:

- `String.prototype.trim`, with the ECMAScript whitespace and line
  terminator set;
- `parseInt(s, 10)`. It skips leading whitespace, reads one sign, then
  reads the longest run of decimal digits. `None` stands for `NaN`;
- `String(n)`, which is what React writes into a hidden input.

Form fields are a `map<string, string>`. An absent field is what
`formData.get` reports as `null`.

Some behaviour of the code worth knowing:

- **Delete and refresh.** `deleteTodo` calls `revalidatePath` only after
  `prisma.todo.delete` returns (`src/app/page.tsx:74-80`). A missing or
  foreign id throws, the error is caught, and there is no refresh.
- **Empty user ids.** `!session?.user?.id` and `!userId` treat an empty id
  string as "not signed in". `Page.CallerId` does the same.
- **Whitespace titles.** `!title` and `!newTitle` reject only an absent or
  empty field. A whitespace-only title is stored. Only the client's
  `isDirty` trims.

## Model

| member | source | states |
|---|---|---|
| `JsStrings.TrimStart` | src/app/components/TodoList.tsx:78 | leading whitespace removed: a suffix of the input, what was dropped is whitespace, and the rest does not start with whitespace |
| `JsStrings.TrimEnd` | src/app/components/TodoList.tsx:78 | trailing whitespace removed: a prefix of the input, what was dropped is whitespace, and the rest does not end with whitespace |
| `JsStrings.Trim` | src/app/components/TodoList.tsx:78 | the result is a middle part of the input with only whitespace before and after it, and it neither starts nor ends with whitespace |
| `JsStrings.TrimEndsAreBlank` | src/app/components/TodoList.tsx:78 | what is left after dropping blank characters from the front and then the back is a middle part of the string with only whitespace around it |
| `JsStrings.TrimEmptyIffBlank` | src/app/components/TodoList.tsx:78 | `s.trim() === ''` exactly when every character of `s` is whitespace |
| `JsStrings.ParseInt` | src/app/page.tsx:69 | `parseInt` is `NaN` exactly when, after leading whitespace and one sign, no digit follows |
| `JsStrings.DigitPrefix` | src/app/page.tsx:69 | the longest prefix made of decimal digits: all digits, and the next character, if any, is not one |
| `JsStrings.ParseSigned` | src/app/page.tsx:69 | after one optional sign, `NaN` exactly when no digit follows |
| `JsStrings.ParseIntFromFirstChar` | src/app/page.tsx:69 | a string without leading whitespace is read from its first character |
| `JsStrings.ParseIntOfDigits` | src/app/page.tsx:69 | digits followed by a non-digit are read as their value |
| `JsStrings.ParseIntOfNegatedDigits` | src/app/page.tsx:69 | a minus sign, digits and a non-digit are read as the negated value |
| `JsStrings.ParseIntOfPlusDigits` | src/app/page.tsx:69 | a plus sign, digits and a non-digit are read as the value of the digits |
| `JsStrings.TrimStartSkipsBlanks` | src/app/page.tsx:69 | any run of whitespace in front of a string is skipped entirely |
| `JsStrings.ParseIntSkipsBlanks` | src/app/page.tsx:69 | leading whitespace does not change what `parseInt` reads |
| `JsStrings.NatToString` | src/app/components/TodoList.tsx:103 | the decimal rendering of a natural number is a non-empty string of digits |
| `JsStrings.IntToString` | src/app/components/TodoList.tsx:103 | `String(n)` is non-empty, starts with a minus sign exactly when `n` is negative, and is otherwise decimal digits |
| `JsStrings.ParseIntOfNonNumeric` | src/app/page.tsx:69 | a string starting with a character that is not whitespace, a sign or a digit parses to `NaN` |
| `JsStrings.ParseIntReadsIntToString` | src/app/page.tsx:69 | `parseInt` reads back `String(n)` for every integer `n`, whatever non-digit text follows |
| `JsStrings.ParseIntOfIntToString` | src/app/components/TodoList.tsx:33 | round trip: `parseInt(String(n), 10) == n` for every integer `n` |
| `JsStrings.DigitsValueOfNatToString` | src/app/components/TodoList.tsx:103 | the decimal digits written for `n` denote `n` |
| `JsStrings.DigitPrefixOfDigits` | src/app/page.tsx:69 | the digit run read from `digits + rest` stops exactly where `rest` begins, when `rest` starts with a non-digit |
| `Page.CallerId` | src/app/page.tsx:37-41 | the caller is known exactly when there is a session with a non-empty user id, and it is that id |
| `Page.Field` | src/app/page.tsx:43 | `formData.get(name)` is present exactly when the form has the field, and is then its submitted value |
| `Page.HasText` | src/app/page.tsx:44 | `!title` is false exactly when the field is present and not the empty string |
| `Page.ParseIdField` | src/app/page.tsx:68-70 | a form without an `id` field yields `NaN` |
| `Page.ParseIdFieldReadsNull` | src/app/page.tsx:68-69 | the parsed id equals `parseInt` applied to the field, or to the string "null" when the field is absent |
| `Page.Insert` | src/app/page.tsx:47-52 | the new record is stored, with the given title and the caller as owner, under an id not in use before; every other record is unchanged; the store stays well formed |
| `Page.UpdateIfOwned` | src/app/page.tsx:103-111 | succeeds exactly when the caller owns the id; only that record's title changes, its id and owner are kept, and every other record is unchanged |
| `Page.DeleteIfOwned` | src/app/page.tsx:74-79 | succeeds exactly when the caller owns the id; exactly that id is removed and every other record is unchanged |
| `Page.Create` | src/app/page.tsx:37-56 | refreshes exactly when there is a caller, a non-empty title and no store failure, and then inserts one record for the caller; otherwise the store is unchanged |
| `Page.Update` | src/app/page.tsx:89-115 | refreshes exactly when there is a caller, the id parses, the new title is non-empty, the caller owns the id and the store does not fail, and then retitles that record; otherwise the store is unchanged |
| `Page.Delete` | src/app/page.tsx:62-83 | refreshes exactly when there is a caller, the id parses, the caller owns the id and the store does not fail, and then removes that record; otherwise the store is unchanged |
| `Page.Collect` | src/app/page.tsx:21-24 | the caller's records with ids up to `k`, all of them and nothing else, in strictly descending id order |
| `Page.GetTodos` | src/app/page.tsx:15-29 | empty without a caller or on a store failure; otherwise exactly the caller's records, in strictly descending id order |
| `Page.HeadHasHighestId` | src/app/page.tsx:23 | in a list in descending id order the first entry has the highest id |
| `Page.DescendingUnique` | src/app/page.tsx:21-24 | two lists in strictly descending id order holding the same todos are equal |
| `Page.ListingIsUnique` | src/app/page.tsx:21-24 | any list holding exactly the caller's records in strictly descending id order is the listing |
| `Page.ListingDependsOnlyOnView` | src/app/page.tsx:21-24 | two stores with the same records for a user give that user the same listing |
| `Page.CreateThenList` | src/app/page.tsx:46-53 | after a successful create the new todo is the caller's first entry and the rest of the listing is unchanged |
| `Page.Retitled` | src/app/page.tsx:103-111 | retitling keeps the length of a listing |
| `Page.RetitledPointwise` | src/app/page.tsx:103-111 | retitling changes the entries with that id and no other entry |
| `Page.CollectRetitled` | src/app/page.tsx:103-111 | retitling one record in the store retitles it in every partial listing |
| `Page.ListingRetitled` | src/app/page.tsx:103-111 | retitling one record in the store retitles it in its owner's listing |
| `Page.UpdateRetitles` | src/app/page.tsx:101-112 | a successful update changes the title of the submitted record and nothing else |
| `Page.UpdateThenList` | src/app/page.tsx:101-112 | after a successful update the caller's listing keeps its order and ids; only the updated id carries the new title |
| `Page.DeleteThenList` | src/app/page.tsx:72-80 | after a successful delete the caller's listing holds exactly the old entries other than the deleted id |
| `Page.DeleteIsIdempotent` | src/app/page.tsx:68-83 | repeating a delete changes nothing and does not refresh |
| `Page.InsertKeepsOtherViews` | src/app/page.tsx:47-52 | inserting for one owner leaves every other owner's records unchanged |
| `Page.UpdateIfOwnedKeepsOtherViews` | src/app/page.tsx:103-111 | updating for one owner leaves every other owner's records unchanged |
| `Page.DeleteIfOwnedKeepsOtherViews` | src/app/page.tsx:74-79 | deleting for one owner leaves every other owner's records unchanged |
| `Page.CreatePreservesOtherViews` | src/app/page.tsx:34-57 | no create changes another user's records |
| `Page.UpdatePreservesOtherViews` | src/app/page.tsx:86-116 | no update changes another user's records |
| `Page.DeletePreservesOtherViews` | src/app/page.tsx:59-84 | no delete changes another user's records |
| `Page.ActionsPreserveOtherListings` | src/app/page.tsx:15-116 | no action by one caller changes any other user's listing |
| `Page.TodoStore.constructor` | src/app/page.tsx:47 | a fresh store is empty and its ids start at 1 |
| `Page.TodoStore.CreateTodo` | src/app/page.tsx:34-57 | the store keeps its invariant; the new state and the refresh flag are exactly those `Page.Create` gives |
| `Page.TodoStore.DeleteTodo` | src/app/page.tsx:59-84 | the store keeps its invariant; the new state and the refresh flag are exactly those `Page.Delete` gives |
| `Page.TodoStore.UpdateTodo` | src/app/page.tsx:86-116 | the store keeps its invariant; the new state and the refresh flag are exactly those `Page.Update` gives |
| `TodoList.IsDirty` | src/app/components/TodoList.tsx:77-78 | a row is dirty exactly when its current value differs from the stored title and is not all whitespace |
| `TodoList.SubmitDisabled` | src/app/components/TodoList.tsx:118 | the update button is disabled exactly when the value equals the stored title or is all whitespace |
| `TodoList.CurrentDraft` | src/app/components/TodoList.tsx:74 | a row shows its draft when it has one, and its stored title otherwise |
| `TodoList.RowUpdateForm` | src/app/components/TodoList.tsx:103-107 | a row's update form submits exactly `id` and `newTitle`; its `id` parses back to the row's id and its `newTitle` is the value the row shows |
| `TodoList.RowDeleteForm` | src/app/components/TodoList.tsx:137 | a row's delete form submits exactly `id`, which parses back to the row's id |
| `TodoList.NoDraftsShowStoredTitles` | src/app/components/TodoList.tsx:74 | with no drafts every row shows its stored title and is not dirty |
| `TodoList.KeystrokeAffectsOnlyItsRow` | src/app/components/TodoList.tsx:53-58 | typing in one row changes neither the value nor the dirtiness of any other row |
| `TodoList.EditingMakesRowDirty` | src/app/components/TodoList.tsx:53-58 | typing a non-blank value different from the stored title shows it and makes the row dirty |
| `TodoList.TypingBackStoredTitleIsClean` | src/app/components/TodoList.tsx:53-58 | typing back the stored title keeps the draft entry but makes the row clean |
| `TodoList.BlankDraftIsNeverDirty` | src/app/components/TodoList.tsx:77-78 | a whitespace-only value never enables the update button |
| `TodoList.ClearedRowIsClean` | src/app/components/TodoList.tsx:35-39 | after its draft is dropped a row shows its stored title and is clean |
| `TodoList.SubmittingDirtyRowStoresDraft` | src/app/components/TodoList.tsx:25-40 | submitting a dirty row as its owner stores the draft as the title, and the refreshed row shows what was typed |
| `TodoList.SubmittingForeignRowChangesNothing` | src/app/components/TodoList.tsx:94-153 | submitting a row's update or delete form as anyone but its owner changes nothing in the store |
| `TodoList.TodoListState.constructor` | src/app/components/TodoList.tsx:21 | no row starts with a draft |
| `TodoList.TodoListState.HandleTitleChange` | src/app/components/TodoList.tsx:53-58 | the edited row's draft becomes the new value and every other draft is unchanged |
| `TodoList.TodoListState.HandleUpdate` | src/app/components/TodoList.tsx:25-42 | the store changes as `Page.Update` says; a parsed id's draft is dropped whatever the outcome, and with an id that does not parse the drafts are unchanged |
| `TodoList.TodoListState.HandleDelete` | src/app/components/TodoList.tsx:44-50 | the store changes as `Page.Delete` says and the drafts are unchanged |

## Left out

- Rendering: the JSX, the styling, the empty-list message and the
  `isLoggedIn` choice of what `HomePage` shows (`src/app/page.tsx:120-174`).
  They are presentation.
- The HTML `required` attribute on the title inputs. It is browser-side
  validation; the model takes any submitted form, as the server actions do.
- `console.error` logging. It has no effect on state.
- `auth()`, the network and Prisma's errors. Identity is an argument. Every
  store failure other than "no such record" is the `storeFails` argument
  and changes nothing.
- Concurrency: two tabs racing on one id, and React's batching and
  re-render timing. The model is sequential.
- JavaScript number precision. Ids and parsed numbers are unbounded
  integers; the 53-bit limit of JavaScript numbers and the 32-bit range of
  the database column are not modelled.
- `File` values in `FormData`. Every field is a string.
- The Prisma schema is not part of this model. Ids are assumed to come from
  an autoincrement sequence that starts at 1 and never reuses an id.
- `src/lib/prisma.ts`, `src/lib/prisma.js`, `src/app/components/Header.tsx`
  and `src/app/login/page.tsx` are not part of this model: a client
  singleton and sign-in UI.
- Page.Insert: requires a non-empty title and owner, which `Page.Create`
  checks before calling it; it is not defined for other inputs.
- Page.UpdateIfOwned: requires a non-empty title, which `Page.Update`
  checks before calling it; it is not defined for other inputs.
