# Minimal-Todo page state, in Dafny

This project models the state logic of the `Home` page of Minimal-Todo, a
single-page todo list. The page keeps three pieces of state: the list
`todos` (items with an `id`, a `text` and a `completed` flag), the add
input's text `newTodo`, and `editingId`, the item whose text is being
edited, if any. Six event handlers change that state: `addTodo`,
`deleteTodo`, `startEditing`, `finishEditing`, `toggleTodo` and the edit
input's `onChange`. The add input's own `onChange` is modelled too.

Files:

- `text.dfy` (module `Text`): JavaScript's `String.prototype.trim`. `IsWhitespace` lists the
  ECMAScript WhiteSpace and LineTerminator characters. `Trim` strips them
  from both ends. Its lemmas show that Trim keeps a contiguous slice of its
  input, that it is the only such slice neither starting nor ending with
  whitespace, that it is empty exactly on whitespace-only input, and that it
  is idempotent.
- `todos.dfy` (module `Todos`): the `Todo` value and the three list transformations
  the handlers use. These are append, `RemoveId` (the `filter` by id) and
  `UpdateWhere` (the `map` by id). `UpdateWhere` specialises to `Toggled` and
  `Retexted`. The lemmas cover order preservation, exact removal, toggling
  twice and keeping ids distinct.
- `home.dfy` (module `TodoPage`): class `Home`, whose fields are the three state slots,
  with one method per handler. Each method's postcondition gives the whole
  new state in terms of the old one. `AddTodo`, `FinishEditing`,
  `ToggleTodo` and `ChangeEditText` also state the new id sequence: the old
  one with `freshId` appended, or the old one unchanged. `DeleteTodo` states
  it through the list itself: the new list is the filter by id, and with
  distinct ids it is the old list without the one matching item. All
  methods ensure that ids stay
  pairwise distinct whenever they were distinct before (and, for `AddTodo`,
  whenever `freshId` was unused). `Scenario` replays a short session: add
  "Buy milk", add a blank input, toggle twice, commit a blank edit. It
  relies on two worked examples in `Text`: `TrimBlank` (`"   "` trims to
  `""`) and `TrimBuyMilk` (`"Buy milk"` trims to itself).

Modelling decisions:

- `Date.now()` is the parameter `freshId` of `AddTodo`. The code does not
  make ids unique. So distinctness is stated only as preservation: if the ids
  were distinct and `freshId` is unused, they stay distinct.
- JavaScript numbers used as ids are unbounded `int`s.
- A handler is one atomic step on the current state. React's re-rendering,
  batching and stale closures are not modelled.
- `finishEditing` stores the trimmed text even when it is empty, because the
  code has no guard against that.
- The item has the three fields the page builds at line 26 of
  `src/pages/index.tsx`: `id`, `text` and `completed`.
- Strings are sequences of Unicode scalar values. JavaScript strings are
  UTF-16 code units. Every whitespace character `trim` removes lies in the
  Basic Multilingual Plane, so trimming agrees on every string both can
  represent.

## Model

| member | source | states |
|---|---|---|
| `Text.TrimStart` | src/pages/index.tsx:23 | the result is the suffix of the input that starts at the first non-whitespace character; everything dropped is whitespace |
| `Text.TrimEnd` | src/pages/index.tsx:23 | the result is the prefix of the input that ends at the last non-whitespace character; everything dropped is whitespace |
| `Text.Trim` | src/pages/index.tsx:23 | `trim()` never lengthens its input, a non-empty result neither starts nor ends with whitespace, and the result is empty exactly when the input is all whitespace (the add guard's truthiness test) |
| `Text.TrimIsSlice` | src/pages/index.tsx:26 | the trimmed text is a contiguous slice `s[lo..hi]` of the input with only whitespace before and after it |
| `Text.TrimUnique` | src/pages/index.tsx:43 | any split of the input into whitespace, a core that neither starts nor ends with whitespace, and whitespace has Trim return exactly that core |
| `Text.TrimIdempotent` | src/pages/index.tsx:43 | trimming an already trimmed text changes nothing more |
| `Text.TrimOfTrimmed` | src/pages/index.tsx:26 | a text with no whitespace at either end is its own trim |
| `Todos.RemoveId` | src/pages/index.tsx:33 | the filter never lengthens the list, no remaining item has the deleted id, and deleting an id no item has leaves the list identical |
| `Todos.RemoveIdKeeps` | src/pages/index.tsx:33 | an item survives the delete exactly when it was in the list and its id differs from the deleted one |
| `Todos.RemoveIdConcat` | src/pages/index.tsx:33 | filtering a concatenation filters each part and joins them, so the kept items stay in their original order |
| `Todos.RemoveIdAt` | src/pages/index.tsx:32-34 | with distinct ids, deleting the id of the item at index k yields the list with exactly that item removed |
| `Todos.RemoveIdDistinct` | src/pages/index.tsx:33 | deleting keeps ids pairwise distinct |
| `Todos.UpdateWhere` | src/pages/index.tsx:42-44 | the map by id keeps the length; each item with the matching id is replaced by `f` of itself and every other item is kept as it was |
| `Todos.Toggled` | src/pages/index.tsx:51-53 | toggling keeps the length and the id sequence; every item keeps its id and text, and `completed` flips exactly on the items with that id |
| `Todos.Retexted` | src/pages/index.tsx:81-83 | setting the text keeps the length and the id sequence; every item keeps its id and `completed`, and the text changes exactly on the items with that id |
| `Todos.ToggleTwice` | src/pages/index.tsx:49-55 | toggling the same id twice gives back the original list |
| `Todos.AppendFreshDistinct` | src/pages/index.tsx:24-27 | appending an item with an unused id keeps ids distinct, and the id sequence gains exactly that id at the end |
| `Todos.SameIdsDistinct` | src/pages/index.tsx:42-44 | a map that keeps the id sequence keeps ids pairwise distinct |
| `Todos.AbsentIdUnchanged` | src/pages/index.tsx:51-53 | toggling or setting the text of an id that no item has leaves the list identical |
| `TodoPage.Home.constructor` | src/pages/index.tsx:17-19 | the page starts with an empty list, an empty input and nothing being edited |
| `TodoPage.Home.ChangeNewTodo` | src/pages/index.tsx:130 | the add input's change handler sets `newTodo` and nothing else |
| `TodoPage.Home.AddTodo` | src/pages/index.tsx:22-30 | a non-blank input appends one item (`freshId`, trimmed text, not completed) after the unchanged earlier items and clears the input; a blank input changes neither list nor input; the id sequence gains only `freshId`; distinct ids stay distinct when `freshId` is unused |
| `TodoPage.Home.DeleteTodo` | src/pages/index.tsx:32-34 | the list becomes the filter by id, no item keeps the id, distinctness is kept, and with distinct ids exactly the matching item is removed; the other state is unchanged |
| `TodoPage.Home.StartEditing` | src/pages/index.tsx:36-38 | `editingId` becomes the id; list and input are unchanged |
| `TodoPage.Home.FinishEditing` | src/pages/index.tsx:40-47 | the matching items get the trimmed text, which may be empty; ids, flags and length are kept; `editingId` becomes none |
| `TodoPage.Home.ToggleTodo` | src/pages/index.tsx:49-55 | the list becomes its toggle by id; ids, texts and length are kept; input and editing state are unchanged |
| `TodoPage.Home.ChangeEditText` | src/pages/index.tsx:78-85 | every item with the id gets the raw, untrimmed input as its text (the model does not tie the id to `editingId`); ids, flags and length are kept; nothing else changes |

## Left out

- Rendering, JSX layout, the `DM_Sans` font (lines 11-14), the `motion` animations (lines 95-112), and the Input, Button and Checkbox components: they are presentational or library code.
- The focus `useEffect` (lines 57-61): it is a DOM side effect and changes no state.
- `Date.now()` as a clock: the id is the parameter `freshId`, and its uniqueness is an assumption of the distinctness results, not a guarantee.
- React's asynchronous state updates, batching and stale closures: each handler is one sequential step on the current state.
- The call sites of `finishEditing` (lines 86 and 89) pass the edited item's current text. This is shown in `Scenario`, not as a separate operation.
- Persistence to local storage: the modelled file has no storage code.

