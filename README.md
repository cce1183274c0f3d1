# Free Hand: a Dafny model of the sketching app's state logic

Free Hand is a browser sketching tool. It is a single React component, `src/App.jsx`. Users draw freehand strokes on a canvas, pick colours and brush sizes, and keep a gallery of drawings in browser storage. This project models the component's sequential state logic and proves what each event handler does to that state:

- **Drawing store** (`DrawingStore`). This is the in-memory list of records `{id, data, thumbnail, updatedAt}`. It has three list computations, each a pure function:
  - delete is a `filter`;
  - `backToMenu` upserts with `find` and `map`, or appends;
  - `saveDrawing` either maps or appends.

  Further functions build the record and look a drawing up.
- **Recent colours** (`RecentColors`). This is the most-recently-used colour list kept by `selectColor`.
- **Stroke buffer** (`Strokes`). A point is a sample of integer coordinates. A segment is one line drawn from the previous sample to the new one.
- **Save status text** (`Decimal`, plus `FreeHand.SavedStatus`). This is the message `Saved! (N total)`, with N written in decimal.
- **The component** (`FreeHand.App`). This class holds the component's `useState` fields. It also holds two extra fields:
  - the persisted `drawings` entry of browser storage;
  - the number of deferred return-to-menu callbacks that are scheduled but have not run yet.

  Each event handler is one method. Its postconditions state the whole new state, in terms of the pure functions above.

Some browser inputs become method parameters:
- whether `canvasRef.current` is set (`canvasMounted`);
- the encoded canvas snapshot that `toDataURL()` returns;
- the clock value `Date.now()`.

The context returned by `getContext('2d')` becomes the flag `hasContext`. Pointer positions arrive as `Point`s.

The `setTimeout` callback of `backToMenu` is the separate step `FinishReturn`. It is allowed only while a callback is pending.

JavaScript truthiness of the active id is modelled by `DrawingStore.Truthy`: `null` and `0` are falsy. Both `saveDrawing` and `backToMenu` branch on it.

Behaviours of the code that the model keeps:

- **An explicit save never inserts.** With a truthy `currentDrawingId`, `saveDrawing` only `map`s over the list (src/App.jsx:168-169). A drawing whose id is not yet stored is dropped (`DrawingStore.SaveUpdateDropsFreshId`). `saveDrawing` is not wired to any element; only `backToMenu`, which does insert, is.
- **Delete removes every record with the id.** The list shortens by exactly one when exactly one record carries the id; the model proves this under unique ids (`DrawingStore.RemoveIdUnique`). Nothing in the code keeps ids unique: a new id is the clock value, never checked for collisions.
- **A late deferred return.** Two back presses within the delay schedule two callbacks (src/App.jsx:204, 224). If the user opens a drawing after the first callback has run, the second one sends them back to the menu and clears the active id. `FreeHand.DoubleBackSession` exhibits this.
- **Malformed stored data.** `JSON.parse` at src/App.jsx:24 has no `try`; a malformed entry throws, and the model takes no position on it.

## Model

| member | source | states |
|---|---|---|
| `DrawingStore.NewRecordFields` | src/App.jsx:158-163 | `NewRecord`, the record literal built on save (also at lines 208-213), has `data` equal to the snapshot, `thumbnail == data`, `updatedAt` equal to the timestamp, and id equal to the active id when that is truthy, otherwise the timestamp |
| `DrawingStore.RemoveId` | src/App.jsx:196 | a record is in the result exactly when it was in the list and its id differs from the deleted id; the list never grows |
| `DrawingStore.RemoveIdConcat` | src/App.jsx:196 | deleting distributes over concatenation, so the kept records keep their original order |
| `DrawingStore.RemoveIdAbsent` | src/App.jsx:196 | deleting an id that no record has leaves the list unchanged |
| `DrawingStore.RemoveIdUnique` | src/App.jsx:195-199 | with unique ids, deleting the id of record k gives the list without position k, one element shorter |
| `DrawingStore.RemoveIdKeepsUnique` | src/App.jsx:196 | if ids were unique before a delete, they are unique after it |
| `DrawingStore.FindById` | src/App.jsx:216 | a found record is in the list and carries the id; nothing is found only when no record has the id |
| `DrawingStore.FindByIdFirst` | src/App.jsx:216 | the record found is the one at the first index carrying the id |
| `DrawingStore.ReplaceById` | src/App.jsx:218 | the length is kept, and at each position the result is the new record if the old id matched, otherwise the old record |
| `DrawingStore.ReplaceByIdUnique` | src/App.jsx:218 | with unique ids, the mapping replaces the matching record at its own position and nothing else |
| `DrawingStore.ReplaceByIdKeepsUnique` | src/App.jsx:218 | replacing with a record of the same id keeps ids unique |
| `DrawingStore.FindAfterReplace` | src/App.jsx:216-218 | after the replacement, looking the id up yields the new record |
| `DrawingStore.Upsert` | src/App.jsx:215-219 | if the id is present the length is unchanged, each record carrying the id becomes the new record in place and every other record stays as it was, even with repeated ids; if the id is absent the result is the old list plus the new record |
| `DrawingStore.UpsertMembers` | src/App.jsx:215-219 | even without unique ids, a record is in the upserted list exactly when it is the new record or an old record with a different id |
| `DrawingStore.UpsertPresent` | src/App.jsx:216-218 | with unique ids, a present record is replaced at its own position and every other record is untouched |
| `DrawingStore.UpsertKeepsUnique` | src/App.jsx:215-219 | upserting keeps ids unique |
| `DrawingStore.UpsertThenFind` | src/App.jsx:215-219 | after the upsert, `find` with the saved id returns the saved record, which is what reopening the drawing reads at line 48 |
| `DrawingStore.SaveUpdate` | src/App.jsx:167-170 | with a truthy active id the length never changes, each record carrying the id becomes the new record and every other record stays as it was, and an absent id inserts nothing; with a falsy id exactly the new record is appended |
| `DrawingStore.SaveUpdatePresent` | src/App.jsx:167-169 | with unique ids, saving under an active id that record k carries gives the list with position k replaced by the new record, and `find` then returns the new record |
| `DrawingStore.SaveUpdateDropsFreshId` | src/App.jsx:167-170 | an explicit save under a truthy id not yet in the list returns the list unchanged, and the snapshot cannot be found afterwards |
| `RecentColors.Without` | src/App.jsx:244 | a colour is in the result exactly when it was in the list and differs from the chosen colour |
| `RecentColors.WithoutAbsent` | src/App.jsx:244 | filtering out a colour the list does not contain changes nothing |
| `RecentColors.WithoutConcat` | src/App.jsx:244 | filtering distributes over concatenation, so the kept colours keep their original order |
| `RecentColors.WithoutKeepsDistinct` | src/App.jsx:244 | filtering keeps a duplicate-free list duplicate-free |
| `RecentColors.Take` | src/App.jsx:245 | `slice(0, n)` has length min(n, length) and is a prefix of its input |
| `RecentColors.FrontThenRest` | src/App.jsx:245 | `[c, ...rest].slice(0, 4)` when `rest` lacks `c`: `c` first and only once, then `rest` cut to 3, and duplicate-free when `rest` is |
| `RecentColors.Select` | src/App.jsx:243-246 | the chosen colour is first and occurs exactly once; there are at most 4 entries, exactly min(4, 1 + number kept); the rest is the old list without the chosen colour, in order, cut to 3; a duplicate-free list stays duplicate-free |
| `RecentColors.SelectIdempotent` | src/App.jsx:243-246 | choosing the same colour twice in a row gives the same list as choosing it once |
| `Strokes.Segments` | src/App.jsx:127-140 | a stroke of n samples is drawn as n-1 segments, segment i joining sample i to sample i+1 |
| `Strokes.SegmentsConnected` | src/App.jsx:136-138 | each segment ends where the next one starts |
| `Strokes.SegmentsExtend` | src/App.jsx:123-138 | adding a sample adds exactly one segment, from the previous last sample to the new one |
| `Decimal.NatToString` | src/App.jsx:222 | the count is written as a non-empty string of decimal digits, with a leading `0` only for zero |
| `Decimal.ParseNatToString` | src/App.jsx:222 | reading the digits back gives the count |
| `FreeHand.SavedStatusCount` | src/App.jsx:222 | the text `SavedStatus(N)`, which is `Saved! (N total)`, gives back the count N it was built from |
| `FreeHand.App.constructor` | src/App.jsx:8-18 | the initial state: not drawing, empty stroke, colour `#000000`, width 8, recent colours `['#000000']`, menu shown, no active id, empty status, no drawings in memory |
| `FreeHand.App.LoadSaved` | src/App.jsx:21-26 | the mount effect copies the stored list into memory when one is stored, and leaves everything else alone |
| `FreeHand.App.AttachContext` | src/App.jsx:31-45 | on the canvas view only (the effect returns early on the menu), the canvas setup stores a drawing context and changes nothing else |
| `FreeHand.App.StartDrawing` | src/App.jsx:111-116 | without a context it changes nothing; with one, it sets `isDrawing` and makes the stroke exactly `[p]` |
| `FreeHand.App.Draw` | src/App.jsx:118-142 | draws nothing unless drawing is on and a context exists; otherwise it appends exactly `p` and emits the one segment from the previous last sample to `p`, so the stroke then has at least two samples and `Segments(currentStroke)` grows by exactly the emitted segment |
| `FreeHand.App.StopDrawing` | src/App.jsx:144-147 | clears `isDrawing` and empties the stroke |
| `FreeHand.App.SaveDrawing` | src/App.jsx:149-176 | without a canvas nothing changes; otherwise the list becomes `SaveUpdate` of the built record, and storage holds the new list |
| `FreeHand.App.DeleteDrawing` | src/App.jsx:195-199 | the list becomes `RemoveId` of the old one, storage holds the new list, unique ids stay unique, and nothing else changes |
| `FreeHand.App.CreateNewDrawing` | src/App.jsx:184-188 | the active id becomes the current time and the canvas view opens; drawings and storage are unchanged |
| `FreeHand.App.LoadDrawing` | src/App.jsx:190-193 | the active id becomes the given id and the canvas view opens; drawings and storage are unchanged |
| `FreeHand.App.BackToMenu` | src/App.jsx:201-237 | with a canvas and a truthy id: the list becomes the upsert of the record, storage holds it, unique ids stay unique, the status is `Saved! (N total)` for the new length N, and one deferred return is scheduled; otherwise it goes straight to the menu, clears the id and status, and leaves drawings and storage unchanged |
| `FreeHand.App.SaveAndScheduleReturn` | src/App.jsx:215-228 | the save branch of the back button: the list becomes the upsert of the record, storage holds it, the status reports the new length, and one deferred return is scheduled; navigation and tools are unchanged |
| `FreeHand.App.FinishReturn` | src/App.jsx:224-228 | the deferred step shows the menu, clears the active id and the status, and consumes one scheduled callback |
| `FreeHand.App.SelectColor` | src/App.jsx:239-247 | the colour becomes active and the recent list becomes `Select` of the old one |
| `FreeHand.App.SetColor` | src/App.jsx:307 | picking from the recent list changes the active colour only |
| `FreeHand.App.SetLineWidth` | src/App.jsx:356 | picking a size changes the brush width only |
| `FreeHand.App.TogglePalette` | src/App.jsx:315 | the palette button flips `isExpanded` only |

`FreeHand.App.Valid` is the invariant every handler keeps:
- a stroke in progress has at least one sample;
- no stroke in progress means an empty sample list;
- the recent-colour list has 1 to 4 entries and no duplicates.

Three client methods drive scenarios through the handlers' contracts:
- `FreeHand.FirstDrawingSession` starts from empty storage, creates a drawing, draws one segment and returns. The gallery then holds exactly the one new record, and the status reads `Saved! (1 total)`.
- `FreeHand.DoubleBackSession` creates a drawing and presses back twice, which saves it twice and schedules two deferred returns. It lets one return run, reopens the drawing from the gallery, and lets the second return run. The app ends on the menu with no active id.
- `FreeHand.DeleteSession` starts from two stored drawings, 1 and 2, and deletes drawing 1. Only drawing 2's record remains, in memory and in storage.

## Left out

- Canvas pixel work is not modelled: DPI sizing, resize with `getImageData`/`putImageData`, white fills, `drawImage`, the `Image` decode, `clearCanvas`, and the contents of `toDataURL`. These are browser drawing calls. A snapshot is an opaque string, and a segment is an output event, not pixels.
- Browser storage is not modelled as JSON. It is the field `persisted`, holding the list itself, with `None` for "never written". `JSON.stringify`/`JSON.parse` and storage failures are left out.
- The 500 ms delay and React's scheduling are left out. That covers batching, updater functions re-run in strict mode, and handlers that read a stale `currentStroke`. Handlers run one at a time on the current state. The deferred callback is an explicit step.
- `getCoordinates` and the brush width `lineWidth * pressure` are left out because they are floating-point pointer geometry. Pressure, colour and width are not part of a segment.
- `getSvgPathFromStroke` and the `perfect-freehand` import are left out. The helper is never called.
- Rendering is left out because it is UI: the JSX, the palette markup, icons and CSS. The component's `console.log` calls are left out too.
- `vite.config.js` is left out because it is bundler configuration.
- `FreeHand.App.Valid` does not include unique ids. The source does not keep that invariant: stored data is taken as it is, and an explicit save with a falsy id appends a record keyed by the clock. The handlers that can keep uniqueness state it conditionally instead.
- `FreeHand.App.BackToMenu` and `FreeHand.App.SaveDrawing` take `canvasMounted` as a parameter. The model does not derive it from `showMenu`, since the ref is set by React when the canvas element mounts.
