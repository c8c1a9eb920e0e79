# monacode: cursor translation, worker table and editor options

monacode (`index.js`) sets up the Monaco code editor and binds a
"format with Prettier" hotkey. Around the calls into Monaco and Prettier it
has a small amount of logic of its own, and that logic is what this project models:

- `computeOffset(code, pos)` turns a 1-based `{lineNumber, column}` cursor
  position into a 0-based character offset. It scans forward and returns -1
  when no character of the buffer sits at that position.
- `computePosition(code, offset)` does the reverse scan.
- `getWorkerUrl` uses a `switch` on the language label to pick the
  language-service worker script.
- The factory spreads its options over `editorDefaults` after removing
  `container`.

A buffer `code` is a `seq<char>` of length `len(code)`, with one element per JavaScript string index (a UTF-16
code unit). Lines are split at `'\n'` only.

Files:
- `cursor.dfy` (module `Cursor`). The two scans are methods with loop
  invariants. Each is proved against a specification function:
  - `PositionAt` is the line and column of an offset, built one character
    at a time; a lemma gives its closed form;
  - `OffsetOf` is the first offset whose position is the given one.
  Lemmas about these two functions give the result ranges, the strict
  ordering of positions, the round trips, and the positions that are never found.
- `workers.dfy` (module `Workers`): the label switch, as a function.
- `options.dfy` (module `EditorOptions`): the destructuring and the
  spread, as map functions.

## Model

| member | source | states |
|---|---|---|
| Cursor.TrailingRun | index.js:48-49 | the column counter's run after its last reset is exactly the characters after the last `'\n'`: none of them is `'\n'`, and the one before them is |
| Cursor.PositionAt | index.js:43-53 | the position of an offset in `[0, len(code)]`, built one character at a time as the loop does (`'\n'` moves to column 1 of the next line, anything else one column right); line and column are at least 1, and the column never exceeds the offset plus 1 |
| Cursor.PositionAtClosedForm | index.js:43-53 | closed form: line is 1 plus the number of `'\n'` in `code[..offset]`; column is 1 plus the number of characters since the last `'\n'` before `offset` |
| Cursor.PositionAtIncreasing | index.js:43-53 | for offsets `i < j <= len(code)`, the position of `i` is strictly before that of `j` in (line, column) order |
| Cursor.PositionAtInjective | index.js:43-53 | two offsets in `[0, len(code)]` with the same position are equal |
| Cursor.FirstMatchFrom | index.js:34-40 | from `start`, the result is -1 exactly when no offset in `[start, len(code))` has position `pos`; otherwise it is the first offset there with that position |
| Cursor.OffsetOf | index.js:30-41 | the result is -1 or in `[0, len(code))`; it is -1 exactly when no character is at `pos`; a found offset is at `pos`; a line or column below 1 gives -1 |
| Cursor.ComputeOffset | index.js:30-41 | the scan returns `OffsetOf(code, pos)`: -1 or an offset in `[0, len(code))` whose position is `pos` |
| Cursor.ComputePosition | index.js:43-53 | for `0 <= offset <= len(code)` the scan returns `PositionAt(code, offset)` and so its closed form; it returns (1, 1) for `offset <= 0`; past the end it stays on the last line and the column grows by one per missing character |
| Cursor.OffsetRoundTrip | index.js:30-53 | for every `0 <= o < len(code)`, `OffsetOf(code, PositionAt(code, o)) == o` |
| Cursor.PositionRoundTrip | index.js:30-53 | when `OffsetOf(code, pos)` is not -1, its position is `pos`, and every offset in `[0, len(code)]` at `pos` is that offset, so the first match is the only match |
| Cursor.AtOrPastEndNotFound | index.js:34-40 | a position at or after the end-of-buffer position in (line, column) order gives -1; this includes (1, 1) on an empty buffer and every line past the last |
| Cursor.PastLineEndNotFound | index.js:34-40 | on a line ended by `'\n'`, a column past the column of that `'\n'` gives -1 |
| Cursor.EndCursorLost | index.js:34-40 | on the buffer `"a"` the end position (1, 2) gives -1 |
| Cursor.CursorOffsetOf | index.js:30-41 | corrected offset: -1 exactly when no offset in `[0, len(code)]` is at `pos`, otherwise an offset at `pos` |
| Cursor.ComputeCursorOffset | index.js:30-41 | the corrected scan, which also compares once the buffer is exhausted, returns `CursorOffsetOf(code, pos)` |
| Cursor.CursorOffsetRoundTrip | index.js:30-53 | with the correction, for every `0 <= o <= len(code)`, the offset of `o`'s position is `o` |
| Workers.WorkerPath | index.js:18-25 | `typescript` and `javascript` map to the ts worker, and no other label does; `json`, `css` and `html` each map to their own worker, and only they do; every other label maps to `editor.worker.js` |
| EditorOptions.WithoutContainer | index.js:73 | the rest object has every key of `options` except `container`, with the same values |
| EditorOptions.Spread | index.js:75-78 | the keys are the union; a key of the later object takes its value; every other key keeps the earlier object's value |
| EditorOptions.CreateOptions | index.js:73-78 | `container` is absent; every other caller key gets the caller's value; every default key the caller does not set keeps its default; no other keys |
| EditorOptions.NestedObjectReplacedWhole | index.js:55-78 | a caller's `minimap` object replaces the default one whole: the default `enabled: true` is not merged into it |

## Left out

- Style injection and the fetch of `index.css`, including the path rewrite in that stylesheet (index.js:6-13). This is browser I/O.
- Resolving the worker path against the module URL with `new URL(url, import.meta.url).href` (index.js:26). This is the platform URL library. Only the relative path the switch chooses is modelled.
- Theme handling: the `vs-light` background, the fetch of a theme by URL, `defineTheme`/`setTheme`, and the background colour taken from the theme (index.js:83-91). These are network calls and calls into the editor library.
- `monaco.editor.create`, `editor.layout`, `executeEdits`, `setSelection`, `setPosition` and `trigger` (index.js:75, 94, 111-132, 136). These are calls into the editor library.
- `prettier.formatWithCursor` (index.js:105-109). This is a call into the formatter. The offset it returns is just an input to `ComputePosition`, which accepts any integer.
- The resize and keydown listeners, `navigator.platform` detection and the hotkey key-code tests (index.js:93-100, 135-145). This is event wiring.
- EditorOptions.Value: JavaScript numbers are integers here, and arrays, functions and `undefined` have no constructor; property order in objects is not modelled. `Spread` and `WithoutContainer` treat every `Value` alike and never look inside one.
- Cursor.ComputePosition: JavaScript fractional or `NaN` offsets are not modelled, since an offset is an `int`.

## Findings

| source | as written | input that shows it | evidently intended | confidence | as-written member | corrected member |
|---|---|---|---|---|---|---|
| index.js:34-40 | the loop ends before the running position is compared at offset `len(code)`, so the cursor after the last character yields -1, which is what the format hotkey passes on as the cursor offset (index.js:108) | `code = "a"`, `pos = (1, 2)`: the cursor after typing `a` gives -1 instead of 1 | the end-of-buffer position maps to offset `len(code)`, so the round trip holds for every offset in `[0, len(code)]` | medium, not executed | Cursor.EndCursorLost | Cursor.ComputeCursorOffset |
