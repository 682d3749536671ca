# Calculator pipeline and history logs of the demo page

This project models the sequential core of a browser demo page that has a
calculator, a mock login form and a currency converter. Each widget keeps a
small history in local storage. The model covers three parts:

- **The calculator's submit pipeline** (`calculate`). It runs on the display
  buffer:
  1. It normalises the display glyphs: `×` becomes `*` and `÷` becomes `/`.
  2. An empty buffer is silently ignored.
  3. The normalised expression must stay inside the character whitelist
     `0-9 + - * / ( ) .`.
  4. The expression is evaluated.
  5. A result that is not a finite number is rejected.
  6. Otherwise the normalised expression and its value are recorded in the
     history and the value is shown.

  Every rejection shows `Ошибка` and leaves the history untouched.
- **The three bounded, most-recent-first logs.**
  - `saveToHistory` handles calculations. It pushes at the head, cuts the list
    to 10 entries and persists the whole list.
  - `saveLoginHistory` and `saveConversionHistory` each read their stored
    list, push at the head and drop a single tail entry once the list is over
    5 (logins) or 10 (conversions) entries.
- **The keydown handler** and the display edits it drives (`appendToDisplay`,
  `clearDisplay`, `deleteLast`).

Everything is immutable values and pure functions:

| Module | File | Contents |
|---|---|---|
| `Display` | display.dfy | normalisation, whitelist test, primitive edits |
| `BoundedLog` | logs.dfy | the two generic log styles and lemmas about runs of records |
| `Histories` | histories.dfy | entries, the key-to-list store, the three save operations |
| `Keyboard` | keyboard.dfy | key classification and its display edit |
| `Calculator` | calculator.dfy | submit pipeline, keydown handler, cross-component lemmas |

Three things the code depends on are parameters of the model:

- `evaluate: string -> Evaluation` stands for JavaScript's `eval`. It either
  throws or returns a value, given as its numeric coercion: a finite real,
  NaN or ±Infinity.
- `render: real -> string` is the number-to-text conversion the display
  performs.
- `now: string` is the timestamp.

Local storage is a map from key to the list stored under it. A missing key
reads as the empty list, as the `|| '[]'` fallback does.

The model follows the code as written:

- `calculate` tests for an empty expression (236-238) before it runs the
  whitelist (242-243).
- Loading the history is not modelled. `loadCalculatorHistory` (307-313)
  calls `JSON.parse` with no guard, so a corrupt stored value throws.

## Model

| member | source | states |
|---|---|---|
| Display.Normalise | deepseek_javascript_20251007_1522d0.js:234 | same length as the input; every `×` becomes `*`, every `÷` becomes `/`, every other character is unchanged; the result holds neither glyph |
| Display.NormaliseIdempotent | deepseek_javascript_20251007_1522d0.js:234 | normalising twice equals normalising once |
| Display.NormaliseFixesCanonical | deepseek_javascript_20251007_1522d0.js:234 | a string with no display glyph (in particular any whitelisted expression) is its own normal form |
| Display.NormaliseAppend | deepseek_javascript_20251007_1522d0.js:234 | normalisation works character by character, so it distributes over concatenation |
| Display.ClassTest | deepseek_javascript_20251007_1522d0.js:242 | a one-class regular-expression test is true exactly when some character of the string is in the class |
| Display.ContainsDisallowed | deepseek_javascript_20251007_1522d0.js:242-243 | the whitelist test fires exactly when some character lies outside `0-9 + - * / ( ) .` |
| Display.AppendToDisplay | deepseek_javascript_20251007_1522d0.js:218-221 | the old display text is the prefix of the result and the appended value is the rest, so the length grows by the value's length |
| Display.ClearDisplay | deepseek_javascript_20251007_1522d0.js:223-225 | the display becomes the empty string |
| Display.DeleteLast | deepseek_javascript_20251007_1522d0.js:227-230 | drops exactly the last character; the empty display stays empty |
| Display.WhitelistPrefix | deepseek_javascript_20251007_1522d0.js:229 | if a buffer passes the whitelist after normalisation, so does every prefix of it |
| BoundedLog.Take | deepseek_javascript_20251007_1522d0.js:297 | `slice(0, n)` returns the first `min(length, n)` elements |
| BoundedLog.PushTruncate | deepseek_javascript_20251007_1522d0.js:293-298 | the new entry is at index 0, the rest is a prefix of the old log, and the length is `min(old + 1, cap)` |
| BoundedLog.PushPopOnce | deepseek_javascript_20251007_1522d0.js:376-384 | the new entry is at index 0 and the rest is a prefix of the old log; one tail entry is dropped only when the pushed list exceeds the bound; a log within the bound stays within it |
| BoundedLog.PopOnceAgreesWithTruncate | deepseek_javascript_20251007_1522d0.js:381-384 | on a log within its bound, a single pop gives the same list as truncation |
| BoundedLog.PopOnceKeepsOverlongLength | deepseek_javascript_20251007_1522d0.js:381-384 | a log already over its bound keeps its length under the pop style but is cut shorter by truncation |
| BoundedLog.RecordAllKeepsNewest | deepseek_javascript_20251007_1522d0.js:293-298 | from a log within its cap, any run of records leaves the newest `cap` entries of (records reversed, then the old log) |
| BoundedLog.RecordAllFromEmpty | deepseek_javascript_20251007_1522d0.js:295-298 | from empty, N records leave `min(N, cap)` entries, and entry `i` is the `i`-th most recent record |
| BoundedLog.PopOnceRunAgreesWithTruncate | deepseek_javascript_20251007_1522d0.js:381-384 | from a log within its bound, any run of pop-style records equals the truncating run and never exceeds the bound |
| Histories.Stored | deepseek_javascript_20251007_1522d0.js:374 | the empty-list fallback of the read: a key absent from the store reads as the empty list, and a present key reads as the list stored under it |
| Histories.Persist | deepseek_javascript_20251007_1522d0.js:386 | `setItem` overwrites a single key: that key holds the new list, it is the only key that can be added, and every other key keeps its list |
| Histories.SaveToHistory | deepseek_javascript_20251007_1522d0.js:286-305 | the calculation is at index 0; the rest is the old list's prefix; the length is `min(old + 1, 10)`; the stored copy equals the in-memory list; other keys are unchanged |
| Histories.SaveLoginHistory | deepseek_javascript_20251007_1522d0.js:373-387 | the login is at index 0 of the stored list and the rest is a prefix of the previous stored list (empty when absent); one tail entry is dropped only when the list would exceed 5; a list within 5 stays within 5; other keys are unchanged |
| Histories.SaveConversionHistory | deepseek_javascript_20251007_1522d0.js:389-406 | the same as the login log, with the conversion record and a bound of 10 |
| Histories.LoginKeepsOlderOrder | deepseek_javascript_20251007_1522d0.js:376-386 | from a list within 5, the new list is the login followed by the first (at most four) older entries in their order |
| Histories.SaveAll | deepseek_javascript_20251007_1522d0.js:293-301 | an empty run changes nothing; after a run that records something, the stored copy equals the in-memory history and the calculator key is the only key added; other keys are never touched |
| Histories.SaveAllIsRecordAll | deepseek_javascript_20251007_1522d0.js:293-298 | a run of calculation records is the generic truncating log run |
| Histories.SaveAllFromEmpty | deepseek_javascript_20251007_1522d0.js:295-298 | from an empty history, N calculations leave `min(N, 10)` entries, most recent first; the eleventh evicts the first |
| Keyboard.ClassifyKeyAsWritten | deepseek_javascript_20251007_1522d0.js:264-284 | as written: a key name holding any digit is appended verbatim; a key name with no digit is classified as by the corrected handler |
| Keyboard.ClassifyKey | deepseek_javascript_20251007_1522d0.js:264-284 | exactly the single-character keys `0-9 . ( ) + - * /` append; the appended text is the key, except `*` gives `×`; Enter submits, Escape clears, Backspace deletes, and nothing else does |
| Keyboard.EditDisplay | deepseek_javascript_20251007_1522d0.js:268-283 | an append key extends the display by its text; Escape empties it; Backspace drops the last character and leaves an empty display empty; any other key leaves it unchanged |
| Keyboard.EditKeepsWhitelist | deepseek_javascript_20251007_1522d0.js:268-283 | every non-Enter key keeps a buffer that passes the whitelist after normalisation passing it |
| Keyboard.FunctionKeyNameIsAppended | deepseek_javascript_20251007_1522d0.js:268-269 | the as-written handler appends "F1", which fails the whitelist; the corrected handler ignores it |
| Calculator.Calculate | deepseek_javascript_20251007_1522d0.js:232-262 | an empty display is a no-op. The error for a disallowed character happens exactly when the normalised expression leaves the whitelist. A thrown evaluation is reported exactly when the whitelisted expression throws, and an invalid operation exactly when it returns NaN or an infinity. Every failure shows `Ошибка`, leaves history and store as they were, and keeps the normalised text to restore. A result is shown exactly when the evaluation is finite; the history's new head is that expression and value, the length is `min(old + 1, 10)`, the stored copy equals the history, the calculator key is the only key added to the store, other keys keep their lists, and the display shows the value |
| Calculator.KeyDown | deepseek_javascript_20251007_1522d0.js:264-284 | Enter runs the submit pipeline and yields its state, as `Calculate` states; any other key edits only the display, as `EditDisplay` states |
| Calculator.TypingKeepsWhitelist | deepseek_javascript_20251007_1522d0.js:268-283 | any run of non-Enter keys keeps the buffer passing the whitelist after normalisation, and leaves history and store unchanged |
| Calculator.TypedBufferReachesEvaluation | deepseek_javascript_20251007_1522d0.js:242-243 | a buffer typed from an empty display is never rejected for a disallowed character |
| Calculator.ResubmitDuringError | deepseek_javascript_20251007_1522d0.js:256-260 | submitting while `Ошибка` is shown is rejected for its characters, changes nothing, and captures `Ошибка` itself as the text to restore |

## Left out

- The body of `eval`. It is dynamic code execution with IEEE-754 semantics, so it is the parameter `evaluate`. The model does not state what value a well-formed expression has; it states only what the pipeline does with each kind of outcome.
- The timer that restores the display 1.5 s after an error. The text it would restore is kept in the `Failed` outcome; the timer firing, and a stale timer overwriting newer input, are not modelled.
- `debounce`, `simulateServerRequest` and the asynchronous login flow. These are timers and promises.
- Currency conversion and rate rendering. They rely on floating point, `toFixed` and `Intl.NumberFormat`. `saveConversionHistory` takes the amounts as values it is given.
- `loadCalculatorHistory` and JSON serialisation in general. `JSON.parse` is a foreign call, and the load is not guarded against corrupt data. The store holds lists directly.
- Storage exceptions. If `setItem` throws (quota exceeded), the in-memory history has already changed, yet the page shows the error. The model treats writes as total.
- DOM work: navigation, `showResult`, building the history HTML, locale timestamps, service-worker registration.
- Event focus. The keydown listener is attached to the whole document, so it also sees keys typed into other forms. The model treats every key event as meant for the calculator.
- Display.DeleteLast: strings are modelled as sequences of Unicode characters, not UTF-16 code units. `slice(0, -1)` removes one code unit, so on a character outside the Basic Multilingual Plane (pasted into the field, for example) the code leaves a lone surrogate where the model removes the whole character. No key the handler appends and no result text produces such a character.
- Calculator.Replay: all events in a run share one clock reading `now`. Only Enter uses the clock, and the lemmas about runs exclude Enter.

## Findings

| source | as written | input that shows it | evidently intended | confidence | as-written member | corrected member |
|---|---|---|---|---|---|---|
| deepseek_javascript_20251007_1522d0.js:268 | the digit test is an unanchored search of the key name, so any multi-character key name holding a digit takes the append branch and is appended whole | pressing function key F1 (key name "F1") appends "F1" to the display; the next submit fails the whitelist | only the single-character keys `0`-`9` append themselves | high; not executed | Keyboard.ClassifyKeyAsWritten (with Keyboard.FunctionKeyNameIsAppended) | Keyboard.ClassifyKey (with Keyboard.EditKeepsWhitelist and Calculator.TypingKeepsWhitelist) |

`Calculator.KeyDown` uses the corrected classifier.
