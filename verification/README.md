# bLazy 1.5.1 — a Dafny model of the lazy loader

bLazy defers the loading of images and backgrounds until their elements come
near the viewport. One `Blazy` instance:

- collects the candidates matching a selector into a registry;
- on every throttled scroll or resize, runs a validation pass. The pass hands
  each candidate that is inside the expanded viewport, or already carries the
  success class, to the loader, and splices it out of the registry;
- unbinds its listeners once the registry is empty.

The loader reads the element's deferred-source attribute, which may depend on
a screen-width breakpoint. It picks the standard or the high-density half of a
`standard|retina` source, strips the deferred-source attributes, and then does
one of two things:

- it probes the URL with an `Image`, whose `onload`/`onerror` later sets the
  source or background and the success or error class;
- for a non-image element that has its own `src`, it assigns the URL directly.

The model has seven modules:

| module | file | models |
|---|---|---|
| `Config` | `config.dfy` | Option defaulting, where every falsy value takes the default; the breakpoint walk that resolves the source attribute name. |
| `Geometry` | `geometry.dfy` | The expanded viewport and the `elementInView` intersection test. |
| `Strings` | `strings.dfy` | `indexOf`, `split` and the ASCII part of `toLowerCase`. |
| `Throttling` | `throttle.dfy` | `throttle` as a class holding the closure's `lastCall`. |
| `Loader` | `loader.dfy` | `loadElement` and `isElementLoaded` over an abstract element state. Also the host document, as a class whose map of element states the loader writes in place. |
| `Seqs` | `seqs.dfy` | Sequences without repetitions; the order-keeping selection that a forward `splice` loop performs. |
| `Lazy` | `blazy.dfy` | The instance: registry, validation pass, `load`, `initialize`/`revalidate`, `destroy`, listeners, the two throttled handlers and the settling of image probes. |

The browser (the clock, window sizes, `devicePixelRatio`, `querySelectorAll`,
layout) enters as method parameters and as the host document.

## Model

Some definitions carry no contract of their own; the members below state what
they mean. They are `Geometry.InView`, the intersection test of lines
159-165; `Loader.IsElementLoaded`, the class-token test of lines 201-203;
`Loader.Gate`, the condition of line 169; `Loader.Plan`, the decision
`loadElement` takes (lines 167-199); `Loader.Apply`, the element state it
leaves; and `Loader.ProbeLoaded` and `Loader.ProbeFailed`, the probe's
`onload` and `onerror` (lines 182-191).

| member | source | states |
|---|---|---|
| Config.Configure | ajax/libs/blazy/1.5.1/blazy.js:47-60 | Each option the caller set (not falsy) is kept. Each one left falsy takes its own default: offset 100, selector `.b-lazy`, separator vertical bar, errorClass `b-error`, successClass `b-loaded`, validateDelay 25, saveViewportOffsetDelay 50, src `data-src`. No defaulted option is falsy afterwards. The container list is the query result only when a container selector was given. |
| Config.Defaults | ajax/libs/blazy/1.5.1/blazy.js:47-60 | An empty options object yields exactly the documented defaults. |
| Config.FirstFit | ajax/libs/blazy/1.5.1/blazy.js:107-113 | Returns the index of the first breakpoint at least as wide as the screen; every earlier one is narrower. Returns -1 exactly when all breakpoints are narrower. |
| Config.ResolveSource | ajax/libs/blazy/1.5.1/blazy.js:107-113 | The `each` walk whose callback returns false at the first fitting breakpoint. The source is that breakpoint's attribute name, or the fallback when none fits. The callback ran exactly up to and including the match, or over all breakpoints. |
| Geometry.InViewOfExpanded | ajax/libs/blazy/1.5.1/blazy.js:159-165 | Against the viewport grown by `offset`, a box is in view if and only if it satisfies the four edge bounds in terms of the offset and the window's inner size, or the client size when the inner one is 0. |
| Geometry.InViewIffSharedPoint | ajax/libs/blazy/1.5.1/blazy.js:159-165 | For well-formed rectangles, the intersection test holds if and only if the two closed rectangles share a point (touching edges count). |
| Strings.IndexOf | ajax/libs/blazy/1.5.1/blazy.js:202 | Returns -1 exactly when the needle occurs nowhere. Otherwise it returns the first position where the needle occurs. |
| Strings.Split | ajax/libs/blazy/1.5.1/blazy.js:172 | `split` with a non-empty string separator never yields an empty list. |
| Strings.SplitJoin | ajax/libs/blazy/1.5.1/blazy.js:172 | Joining the pieces of a split with the separator gives back the original string. |
| Strings.SplitPiecesFree | ajax/libs/blazy/1.5.1/blazy.js:172 | No piece of a split contains the separator. |
| Strings.ToLowerAscii | ajax/libs/blazy/1.5.1/blazy.js:174 | Lower-casing keeps the length. Each upper-case ASCII letter becomes the lower-case letter at the same place in the alphabet, no upper-case ASCII letter is left, and a character changes exactly when it was one. |
| Loader.IsImageIgnoresCase | ajax/libs/blazy/1.5.1/blazy.js:174 | An element is treated as an image exactly when its node name spells `img` in any mix of cases. |
| Loader.DeferredSource | ajax/libs/blazy/1.5.1/blazy.js:170-171 | Returns the resolved attribute when it is present and non-empty, otherwise the default attribute when that one is. Returns nothing exactly when both are falsy. A returned source is never empty. |
| Loader.PickSource | ajax/libs/blazy/1.5.1/blazy.js:172-173 | The chosen URL is one of the pieces of the split and never contains the separator. |
| Loader.PickStandardOrRetina | ajax/libs/blazy/1.5.1/blazy.js:172-173 | For any non-empty separator, a source made of `a`, the separator and `b` yields `b` on a high-density display and `a` otherwise. This holds when the first separator in `a` followed by the separator is the joining one, and `b` has none. Under the same condition `a` alone is used on every display. |
| Loader.PickExample | ajax/libs/blazy/1.5.1/blazy.js:172-173 | `a.png` and `b.png` joined by the separator pick `b.png` on a high-density display and `a.png` otherwise; `"a.png"` picks `a.png`. |
| Loader.Cleaned | ajax/libs/blazy/1.5.1/blazy.js:176-179 | Removes every breakpoint attribute and the default attribute. Keeps every other attribute with its value and adds none. |
| Loader.GateClosedLeavesElement | ajax/libs/blazy/1.5.1/blazy.js:169 | When the gate at line 169 is closed (not loaded and forced, nor `loadInvisible`, nor rendered), the loader does nothing and the element is unchanged. |
| Loader.MissingSourceMarksError | ajax/libs/blazy/1.5.1/blazy.js:194-197 | With an open gate and no deferred source, the outcome is "missing", and the element's only change is the error class appended. |
| Loader.PresentSourceStripsAttributes | ajax/libs/blazy/1.5.1/blazy.js:170-193 | With an open gate and a deferred source, the URL is the split-and-index choice and all deferred-source attributes are removed. Other attributes, the class and the background are kept. The source is assigned at once exactly for a non-image element with its own `src`; every other element gets an image probe. |
| Loader.AppendedClassIsLoaded | ajax/libs/blazy/1.5.1/blazy.js:201-203 | After `className + ' ' + c`, the token test `isElementLoaded` for `c` succeeds. |
| Loader.ProbeLoadedMarksLoaded | ajax/libs/blazy/1.5.1/blazy.js:186-191 | A successful probe leaves the element loaded. An image gets the URL as `src`; any other element gets it as background. |
| Loader.ReloadReportsMissing | ajax/libs/blazy/1.5.1/blazy.js:169-197 | A rendered element that was loaded once opens the gate again without force, takes the missing branch, and ends with both the success and the error class. |
| Throttling.Throttle.constructor | ajax/libs/blazy/1.5.1/blazy.js:240-241 | A new wrapper has the given delay and `lastCall` 0. |
| Throttling.Throttle.Call | ajax/libs/blazy/1.5.1/blazy.js:242-249 | The wrapped function runs if and only if at least `minDelay` has passed since the last run. Only a run moves `lastCall`, to `now`. |
| Throttling.Throttle.CallAll | ajax/libs/blazy/1.5.1/blazy.js:240-250 | A series of calls to one wrapper answers, call by call, exactly what the fold of the admission test gives. A burst spanning less than `minDelay` runs the wrapped function at most once. |
| Throttling.QuietAfterRun | ajax/libs/blazy/1.5.1/blazy.js:244-246 | Every call sooner than `minDelay` after a run is dropped. |
| Throttling.AtMostOnceInWindow | ajax/libs/blazy/1.5.1/blazy.js:240-250 | A burst of calls spanning less than `minDelay` runs the wrapped function at most once, whatever the state before. |
| Lazy.ValidationPartition | ajax/libs/blazy/1.5.1/blazy.js:145-153 | A pass over a registry without repetitions splits it exactly. The loader receives each candidate that is in view or already loaded, once. The registry keeps each other candidate, once. Nothing is lost or added. |
| Lazy.ToArray | ajax/libs/blazy/1.5.1/blazy.js:205-210 | The backwards prepend loop returns the node list in its own order. |
| Lazy.Blazy.constructor | ajax/libs/blazy/1.5.1/blazy.js:43-116 | The new instance satisfies the class invariant, with the defaulted options and the breakpoint-resolved source. Its viewport is the expanded window and both throttles are fresh with `lastCall` 0. The first `initialize` has run: the registry holds the candidates that failed the test, the document and the callback and probe logs hold exactly what loading the passing candidates in order produced, and the listeners are bound iff candidates remain. |
| Lazy.Blazy.SaveViewportOffset | ajax/libs/blazy/1.5.1/blazy.js:212-215 | The viewport becomes the window grown by the offset; the invariant is kept. |
| Lazy.Blazy.LoadElement | ajax/libs/blazy/1.5.1/blazy.js:167-199 | Takes the loader's decision for `e` in its current state and writes only `e`'s state. The document keeps its elements. It logs the "missing" report and the probe the decision calls for. |
| Lazy.Blazy.RemoveDataAttributes | ajax/libs/blazy/1.5.1/blazy.js:176-179 | The `each` loop plus the last `removeAttribute` leave `e` with its attributes cleaned and touch nothing else. |
| Lazy.Blazy.Load | ajax/libs/blazy/1.5.1/blazy.js:72-81 | Loading a list applies `loadElement` to each entry in order. The document and both logs are those of that run, and the class invariant is kept. |
| Lazy.Blazy.LoadEach | ajax/libs/blazy/1.5.1/blazy.js:76-80 | The `each` loop of `load` reaches the run over the whole list. |
| Lazy.Blazy.LoadNext | ajax/libs/blazy/1.5.1/blazy.js:77-79 | One more `loadElement` extends the run, the decisions and both logs by one entry. |
| Lazy.Blazy.Validate | ajax/libs/blazy/1.5.1/blazy.js:143-157 | The registry becomes the candidates that fail the test, in order. The loader received exactly the passing ones, in order, with the document and logs as that run leaves them. An emptied registry means the instance is destroyed; otherwise bound state and listeners are unchanged. The invariant is kept. |
| Lazy.Blazy.Scan | ajax/libs/blazy/1.5.1/blazy.js:145-153 | The `splice(i, 1); count--; i--` loop keeps the failing candidates in order and hands on the passing ones in order, with `count` tracking the length. |
| Lazy.Blazy.ScanLoop | ajax/libs/blazy/1.5.1/blazy.js:145-153 | The loop visits every candidate. It returns the failing ones in order, with their count, and has handed on the passing ones in order, with the pass's progress matching the document and both logs. |
| Lazy.Blazy.Step | ajax/libs/blazy/1.5.1/blazy.js:146-152 | One iteration moves the loop state from `j` visited candidates to `j + 1`: kept ones before `i`, unvisited ones after, passed ones handed on. A passing candidate is spliced out, with `count` and `i` stepping back. |
| Lazy.Blazy.Visit | ajax/libs/blazy/1.5.1/blazy.js:147-148 | One candidate is checked against the test and loaded exactly when it passes, extending the pass's progress by one candidate. |
| Lazy.Blazy.Destroy | ajax/libs/blazy/1.5.1/blazy.js:82-96 | Afterwards every listener is removed, the registry is empty and the instance is unbound. Destroying an unbound instance changes nothing. |
| Lazy.Blazy.Initialize | ajax/libs/blazy/1.5.1/blazy.js:122-141 | The registry is re-queried and one pass runs. Listeners are bound exactly when candidates remain. A bound instance keeps its existing listeners and never registers duplicates. |
| Lazy.Blazy.Bind | ajax/libs/blazy/1.5.1/blazy.js:130-137 | From no listeners, registers exactly one scroll listener per container and the three window listeners. |
| Lazy.Blazy.OnSaveViewportOffsetSignal | ajax/libs/blazy/1.5.1/blazy.js:102-104 | The refresh runs if and only if the throttle admits `now`. When it runs, the viewport becomes the expanded window; otherwise the viewport is unchanged. |
| Lazy.Blazy.OnValidateSignal | ajax/libs/blazy/1.5.1/blazy.js:99-101 | A pass runs if and only if the throttle admits `now`, with the pass's full effect. Otherwise nothing changes. |
| Lazy.Blazy.Dispatch | ajax/libs/blazy/1.5.1/blazy.js:130-137 | An event runs the registered handlers in registration order. The viewport is refreshed iff the refresh is registered for the event and admitted. The registry is passed against that viewport iff validation is registered and admitted, with the full effect of a pass; otherwise the registry, document and logs are unchanged. An event with no listener, or on an unbound instance, changes nothing. |
| Lazy.Blazy.CompleteProbe | ajax/libs/blazy/1.5.1/blazy.js:182-191 | Settling a probe removes it from the pending list. On load it writes the source or background plus the success class and reports success; on error it writes the error class and reports "invalid". The invariant is kept. Any pending probe can settle: the invariant keeps every pending probe's element in the document. |
| Lazy.Blazy.PendingKept | ajax/libs/blazy/1.5.1/blazy.js:180-191 | Loads never remove an element from the document. Probes started earlier, and those the loads start (each for one of the loaded elements), all belong to elements still in the document. |

## Behaviour of the code as written

These are behaviours of the script itself that the model reproduces.

- **An already-loaded candidate is reported as missing.** The pass hands an
  already-loaded candidate to the loader (lines 147-148). If the candidate is
  rendered, the gate at line 169 opens without `force`, because `!loaded` binds
  to `force` only. Its deferred-source attribute was removed by the first load,
  so the candidate gets the error class and a "missing" report as well
  (`Loader.ReloadReportsMissing`). This happens, for example, after a
  `revalidate` that re-queries elements already loaded.
- **Line 193 assigns the URL to the probe.** `(img || ele).src = src` writes to
  the `Image` when a probe was created. The element gets its `src` or background
  only when the probe loads. Only a non-image element with its own `src` is
  written at once.
- **The registry keeps query order.** `toArray` walks the node list backwards
  and prepends each node, so the registry is the node list in document order.
  The pass preserves that order among the candidates it keeps.
- **A candidate whose gate is closed is dropped without loading.** A candidate
  can pass the test while the gate stays closed: it is in view, but has zero
  size and `loadInvisible` is off. Such a candidate is still spliced out and
  loaded with nothing. No later scroll or resize pass sees it again; only a
  `revalidate` (lines 69-71, 125) re-queries it (`Lazy.Blazy.Validate`
  together with `Loader.GateClosedLeavesElement`).

## Left out

- Lazy.Blazy.Scan: the layout is frozen for the whole pass. Whether a candidate passes is decided from the document as it was when the pass began. The script reads `getBoundingClientRect` and `offsetWidth`/`offsetHeight` live (lines 147, 160, 169), so a class appended to an earlier candidate (line 196) could move the later ones. In the model, writes change an element's state, never its box.
- Lazy.Blazy.Scan: user callbacks run synchronously during the pass (the "missing" report at line 195). A callback that calls `revalidate`, `destroy` or `load` in the middle of a pass is not modelled; the model's pass works on its own copy of the registry.
- Lazy.Blazy.Load: only the list form of `load` is modelled. The single-element form is reached by `elements.length === undefined` at lines 74-80.
- Lazy.Blazy.Validate: the pass calls `LoadElement` directly. The script calls `self.load(element)` (line 148), whose `length` test sends a candidate that has a `length` property, such as a `<form>` or a `<select>`, down the list branch, so its child controls are loaded instead of the candidate itself.
- Config.Configure: returns a new options value. The script mutates the caller's options object in place (lines 47-60), so the caller sees the defaults, and `container` replaced by a NodeList. Aliasing the caller's object is not modelled.
- Config.Configure: the container selector query is the host's `containerNodes` parameter. Containers are node identities, and the `querySelectorAll` fallback for IE7 (lines 29-40) is left out.
- Geometry.Expanded: coordinates and window sizes are integers. Fractional pixel values from `getBoundingClientRect` are not modelled.
- Lazy.Blazy.constructor: `isRetina` is the host's answer to `devicePixelRatio > 1`, passed as a boolean; the floating-point ratio is not modelled.
- Lazy.Blazy.constructor: the script's `source`, `viewport` and `isRetina` are module-level variables shared by every instance (line 24), and each new instance overwrites them. The model makes them fields of one instance, so it does not capture how a second instance changes the first one's source and viewport.
- Lazy.Blazy.CompleteProbe: user callbacks are recorded as a log of invocations with their arguments. What the callbacks do, and what their return values are, is not modelled. `options.error`/`options.success` are booleans saying whether a callback was given.
- Lazy.Blazy.CompleteProbe: when an image probe settles is the host's choice (any pending probe, in any order). Network timing is not modelled, and neither is the removal of an element from the document. Pending probes survive `destroy` and can still settle afterwards, as in the script, whose `onload`/`onerror` closures (lines 182-191) hold only the element, the URL and the options.
- Lazy.Blazy.Bind: listeners are a set. With `addEventListener` a duplicate registration is ignored, which the set matches. The `attachEvent` path of old IE (lines 217-231) would register a duplicate twice and is not modelled.
- Lazy.Blazy.Dispatch: the host delivers events one at a time with a caller-supplied clock value `now`; `+new Date()` is that parameter.
- Strings.ToLowerAscii: `toLowerCase` is modelled for ASCII letters only; full Unicode case mapping is not.
- Strings.IndexOf: strings are sequences of Unicode scalar values. JavaScript's UTF-16 code units are not modelled, so strings with lone surrogates, and indices past characters outside the Basic Multilingual Plane, differ from the script's.
- Loader.Document: the document is a map from element identity to box, rendered flag and writable state. The DOM tree, style computation and the `src` of elements other than the candidates are not modelled.
- The UMD wrapper (lines 7-20) is not modelled, since it only decides where the constructor is exported.
