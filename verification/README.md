# Rekaz site script: a verified model of its decision logic

`assets/js/app.js` is the single front-end script of the Rekaz marketing site.
Most of it is DOM and Canvas glue. This project models, in Dafny, the parts of
it that make decisions, together with the state those decisions update:

- **Contact form** (`ContactForm`, `contact_form.dfy`). The submit handler
  checks `name`, `email` and `message` in turn and shows an error per field.
  - A field is required to be non-blank after `trim()`.
  - A non-empty e-mail must also match `^[^@\s]+@[^@\s]+\.[^@\s]+$`.
  - On any error, the status line shows "fix fields". Otherwise it shows
    "sending".
  - Whitespace is the ECMAScript set: the WhiteSpace and LineTerminator code
    points, which both `\s` and `trim()` use.
  - Messages are named by a key and the dictionary (`en` or `ar`) they come
    from. Their texts are not modelled.
  - A whitespace-only e-mail, as the handler receives it, reports "invalid
    e-mail", not "required". The pattern check runs after the blank check,
    on the untrimmed value, and overwrites its message.
- **Local storage** (`Storage`, `storage.dfy`). One `LocalStorage` object
  holds a `map<string, string>` and is shared by the theme and language
  toggles. `getItem(k) || d` treats an absent key and `""` alike (`Truthy`,
  `OrDefault`).
- **Theme toggle** (`Theme`, `theme.dfy`). Three behaviours:
  - a one-shot migration from the legacy key `rikaz-theme` to `rekaz-theme`;
  - the `light` class added at start-up when the stored theme is `light`;
  - a click that flips the class and stores `light` or `dark`.

  The button's glyph and `aria-label` follow the class.
- **Language toggle** (`Language`, `language.dfy`).
  - The stored language defaults to `en`.
  - A click switches `en` to `ar` and anything else to `en`, then stores the
    result.
  - The page's `lang` and `dir` attributes, the dictionary, and the button's
    text, `data-lang` and label all follow the language.
- **Navigation drawer** (`Navigation`, `navigation.dfy`).
  - Opening remembers the focused element; closing gives focus back.
  - The toggle opens or closes the drawer. A resize wider than 860 px and a
    swipe of more than 80 px close it.
  - While the drawer is open, the focus trap keeps Tab and Shift+Tab inside
    `[toggle, ...links]`.
- **Crystal** (`Crystal`, `crystal.dfy`).
  - The twelve icosahedron vertices are generated once.
  - Each `draw` call is skipped while the page is hidden. Otherwise it
    advances `t` by 0.0042 and strokes an edge for every pair `i < j` whose
    screen distance is below 260, with alpha `1 - dist/260`.
  - Every call requests exactly one next frame.
  - A frame's inputs are the table of screen distances between the projected
    points and the value of `Math.sin(2t)`.

`Option` (`Wrappers`, `wrappers.dfy`) is the result of `getItem` and of the
drawer's remembered focus.

## Model

| member | source | states |
|---|---|---|
| Storage.GetItem | assets/js/app.js:176 | `getItem(key)` is `null` exactly when the key is absent, and otherwise the stored string |
| Storage.Truthy | assets/js/app.js:200-201 | JavaScript truthiness of a `getItem` result: the key is present and its value is not the empty string |
| Storage.OrDefault | assets/js/app.js:176 | `getItem(key) \|\| default`: the stored value when it is truthy (present and non-empty), the default otherwise; never empty when the default is not |
| Storage.LocalStorage.Get | assets/js/app.js:200 | `getItem`: the stored value, or nothing for an absent key; the store is unchanged |
| Storage.LocalStorage.Set | assets/js/app.js:202 | `setItem`: the key maps to the value afterwards, every other key is untouched |
| Storage.LocalStorage.Remove | assets/js/app.js:203 | `removeItem`: the key is gone afterwards, every other key is untouched |
| ContactForm.Trim | assets/js/app.js:178 | `value.trim()`: the leading strip followed by the trailing strip, never longer than the value (its full meaning is `TrimIsInnerSlice`) |
| ContactForm.Blank | assets/js/app.js:178 | `!value.trim()`: the trimmed value is empty (equivalently, by `BlankIffAllSpace`, the value is all whitespace) |
| ContactForm.TrimStart | assets/js/app.js:178 | the leading-whitespace strip never lengthens the value and leaves no whitespace at the front |
| ContactForm.TrimEnd | assets/js/app.js:178 | the trailing-whitespace strip never lengthens the value and leaves no whitespace at the end |
| ContactForm.TrimIsInnerSlice | assets/js/app.js:178 | `trim()` returns a contiguous slice of the value, removes only whitespace before and after it, and the slice neither starts nor ends with whitespace |
| ContactForm.TrimStartEmpty | assets/js/app.js:178 | stripping leading whitespace leaves nothing exactly when the value is all whitespace |
| ContactForm.TrimEndEmpty | assets/js/app.js:178 | stripping trailing whitespace leaves nothing exactly when the value is all whitespace |
| ContactForm.TrimStartIsSuffix | assets/js/app.js:178 | the leading strip keeps a suffix of the value and drops only whitespace |
| ContactForm.TrimEndIsPrefix | assets/js/app.js:178 | the trailing strip keeps a prefix of the value and drops only whitespace |
| ContactForm.BlankIffAllSpace | assets/js/app.js:178 | `!value.trim()` holds exactly when every character of the value is whitespace (the empty value included) |
| ContactForm.EmailOk | assets/js/app.js:181 | `/^[^@\s]+@[^@\s]+\.[^@\s]+$/.test(value)`: some `@` position and some later literal `.` split the whole value into three non-empty runs of characters that are neither `@` nor whitespace |
| ContactForm.EmailOkIffShape | assets/js/app.js:181 | the pattern accepts exactly the values with no whitespace, exactly one `@` with at least one character before it, and after it a `.` with at least one character on each side |
| ContactForm.MatchGivesShape | assets/js/app.js:181 | a match of the pattern (its `@` and dot positions) gives that shape, with the `@` of the match as the only one |
| ContactForm.ShapeGivesMatch | assets/js/app.js:181 | a value of that shape is matched by the pattern |
| ContactForm.EmailOkNotBlank | assets/js/app.js:178-181 | an e-mail the pattern accepts is never blank, so it never also gets "required" |
| ContactForm.FormDictionary | assets/js/app.js:176-177 | the messages come from the Arabic dictionary exactly when the stored language is truthy and is `ar`, otherwise from the English one (inherited property names aside, see Left out) |
| ContactForm.FieldNotice | assets/js/app.js:178-182 | one field's error message after the handler: "invalid e-mail" for a non-empty e-mail the pattern rejects (it overwrites the blank check), otherwise "required" for a blank value, otherwise cleared |
| ContactForm.FormValid | assets/js/app.js:172-186 | the form is accepted exactly when name and message are not blank and the e-mail matches the pattern; `company` plays no part |
| ContactForm.Submit | assets/js/app.js:168-187 | the handler's loop yields per field, in order: "invalid e-mail" for a non-empty e-mail the pattern rejects, else "required" for a blank value, else nothing. It sends exactly when the form is valid, which is exactly when no field shows an error. The status is "sending" or "fix fields" from the stored language's dictionary |
| ContactForm.ValidIffNoErrors | assets/js/app.js:172-183 | the form is accepted (name and message non-blank, e-mail matching) exactly when none of the three checked fields shows an error |
| ContactForm.AllClearedSnoc | assets/js/app.js:173-183 | adding one field's result keeps "no errors so far" exactly when that field shows none |
| ContactForm.CompanyIgnored | assets/js/app.js:173 | the `company` field never affects acceptance nor any checked value |
| ContactForm.BlankEmailNotices | assets/js/app.js:178-182 | an empty e-mail reports "required"; a non-empty whitespace-only e-mail reports "invalid e-mail", the later check overwriting the earlier message |
| Theme.Preference | assets/js/app.js:200-205 | the chosen theme is non-empty exactly when the current or the legacy key is truthy |
| Theme.Migrate | assets/js/app.js:200-204 | afterwards no truthy legacy value is left without a truthy current one; the chosen theme is preserved; every other key is untouched |
| Theme.MigrateMigratedIsIdentity | assets/js/app.js:200-204 | a store with nothing to migrate is left exactly as it is |
| Theme.MigrateIdempotent | assets/js/app.js:200-204 | migrating twice equals migrating once |
| Theme.MigrateMoves | assets/js/app.js:200-204 | the store changes exactly when the legacy key is truthy and the current one is not; the current key then holds the legacy value and the legacy key is removed |
| Theme.Stored | assets/js/app.js:212 | the stored theme is `light` or `dark`, and it is `light` exactly when the class is on |
| Theme.Label | assets/js/app.js:222 | the label offers the light theme exactly when the page is dark |
| Theme.Icon | assets/js/app.js:221 | the button shows the moon glyph U+263E exactly when the page is light, U+25D0 otherwise |
| Theme.Click | assets/js/app.js:209-213 | a click flips the class and stores the theme matching the new class; no other key changes |
| Theme.ClickAgrees | assets/js/app.js:209-213 | after any click, the stored theme and the class agree |
| Theme.ClickTwice | assets/js/app.js:209-213 | two clicks restore the class, and also the store when it agreed with the class |
| Theme.ThemeToggle.UpdateIcon | assets/js/app.js:217-223 | with a button, its glyph and label show the current class; without one, nothing changes |
| Theme.ThemeToggle.Init | assets/js/app.js:196-208 | without a button nothing happens. With one, the store is migrated, the class turns on if the stored theme is exactly `light` (never off), the button shows it, and the click handler is registered |
| Theme.ThemeToggle.OnClick | assets/js/app.js:209-214 | the class and the store become those of `Click`, and the button shows the new class |
| Theme.ClickTwiceRestores | assets/js/app.js:209-214 | two clicks on the registered button, with store and class in agreement, restore both |
| Language.Current | assets/js/app.js:363 | the current language is never empty, and is `en` when nothing truthy is stored |
| Language.Next | assets/js/app.js:368 | the next language is `en` or `ar`, and it is `ar` exactly when the current one is `en` |
| Language.NextInvolution | assets/js/app.js:368 | from `en` or `ar`, one switch changes the language and two switches return to it |
| Language.Dictionary | assets/js/app.js:342 | the dictionary is `en` or `ar`, and `ar` exactly for `ar` (inherited property names aside, see Left out) |
| Language.LangAttr | assets/js/app.js:355 | `lang` is `ar` exactly for `ar`, `en` otherwise |
| Language.DirAttr | assets/js/app.js:356 | `dir` is `rtl` exactly for `ar`, `ltr` otherwise |
| Language.ButtonText | assets/js/app.js:378 | the button reads `AR` exactly when the language is `en`, `EN` otherwise |
| Language.ButtonLabel | assets/js/app.js:380 | the label is "Switch to English" exactly when the language is not `en`, and the Arabic "switch to Arabic" text when it is |
| Language.AttributesFollowLanguage | assets/js/app.js:355-378 | the page is right-to-left exactly when its `lang` is `ar`; for `en` and `ar`, the button names the language a click switches to, and the dictionary and `lang` are the language itself |
| Language.LangToggle.ApplyTranslations | assets/js/app.js:341-358 | the dictionary, `lang` and `dir` become those of the language |
| Language.LangToggle.UpdateButton | assets/js/app.js:375-381 | with a button, its text, `data-lang` and label show the language; without one, nothing changes |
| Language.LangToggle.Init | assets/js/app.js:360-365 | without a button nothing changes; with one, the page and the button show the stored language (`en` by default) and the click handler is registered |
| Language.LangToggle.OnClick | assets/js/app.js:366-372 | the store gets the next language, and the page and the button show it |
| Language.ClickStoresSupported | assets/js/app.js:366-372 | after any click the stored language is `en` or `ar`, and it is the next one |
| Language.ClickTwiceRestores | assets/js/app.js:366-372 | from a stored `en` or `ar`, two clicks restore the store |
| Navigation.IndexOf | assets/js/app.js:264 | `indexOf` returns -1 exactly for an absent element; otherwise it returns the first position holding the element |
| Navigation.IndexOfDistinct | assets/js/app.js:264 | in a list without repeats, each element is found at its own position |
| Navigation.Trap | assets/js/app.js:265-266 | a wrap always targets one of the `n` focusable elements |
| Navigation.TrapActsAtTheEnds | assets/js/app.js:263-266 | the trap prevents the default exactly for Shift+Tab at the first element or outside the list, and for Tab at the last element. It then moves focus to the last or the first element respectively; in every other case it does nothing |
| Navigation.FocusAfter | assets/js/app.js:263-266 | where focus lands after one Tab press from an element of the list: the trap's target on a wrap, otherwise the neighbour in the browser's own Tab order, which is an assumption (see Left out); always an index of the list |
| Navigation.FocusCycles | assets/js/app.js:261-268 | with the trap, Tab moves focus to `(i + 1) mod n` and Shift+Tab to `(i - 1) mod n`, so focus never leaves the list |
| Navigation.NavDrawer.Focusable | assets/js/app.js:263 | the trap's list is never empty and starts with the toggle |
| Navigation.NavDrawer.constructor | assets/js/app.js:227-233 | the drawer starts closed, with no remembered focus and no touch in progress; toggle and links are fixed once found |
| Navigation.NavDrawer.Open | assets/js/app.js:234-242 | the drawer is open and remembers the element that had focus |
| Navigation.NavDrawer.Close | assets/js/app.js:243-250 | the drawer is closed, and focus goes back to the remembered element if there is one (link clicks, Escape and the backdrop, lines 255-258, call this) |
| Navigation.NavDrawer.OnToggleClick | assets/js/app.js:251-254 | a toggle click closes an open drawer and opens a closed one, with `Close`'s and `Open`'s effects |
| Navigation.NavDrawer.OnResize | assets/js/app.js:256 | a width above 860 closes the drawer; otherwise nothing changes |
| Navigation.NavDrawer.OnTab | assets/js/app.js:261-268 | a closed drawer ignores Tab. In an open one, the default is prevented exactly when the trap wraps; focus then moves to the target, and otherwise stays |
| Navigation.TabFrom | assets/js/app.js:261-268 | from the `i`-th element of an open drawer without repeated elements, the default is prevented exactly at the ends, and the new focus is the element `FocusAfter` names |
| Navigation.NavDrawer.OnTouchStart | assets/js/app.js:271 | the touch's start position is remembered |
| Navigation.NavDrawer.OnTouchEnd | assets/js/app.js:272-278 | a swipe of more than 80 px to the right from a remembered start closes the drawer, anything else changes nothing; the start is forgotten either way |
| Crystal.Raw | assets/js/app.js:23-27 | the twelve unit coordinates in the order the script lists them (a definition, no contract) |
| Crystal.Vertices | assets/js/app.js:22-28 | each listed coordinate scaled by 140, in order (a definition; its properties are `VerticesOnSphere`) |
| Crystal.VerticesOnSphere | assets/js/app.js:18-30 | there are twelve vertices, all at the same distance from the centre (squared norm `140² (1 + phi²)`) |
| Crystal.GeneratePoints | assets/js/app.js:18-30 | the push loop returns the twelve scaled coordinates in the listed order, all on that sphere |
| Crystal.RowBounds | assets/js/app.js:65 | the inner loop for row `i` visits only pairs `(i, b)` with `i < b < j` |
| Crystal.PairsBelowBounds | assets/js/app.js:64-65 | the loops visit only pairs `a < b < n` |
| Crystal.RowContains | assets/js/app.js:65 | the inner loop for row `i` visits every `(i, b)` with `i < b < j` |
| Crystal.PairsBelowContains | assets/js/app.js:64-65 | the loops visit every pair `a < b < n` |
| Crystal.RowIncreasing | assets/js/app.js:65 | the inner loop visits its pairs in strictly increasing order |
| Crystal.PairsBelowIncreasing | assets/js/app.js:64-65 | the loops visit pairs in strictly increasing order |
| Crystal.RowLength | assets/js/app.js:65 | row `i` up to column `j` has `j - i - 1` pairs |
| Crystal.PairsBelowLength | assets/js/app.js:64-65 | the first `i` rows over `n` points have `i (2n - i - 1) / 2` pairs |
| Crystal.PairsVisitedOnce | assets/js/app.js:64-65 | the loops visit exactly the pairs `a < b < n`, each once and in increasing order: `n(n-1)/2` of them |
| Crystal.TwelvePointsSixtySixPairs | assets/js/app.js:64-65 | for the twelve points that is 66 pairs |
| Crystal.Alpha | assets/js/app.js:69 | below the threshold the alpha lies in (0, 1], and it is 1 at distance 0 |
| Crystal.EdgeFor | assets/js/app.js:66-69 | the loop body for one pair: one edge with alpha `1 - dist/260` when the pair is in the table and closer than 260, nothing otherwise (a definition; its properties are `RowEdgesMembers`) |
| Crystal.RowEdgesMembers | assets/js/app.js:65-79 | row `i` strokes an edge to `b` exactly when `i < b < j` and the distance is below 260, with alpha `Alpha(dist)` |
| Crystal.BelowEdgesMembers | assets/js/app.js:64-80 | the first `i` rows stroke exactly the edges `a < b` with `a < i` and distance below 260, with alpha `Alpha(dist)` |
| Crystal.EndsAppend | assets/js/app.js:64-80 | the pairs of two runs of edges are the pairs of the first followed by those of the second |
| Crystal.RowEdgesAllClose | assets/js/app.js:65-79 | when all points are close, row `i`'s edges are exactly the inner loop's pairs, in order |
| Crystal.BelowEdgesAllClose | assets/js/app.js:64-80 | when all points are close, the edges of the first `i` rows are exactly those rows' pairs, in order |
| Crystal.AllCloseStrokesEveryPair | assets/js/app.js:64-80 | when every distance is below 260, the frame strokes one edge for each visited pair, in the loops' order: `n(n-1)/2` edges |
| Crystal.EdgeDrawnIff | assets/js/app.js:64-80 | a frame strokes an edge from `a` to `b` exactly when `(a, b)` is one of the visited pairs (so `a < b`) and their distance is below 260. Its alpha is then `1 - dist/260`, which lies in (0, 1] |
| Crystal.ConcatIncreasing | assets/js/app.js:64-80 | two strictly ordered runs of edges, the first wholly before the second, are strictly ordered together |
| Crystal.RowEdgesIncreasing | assets/js/app.js:65-79 | a row strokes its edges in increasing order |
| Crystal.BelowEdgesIncreasing | assets/js/app.js:64-80 | a frame strokes its edges in the loops' order, so it strokes no pair twice |
| Crystal.StrokeRow | assets/js/app.js:65-79 | the inner loop strokes exactly the edges of row `i`, in order |
| Crystal.StrokeEdges | assets/js/app.js:64-80 | the nested loop strokes exactly the frame's edges, in order |
| Crystal.GlowRadius | assets/js/app.js:82-83 | the glow radius stays within [140, 160], reaching 140 and 160 exactly at sine -1 and 1 |
| Crystal.Crystal.constructor | assets/js/app.js:9-17 | the points are generated once, `t` starts at 0, and exactly one frame is requested |
| Crystal.Crystal.Draw | assets/js/app.js:53-91 | every call runs one frame and requests exactly one more. While hidden, `t` is unchanged and nothing is drawn. Otherwise `t` grows by exactly 0.0042 and the frame strokes the edges of `EdgeDrawnIff` and the glow |

## Left out

- Projection and rotation (`Crystal.project`, lines 35-52) and the distances (`Math.hypot`) are not modelled. They are floating-point trigonometry. A frame takes the table of screen distances as input, and those distances are non-negative reals.
- Floating point in general is not modelled: `t`, alpha and the glow radius are exact reals, so rounding is not captured.
- The golden ratio is not modelled: `Crystal.GeneratePoints` and `Crystal.Crystal.constructor` take `phi` as an input, because `Math.sqrt` is not modelled.
- `Crystal.GlowRadius` takes the value of `Math.sin(t * 2)` as an input. The canvas gradients, colours, line widths and fill calls are not modelled.
- Crystal's `resize` and its listener (lines 14-15, 31-34) are not modelled, nor the 160 ms debounced global resize handler. They only copy the canvas size from the DOM.
- `requestAnimationFrame` is modelled only as a count of requested frames. The browser's calling of the callbacks is not modelled.
- The simulated send (`setTimeout`, which shows "sent" and resets the form, lines 189-192) is not modelled. It is a timer.
- The drawer's timers are not modelled: the 50 ms focus of the first link and the 400 ms backdrop hiding. The body's `menu-open` class follows `isOpen` and is not a separate field. The backdrop is not modelled either. `open()` shows it at once. After every `close()`, the timer hides it 400 ms later whatever the drawer's state is then. The timer's guard (line 248) tests for a `show` class on the drawer, which nothing ever adds, so the guard always passes. A drawer reopened within those 400 ms therefore stays open with its backdrop hidden.
- `Navigation.FocusAfter` assumes that, where the trap does nothing, the browser's own Tab order moves to the next or previous element of the list. That order belongs to the page's markup.
- The texts of the I18N dictionary and the placeholders, project-card rendering, the modal, `initYear`, scroll animations and style injection are not modelled. They only write static data into the DOM.
- Field values are taken as the page delivers them to the submit handler. The browser's value sanitisation is not modelled. An `<input type="email">` strips leading and trailing whitespace from its value, so a whitespace-only e-mail would reach the handler empty and report "required". The browser's built-in constraint validation, which may block the submit before the handler runs, is not modelled either. The markup is not part of this model.
- `Language.Dictionary` and `ContactForm.FormDictionary` do not model stored language names that are inherited property names of a plain object, such as `constructor`, `toString` or `__proto__`. For those, `I18N[lang]` and `map[lang]` are truthy but are not dictionaries, so the messages and placeholders would be `undefined` or a function's text. The model sends every language except `ar` to English. `ContactForm.Submit` and `Language.LangToggle.ApplyTranslations` inherit this gap.
- Storage access is assumed never to fail. In a browser, reading `localStorage` throws a `SecurityError` when storage is blocked, and `setItem` can throw a `QuotaExceededError`. `initThemeToggle` reads storage first inside the `DOMContentLoaded` handler (lines 396-410). A throw there would skip `initNavToggle`, `initYear`, `initLangToggle` and the deferred `initContactForm`. A throw inside a click or submit handler would end that handler part-way.
- `Theme.ThemeToggle.constructor` takes the initial `light` class as a parameter, since the stylesheet and markup decide it.
- `ContactForm.Submit` returns the messages instead of writing them into the page. It names messages by key and dictionary, not by text.
