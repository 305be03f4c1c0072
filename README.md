# Portfolio site scripts — a Dafny model

This project models the client-side behaviour of a static personal portfolio site, as written in three
scripts: `scripts/script.js`, `script.js` and `sacript.js`. It covers the following parts:

- **Typing animator** (`typing.dfy`, module `Typing`). `type()` shows a prefix of the current role. It then
  takes one of four branches (type a character, pause at full length, delete a character, switch role)
  and arms a timer of 90, 1500, 60 or 300 ms. The spec function `TypeCall` is one call and `TimerFires`
  is one timer firing. The arrow armed at full length sets `isDeleting` and then calls `type()`, so the
  full role is shown on two consecutive firings. The empty text is likewise shown twice at a role switch.
  `Run` and `Trace` iterate firings. The class `Typer` holds the module-level counters, and its methods
  `Type` and `Fire` are proved against the spec functions. The three copies of `type()` are the same
  code. `SiteRoles` (scripts/script.js, script.js) and `SacriptRoles` (sacript.js) are their role lists.
- **Mobile menu and focus trap** (`focus_trap.dfy`, module `FocusTrap`). This covers opening, closing,
  the toggle, link, resize and keydown listeners, and `activateFocusTrap` / `releaseFocusTrap` /
  `maintainFocus`. The DOM query of the trap is an input: a sequence of candidates, each with a
  `disabled` flag. `Page.marksToggle` tells the two copies apart: scripts/script.js also sets the
  toggle's `open` class, and script.js does not.
- **Theme toggle** (`theme.dfy`, module `Theme`). This covers initialisation from the stored "theme" and
  the click handler. `localStorage` is a `map<string, string>`. The `Style` selects how the toggle shows
  the mode. `PressedIcons` (scripts/script.js) uses `aria-pressed` and the moon and sun icons. `Glyph`
  (script.js, sacript.js) uses "☀" or "☾" as the toggle's text.
- **Helpers of scripts/script.js**:
  - `saveLocal` (`subscriptions.dfy`).
  - The badge image rewrite (`badges.dfy`), with JavaScript's `includes` and first-occurrence `replace`
    written out.
  - `countLines` and the in-place sort by stars followed by `slice(0, limit)` (`featured.dfy`).

Timers are not run. A delay is the value a step returns or arms. The focused element
(`document.activeElement`) is a field, and `focus()` assigns it.

## Model

| member | source | states |
|---|---|---|
| `Typing.ExactlyOneBranch` | script.js:27-42 | Branches are picked in the order written. No branch fires only when typing past the end of the role. When the cursor is within the role, exactly one of the four guards holds. |
| `Typing.TypeCall` | scripts/script.js:81-105 | A call shows `roles[roleIndex][..charIndex]` and keeps the counters in range. `roleIndex` changes only in the deleting-at-zero branch. `isDeleting` can become false only there, with `roleIndex` becoming `(roleIndex + 1) % |roles|`. The delay is one of 90/1500/60/300. The pause arrow is armed exactly at full length while typing. |
| `Typing.TimerFires` | scripts/script.js:93-96 | A firing (of `type` or of the pause arrow) keeps the counters in range and shows the role cut at the cursor. |
| `Typing.Run` | sacript.js:16-40 | Any number of firings keeps `roleIndex < |roles|` and `charIndex <= |roles[roleIndex]|`. |
| `Typing.TypingPhase` | sacript.js:24-26 | From cursor `c` while typing, `k` firings reach `c + k`. Frame `n` shows the role cut at `c + n` with a 90 ms delay. |
| `Typing.FullRoleShownTwice` | scripts/script.js:92-96 | After `|R|` typing firings the cursor is at `|R|`. The next firing shows `R`, waits 1500 ms and arms the deleting arrow. That arrow's firing shows `R` again. |
| `Typing.DeletingPhase` | sacript.js:32-38 | From cursor `c` while deleting, the frames shrink one character per 60 ms firing. The empty frame waits 300 ms. After `c + 1` firings the animator is at the next role (modulo the length), cursor 0, typing. |
| `Typing.OneCycle` | script.js:19-43 | One full type, pause, delete and switch cycle of role `i` takes `2|R| + 2` firings and ends at role `(i + 1) % |roles|`, cursor 0, typing, with `type` armed. |
| `Typing.RolesInOrder` | script.js:38-41 | After `k` complete cycles from role `i`, the animator is at role `(i + k) % |roles|`: roles are visited in order and wrap around. |
| `Typing.SiteRoleOrder` | scripts/script.js:65-72 | With the six roles of scripts/script.js and script.js, the `k`-th cycle ends at role `k % 6`. |
| `Typing.SacriptRoleOrder` | sacript.js:35-38 | With the four roles of sacript.js, the `k`-th cycle ends at role `k % 4`: 0, 1, 2, 3, then 0 again. |
| `Typing.DevExample` | scripts/script.js:81-105 | With the single role "Dev", the first nine frames are "", "D", "De" (90 ms each), "Dev" (1500), "Dev", "De", "D" (60 each), "" (300) and "" (90). |
| `Typing.Typer.constructor` | sacript.js:12-14 | The animator starts at role 0, cursor 0, typing, with `type` to be called. |
| `Typing.Typer.Type` | sacript.js:16-40 | `type()` writes `roles[roleIndex][..charIndex]` to the target when the target exists. It moves the counters as `TypeCall` says, returns the delay and arms the callback. |
| `Typing.Typer.Fire` | script.js:30-34 | The armed callback runs. The pause arrow sets `isDeleting` before calling `type()`. The new state and delay are those of `TimerFires`. |
| `FocusTrap.Enabled` | scripts/script.js:227 | The trap holds exactly the candidates that are not disabled, and it is no longer than the query result. |
| `FocusTrap.EnabledAppend` | scripts/script.js:227 | Filtering keeps order: the trap of a concatenation is the trap of the first part followed by the trap of the second. |
| `FocusTrap.EnabledLast` | scripts/script.js:242 | The last trap element is the last candidate that is not disabled. |
| `FocusTrap.EnabledFirst` | scripts/script.js:227-228 | The first trap element is the first candidate that is not disabled. |
| `FocusTrap.EnabledEmpty` | script.js:147-148 | The trap is empty exactly when every candidate is disabled. |
| `FocusTrap.EveryClosePathCloses` | scripts/script.js:158-172 | Escape, a resize wider than 720, a link click and a toggle click on an open menu all give exactly `CloseMenu` of the starting state, from any starting state. That state has `aria-hidden` "true", no `open` class, the `closing` class, `aria-expanded` "false" (when the toggle exists), no `open` class on the toggle (where the script sets it), an empty trap and no remembered element. Escape does not prevent the default. |
| `FocusTrap.NoMenuNoOp` | script.js:84-85 | Without the menu element, closing, opening, toggling, link clicks, resizes and keydowns change nothing and prevent nothing. |
| `FocusTrap.CloseIdempotent` | scripts/script.js:158-172 | Closing an already closed menu gives the same state as closing it once. |
| `FocusTrap.OpenActivatesTrap` | scripts/script.js:174-183 | Opening sets `aria-hidden` "false", the `open` class and `aria-expanded` "true". It remembers the focused element, fills the trap with the enabled candidates, and focuses the first enabled candidate. |
| `FocusTrap.OpenWithoutCandidates` | scripts/script.js:225-229 | When every candidate is disabled, opening leaves the trap empty and focus unmoved. |
| `FocusTrap.OpenThenCloseRestoresFocus` | scripts/script.js:231-235 | Open followed by close leaves the menu closed. Focus returns to the element focused before opening when there was one. Otherwise focus stays where opening put it. |
| `FocusTrap.FocusOnTabWraps` | scripts/script.js:237-250 | The default is prevented exactly when the menu exists, is open, has a non-empty trap, and either Shift+Tab is pressed on the first element or Tab on the last. Focus then moves to the other end. In every other case nothing changes. |
| `FocusTrap.OpenedTrapWraps` | scripts/script.js:237-250 | Right after opening, Shift+Tab on the first enabled candidate moves focus to the last enabled candidate, and Tab on the last enabled candidate moves it to the first. Both prevent the default. |
| `FocusTrap.ThreeElementTrap` | script.js:157-170 | With the trap [a, b, c]: Tab on c goes to a, Shift+Tab on a goes to c, and Tab on a passes through. |
| `FocusTrap.HandlersKeepConsistent` | script.js:105-139 | Each listener keeps the agreement between `aria-hidden`, the `open` class, `aria-expanded` and the toggle's class, and keeps the trap empty while the menu is not open. |
| `FocusTrap.ClosedStaysClosed` | scripts/script.js:210-219 | On a closed menu, Escape and resizes keep it closed with trap, remembered element and focus unchanged. A resize at or below 720 changes nothing. |
| `FocusTrap.MobileMenu.constructor` | scripts/script.js:222-223 | The page starts with the attributes and classes its markup gives, an empty trap and nothing remembered. A page whose menu is hidden and lacks the `open` class, and whose toggle (if any) says "false" and lacks its `open` class where the script sets it, starts in the agreement that `HandlersKeepConsistent` preserves. |
| `FocusTrap.MobileMenu.ActivateFocusTrap` | scripts/script.js:225-229 | Implements `ActivateTrap` on the object's fields. |
| `FocusTrap.MobileMenu.ReleaseFocusTrap` | script.js:151-155 | Implements `ReleaseTrap`: the trap is emptied, focus returns to the remembered element if there is one, and the remembered element is cleared. |
| `FocusTrap.MobileMenu.CloseMobileMenu` | script.js:84-95 | The new state is `CloseMenu` of the old one. With the menu present it is `Closed`. |
| `FocusTrap.MobileMenu.OpenMobileMenu` | script.js:97-103 | The new state is `OpenMenu` of the old one. With the menu present it is open, the trap is the enabled candidates, and the remembered element is the one focused before. |
| `FocusTrap.MobileMenu.OnToggleClick` | scripts/script.js:185-191 | Closes an open menu and opens a closed one (`ToggleClick`). |
| `FocusTrap.MobileMenu.OnLinkClick` | scripts/script.js:193-200 | Closes the menu. |
| `FocusTrap.MobileMenu.OnResize` | scripts/script.js:210-214 | Closes the menu when the width exceeds 720. |
| `FocusTrap.MobileMenu.MaintainFocus` | script.js:157-170 | Returns whether the default was prevented. The new state is `FocusOnTab` of the old one. |
| `FocusTrap.MobileMenu.OnKeydown` | script.js:136-139 | Escape closes. Tab then goes through `maintainFocus` (`Keydown`). |
| `Theme.InitPicksStoredMode` | script.js:53-61 | Initialisation gives `dark-mode` exactly when the stored theme is not "light", and `light-mode` when it is. Exactly one mode class results unless the page already had `light-mode` and the stored theme is not "light". Other classes are untouched. |
| `Theme.ClickClasses` | script.js:65-75 | A click's class update: `dark-mode` is present afterwards exactly when it was absent before, and exactly one mode class remains. |
| `Theme.ClickFlips` | script.js:63-77 | A click flips `dark-mode`, leaves exactly one mode class and touches no other class. |
| `Theme.TwoClicksRestore` | sacript.js:60-74 | Two clicks give back the original class set exactly when it had exactly one mode class. |
| `Theme.ThemeToggle.ShowIcon` | scripts/script.js:118-121 | An existing moon icon is hidden in light mode. An existing sun icon is hidden in dark mode. Absent icons stay absent. Nothing else changes. |
| `Theme.ThemeToggle.constructor` | sacript.js:50-58 | The body gets `InitClasses` of the stored theme. The toggle shows that mode: "☀" in light mode, "☾" in dark mode; with icons, `aria-pressed` and the icons. An icon exists exactly when the page has it inside a toggle of the icon style. The indicator the style does not use keeps its value, as do both indicators when there is no toggle. The storage is not written. |
| `Theme.ThemeToggle.Click` | scripts/script.js:134-151 | With a toggle, the classes flip. "theme" is stored as "dark" or "light" to match the new mode. `aria-pressed` is "true" exactly in dark mode, and the icons or glyph show the new mode. Icons are neither added nor removed. The indicator the style does not use keeps its value. Without a toggle the classes, the storage and both indicators are unchanged. |
| `Subscriptions.SaveLocal` | scripts/script.js:548-553 | The written list extends the old one (existing entries keep their order) and contains the address. The address is appended only when absent. No other address appears. |
| `Subscriptions.SaveKeepsNoDuplicates` | scripts/script.js:551 | A list without duplicates stays without duplicates. |
| `Subscriptions.SaveIdempotent` | scripts/script.js:548-553 | Saving the same address again writes the same list. |
| `Subscriptions.MalformedStartsOver` | scripts/script.js:549-550 | An unparsable or missing entry is replaced by a list holding only the new address. |
| `Badges.FindFrom` | scripts/script.js:471-472 | Returns the first index at or after `from` where the pattern occurs, or none when it does not occur there. |
| `Badges.ReplaceFirst` | scripts/script.js:472 | Without an occurrence the string is unchanged. Otherwise the length changes by `|rep| - |pat|`. |
| `Badges.ReplaceFirstAt` | scripts/script.js:472 | When `pat` first occurs at `i`, the result is the text before `i`, then `rep`, then the text after the occurrence. |
| `Badges.ReplaceInserts` | scripts/script.js:472 | After replacing an occurrence of `pat`, the result contains `rep`. |
| `Badges.ReplaceKeeps` | scripts/script.js:472 | Replacing "/blob/" cannot destroy an occurrence of a string at least as long that has no "/". |
| `Badges.RewriteBadgeSrc` | scripts/script.js:470-474 | A source that already names the raw-content host, or does not name github.com, is used unchanged. A source that is changed names the raw-content host afterwards. |
| `Badges.RewriteNamesRawHost` | scripts/script.js:470-474 | A source is unchanged unless it contains "github.com" and not "raw.githubusercontent.com". The result contains the raw host exactly when the source contained either host. |
| `Badges.RewriteIdempotent` | scripts/script.js:470-474 | Rewriting a rewritten source changes nothing. |
| `Featured.Utf16Length` | scripts/script.js:324 | A string's JavaScript `length` is between its number of characters and twice that. It equals the number of characters exactly when every character lies in the Basic Multilingual Plane. |
| `Featured.CountLines` | scripts/script.js:321-325 | No description gives 0. Otherwise the result is the least `lines` with `80 * lines >= length`, where `length` counts UTF-16 code units: the length divided by 80, rounded up. |
| `Featured.ExpandsExactlyWhenLong` | scripts/script.js:326-327 | The hover expansion is installed exactly for descriptions whose `length` is over 480. |
| `Featured.AstralCharsCountTwice` | scripts/script.js:324-327 | 470 BMP characters followed by 6 characters outside the BMP make 476 characters. The `length` is 482, which gives 7 estimated lines. |
| `Featured.WithStars` | scripts/script.js:290 | The subsequence of repositories with a given star count: only such repositories, no more than the listing has. |
| `Featured.SwapKeepsTies` | scripts/script.js:290 | Exchanging two neighbours with different star counts keeps the order among equally starred repositories. |
| `Featured.SortByStars` | scripts/script.js:289-290 | After the in-place sort the array is ordered by stars, most first, and is a permutation of the input. It is stable: for every star count, the repositories with that count appear in their original order. |
| `Featured.SortedPrefixIsTop` | scripts/script.js:292 | In a list sorted by stars, nothing after position `n` has more stars than anything before it. |
| `Featured.TopByStars` | scripts/script.js:289-292 | The featured list has `min(limit, |repos|)` entries, is ordered by stars and is drawn from the listing. No repository left out has more stars than a featured one. For every star count, the featured repositories with that count are the first ones the listing has with it. |

## Left out

- `Typing.TypeCall`: a role's length and the cursor count characters, while the scripts' `length` and
  `substring` count UTF-16 code units. The two agree for text inside the Basic Multilingual Plane, and
  every role of the three scripts is plain ASCII. A role with a character outside that plane would take
  two typing steps per such character in the scripts, showing half a surrogate pair in between, but one
  step in the model.
- Real timers: `setTimeout` scheduling is not modelled. A step returns its delay, and the armed callback
  is a field. The 220 ms timer that removes the `closing` class after a close is not modelled; the class
  stays set.
- Browser focus rules: `focus()` always makes the element the focused one, even if the browser would
  refuse because the element is hidden or not focusable.
- The trap query `querySelectorAll('a, button, [tabindex]:not([tabindex="-1"])')` is an input sequence;
  CSS selector matching is not modelled.
- `Theme.ThemeToggle.constructor`: the moon and sun icons are modelled only inside an existing toggle,
  as the script looks them up there.
- `Subscriptions.SaveLocal`: JSON text is represented by what it parses to: nothing, text that does not
  parse, or a list of strings. Other parse results are not modelled:
  - a JSON string, where `includes` is a substring test, the string is written back when the address
    occurs in it, and `push` throws when it does not;
  - a number, `null` or an object, where the script throws;
  - an array with entries that are not strings, which the script searches and extends like any other.
- `Featured.SortByStars`: missing star counts, which make the comparator return NaN, are not modelled.
- `FocusTrap.FocusOnTab`: when the default is not prevented, the browser moves focus to the next
  element in tab order. That traversal is not modelled, so the focused element stays as it was.
- `loadResources`, `loadFeaturedWork` and `loadAchievements` card rendering, and `fetch`. These are
  network I/O and DOM construction. Only the sort, slice and `countLines` of `loadFeaturedWork` and the
  badge `src` rewrite of `loadAchievements` are modelled.
- The badge regex in `loadAchievements` and `validateEmail`. Both are regular-expression matching.
- The scroll reveal (`IntersectionObserver`), the footer year (`Date`) and the hover expansion's
  styling. These are browser services and presentation.
- scripts/cloudflare-worker.js is not part of this model. It is a network relay.
- The subscribe button's click handler: only its `saveLocal` fallback is modelled.
