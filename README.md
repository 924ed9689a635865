# Agent subscription frontend: form, analytics and offline-cache logic

A Dafny model of the three pieces of browser-side logic in the agent
subscription frontend that can be stated apart from the DOM:

- **Form-input normalisation** (`app/assets/javascripts/scripts.js`). When a
  submit button is clicked, every `input:text` of the page is trimmed. An input
  flagged `data-uppercase="true"` with a non-empty value is first upper-cased
  and has every run of two or more whitespace characters replaced by one space.
  The AMLS autocomplete change handler joins the menu-item texts with commas,
  as JavaScript's loose `array == "..."` comparison does. It then marks the
  select `NOTFOUND`, clears it, or leaves it alone.
- **Analytics records** (`app/assets/javascripts/ga-events.js`). The event
  action is taken from the page title: the part before the first `" - "`, with
  colons replaced by `" -"` and line breaks removed. A click on a details
  summary pushes a record with category `accordion - hide` or
  `accordion - expand`, except on `localhost` and on summaries marked
  `data-ga-event="false"`.
- **Offline cache interceptor** (`app/assets/service-worker.js`). Install
  pins 14 URLs into the cache `agents-offline`, all or nothing. Fetch is
  network-first: on a network error it answers with the cached `offline.html`.
  `refreshOffline` overwrites one cache entry.

Modules: `JsText` holds the JavaScript built-ins the scripts use. It covers
the `\s` class and `trim` (the full ECMAScript WhiteSpace and LineTerminator
set), ASCII `toUpperCase`, `indexOf`, `substring` with its argument clamping,
and `Array.prototype.join`. `FormInputs`, `GaEvents` and `ServiceWorker`
follow the three source files. `Wrappers` gives `Option` for JavaScript's
`undefined`.

The handlers that change state in place are methods. These are the submit
loop over the array of inputs, the AMLS select, the page's `dataLayer` and the
worker's cache storage. Each is proved against a pure function, and the
properties are lemmas about those functions.

`service-worker.js` has no cache-first lookup, no GET-only filter, no
`Accept`-header check and no write-back of network responses. Fetch goes to
the network for every request of any method. It reads the cache only when the
network fails. Only install and `refreshOffline` write to the cache.

## Model

| member | source | states |
|---|---|---|
| `JsText.IsSpace` | app/assets/javascripts/scripts.js:15-17 | the class shared by `\s` and `trim`: among ASCII characters exactly space and tab through carriage return; never a comma, letter or digit |
| `JsText.Upper` | app/assets/javascripts/scripts.js:15 | `toUpperCase` on one character maps `a`-`z` to `A`-`Z`, never yields a lower-case ASCII letter, and keeps a character whitespace exactly when it was |
| `JsText.ToUpper` | app/assets/javascripts/scripts.js:15 | `toUpperCase` keeps the length and upper-cases each character in place |
| `JsText.Trim` | app/assets/javascripts/scripts.js:17 | `trim` gives the slice of the value left once the whitespace runs at both ends are dropped; that slice has no whitespace at either end |
| `JsText.TrimUnique` | app/assets/javascripts/scripts.js:17 | `trim` of whitespace, then text with no whitespace at its ends, then whitespace, is exactly that text |
| `JsText.IndexOf` | app/assets/javascripts/ga-events.js:24 | `indexOf` gives the first index where the pattern occurs, or -1 exactly when it occurs nowhere |
| `JsText.Substring` | app/assets/javascripts/ga-events.js:24 | `substring(0, end)` is the prefix of length `end` for an end within range, and the empty string for a negative end |
| `JsText.Join` | app/assets/javascripts/scripts.js:51 | `join` of two or more items has the separator right after the first item; one item joins to itself; no items join to "" |
| `FormInputs.Collapse` | app/assets/javascripts/scripts.js:15 | `replace(/\s\s+/g, ' ')` leaves no two consecutive whitespace characters, is empty only for empty input, and starts with whitespace exactly when its input does |
| `FormInputs.CollapseLast` | app/assets/javascripts/scripts.js:15 | the collapsed value ends with whitespace exactly when its input does |
| `FormInputs.CollapseRun` | app/assets/javascripts/scripts.js:15 | around any maximal whitespace run, the parts before and after are collapsed on their own; the run becomes one space when it has two or more characters and stays as it is when it has one |
| `FormInputs.CollapseKeepsText` | app/assets/javascripts/scripts.js:15 | collapsing never adds, drops or reorders a non-whitespace character |
| `FormInputs.CollapseKeepsSingleSpaces` | app/assets/javascripts/scripts.js:15 | a string with no double whitespace is unchanged by the collapse, so a lone tab or newline stays as it is |
| `FormInputs.Normalised` | app/assets/javascripts/scripts.js:14-18 | every submitted value has no whitespace at its ends; a flagged value also has no two consecutive whitespace characters |
| `FormInputs.UppercaseBranch` | app/assets/javascripts/scripts.js:14-15 | a non-empty flagged value ends up upper-case, trimmed and collapsed, and holds exactly the upper-cased non-whitespace characters of the input, in order |
| `FormInputs.UppercaseRun` | app/assets/javascripts/scripts.js:14-15 | for a flagged value cut at any whitespace run between two pieces of text, the result is the two pieces normalised on their own, joined by one space when the run has two or more characters and by the run itself when it has one |
| `FormInputs.PlainBranch` | app/assets/javascripts/scripts.js:14-17 | an unflagged value, or an empty flagged value, is the original minus its leading and trailing whitespace and nothing else |
| `FormInputs.SingleSpacesKept` | app/assets/javascripts/scripts.js:15 | a flagged value that is already trimmed and has no double whitespace is only upper-cased; its single tabs are not turned into spaces |
| `FormInputs.NormalisedIdempotent` | app/assets/javascripts/scripts.js:13-19 | normalising an already normalised value changes nothing |
| `FormInputs.Submitted` | app/assets/javascripts/scripts.js:13-19 | only `input:text` values change, never an attribute; the new value has no edge whitespace, and a flagged one has no double whitespace |
| `FormInputs.SubmittedIdempotent` | app/assets/javascripts/scripts.js:13-19 | a second submit click leaves every input as the first one left it |
| `FormInputs.SubmitClick` | app/assets/javascripts/scripts.js:12-20 | after the click, each input of the array is the submitted form of what it held before |
| `FormInputs.AmlsDecision` | app/assets/javascripts/scripts.js:51-57 | the handler marks "not found" exactly when the menu holds the one item "No results found"; it clears exactly when the menu is empty or holds one empty item; otherwise it keeps the selection |
| `FormInputs.SelectVal` | app/assets/javascripts/scripts.js:53-56 | `.val(v)` on the select selects `v` exactly when some option has that value, and selects nothing otherwise |
| `FormInputs.AmlsSelect.OnChange` | app/assets/javascripts/scripts.js:43-59 | the "not found" case appends the NOTFOUND option and selects it; the empty case selects the "" option if there is one; every other menu leaves options and selection unchanged |
| `GaEvents.ReplaceColons` | app/assets/javascripts/ga-events.js:24 | the result of `replace(/:/g, ' -')` has no colon; its first character is a space when the input starts with a colon, and the input's first character otherwise |
| `GaEvents.StripLineBreaks` | app/assets/javascripts/ga-events.js:24 | the result of the line-break replacement (CR LF, lone LF or lone CR removed) has no CR or LF |
| `GaEvents.Title` | app/assets/javascripts/ga-events.js:22-26 | the action string is empty when the page title has no " - ", and never holds a CR or an LF |
| `GaEvents.ReplacementsAreCleaning` | app/assets/javascripts/ga-events.js:24 | the two replacements in sequence equal the per-character reference: colon becomes " -", CR and LF are dropped, every other character is kept in order |
| `GaEvents.TitleIsCleanedPrefix` | app/assets/javascripts/ga-events.js:22-26 | the title is the cleaned text before the first " - "; it is "" when the page title has no " - " |
| `GaEvents.TitleIsClean` | app/assets/javascripts/ga-events.js:24 | the title never contains a colon, a CR or an LF |
| `GaEvents.CleanedAllKeepsPlainText` | app/assets/javascripts/ga-events.js:24 | text with no colon or line break passes through unchanged |
| `GaEvents.TitleIgnoresRest` | app/assets/javascripts/ga-events.js:24 | whatever follows the first " - " can be replaced without changing the title |
| `GaEvents.OpenClose` | app/assets/javascripts/ga-events.js:13-19 | the result is "hide" exactly when the enclosing details is open, and "expand" otherwise |
| `GaEvents.ClickEvent` | app/assets/javascripts/ga-events.js:32-37 | the record has event `custom_agents_request`, category "accordion - hide" exactly when the details is open and "accordion - expand" otherwise, the derived title (the cleaned prefix of the page title before " - ") as action, and the summary text as label |
| `GaEvents.ClickRecords` | app/assets/javascripts/ga-events.js:2-39 | a click records at most one event; it records none exactly on `localhost` or for a summary marked `data-ga-event="false"`; only summaries that `details summary .summary` matches are modelled, so the enclosing details always exists |
| `GaEvents.Page.SummaryClick` | app/assets/javascripts/ga-events.js:30-39 | the data layer grows by exactly the click's records |
| `ServiceWorker.ManifestShape` | app/assets/service-worker.js:7-27 | the manifest has 14 distinct URLs, `offline.html` among them |
| `ServiceWorker.Open` | app/assets/service-worker.js:5 | `caches.open` makes the named cache exist, creating it empty when absent, and changes no existing cache |
| `ServiceWorker.AddAll` | app/assets/service-worker.js:7-27 | `addAll` succeeds exactly when every URL answers ok and none answers with a partial (206) response; on success each URL maps to its response and every other entry is kept; on failure nothing is stored |
| `ServiceWorker.InstallStep` | app/assets/service-worker.js:2-33 | install succeeds exactly when every manifest URL answers ok and not with a partial response; a failed install only opens the cache |
| `ServiceWorker.InstallOutcome` | app/assets/service-worker.js:4-28 | after a successful install every manifest URL is cached with its network response, older entries outside the manifest are kept, and the cache holds no other key; a failed install adds nothing; other caches never change |
| `ServiceWorker.FetchStep` | app/assets/service-worker.js:36-45 | a network answer of any status is returned unchanged and the storage is untouched; on a network error the answer is the cached `offline.html`, or none when it is not cached |
| `ServiceWorker.FetchIgnoresRequest` | app/assets/service-worker.js:36-38 | the handler treats every request the same way, whatever its method or URL |
| `ServiceWorker.RefreshStep` | app/assets/service-worker.js:48-53 | refresh stores the response under its key, unless it is a partial response, which `put` rejects after the cache is opened; every other entry and every other cache stays unchanged |
| `ServiceWorker.RefreshAsWritten` | app/assets/service-worker.js:48-53 | the handler as written opens the cache and stores nothing |
| `ServiceWorker.RefreshAsWrittenStoresNothing` | app/assets/service-worker.js:51 | from an empty storage, the handler as written leaves `offline.html` uncached, where the intended put caches any non-partial response |
| `ServiceWorker.RefreshLastWriteWins` | app/assets/service-worker.js:49-51 | two refreshes of one key equal the second one alone; when the second is a partial response, they equal the first one alone |
| `ServiceWorker.AfterKeepsOfflinePage` | app/assets/service-worker.js:2-53 | no install, fetch or refresh removes a cached `offline.html` |
| `ServiceWorker.OfflinePageStays` | app/assets/service-worker.js:2-53 | once cached, `offline.html` stays cached through any sequence of events |
| `ServiceWorker.InstalledWorkerServesOfflinePage` | app/assets/service-worker.js:7-42 | after a successful install, whatever happens next, a fetch that the network fails is answered with the offline page |
| `ServiceWorker.FetchesOnlyRead` | app/assets/service-worker.js:36-44 | any number of fetches leave every cache entry as it was; at most they create the empty `agents-offline` cache |
| `ServiceWorker.Worker.OpenCache` | app/assets/service-worker.js:5 | `caches.open('agents-offline')` leaves the storage as `Open` makes it and hands back that cache |
| `ServiceWorker.Worker.OnInstall` | app/assets/service-worker.js:2-33 | the worker's storage and result are those of the install step |
| `ServiceWorker.Worker.OnFetch` | app/assets/service-worker.js:36-45 | the worker's storage and response are those of the fetch step |
| `ServiceWorker.Worker.OnRefreshOffline` | app/assets/service-worker.js:48-53 | the worker's storage is that of the refresh step |

## Left out

- `toUpperCase` is modelled for the ASCII letters only. Full Unicode case mapping is not modelled: `ß` becomes `SS`, for example, which changes the length.
- The page scripts' DOM glue is not modelled: error-summary focus, `aria-hidden` on hidden inputs, `GOVUK.ShowHideContent`, the `accessibleAutocomplete` set-up, relocation of error notifications, `#dropForm` visibility, the space-key click simulation and skip-link focus. None of it holds logic beyond calling the DOM.
- `findCountry` (scripts.js lines 38-40) is not modelled. Nothing calls it. The unused `changedValue` is not modelled either.
- `.attr("selected", "selected")` on the select element is not modelled. It only sets an attribute on the `<select>` itself.
- The label text `striptext` is not modelled. It clones the summary and removes its `.visuallyhidden` children, so the model takes that text as an input. The `dataLayer` is a sequence that the model appends to; what analytics does with it is not modelled.
- A `.summary` element outside a `details summary` is not modelled: no handler is ever bound to it, so a click on it records nothing.
- Whether a click handler is bound is decided once, when the page loads. The model checks the host and the `data-ga-event` attribute at each click instead. That gives the same outcome only when no `.summary` element is added, and no `data-ga-event` attribute changes, after the page has loaded; elements added later are never bound in the browser.
- The browser's promises, `waitUntil`, `respondWith` and the interleaving of concurrent handlers are not modelled. Each handler is one atomic step on the storage.
- `AddAll`, `RefreshStep`: response headers are not modelled, so the rejection of a response carrying `Vary: *` by `addAll` and `put` is not modelled either. The rejection of a partial (206) response is.
- Response bodies are plain strings. Cloning and consuming bodies are not modelled.
- Requests are matched by URL only. The options of `cache.match` are not modelled.
- Passing `undefined` to `respondWith` is not modelled. The model returns `None`; the browser turns it into a network error.
- `addAll` rejects a list with duplicate URLs. That rule is not modelled, because the manifest has none (`ServiceWorker.ManifestShape`).
- The `refreshOffline` handler has two defects. Its key `offlineSite` is never declared, and its parameter named `response` is the event object. `RefreshStep` takes the key and the response as explicit parameters, and `RefreshAsWritten` models the handler as written. No browser dispatches a `refreshOffline` event, so how it would be triggered is not modelled either.
- `console.log` output is not modelled. The commented-out localhost URLs in the manifest are not part of the model.
- `app/assets/sw.js` is not part of this model. It only registers the worker when no worker controls the page.

## Findings

| source | as written | input that shows it | evidently intended | confidence | as-written member | corrected member |
|---|---|---|---|---|---|---|
| app/assets/service-worker.js:51 | `cache.put(offlineSite, response)` names `offlineSite`, which is declared nowhere, so the call throws a ReferenceError once the cache is open | any `refreshOffline` event, e.g. on an empty storage with the key `offline.html` (`ServiceWorker.RefreshAsWrittenStoresNothing`) | store the supplied response under the offline page's key | high, not executed | `ServiceWorker.RefreshAsWritten` | `ServiceWorker.RefreshStep` |
