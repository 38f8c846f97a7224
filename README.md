# Focus mode allowlist — a Dafny model

Focus mode is a browser extension with two parts:

- **The content script** runs in every page. When blocking is switched on and the page's host is not on the allowlist, it covers the page with an overlay.
- **The popup** edits the allowlist and the on/off flag. Both are kept in the browser's synced key-value storage.

This project models the logic of both parts:

- the content script's host normalization, its allowlist test and the overlay state;
- the popup's input normalization;
- the popup's handlers that read, change and write back the stored list and flag;
- the popup's list of open tabs it offers for adding.

Files:

- `text.dfy`: the JavaScript string operations used, over `seq<char>`:
  - ASCII `toLowerCase`;
  - `trim`, with the ECMAScript whitespace set;
  - `startsWith`, `endsWith` and `includes`;
  - the anchored `replace(/^www\./, "")`.
- `lists.dfy`: the array operations used:
  - the default `sort()` on strings, as lexicographic order, with a proof that there is only one sorted permutation;
  - `Array.from(new Set(...))`;
  - `filter`.
- `storage.dfy`: the synced storage area, modelled as a class with one field per key.
  - A key can be missing, `null` or present.
  - Reading applies the `??` defaults.
- `content.dfy`: the content script.
  - `NormalizeDomain`, `IsDomainAllowed` and the overlay transition functions are pure Dafny functions.
  - The `ContentScript` class holds the overlay state (`overlayElement`). Its methods are specified by those functions.
- `popup.dfy`: the popup.
  - `NormalizeDomain` takes the URL parser as a parameter.
  - The list computations of the handlers are pure functions.
  - The `Popup` class holds the handlers as methods. They read and write a `SyncStore`.
- `wrappers.dfy`: `Option`.

The content script's `normalizeDomain` (`content.js:11`) removes only a lower-case `"www."`, and removes it before lowercasing. The model follows the code:

- `"WWW.Example.COM"` normalizes to `"www.example.com"`;
- it is allowed under `["example.com"]` only through the subdomain rule.

## Model

| member | source | states |
|---|---|---|
| Text.ToLower | content.js:11 | `toLowerCase` keeps the length, maps each character through the ASCII lowering and leaves no upper-case letter |
| Text.Trim | popup.js:18 | `trim` yields a slice of the input: everything removed before and after is JS whitespace, and the result neither starts nor ends with whitespace |
| Text.TrimEmptyIff | popup.js:18-19 | the trimmed text is empty exactly when every character is whitespace |
| Text.StripWww | content.js:11 | `replace(/^www\./, "")` removes exactly one leading lower-case `"www."`, and only when the text starts with it |
| Text.StartsWith | popup.js:113 | `startsWith(prefix)`: the text begins with `prefix`, character for character |
| Text.EndsWith | content.js:18 | `endsWith(suffix)`: the text ends with `suffix`, character for character |
| Text.Includes | popup.js:22 | `includes(part)`: the text starts with `part` or, after its first character, still includes it |
| Text.IncludesAt | popup.js:22 | a part found at some position means `includes` holds |
| Text.IncludesFound | popup.js:22 | conversely, a text that includes a part has it at some position, so `Includes` is exactly "occurs somewhere" |
| Lists.Le | popup.js:96 | the order `sort()` uses without a comparator: the first differing character decides, and a proper prefix comes first |
| Lists.Insert | popup.js:96 | inserting into a sorted list keeps it sorted and adds exactly one copy of the value |
| Lists.SortStrings | popup.js:96 | `sort()` returns a sorted permutation of its input |
| Lists.SortedPermutationUnique | popup.js:96 | two sorted permutations of the same list are equal, so the sort's result is determined by its contract |
| Lists.SortIsDetermined | popup.js:96 | any sort that returns a sorted permutation returns what `SortStrings` returns |
| Lists.Dedup | popup.js:145 | `Array.from(new Set(s))` has no duplicates, the same elements as `s`, and is empty only when `s` is |
| Lists.DedupOfDistinct | popup.js:153 | deduplicating a duplicate-free list returns it unchanged |
| Lists.Without | popup.js:105 | `filter(item => item !== x)` removes every `x` and keeps the count of every other value |
| Lists.WithoutAppend | popup.js:105 | filtering distributes over concatenation, so the kept elements stay in their order |
| Lists.WithoutAbsent | popup.js:105 | filtering out an absent value returns the list unchanged |
| Lists.WithoutKeepsSorted | popup.js:105 | filtering keeps a sorted list sorted |
| Lists.WithoutKeepsDistinct | popup.js:105 | filtering keeps a duplicate-free list duplicate-free |
| Lists.SortedDistinctUnique | popup.js:153 | two sorted duplicate-free lists with the same elements are equal |
| Lists.SortKeepsElements | popup.js:153 | sorting keeps the elements, and keeps a duplicate-free list duplicate-free |
| Storage.OrDefault | popup.js:70-71 | `v ?? fallback` replaces only a missing or `null` value |
| Storage.ReadState | popup.js:67-73 | a missing or `null` list reads as `[]` and flag as `false`; a present value passes through |
| Storage.SyncStore.SetAllowed | popup.js:75-77 | writing the list replaces it and leaves the flag alone |
| Storage.SyncStore.SetBlocking | popup.js:79-81 | writing the flag replaces it and leaves the list alone |
| Content.NormalizeDomain | content.js:10-12 | the result has no upper-case letter; it is the lowercased host without `"www."` when the host starts with a lower-case `"www."`, and the lowercased host otherwise |
| Content.MatchesEntry | content.js:18 | a normalized host is covered by a normalized entry when it equals it or ends with `"." + entry` |
| Content.AnyEntryMatches | content.js:16-19 | `some` over the list holds exactly when some normalized entry equals the host or is a dot-separated suffix of it |
| Content.IsDomainAllowed | content.js:14-20 | the host is allowed exactly when some entry, both normalized, equals it or ends it after a dot; the empty list allows nothing |
| Content.AllowedMonotone | content.js:16-19 | adding entries before or after never withdraws permission |
| Content.AllowedOrderInsensitive | content.js:16-19 | permuting the allowlist does not change the answer |
| Content.ListedIsAllowed | content.js:14-20 | a listed domain is allowed, and so is the same domain with `"www."` in front |
| Content.NoMatchWithoutDot | content.js:18 | an entry with text glued in front that does not end in a dot does not match |
| Content.MatchWiden | content.js:18 | if `x` is covered, then `x` itself and every name ending in `"." + x` are covered |
| Content.NormalizeSubdomain | content.js:10-12 | normalizing `p + "." + h` leaves the lowercased `h` at its end on a label boundary |
| Content.SubdomainOfAllowed | content.js:14-20 | every subdomain `p + "." + h` of an allowed host `h` is allowed |
| Content.UpperWwwIsNotStripped | content.js:11 | a host with an upper-case `"WWW."` keeps it after normalization |
| Content.NormalizeNotIdempotent | content.js:10-12 | for such a host, normalizing twice differs from normalizing once |
| Content.AllowedSingleton | content.js:14-20 | with one entry the check is that one match |
| Content.GluedNameIsBlocked | content.js:18 | a lower-case name that ends with a lower-case entry, with no dot before it and neither starting with `"www."`, is not allowed by that entry |
| Content.WwwHostIsAllowed | content.js:10-19 | a host that lowercases to `"www." + d`, whatever the case of its `"www."`, is allowed when `d` is listed |
| Content.UpperWwwEntryDoesNotCoverApex | content.js:10-19 | an entry stored as `"WWW." + d` does not allow the bare `d` |
| Content.NotExampleComIsBlocked | content.js:18 | `"notexample.com"` is not allowed under `["example.com"]` |
| Content.DeepExampleComIsAllowed | content.js:18 | `"a.b.example.com"` is allowed under `["example.com"]` |
| Content.UpperWwwExampleComIsAllowed | content.js:10-19 | `"WWW.Example.COM"` is allowed under `["example.com"]` |
| Content.AfterCreate | content.js:22-24 | `createOverlay` keeps an overlay already on the page and otherwise shows one naming the host |
| Content.AfterCheck | content.js:160-173 | `checkAndApplyBlock` on the overlay: an empty host leaves it; a blocked host creates it; otherwise it is removed |
| Content.ShouldRecheck | content.js:180-181 | the listener re-checks only for the `"sync"` area and only when the flag or the list key changed |
| Content.CheckShowsIffBlocked | content.js:160-173 | for a page with a host, the overlay is present after a check exactly when the flag is `true` and the host is not allowed |
| Content.MissingFlagRemovesOverlay | content.js:166-171 | a missing or `null` flag removes any overlay |
| Content.MissingListBlocksAll | content.js:165-169 | a missing or `null` list with blocking on shows the overlay on every page with a host |
| Content.CheckIdempotent | content.js:160-173 | checking twice with the same stored record is checking once |
| Content.AllowingHostClearsOverlay | content.js:160-173 | once the page's own host is listed, a check clears the overlay |
| Content.ContentScript.constructor | content.js:175-176 | a freshly loaded page has had the initial check applied |
| Content.ContentScript.CreateOverlay | content.js:22-24 | an existing overlay is kept as it is; otherwise an overlay for the host appears |
| Content.ContentScript.RemoveOverlay | content.js:146-150 | afterwards there is no overlay, so removing twice is removing once |
| Content.ContentScript.CheckAndApplyBlock | content.js:160-173 | an empty host changes nothing; otherwise the overlay is present exactly when the defaulted state blocks the host |
| Content.ContentScript.OnStorageChanged | content.js:179-185 | a change to either key in the synced area re-runs the check; any other change leaves the overlay alone |
| Popup.UrlFor | popup.js:22 | the URL given to the parser contains `"//"`; `"https://"` is put in front exactly when the text lacked `"//"` |
| Popup.NormalizeDomain | popup.js:16-27 | blank input and a throwing parser give `""`; otherwise the parsed host with at most one leading `"www."` removed |
| Popup.BlankInputIsRejected | popup.js:17-19 | input made only of whitespace normalizes to `""` |
| Popup.ParserInputIsClean | popup.js:18-22 | the parser sees trimmed, lower-case text that contains `"//"` |
| Popup.ParseFailureIsRejected | popup.js:24-25 | a parser that throws makes the input normalize to `""` |
| Popup.WwwInputNormalizes | popup.js:16-27 | input that trims and lowercases to `"www." + d`, with no `'/'` in `d`, normalizes to `d` when the parser returns the host unchanged |
| Popup.NoDoubleSlash | popup.js:22 | text without `'/'` does not include `"//"` |
| Popup.WithAdded | popup.js:96 | `[...allowedDomains, domain].sort()`: the old list with the domain appended, sorted |
| Popup.WithMerged | popup.js:153 | `Array.from(new Set([...allowedDomains, ...selected])).sort()`: the old and selected domains, deduplicated, sorted |
| Popup.AddedListSpec | popup.js:91-96 | adding a new domain gives a sorted permutation of the old list plus the domain, which occurs once; no duplicates are introduced |
| Popup.AddedIsListed | popup.js:91-96 | the added domain is listed afterwards, so adding it again is rejected |
| Popup.RemovedListSpec | popup.js:105 | removing drops every copy, keeps the others in order, changes nothing for an absent domain, and keeps the list sorted and duplicate-free |
| Popup.MergedListSpec | popup.js:145-153 | the merged list is sorted, duplicate-free, and holds exactly the old and selected domains |
| Popup.MergedDependsOnElements | popup.js:145-153 | the merge depends only on which elements the two lists hold |
| Popup.MergedIdempotent | popup.js:145-153 | merging the same selection twice is merging once |
| Popup.MergedOfListedIsUnchanged | popup.js:145-153 | merging already listed domains into a well-formed list changes nothing |
| Popup.AddedDomainIsAllowed | popup.js:96 | a domain the popup adds is then allowed by the content script, with or without `"www."` |
| Popup.IsWebTab | popup.js:113 | a tab is listed when it has a URL and the URL starts with `"http"` |
| Popup.WebTabs | popup.js:113 | the listed tabs are exactly the tabs whose URL starts with `"http"` |
| Popup.WebTabsAppend | popup.js:113 | filtering distributes over concatenation, so the web tabs keep their order and multiplicity |
| Popup.Choices | popup.js:126-140 | no offered checkbox has an empty value, and there are at most as many as tabs |
| Popup.TabChoice | popup.js:127-128 | one tab contributes its normalized domain, or nothing when it has no URL or the domain is `""` |
| Popup.ChoicesFromTabs | popup.js:126-140 | a checkbox is offered for `c` exactly when some listed tab contributes it |
| Popup.ChoicesAppend | popup.js:126-140 | the checkboxes for two runs of tabs are those of the first run followed by those of the second, so each tab contributes independently and in order |
| Popup.CollectChoices | popup.js:126-140 | the `forEach` loop builds exactly the offered checkbox values, in tab order |
| Popup.Popup.GetStoredState | popup.js:67-73 | the state read applies the `??` defaults to both keys |
| Popup.Popup.AddDomain | popup.js:83-101 | an empty normalized domain or one already listed leaves the store alone and sets the error; otherwise the sorted list with the domain is stored and the input and error are cleared |
| Popup.Popup.RemoveDomain | popup.js:103-108 | the stored list becomes the old one with every copy of the domain filtered out; the flag is unchanged |
| Popup.Popup.LoadTabs | popup.js:110-141 | the offered checkboxes are the choices of the web tabs; the button is enabled exactly when there is a web tab |
| Popup.Popup.AddSelectedTabs | popup.js:143-158 | an empty selection only sets the error; otherwise the merged list is stored and the error cleared |
| Popup.Popup.UpdateBlockingState | popup.js:160-163 | the stored flag becomes exactly the given value; the list is unchanged |

## Left out

- background.js is not part of this model. It writes defaults on install and switches the toolbar icon.
- Page rendering is not modelled: the overlay's HTML and CSS, `body.style.overflow`, `renderAllowedList`, `renderStatus` and the tab labels with their titles. The overlay is modelled only as present (with the host it names) or absent.
- The overlay's "close tab" button sends a `closeTab` message; background.js registers no `runtime.onMessage` listener for it. It is not modelled.
- `new URL(...).hostname` is the browser's WHATWG URL parser. It is a parameter of type `string -> Option<string>`, where `None` means the constructor threw.
- `chrome.tabs.query` is not modelled. `LoadTabs` receives the tab list as a parameter.
- Every storage read and write is assumed to succeed. In the source a rejected `chrome.storage.sync.get` or `set` (for instance over the sync area's write quota) throws at its `await` (popup.js:90, 97, 104, 106, 152, 154) and the handler stops there: nothing is stored, `domainInput` is not cleared and the error is not reset. The contracts of `Popup.Popup.AddDomain`, `RemoveDomain` and `AddSelectedTabs` describe only the successful path.
- Storage is asynchronous and shared between the popup and every page. Each handler is modelled as one atomic read followed by one write. Two handlers interleaving can lose an update; that case is not modelled.
- Change notifications are delivered by the browser. `OnStorageChanged` models one delivery, receiving the area name and the set of changed keys.
- `toLowerCase` is modelled for ASCII letters only. Other letters are left unchanged.
- Sorting compares `char` values. This coincides with JavaScript's UTF-16 code-unit order for characters in the Basic Multilingual Plane, but not for characters outside it.
- A stored value of the wrong type, such as a string where the list should be, cannot be represented. `??` passes such values through unchanged.
- `addSelectedTabs` unchecks the checkboxes afterwards. The model takes the checked values as a parameter and does not model the checkboxes.
- Popup.Choices: its contract states only that the values are non-empty and bounded in number. Which tab each value comes from is stated by `ChoicesFromTabs`, which keeps the contract of `Choices` cheap to use.
