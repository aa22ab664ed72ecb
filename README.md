# E-waste center locator: search, map refresh and pickup folder

This project models the logic of the locator page of an e-waste recycling
widget (`app.js`) and proves properties of it in Dafny 4.11. The page loads a
catalog of recycling centers and filters it with a text query. It keeps the
map markers and the results panel in step with the filtered list. It gates
every user action on a session flag. It also keeps a per-user folder of pickup
requests in browser local storage, which can be exported under a file name
derived from the user's email.

Files and modules:

- `wrappers.dfy` (`Wrappers`): `Option`, standing for a JavaScript value that
  may be null.
- `jsstring.dfy` (`JsString`): the JavaScript string operations used:
  - `trim`, with the ECMAScript WhiteSpace and LineTerminator characters;
  - `toLowerCase`, for ASCII letters only;
  - `includes`;
  - `String(n)` on an integer.
- `catalog.dfy` (`Catalog`): center records, the JavaScript truthiness of a
  pin, the per-center match test and `filterByQuery`, with its properties.
- `folder.dfy` (`Folder`): pickup records, the `folder:<email>` key, the
  read-modify-write append, and the export file name with its sanitizer.
- `app.dfy` (`App`): the class `Locator`, which holds the page's state:
  - the catalog;
  - the held markers, and the map's layers as a set of marker objects;
  - a log of `fitBounds` calls;
  - the results panel;
  - the session and local storage;
  - the page navigated to.

  Its methods are the page's handlers. `Valid()` says the map shows exactly
  the held markers, each once. `InSync()` says the panel and the markers
  correspond one for one.

Details of the source the model keeps:

- The export sanitizer replaces every character except the ASCII letters and
  digits. It does not keep other letters or digits.
- `count` is whatever `parseInt` gives, so it can be negative. The model does
  not require it to be at least 0.
- A session without `currentUserEmail` makes the folder key `folder:null`.
  `email.replace` then throws, which `Folder.ExportFolder` returns as
  `NullEmail`.

## Model

| member | source | states |
|---|---|---|
| `JsString.Trim` | app.js:35 | the input is a whitespace run, then the trimmed text, then a whitespace run; the trimmed text neither starts nor ends with whitespace, and is empty for an all-whitespace string |
| `JsString.TrimIncluded` | app.js:35 | the trimmed text occurs in the input, as `includes` sees it |
| `JsString.IntToString` | app.js:39 | `String(n)` is a `-` exactly for negative `n`, followed by decimal digits, without a leading zero unless `n` is 0, that denote the absolute value of `n` |
| `JsString.Includes` | app.js:37-39 | `hay.includes(needle)` holds exactly when `needle` occurs at some index of `hay` |
| `JsString.Lower` | app.js:35-38 | lower-casing keeps the length and maps each character on its own (ASCII letters only) |
| `JsString.TrimStartDropsLeadingWhitespace` | app.js:35 | `TrimStart` returns a suffix, drops only whitespace, and the result does not start with whitespace |
| `JsString.TrimEndDropsTrailingWhitespace` | app.js:35 | `TrimEnd` returns a prefix, drops only whitespace, and the result does not end with whitespace |
| `JsString.TrimIgnoresSurroundingWhitespace` | app.js:35 | whitespace added before and after a string does not change its `trim` |
| `JsString.TrimLowerCommute` | app.js:35 | trimming then lower-casing equals lower-casing then trimming |
| `JsString.LowerOfUpper` | app.js:35 | lower-casing an upper-cased string gives the lower-cased original |
| `JsString.DigitsRoundTrip` | app.js:39 | the decimal text of a nat pin reads back as the same number and has no leading zero |
| `Catalog.PinTruthy` | app.js:39 | a truthy pin has non-empty text |
| `Catalog.PinString` | app.js:39 | `String(pin)` is the text of a string pin, and for a number pin its `String(n)` text: a `-` exactly when negative, then the decimal digits of its absolute value |
| `Catalog.Normalize` | app.js:35 | the normalized query is the lower-cased query with a leading and a trailing whitespace run removed; it has no upper-case ASCII letter, has no whitespace at either end, and is empty for a whitespace-only query |
| `Catalog.Matches` | app.js:36-40 | a center matches exactly when its lower-cased city or name contains the query, or its pin is truthy and its text contains the query |
| `Catalog.Keep` | app.js:36-40 | the filtered list is a subsequence of its input, and every element kept matches the query |
| `Catalog.FilterByQuery` | app.js:34-41 | the result is a subsequence of the catalog and every center in it matches the normalized query |
| `Catalog.KeepCounts` | app.js:36-40 | each center occurs in the filtered list exactly as often as in the input if it matches, otherwise not at all |
| `Catalog.FilterIsMatchingSubsequence` | app.js:34-41 | `filterByQuery` returns a subsequence of the catalog (catalog order kept): only catalog centers matching the normalized query, each as often as in the catalog |
| `Catalog.BlankQueryReturnsAll` | app.js:35-37 | an empty or whitespace-only query returns the whole catalog |
| `Catalog.FilterIgnoresCaseAndSurroundingSpace` | app.js:35-38 | queries equal up to ASCII case, with any whitespace around them, select the same centers |
| `Catalog.FilterIgnoresUpperCase` | app.js:35 | upper-casing the query does not change the result |
| `Catalog.DelhiExample` | app.js:35-38 | "Delhi" and "delhi" select the same centers of every catalog |
| `Catalog.FalsyPinIgnored` | app.js:39 | a center with a falsy pin matches exactly when its lower-cased city or name contains the query |
| `Catalog.PinComparedWithoutLowering` | app.js:35-39 | a pin "AB12" contains the raw query "AB12", yet the center is not found, because the pin is not lower-cased while the query is |
| `Catalog.SixDigitPinText` | app.js:39 | `String(411001)` is "411001" |
| `Catalog.NumericPinMatches` | app.js:39 | a numeric pin 411001 is found by the padded query " 4110 " through its decimal text |
| `Folder.FolderKey` | app.js:104 | the key is `folder:` followed by the email, or by `null` when there is none |
| `Folder.StoredFolder` | app.js:107 | the folder read is the stored one, or empty when the key is absent |
| `Folder.AppendToFolder` | app.js:104-109 | the stored folder under the key becomes the old folder (empty if absent) plus the new record at the end; every other key keeps its value |
| `Folder.AppendEachKeepsOrder` | app.js:107-109 | after any series of appends a folder holds its earlier records followed by the new ones in append order; other folders are unchanged |
| `Folder.FolderKeysDistinct` | app.js:104 | different session emails get different folder keys |
| `Folder.MissingEmailSharesNullFolder` | app.js:98-104 | with no session email the key is `folder:null`, the same as for the email "null" |
| `Folder.Sanitize` | app.js:123 | the sanitized email has the email's length, keeps each ASCII letter and digit in place, and has `_` everywhere else |
| `Folder.SanitizeAlphabet` | app.js:123 | a sanitized email holds only ASCII letters, digits and `_` |
| `Folder.SanitizeFixedPoints` | app.js:123 | sanitizing leaves a string unchanged if and only if it consists of ASCII letters, digits and `_` |
| `Folder.SanitizeIdempotent` | app.js:123 | sanitizing twice equals sanitizing once |
| `Folder.ExportFileName` | app.js:123 | the file name is `ewaste-folder-`, then the sanitized email, then `.json`, and is 19 characters longer than the email |
| `Folder.ExampleFileName` | app.js:123 | the file name for `a.b@c.com` is `ewaste-folder-a_b_c_com.json` |
| `Folder.ExportNamesCollide` | app.js:123 | `a.b@c.com` and `a_b@c.com` have different folders but the same export file name |
| `Folder.ExportFolder` | app.js:116-123 | the export throws exactly when the session holds no email |
| `Folder.ExportAfterAppends` | app.js:104-123 | an export after a series of appends downloads the earlier records followed by the appended ones, under the email's file name |
| `App.Panel` | app.js:55-65 | the panel is one no-results notice for an empty list, otherwise one result item per listed center, in list order |
| `App.GetItem` | app.js:74 | `getItem` is null exactly when the key is absent, and is otherwise the stored value; the session email (app.js:98, 116) is read through it |
| `App.LoggedIn` | app.js:74 | the gate passes exactly when `getItem('loggedIn')` is the string "true" |
| `App.Locator.constructor` | app.js:2-4 | the page starts with an empty catalog, no markers, an empty map and panel, and no navigation |
| `App.Locator.LoadCenters` | app.js:6-13 | the catalog becomes the fetched list, or empty when fetching or parsing failed |
| `App.Locator.AddMarkers` | app.js:21-32 | every previously held marker is off the map; the held markers are fresh, one per listed center, at its coordinates, in order; the map shows exactly them; bounds are fitted to the list's coordinates in order, and not at all for an empty list |
| `App.Locator.InitMap` | app.js:15-19 | the map shows one marker per catalog center |
| `App.Locator.RenderResults` | app.js:52-67 | the panel is the single no-results notice with no marker left, or one item per center in list order with the markers matching the list; panel and markers stay in sync |
| `App.Locator.EnsureLoggedIn` | app.js:73-80 | returns true exactly when the session flag is "true"; otherwise navigates to `./pages/login.html` |
| `App.Locator.SubmitSearch` | app.js:83-88 | logged out: redirect, with panel, map and markers unchanged; logged in: the panel and markers show `filterByQuery` of the input, every old marker is off the map, and bounds are fitted once to the result's coordinates unless it is empty |
| `App.Locator.SubmitRecycle` | app.js:95-112 | logged out: storage untouched and redirect to login; logged in: storage is the append of the new record to the user's folder, nothing else changes |
| `App.Locator.ExportMyFolder` | app.js:114-126 | logged out: no download and redirect; logged in: the download for the session email and the stored folder |
| `App.SubmitTwiceThenExport` | app.js:95-126 | two pickup requests followed by an export download the earlier folder followed by both records, in submission order |

## Left out

- Leaflet internals are left out: `L.map`, `setView`, the tile layer, popup HTML and the `fitBounds` padding (app.js:16-17, 27, 31). The map is a set of marker objects. Rendering it is not modelled.
- The network fetch and JSON parse in `loadCenters` (app.js:8-9) are left out. `LoadCenters` receives their outcome as an `Option`.
- Folders are stored as sequences, not as JSON text (app.js:107, 109, 118). The model assumes every `folder:` value is the JSON text of an array of records. It leaves out an empty-string value, which `|| '[]'` reads as `[]`; malformed text, on which `JSON.parse` throws (app.js:107); a non-array such as `{}` or `null`, on which `folder.push` throws (app.js:108); and the export's download of the raw stored text (app.js:118).
- Geolocation (`useMyLocation`, app.js:43-50) and its gated click handler (app.js:90-93) are left out. They depend on an asynchronous external capability.
- DOM construction, `innerHTML` text, `alert`, `e.target.reset()` and the `window.location` assignment are left out. The panel is a sequence of entries, and navigation is the `location` field.
- `Blob`, `URL.createObjectURL`, the download click and `revokeObjectURL` (app.js:119-125) are left out. The export returns the file name and the records.
- `new Date().toISOString()` and `parseInt` (app.js:100, 105) are parameters. A NaN count is not modelled.
- JsString.Lower: lower-cases ASCII letters only. JavaScript's `toLowerCase` also maps non-ASCII letters.
- Folder.Sanitize: a Dafny `char` is a Unicode scalar value, while JavaScript strings are UTF-16. A character outside the Basic Multilingual Plane becomes one `_` here but two in the source.
- Catalog.PinString: pins are modelled as absent, a string, or an exact integer. Fractional numbers, exponent notation (at least 10^21) and boolean pins are not modelled. Integers of magnitude at least 2^53 are not modelled either: a JavaScript number cannot hold them exactly, and `String` prints the shortest digits that round-trip the stored double, not the integer's own digits.
- The `!list` null test in `addMarkers` and `renderResults` (app.js:24, 55) is not modelled. Every caller passes an array.
- `setupAuth` (app.js:69-71) is not modelled because it is empty. The `messageForm` handler (app.js:128-133) is not modelled because it only alerts after the gate.
- The startup sequence on `DOMContentLoaded` (app.js:136-141) is not modelled as one operation. Its steps are `LoadCenters` and `InitMap`.
- Storage writes (`localStorage.setItem`, app.js:109) are assumed to succeed. In the source a full or unavailable storage throws, and the folder is left unchanged.
- Catalog records are assumed to have a string `city` and a string `name`. In the source a missing or non-string one makes `toLowerCase` throw a TypeError (app.js:37-38), and `filterByQuery` throws.
- Races between browser tabs on local storage are not modelled. The source does not address concurrency.
