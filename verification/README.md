# Client rules of the PoPay React Native app, in Dafny

The app is mostly screens and HTTP calls. This project models its
self-contained logic:

- **Booking and demand rules** (`booking_rules.dfy`, module `BookingRules`):
  - the deposit tier for a party size;
  - the demand level of a percentage;
  - the "top" demand window picked by a `reduce`, and the alert the merchant
    sees when demand turns high;
  - the activity-type normaliser;
  - the 5-minute ceiling rounding of timestamps;
  - the `nextHour` end-time helper.
- **The commercial-windows editor** (`commercial_windows.dfy`, module
  `CommercialWindows`). A merchant's strengths are `{label, start, end}`
  windows. The merchant toggles a strength on or off, removes it, or picks a
  new hour or minute for its start or end. A validator gates saving. The
  `commercialWindows` state is the class `WindowList`.
- **The offer form** (`offer_form.dfy`, module `OfferForm`): the per-field
  error map built when "Pubblica offerta" is pressed, and the request that is
  sent only when that map is empty.
- **Reservations** (`reservations.dfy`, module `Reservations`):
  - the merchant's search over received reservations;
  - the customer's booking list (class `BookingList`). Bookings are put in
    front, and the list is re-fetched and merged with the metadata it already
    held.
- **Notifications** (`notifications.dfy`, module `Notifications`): the
  seven-day filter on fetched notifications, and the unread badge (class
  `Badge`).
- **Wallet history** (`wallet_history.dfy`, module `WalletHistory`): the loop
  that groups transactions by day in a `Map`. It is proved against a
  specification by prefixes. Each day's section holds every transaction of
  that day as often as the list does, so grouping loses and duplicates
  nothing.
- **The API client** (`api_client.dfy`, module `ApiClient`):
  - the choice of base URL from the environment override or the Metro
    bundler's host;
  - `parseBody`;
  - `request`: the URL it fetches and the `{status, body}` error it throws.
- **JavaScript string primitives** (`js_text.dfy`, module `JsText`): these
  behave as the engine defines them.
  - `toLowerCase` on ASCII letters;
  - `trim`, with the ECMAScript white-space set;
  - `includes`;
  - `String(n)` for integers.

Calls into code outside the model become parameters:

- `Date.now()` and `new Date(...)`;
- `Number(...)`, with `Num = Finite(v) | NotFinite` standing for a finite
  double or NaN/±Infinity;
- `JSON.parse`, as `string -> Option<J>`, where `None` means it threw;
- `process.env.POPAY_API_BASE_URL` and `NativeModules.SourceCode.scriptURL`;
- `fetch`, as a function from the URL to the response's status and text;
- the outcome of each re-fetch in `refreshBookings`.

JavaScript integer arithmetic is written out where it matters. `%`
truncates toward zero (`JsRem`). `Math.ceil` on a millisecond timestamp is a
negated floor division (`RoundTo5`).

## Model

| member | source | states |
|---|---|---|
| JsText.Lower | App.tsx:2084 | lower-casing keeps the length and maps each character by itself (A–Z to a–z, everything else unchanged) |
| JsText.LowerIdempotent | App.tsx:2084 | lower-casing an already lower-cased query changes nothing |
| JsText.LowerKeepsNonLetters | App.tsx:2086-2087 | text with no upper-case ASCII letter is its own lower-case form |
| JsText.TrimStart | App.tsx:2084 | the result is a suffix of the input with no leading white space, and everything cut is white space |
| JsText.TrimEnd | App.tsx:2084 | the result is a prefix of the input with no trailing white space, and everything cut is white space |
| JsText.TrimIsInnerSlice | App.tsx:2084 | `trim` returns a slice `s[i..j]` with only white space outside it |
| JsText.TrimHasNoOuterSpace | App.tsx:2084 | the trimmed text has no white space at either end |
| JsText.TrimEmptyIffBlank | App.tsx:1984 | `!s.trim()` holds exactly when every character of `s` is white space |
| JsText.TrimKeepsUnpadded | App.tsx:2084 | text that neither starts nor ends with white space is its own trim |
| JsText.NatToString | App.tsx:2086 | `String(n)` of a natural number is non-empty, made of decimal digits, and starts with '0' only for 0 (no leading zero) |
| JsText.NatToStringValue | App.tsx:2086 | the digits of `String(n)` read back, most significant first, give `n` |
| JsText.IncludesIff | App.tsx:2086-2087 | `s.includes(q)` holds exactly when `q` occurs in `s` as a contiguous piece starting at some position of `s` (any position for an empty `q`) |
| JsText.IntToString | App.tsx:2086 | `String(n)` is non-empty and starts with '-' exactly when `n` is negative; a non-negative `n` gives its digits alone, a negative one gives '-' followed by the digits of `-n` |
| JsText.IntToStringValue | App.tsx:2086 | `String(n)` read back as an optional '-' followed by decimal digits gives `n` |
| BookingRules.DepositForParty | App.tsx:274-279 | the deposit is 20 iff size ≥ 10, 15 iff 7 ≤ size < 10, 10 iff 4 ≤ size < 7, 5 iff size < 4; nothing else is possible |
| BookingRules.DepositMonotone | App.tsx:274-279 | a larger party never pays a smaller deposit |
| BookingRules.DemandLevelFromPercent | App.tsx:348-352 | HIGH iff pct ≥ 70, MEDIUM iff 40 ≤ pct < 70, LOW iff pct < 40 |
| BookingRules.DemandLevelMonotone | App.tsx:348-352 | more demand never gives a lower level |
| BookingRules.TopIndex | App.tsx:356 | the reduce returns an index holding a maximum `demandPercent`, and every earlier index holds strictly less, so ties go to the first maximum |
| BookingRules.TopIndexUnique | App.tsx:356 | the first maximum is the only index meeting that description, so the choice depends on the percentages alone |
| BookingRules.TopWindow | App.tsx:2201-2202 | the suggested window is absent exactly for an empty list; otherwise it is a member of the list with the largest percentage, and on a tie the first such window (the reduce switches only on a strict increase) |
| BookingRules.OnDemandChanged | App.tsx:354-362 | nothing happens for a non-merchant or an empty list; otherwise the remembered level becomes the level of the top window, and an alert always names that top window, at ≥ 70%, and only fires when the remembered level was not HIGH |
| BookingRules.NoRepeatedAlert | App.tsx:358-361 | after an alert, a further HIGH reading raises no second alert |
| BookingRules.AlertRearms | App.tsx:357-361 | once demand falls below 70% the alert is armed again: the next HIGH reading alerts on its top window |
| BookingRules.AlertIff | App.tsx:356-360 | for a merchant, an alert fires iff the top window is at ≥ 70% and the remembered level was not HIGH |
| BookingRules.MapActivityType | App.tsx:138-145 | null, undefined and "" give null; "ristorazione", "lido" and "intrattenimento" in any case give "Ristorante", "Lido balneare" and "Intrattenimento / Eventi"; every other result is the input itself or one of those three names |
| BookingRules.MapActivityTypeCaseInsensitive | App.tsx:139-143 | two spellings of a keyword that lower-case alike map to the same canonical name |
| BookingRules.MapActivityTypeRenamesKeywords | App.tsx:141-143 | a keyword, in any case, is always replaced, never returned as typed |
| BookingRules.MapActivityTypeKeepsOthers | App.tsx:144 | any other non-empty value is returned verbatim, not lower-cased |
| BookingRules.CanonicalNameKept | App.tsx:141-144 | each of "Ristorante", "Lido balneare" and "Intrattenimento / Eventi" maps to itself |
| BookingRules.MapActivityTypeIdempotent | App.tsx:138-145 | normalising an already normalised value changes nothing |
| BookingRules.RoundTo5 | App.tsx:2481-2484 | the result is a multiple of 300000 ms with `t ≤ r < t + 300000`, negative timestamps included |
| BookingRules.RoundTo5Least | App.tsx:2481-2484 | the result is the least multiple of five minutes not before `t` |
| BookingRules.RoundTo5Idempotent | App.tsx:2481-2484 | rounding a rounded time changes nothing |
| BookingRules.RoundTo5Monotone | App.tsx:2481-2484 | rounding keeps the order of times |
| BookingRules.JsRem | App.tsx:2476 | JavaScript's `%`: the remainder is `a − trunc(a/b)·b`, has the dividend's sign and is below the divisor in size |
| BookingRules.ClockText | App.tsx:2478 | `toTimeString().slice(0, 5)` is two digits, ':' and two digits; the first two denote the hour `q / 60` and the last two the minute `q % 60` |
| BookingRules.ClockTextRoundTrip | App.tsx:2478 | reading "HH:MM" back gives the minute of the day it was made from |
| BookingRules.NextHour | App.tsx:2473-2479 | the result is always five characters, and it is "Inval" exactly when the hour is not a number |
| BookingRules.NextHourShiftsHour | App.tsx:2473-2479 | on a valid "HH:MM" the shown hour digits denote `(h + add) % 24` and the minute digits denote `m` unchanged |
| CommercialWindows.WithoutLabel | App.tsx:1722 | the filter keeps exactly the windows with another label; the list is unchanged when no window has the label, and shorter otherwise |
| CommercialWindows.WithoutLabelLength | App.tsx:1722 | removing a label that occurs once shortens the list by exactly one |
| CommercialWindows.WithoutLabelUnique | App.tsx:1722 | removing keeps labels unique |
| CommercialWindows.ConsUnique | App.tsx:2321 | a window whose label the list lacks can be put in front without breaking uniqueness |
| CommercialWindows.WithoutLabelConcat | App.tsx:1722 | the filter distributes over concatenation, so it keeps the order of the windows it keeps |
| CommercialWindows.Toggled | App.tsx:2314-2324 | a present label is removed entirely (the result is the filtered list) and the list gets shorter; an absent one is appended with 09:00–12:00 |
| CommercialWindows.ToggleTwiceRestores | App.tsx:2319-2324 | toggling a strength on and off again restores the list |
| CommercialWindows.ToggledUnique | App.tsx:2314-2324 | toggling keeps labels unique |
| CommercialWindows.ToggledTimesFilled | App.tsx:2323 | toggling never introduces an empty time |
| CommercialWindows.FirstColon | App.tsx:1735 | the position of the first ':' (or the length when there is none) |
| CommercialWindows.SplitTimeJoin | App.tsx:1735 | `split(':')` of "h:m" gives back h and m |
| CommercialWindows.EditedTime | App.tsx:1735-1738 | the rebuilt time is never empty |
| CommercialWindows.EditedTimeReplacesPart | App.tsx:1735-1738 | picking an option replaces the chosen part of "h:m" and keeps the other |
| CommercialWindows.Edited | App.tsx:1732-1743 | length, order and labels are kept; windows with other labels are unchanged, and so is the field that was not chosen |
| CommercialWindows.EditedWindowAt | App.tsx:1733-1741 | on the chosen window only the chosen part of the chosen field changes |
| CommercialWindows.EditedTimesFilled | App.tsx:1731-1744 | editing never empties a time |
| CommercialWindows.CheckSave | App.tsx:1757-1774 | each alert is given exactly when every earlier check passes and its own fails (merchant id not finite; no activity type; fewer than 3 windows; an empty time); saving goes ahead iff all pass, and then sends the activity type and the windows |
| CommercialWindows.ThreeTogglesSave | App.tsx:1767-1774 | three distinct strengths toggled on, with an activity type, pass the gate |
| CommercialWindows.WindowList.constructor | App.tsx:212 | the list starts empty |
| CommercialWindows.WindowList.ToggleStrength | App.tsx:2319-2324 | the list becomes the toggled list, and unique labels stay unique |
| CommercialWindows.WindowList.Remove | App.tsx:1722 | the list becomes the filtered list and no longer holds the label |
| CommercialWindows.WindowList.EditTime | App.tsx:1731-1744 | the list becomes the edited list |
| CommercialWindows.WindowList.Clear | App.tsx:2295-2297 | choosing an activity type empties the list |
| CommercialWindows.WindowList.AdoptServerWindows | App.tsx:319-325 | the server's windows replace the list only when the list is empty and the server sent some |
| OfferForm.ReplaceFirstComma | App.tsx:1970-1971 | the length is kept and only a comma can change |
| OfferForm.ReplaceFirstCommaOnce | App.tsx:1970-1971 | the first comma becomes a point and a later comma stays |
| OfferForm.Errors | App.tsx:1968-1998 | a field is in the map exactly when its check fails, and it carries that check's message |
| OfferForm.ErrorsByField | App.tsx:1977-1998 | per field: time invalid or end ≤ start; merchant id not finite; price not positive; standard price not positive or not above the price, with the "must be greater" message winning; quantity finite and ≤ 0 |
| OfferForm.TitleErrorIffBlank | App.tsx:1984-1986 | the title is reported exactly when it is empty or white space only |
| OfferForm.SubmitIff | App.tsx:1977-2000 | the map is empty iff the end follows the start, the merchant id is finite, the title is not blank, price > 0, standard price > price, and the quantity is not a non-positive number |
| OfferForm.Publish | App.tsx:1968-2014 | the error map shown is the form's error map, and a request goes out iff it is empty; the request carries the parsed merchant id, price and standard price (so standard price > price > 0), the typed title, start and end, null for an empty description, meal type or city, and the quantity when it is a finite number (then positive), null otherwise |
| OfferForm.PublishIff | App.tsx:1977-2014 | the offer is created exactly when the end follows the start, the merchant id is finite, the title is not blank, price > 0, standard price > price, and the quantity is not a non-positive number |
| Reservations.FilterMatching | App.tsx:2082-2089 | the shown reservations are exactly those whose id digits or lower-cased name contain the query |
| Reservations.FilterMatchingConcat | App.tsx:2082-2089 | the search distributes over concatenation, so the shown reservations keep the list's order |
| Reservations.FilterAllMatching | App.tsx:2085 | when every reservation matches, the list is shown whole and in order |
| Reservations.BlankQueryShowsAll | App.tsx:2084-2085 | a blank query shows every reservation |
| Reservations.SearchIdempotent | App.tsx:2082-2089 | searching a search result again with the same query changes nothing |
| Reservations.NormalizeIdString | App.tsx:2084-2086 | an id's decimal text survives the query's trim and lower-casing |
| Reservations.NormalizeSignedDigits | App.tsx:2084 | text of digits and '-' survives trim and lower-casing |
| Reservations.IntToStringChars | App.tsx:2086 | `String(id)` is made of digits and '-' |
| Reservations.SearchById | App.tsx:2086 | typing a reservation's id finds it |
| Reservations.MetaById | App.tsx:637-646 | the lookup is absent iff no booking has the id; otherwise it is the metadata of the last booking with that id (later entries overwrite earlier ones) |
| Reservations.MetaByIdUnique | App.tsx:637-656 | with unique ids the lookup returns that booking's own metadata |
| Reservations.Fetched | App.tsx:654-655 | `filter(Boolean)` keeps exactly the successful fetches |
| Reservations.FetchedConcat | App.tsx:654-655 | the filter distributes over concatenation, so the fetched reservations keep their order |
| Reservations.FetchedAllSome | App.tsx:655 | when every fetch succeeds nothing is dropped and the order is kept |
| Reservations.FetchedShorter | App.tsx:651-655 | a failed fetch makes the list of fetched reservations shorter |
| Reservations.Merged | App.tsx:654-656 | the merged list holds the fetched reservations in order, one booking each |
| Reservations.MergedOverlaysMeta | App.tsx:637-656 | with unique ids, whatever the other fetches return, a booking whose re-fetch succeeds with its own id appears in the merged list with its old metadata |
| Reservations.RefreshKeepsMetadata | App.tsx:634-657 | when every booking is re-fetched, each keeps its position and metadata and takes the server's new reservation |
| Reservations.FailedFetchDropped | App.tsx:651-656 | a failed fetch drops a booking from the list |
| Reservations.BookingList.constructor | App.tsx:265 | the list starts empty |
| Reservations.BookingList.Prepend | App.tsx:722-730 | the new booking comes first, followed by the old list |
| Reservations.BookingList.Refresh | App.tsx:634-657 | the list becomes the merge of the re-fetch results with its old metadata |
| Reservations.BookingList.Clear | App.tsx:1176-1181 | a successful activation by access code empties the list |
| Notifications.RecentNotifications | App.tsx:513-517 | kept are exactly the notifications with a valid timestamp no older than seven days |
| Notifications.RecentConcat | App.tsx:513-517 | the filter distributes over concatenation, so the kept notifications stay in the server's order |
| Notifications.RecentShrinksOverTime | App.tsx:513-517 | a later current time never shows more notifications |
| Notifications.UnreadAfterLoad | App.tsx:519 | the server's count when present, else the number kept; a negative server count gives 0 |
| Notifications.Badge.constructor | App.tsx:177-178 | the count (a natural number) starts at 0 and the panel closed |
| Notifications.Badge.Loaded | App.tsx:513-523 | the count becomes the clamped server count, falling back to the number of notifications kept by the seven-day filter; the panel opens when the count grew and never closes |
| Notifications.Badge.Simulated | App.tsx:1609-1611 | one more unread notification, and the panel opens |
| Notifications.Badge.MarkedRead | App.tsx:1638 | the count drops by one and never below 0; the panel state is kept |
| WalletHistory.Visible | App.tsx:947 | kept are exactly the transactions not marked "prepared" |
| WalletHistory.VisibleConcat | App.tsx:947 | the filter distributes over concatenation, so the kept transactions keep their order |
| WalletHistory.DayKeys | App.tsx:951-958 | the map's keys are exactly the days that occur |
| WalletHistory.ItemsOn | App.tsx:956 | a day's section holds every transaction of that day, each as often as in the list, and nothing else |
| WalletHistory.HeadingOn | App.tsx:953-955 | a day's heading is the label of the first transaction of that day, and empty for a day that does not occur |
| WalletHistory.DayKeysDistinct | App.tsx:953-955 | each day gets one section |
| WalletHistory.TotalStep | App.tsx:956 | one more transaction adds one to the section total when its day has a section |
| WalletHistory.GroupingKeepsCount | App.tsx:951-958 | the sections together hold as many transactions as the list |
| WalletHistory.DayKeysStep | App.tsx:953-955 | a new day is appended to the key order, and a known day leaves it as it was |
| WalletHistory.GroupOnStep | App.tsx:953-956 | a transaction joins its own day's section, opening it under its label when the day is new; other sections are unchanged |
| WalletHistory.AddToDay | App.tsx:952-956 | one iteration takes the map from the grouping of a prefix to the grouping of the prefix plus one transaction |
| WalletHistory.GroupByDay | App.tsx:945-959 | the loop's result is, section by section in order of first appearance, the heading and items the specification gives |
| ApiClient.HostRun | src/api/client.ts:15 | the length of the longest run at the start with no '/' or ':' |
| ApiClient.GetMetroHost | src/api/client.ts:11-17 | null for a missing or empty URL; a host is non-empty, free of '/' and ':', and starts right after an http:// or https:// scheme |
| ApiClient.MetroHostOfUrl | src/api/client.ts:14-16 | for both schemes, "scheme://host" followed by a port or a path gives back exactly `host` |
| ApiClient.HostRunOf | src/api/client.ts:15 | the run stops exactly where the host stops |
| ApiClient.MetroHostNeedsScheme | src/api/client.ts:15-16 | a URL with another scheme gives no host |
| ApiClient.StripTrailingSlashes | src/api/client.ts:21 | the result is a prefix of the input that does not end in '/', and everything removed is '/' |
| ApiClient.StripTrailingSlashesIdempotent | src/api/client.ts:21 | stripping twice is stripping once |
| ApiClient.StripAddedSlashes | src/api/client.ts:21 | any number of slashes added to a URL that does not end in one are removed again |
| ApiClient.GetBaseUrl | src/api/client.ts:19-22 | a non-empty environment override wins over any Metro host, with its trailing slashes removed |
| ApiClient.BaseUrlWithoutOverride | src/api/client.ts:22-29 | with no override or an empty one: localhost and 127.0.0.1 give the development machine, another host h gives "http://h:3000", and no host gives the default |
| ApiClient.BaseUrlFromBundle | src/api/client.ts:22-27 | a bundle served from host h gives the API on port 3000 of h, or of 192.168.1.29 for a local host |
| ApiClient.ParseBody | src/api/client.ts:32-39 | `Null` (the `null` for an empty text) iff the text is empty; `Json` of the parsed value iff the text is non-empty and parses, a value that may itself be JSON null; the raw text otherwise |
| ApiClient.Classify | src/api/client.ts:46-52 | an `{status, body}` error iff the status is outside 200–299; either way the body is the parsed body |
| ApiClient.Request | src/api/client.ts:41-53 | the response fetched from the base URL followed by the path decides the outcome: an error iff its status is outside 200–299, carrying its parsed body |
| ApiClient.RequestWithOverride | src/api/client.ts:41-45 | an override written with any number of trailing slashes requests `<override><path>` |
| ApiClient.BodyAccountsForText | src/api/client.ts:32-53 | the body a caller sees, returned or in the error, is null for empty text, a value the text parses to, or the text itself |

## Left out

- Rendering, styles, modals, navigation and the open-menu state
  (`openTimeMenu`) are not modelled. This includes the displayed `09:00` /
  `12:00` fallback for an empty time, which is presentation only.
- Network calls, `AsyncStorage`, polling, push registration, the QR scanner
  and `Linking` are not modelled. They are I/O. Their results enter as
  parameters.
- `Date.now()`, `new Date(...)`, `Number(...)` and `JSON.parse` are inputs.
  ISO date parsing and the double conversion of number text are not modelled.
- Money arithmetic (`merchantSummary`, `totalSavings`, `fmtMoney`) is not
  modelled. It is floating point.
- `formatDayLabel` and the day key of the grouping are locale renderings.
  They are given with each transaction.
- The sort by time before the grouping is not modelled. `GroupByDay` takes
  the list already sorted, and its result is stated for any order.
- JsText.Lower: folds ASCII A–Z only. Non-ASCII case mappings of
  `toLowerCase` are not modelled.
- BookingRules.NextHour: takes the hour and minute as integers or "not a
  number". A fractional part and daylight-saving transitions of the local
  clock are not modelled. A minute of ±Infinity (which `m || 0` keeps, so the
  app shows "Inval") is not distinguished from NaN, which the app and the
  model both read as 0.
- BookingRules.DemandLevelFromPercent: takes a real percentage. A missing
  (NaN) percentage, which the app classes as LOW, is not modelled.
- JsText.IntToString: renders every integer in plain decimal. For a magnitude
  of 10^21 or more, `String(n)` switches to exponent notation ("1e+21"); such
  ids are not modelled.
- Notifications.UnreadAfterLoad: a server count that is present but not a
  number (NaN after `Number(...)`) is not modelled. Such a count would leave
  the badge NaN.
- Notifications.Badge.Loaded: models only the state after a successful
  fetch. The early return for a non-numeric merchant id and the error path
  leave the state unchanged.
- `Reservation` carries the id, deposit status and party size. The other
  server fields pass through the merge unchanged and are not modelled
  individually.
- The `notifCounts` badge counters are not modelled. They are plain
  assignments of server values.
- The window record's `label` is the Dafny field `name`, because `label` is a
  reserved word in Dafny.
- CommercialWindows.Window: holds its start and end as strings. A `null`
  time in a server window (the app's `start: string | null`) is not
  modelled. The app's save gate counts it as empty, and its time editor
  would throw on it.
- Reservations.BookingList.Refresh: is one atomic step. In the app the
  fetches are awaited and the list is then replaced wholesale, so a booking
  prepended while they are pending is lost. The model cannot show that loss.
