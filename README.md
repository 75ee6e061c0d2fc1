# Portfolio tools: a verified Dafny model

This project models the logic behind two client-side tools of a personal portfolio site, and a few helpers around them:

- **Password generator.** It builds a character pool from the selected sets and draws one guaranteed character per set. It then fills the rest from the pool and shuffles everything with an in-place Fisher–Yates pass. It also scores a password's strength.
- **URL generator.** It composes a URL from a base URL and percent-encoded query parameters. It keeps a current configuration and a capped history in the browser's storage, and shows the newest history entries with relative times and labels.
- **Contact endpoint.** It has a per-client rate limiter and a client-address rule.
- **Years of experience.** A small calculation of whole years of experience.

The random draws, the current time, fresh ids and today's date are parameters.

Modules follow the source files:

| module | file |
|---|---|
| `PasswordUtils` | lib/password-utils.ts |
| `UrlUtils` | lib/url-utils.ts |
| `StorageUtils` | lib/storage-utils.ts |
| `UrlGenerator` | components/url-generator/url-generator.tsx |
| `HistoryPanel` | components/url-generator/history-panel.tsx |
| `ContactRoute` | app/api/contact/route.ts |
| `Utils` | lib/utils.ts |
| `UrlTypes` | types/url-generator.ts |

Helper modules model the platform functions the source relies on:

- `UriComponent` is `encodeURIComponent` and its inverse, from ECMA-262 section 19.2.6, with UTF-8 percent-escapes as in section 2.1 of RFC 3986.
- `Json` is `JSON.stringify` and `JSON.parse` for the values saved, with a proved round trip.
- `Text` holds ECMA-262 `trim`, `split` and `join`, and decimal rendering.
- `Seqs` holds `Array.prototype.filter`.
- `UrlJson` holds the JSON shapes of the URL generator's records.
- `Wrappers` holds `Option`.

Code that changes state in place is modelled as imperative Dafny:

- `generatePassword` is methods with loops. Its shuffle runs over an `array<char>`.
- The storage wrappers are a class, `Store`, over a map and a failure flag.
- The component is a class, `Generator`, whose handlers update its fields and the store.
- The rate limiter is a class whose sweep deletes expired entries in a loop.

Each method is proved against a specification function. The properties are lemmas about those functions.

## Model

| member | source | states |
|---|---|---|
| PasswordUtils.SelectedSets | lib/password-utils.ts:27-45 | every selected character set is non-empty, so drawing from it is always in range |
| PasswordUtils.CategoriesSelected | lib/password-utils.ts:30-45 | a category is listed exactly when its option is on, and no category twice |
| PasswordUtils.SetsOfCategories | lib/password-utils.ts:30-45 | the i-th pushed set is the set of the i-th selected category |
| PasswordUtils.PoolMembers | lib/password-utils.ts:27-45 | a character is in the pool exactly when it belongs to some selected set |
| PasswordUtils.SetsDisjoint | lib/password-utils.ts:5-10 | no character belongs to two of the four character sets |
| PasswordUtils.SecureRandomInt | lib/password-utils.ts:83-87 | `r % max` lies in [0, max) and is r itself when r < max |
| PasswordUtils.Draw | lib/password-utils.ts:56-57 | indexing a set with a reduced random value yields a character of that set |
| PasswordUtils.Guaranteed | lib/password-utils.ts:55-58 | the guaranteed prefix has one character per selected set |
| PasswordUtils.GuaranteedFromSets | lib/password-utils.ts:55-58 | the i-th guaranteed character comes from the i-th selected set |
| PasswordUtils.Fill | lib/password-utils.ts:61-65 | the fill has exactly the requested number of characters |
| PasswordUtils.FillFromPoolMembers | lib/password-utils.ts:62-65 | every fill character comes from the pool |
| PasswordUtils.Shuffle | lib/password-utils.ts:68-71 | the Durstenfeld pass from the top index down to 1 keeps the length |
| PasswordUtils.PasswordFrom | lib/password-utils.ts:47-74 | nothing from an empty pool; otherwise max(length, number of sets) characters after the shuffle |
| PasswordUtils.Password | lib/password-utils.ts:22-74 | what `generatePassword` returns: "" for an empty pool, otherwise max(length, number of selected sets) characters |
| PasswordUtils.GeneratePassword | lib/password-utils.ts:22-74 | the method returns exactly `Password(length, options, rand)`, the specification built from pool, guaranteed characters, fill and shuffle |
| PasswordUtils.BuildPool | lib/password-utils.ts:27-45 | the four tests grow the pool and the set list into `Pool(o)` and `SelectedSets(o)` |
| PasswordUtils.PickGuaranteed | lib/password-utils.ts:53-58 | the loop over the sets yields the guaranteed characters, one draw per set in order |
| PasswordUtils.FillFromPool | lib/password-utils.ts:60-65 | the fill loop appends max(0, remainingLength) pool characters, and none if remainingLength is not positive |
| PasswordUtils.ShuffleChars | lib/password-utils.ts:67-73 | copying into an array, shuffling in place and joining gives the specification shuffle |
| PasswordUtils.ShuffleInPlace | lib/password-utils.ts:68-71 | the in-place loop leaves the array equal to the specification shuffle of its old contents |
| PasswordUtils.SwapInPlace | lib/password-utils.ts:70 | the destructuring swap exchanges exactly the two positions |
| PasswordUtils.SwapPermutes | lib/password-utils.ts:70 | a swap keeps every character, as often |
| PasswordUtils.ShufflePermutes | lib/password-utils.ts:68-71 | the shuffle is a permutation: same multiset before and after |
| PasswordUtils.NoOptionsEmpty | lib/password-utils.ts:47-50 | with every option off the password is empty |
| PasswordUtils.PasswordLength | lib/password-utils.ts:53-65 | with k ≥ 1 categories the password has max(length, k) characters |
| PasswordUtils.PasswordPermutation | lib/password-utils.ts:68-71 | the password is a rearrangement of the guaranteed characters followed by the fill |
| PasswordUtils.PasswordCoversSelected | lib/password-utils.ts:53-71 | every selected category has a character in the password, after the shuffle too |
| PasswordUtils.PasswordFromPool | lib/password-utils.ts:30-65 | every password character is in the pool, and none comes from an unselected set |
| PasswordUtils.TypesCount | lib/password-utils.ts:106-111 | the count of true flags is the number of selected categories, at most 4 |
| PasswordUtils.CalculateStrength | lib/password-utils.ts:99-132 | each strength level holds exactly under its condition on length and type count, for all four levels in both directions |
| PasswordUtils.StrengthDependsOnLengthAndCount | lib/password-utils.ts:103-111 | two passwords of equal length with equally many flags get the same strength |
| PasswordUtils.StrengthMonotone | lib/password-utils.ts:113-131 | a longer password or more types never lowers the strength |
| UrlUtils.ValidParameters | lib/url-utils.ts:31-33 | the kept parameters are a subsequence, all with non-blank names, and each named parameter is kept as often as it occurs |
| UrlUtils.EncodePair | lib/url-utils.ts:41-45 | an encoded pair holds no '&', so the pairs of a query string stay apart |
| UrlUtils.QueryString | lib/url-utils.ts:48 | splitting the query string at '&' gives back the encoded pairs, in order |
| UrlUtils.GenerateUrl | lib/url-utils.ts:26-59 | with no surviving parameter the URL is the base URL; otherwise the query string ends the URL and a base URL that is not blank begins it |
| UrlUtils.EncodePairs | lib/url-utils.ts:41-45 | one encoded pair per surviving parameter, in order |
| UrlUtils.PairRoundTrip | lib/url-utils.ts:42-44 | an encoded pair holds no '&' and splits at its one '=' back into the name and the value |
| UrlUtils.PairsRoundTrip | lib/url-utils.ts:41-45 | the encoded pairs read back as the names and values, in order |
| UrlUtils.QueryRoundTrip | lib/url-utils.ts:41-48 | the joined query string reads back as the parameters' names and values, in order |
| UrlUtils.QueryAmpersands | lib/url-utils.ts:48 | n pairs give a query string with exactly n − 1 '&' |
| UrlUtils.NoValidParameters | lib/url-utils.ts:36-38 | with no named parameter the base URL comes back exactly |
| UrlUtils.GenerateUrlShape | lib/url-utils.ts:50-58 | a blank base URL gives "?" + query; otherwise base + ('&' if it holds '?', else '?') + query; the query part reads back |
| UrlUtils.BlankUrlIff | lib/url-utils.ts:26-59 | the URL is blank exactly when the base URL is blank and no parameter survives |
| UriComponent.Utf8 | lib/url-utils.ts:42-43 | a character takes 1, 2, 3 or 4 octets by its code point range |
| UriComponent.EncodeURIComponent | lib/url-utils.ts:42-43 | `encodeURIComponent` never yields text shorter than its input |
| UriComponent.DecodeURIComponent | lib/url-utils.ts:42-43 | the inverse used to read encoded text back: None where JavaScript throws, and a decoded text is never longer than its encoding |
| UriComponent.EncodedAlphabet | lib/url-utils.ts:42-43 | encoded text holds only unreserved characters and well-formed %XX escapes |
| UriComponent.NoDelimiters | lib/url-utils.ts:42-43 | encoded text holds no '&', '=', '?', '#' or space |
| UriComponent.EscapesRoundTrip | lib/url-utils.ts:42-43 | the escapes of a character's UTF-8 octets decode back to that character |
| UriComponent.RoundTrip | lib/url-utils.ts:42-43 | decoding the encoding of any text gives the text back |
| UriComponent.EncodeInjective | lib/url-utils.ts:42-43 | distinct texts encode differently |
| UriComponent.EncodeAppend | lib/url-utils.ts:42-43 | encoding distributes over concatenation |
| Text.Trim | lib/url-utils.ts:32 | trimmed text neither starts nor ends with whitespace |
| Text.TrimInfix | app/api/contact/route.ts:70 | trimmed text is the infix between a blank prefix and a blank suffix |
| Text.TrimEmptyIffBlank | lib/url-utils.ts:32 | trimming gives '' exactly when the text is all whitespace |
| Text.Split | app/api/contact/route.ts:70 | split parts hold no separator and join back to the text |
| Text.SplitFirst | app/api/contact/route.ts:70 | the first part is the prefix before the first separator |
| Text.SplitJoin | lib/url-utils.ts:48 | joining separator-free parts and splitting again gives the parts back |
| Text.JoinCount | lib/url-utils.ts:48 | joining n separator-free parts adds exactly n − 1 separators |
| Text.DecimalRoundTrip | components/url-generator/history-panel.tsx:43 | the decimal text of a number reads back as that number |
| Seqs.Filter | lib/url-utils.ts:31-33 | filtering keeps a subsequence whose elements pass, each passing element as often as before |
| Json.Serialize | lib/storage-utils.ts:16 | a serialized value is non-empty and starts with a character that can start a value |
| Json.Parse | lib/storage-utils.ts:35 | `JSON.parse` of the texts `JSON.stringify` writes: a value only from non-empty text |
| Json.ValueRoundTrip | lib/storage-utils.ts:16-35 | parsing a serialized value followed by a delimiter yields the value and the rest |
| Json.RoundTrip | lib/storage-utils.ts:16-35 | `JSON.parse(JSON.stringify(v))` is v |
| Json.SerializeInjective | components/url-generator/url-generator.tsx:96-97 | equal JSON texts come only from equal values |
| UrlJson.ParametersToJson | types/url-generator.ts:8-15 | a parameter list serializes as an array of one object per parameter, in order |
| UrlJson.HistoryToJson | lib/storage-utils.ts:50 | a history serializes as an array of one object per entry, in order |
| UrlJson.ConfigurationToJson | lib/storage-utils.ts:16 | the object's `baseUrl` and `parameters` members read back by name as the configuration's fields |
| UrlJson.EntryToJson | types/url-generator.ts:30-39 | the `id`, `configuration`, `timestamp` and `generatedUrl` members read back by name as the entry's fields |
| UrlJson.ConfigurationFromJson | lib/storage-utils.ts:35 | a configuration is read only from an object whose `baseUrl` is a string and whose `parameters` is an array of parameters |
| UrlJson.HistoryFromJson | lib/storage-utils.ts:69-70 | a decoded history has one entry per stored element |
| UrlJson.ParameterRoundTrip | types/url-generator.ts:8-15 | a parameter object decodes back to the parameter |
| UrlJson.ParametersRoundTrip | types/url-generator.ts:20-25 | a parameter array decodes back to the list |
| UrlJson.ConfigurationRoundTrip | lib/storage-utils.ts:16 | a configuration object decodes back to the configuration |
| UrlJson.EntryRoundTrip | types/url-generator.ts:30-39 | a history entry object decodes back to the entry |
| UrlJson.HistoryRoundTrip | lib/storage-utils.ts:50 | a history array decodes back to the history |
| UrlJson.ParametersTextIff | components/url-generator/url-generator.tsx:94-98 | two parameter lists have the same JSON text exactly when they are equal element by element |
| StorageUtils.ConfigurationIn | lib/storage-utils.ts:29-41 | a load yields a value only from a working store whose key holds text parsing to that non-null value |
| StorageUtils.HistoryIn | lib/storage-utils.ts:63-75 | a non-empty load comes only from a working store whose key holds text parsing to an array of those elements |
| StorageUtils.Store.SaveConfiguration | lib/storage-utils.ts:14-23 | true and the text stored under the configuration key, or false and nothing changed |
| StorageUtils.Store.LoadConfiguration | lib/storage-utils.ts:29-41 | the method returns the specification load of the current storage |
| StorageUtils.Store.SaveHistory | lib/storage-utils.ts:48-57 | true and the text stored under the history key, or false and nothing changed |
| StorageUtils.Store.LoadHistory | lib/storage-utils.ts:63-75 | the method returns the specification load of the current storage |
| StorageUtils.ConfigurationSaveLoad | lib/storage-utils.ts:14-41 | after a save, the load returns the saved configuration's JSON, which decodes to the configuration |
| StorageUtils.HistorySaveLoad | lib/storage-utils.ts:48-75 | after a save, the load returns the saved entries, which decode to the history |
| StorageUtils.KeysIndependent | types/url-generator.ts:44-49 | writing one key never changes what loading the other returns |
| StorageUtils.FailingLoadsNothing | lib/storage-utils.ts:29-75 | a store that throws loads no configuration and an empty history |
| StorageUtils.NonArrayHistory | lib/storage-utils.ts:70 | a stored value that is not an array loads as [] |
| StorageUtils.NullConfiguration | lib/storage-utils.ts:32-36 | a stored `null` loads as no configuration |
| UrlGenerator.AddToHistory | components/url-generator/url-generator.tsx:68-111 | an addition holds 1 to 10 entries, the new entry first |
| UrlGenerator.AddToHistorySkips | components/url-generator/url-generator.tsx:68-101 | the history stays exactly when the state is trivial, the URL is blank, or the head has the same base URL and parameters |
| UrlGenerator.AddToHistoryPrepends | components/url-generator/url-generator.tsx:103-109 | an addition puts the new entry first, then the old ones in order, min(old + 1, 10) in all |
| UrlGenerator.EmptinessChecks | components/url-generator/url-generator.tsx:69-77 | with an up-to-date URL the two skip checks reject exactly a blank base URL with no named parameter |
| UrlGenerator.AddToHistoryConsistent | components/url-generator/url-generator.tsx:79-88 | if every stored entry's URL matches its configuration, that still holds after an addition |
| UrlGenerator.AddParameter | components/url-generator/url-generator.tsx:115-122 | one row with the given id, a blank name and an empty value is appended; the old rows stay |
| UrlGenerator.AddParameterKeepsUrl | components/url-generator/url-generator.tsx:115-122 | adding appends one row, keeps the old rows, and leaves the generated URL unchanged |
| UrlGenerator.UpdateParameter | components/url-generator/url-generator.tsx:126-136 | only the chosen field of rows with the id changes; length, order and other rows stay |
| UrlGenerator.UpdateParameterIdempotent | components/url-generator/url-generator.tsx:126-136 | updating twice with the same arguments equals updating once |
| UrlGenerator.UpdateUnknownId | components/url-generator/url-generator.tsx:131-135 | an id no row has changes nothing |
| UrlGenerator.DeleteParameter | components/url-generator/url-generator.tsx:140-142 | a subsequence of the rows with no row of the id left |
| UrlGenerator.DeleteParameterRemoves | components/url-generator/url-generator.tsx:140-142 | deleting removes exactly the rows with the id, keeps the rest in order and as often, and is idempotent |
| UrlGenerator.DeleteHistoryEntry | components/url-generator/url-generator.tsx:172-176 | a subsequence of the history with no entry of the id left |
| UrlGenerator.DeleteHistoryEntryRemoves | components/url-generator/url-generator.tsx:172-176 | deleting removes exactly the entries with the id, keeps the rest in order and as often, and is idempotent |
| UrlGenerator.LoadConsistentEntry | components/url-generator/url-generator.tsx:158-161 | loading a consistent entry regenerates the URL it recorded |
| UrlGenerator.Loaded | components/url-generator/url-generator.tsx:38-43 | a throwing store gives the empty configuration; any other configuration shown was stored and decodes to it |
| UrlGenerator.LoadedHistory | components/url-generator/url-generator.tsx:45-46 | a throwing store gives []; a non-empty history is the decoding of every stored element; a stored array with an element that is not an entry gives [] |
| UrlGenerator.Restore | components/url-generator/url-generator.tsx:38-64 | the storage side of mounting: the configuration and history loaded as `Loaded` and `LoadedHistory` say, and the store left holding the shown configuration, or unchanged when it throws |
| UrlGenerator.MountRestores | components/url-generator/url-generator.tsx:38-47 | mounting over a saved configuration and history shows exactly them |
| UrlGenerator.MountFailing | components/url-generator/url-generator.tsx:38-47 | over a store that throws, mounting shows the empty configuration and history |
| UrlGenerator.Generator.Mount | components/url-generator/url-generator.tsx:36-64 | mounting loads the stored state, renders its URL and leaves the store holding the shown configuration |
| UrlGenerator.Generator.Refresh | components/url-generator/url-generator.tsx:49-64 | the two effects regenerate the URL and save the configuration, and change nothing else |
| UrlGenerator.Generator.SetBaseUrl | components/url-generator/url-generator.tsx:184 | a new base URL is set, rendered and saved; the same text again changes nothing |
| UrlGenerator.Generator.HandleAddParameter | components/url-generator/url-generator.tsx:115-122 | the parameters become `AddParameter` of the old ones; URL and stored configuration follow |
| UrlGenerator.Generator.HandleUpdateParameter | components/url-generator/url-generator.tsx:126-136 | the parameters become `UpdateParameter` of the old ones; URL and stored configuration follow |
| UrlGenerator.Generator.HandleDeleteParameter | components/url-generator/url-generator.tsx:140-142 | the parameters become `DeleteParameter` of the old ones; URL and stored configuration follow |
| UrlGenerator.Generator.HandleCopy | components/url-generator/url-generator.tsx:146-154 | the history and the stored history change together by the addition policy, or neither |
| UrlGenerator.Generator.HandleLoadHistory | components/url-generator/url-generator.tsx:158-161 | the entry's configuration becomes current, is rendered and saved; a consistent entry shows its recorded URL |
| UrlGenerator.Generator.HandleClearHistory | components/url-generator/url-generator.tsx:165-168 | the history becomes [] and [] is saved |
| UrlGenerator.Generator.HandleDeleteHistoryEntry | components/url-generator/url-generator.tsx:172-176 | the history loses the entries with the id, and the filtered list is saved |
| HistoryPanel.DisplayedHistory | components/url-generator/history-panel.tsx:31 | the shown entries are a prefix of the history, at most three |
| HistoryPanel.DisplayedPrefix | components/url-generator/history-panel.tsx:31 | the shown entries are the first min(3, n), in order |
| HistoryPanel.Showing | components/url-generator/history-panel.tsx:67-71 | "Showing X of Y" has 1 ≤ X ≤ Y and Y the history length |
| HistoryPanel.ShowingText | components/url-generator/history-panel.tsx:67-71 | the label of a non-empty history starts with "Showing " |
| HistoryPanel.ShowingTextReads | components/url-generator/history-panel.tsx:67-71 | the label is "Showing ", a digit run, " of ", a digit run, and the two runs read back as the shown and the total count |
| HistoryPanel.FormatTimestamp | components/url-generator/history-panel.tsx:34-52 | "Just now" exactly under one minute, and each bucket's number in its range: 1 to 59 minutes, 1 to 23 hours, 1 to 6 days |
| HistoryPanel.RelativeText | components/url-generator/history-panel.tsx:42-45 | every bucket but the calendar date has a text, never empty |
| HistoryPanel.JustNowBucket | components/url-generator/history-panel.tsx:37-42 | "Just now" exactly under one minute, future timestamps included |
| HistoryPanel.MinutesBucket | components/url-generator/history-panel.tsx:38-43 | "{m}m ago" exactly for 1 ≤ m < 60 whole minutes elapsed |
| HistoryPanel.HoursBucket | components/url-generator/history-panel.tsx:39-44 | "{h}h ago" exactly for 1 ≤ h < 24 whole hours elapsed |
| HistoryPanel.DaysBucket | components/url-generator/history-panel.tsx:40-45 | "{d}d ago" exactly for 1 ≤ d < 7 whole days elapsed |
| HistoryPanel.DateBucket | components/url-generator/history-panel.tsx:45-51 | the calendar date exactly from seven days on |
| HistoryPanel.MinutesTextReads | components/url-generator/history-panel.tsx:43 | the minutes label ends in "m ago" after digits that read back as the minutes |
| HistoryPanel.TruncateUrl | components/url-generator/history-panel.tsx:55-58 | a URL that fits comes back as is; a longer one becomes its first maxLength characters and "...", counting Unicode scalar values |
| HistoryPanel.TruncateBound | components/url-generator/history-panel.tsx:55-58 | the result exceeds the limit by at most 3, and equals the URL exactly when it fits or already ends in the three dots at the limit |
| HistoryPanel.BaseUrlLabel | components/url-generator/history-panel.tsx:93 | the label is never empty and is the base URL whenever that is not '' |
| HistoryPanel.ParameterCountLabel | components/url-generator/history-panel.tsx:97-100 | the label begins with the decimal digits of the count |
| HistoryPanel.ParameterLabelSingular | components/url-generator/history-panel.tsx:97-100 | the label ends in 's' exactly when the count is not 1, and its number reads back as the count |
| HistoryPanel.EntryLabels | components/url-generator/history-panel.tsx:93-103 | an entry's base URL line is never empty and is its base URL when that is set; its parameter line reads back as its parameter count, plural exactly when the count is not 1; its time label is "Just now" exactly when it is under a minute old |
| ContactRoute.Sweep | app/api/contact/route.ts:37-41 | exactly the entries not yet expired remain (an entry is live at its reset time), unchanged |
| ContactRoute.RateLimiter.constructor | app/api/contact/route.ts:28 | the store starts empty |
| ContactRoute.RateLimiter.CheckRateLimit | app/api/contact/route.ts:32-59 | the method's answer and new store are `Step` of the old store: sweep, then new window, refusal or increment |
| ContactRoute.Step | app/api/contact/route.ts:32-59 | the identifier is stored and the answer carries its reset time; an allowed answer reports 5 minus the count; a call is refused exactly when a live entry is full, and then reports 0 and only the sweep changes the store |
| ContactRoute.Run | app/api/contact/route.ts:32-59 | successive calls give one answer per call time |
| ContactRoute.StepKeepsCounts | app/api/contact/route.ts:43-58 | counts stay in 1..5, the identifier is stored, and the remaining allowance is 5 minus its count |
| ContactRoute.StepOthers | app/api/contact/route.ts:37-58 | other identifiers keep their entries, except the expired ones that the sweep removes |
| ContactRoute.RefusalKeepsEntry | app/api/contact/route.ts:50-53 | a refusal returns remaining 0 and the existing reset time, and leaves only the sweep's effect |
| ContactRoute.RunInWindow | app/api/contact/route.ts:50-58 | inside a live window, the i-th further call is allowed exactly while count + i < 5 |
| ContactRoute.FreshWindow | app/api/contact/route.ts:43-58 | from a new window, the first five calls within the hour are allowed and later ones refused |
| ContactRoute.GetClientIP | app/api/contact/route.ts:62-83 | an address taken from x-forwarded-for neither starts nor ends with whitespace |
| ContactRoute.ForwardedAddress | app/api/contact/route.ts:68-71 | the forwarded address is the trimmed text before the first comma: no comma, no surrounding whitespace |
| ContactRoute.HeaderPrecedence | app/api/contact/route.ts:68-82 | a present x-forwarded-for decides alone, whatever the other headers hold |
| ContactRoute.HeaderFallback | app/api/contact/route.ts:73-82 | without x-forwarded-for, x-real-ip decides; without both, cf-connecting-ip; without any of the three, 'unknown' |
| ContactRoute.EmptyIsAbsent | app/api/contact/route.ts:64-82 | a header set to '' counts as missing |
| Utils.YearsOfExperience | lib/utils.ts:13-35 | no answer exactly for an unparseable date; otherwise between 1 and max(1, year difference) |
| Utils.YearsAreAnniversaries | lib/utils.ts:24-34 | the result is max(1, n) for the n whose n-th anniversary is reached and whose next one is not |
| Utils.YearsBounds | lib/utils.ts:13-35 | no answer exactly for an unparseable date; otherwise max(1, year difference) less one before the anniversary: never below 1 or above max(1, year difference) |
| Utils.YearsMonotone | lib/utils.ts:25-34 | a later today never gives fewer years |

## Left out

- `crypto.getRandomValues` is an oracle `rand: nat -> Uint32`, read in draw order. There is no claim about uniformity, entropy or modulo bias.
- `Date.now()`, `new Date()` and the `Math.random` ids are parameters. The history panel's and the rate limiter's clocks are an integer `now`.
- The date parse in `calculateYearsOfExperience` is an `Option<CalendarDate>` input. Time zones are not modelled, so the UTC parse of a date-only text read back in local time is not either.
- The locale date text of `formatTimestamp` for a week or more is left out. `RelativeText` gives None for it.
- HistoryPanel.TruncateUrl is modelled as a function, but the panel's rendering never calls it.
- HistoryPanel.TruncateUrl: the length test and the cut count Unicode scalar values, where `url.length` and `substring` count UTF-16 code units. A URL with characters beyond U+FFFF can therefore fit in the model and not in the source, and the source can cut a surrogate pair in half, which a string of scalar values cannot hold.
- All React rendering, hook scheduling, `setTimeout`, the clipboard and the `copySuccess` flag are left out.
- The `POST` handler, the Resend client and the contact-form validation are left out.
- The auth and resume routes and all other pages and components are left out.
- `cn` in lib/utils.ts is left out.
- Concurrency is left out. The rate limiter's store is used by one caller at a time.
- Json.Parse reads what `JSON.stringify` writes: integers only, no insignificant whitespace. It rejects a `\u` escape of a surrogate. Other JSON texts that `JSON.parse` accepts are not modelled.
- A `JSON.stringify` that throws cannot happen for these records and is not modelled.
- StorageUtils.Store: one `failing` flag stands for every storage error, both for reading and for writing.
- StorageUtils.Store.LoadConfiguration returns the parsed JSON value as it is, because the source casts it without checking. An ill-shaped stored value is then ignored on mount, where the source would go on with `undefined` fields.
- UriComponent works on Unicode scalar values. The `URIError` for a lone surrogate cannot arise, and is not modelled.
- Header names are matched exactly, so the case-insensitivity of `Headers.get` is not modelled.
- UrlGenerator.Generator.Mount and the handlers treat every parameter list as new. React's bail-out for an unchanged value is modelled only in SetBaseUrl.
- UrlGenerator.Generator.Mount: a stored history with any element that does not decode as an entry loads as [], where the source keeps the parsed array as it is and goes on with undefined fields.
- UrlGenerator.LoadedHistory: gives that [] for such a stored history; UrlGenerator.Restore passes it on to the component.
- UrlGenerator.Generator.Mount: on mount the effects first save the empty initial configuration. The contract gives the final stored state and not that intermediate write.
