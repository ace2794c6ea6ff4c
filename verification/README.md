# vaccineFinder checkers in Dafny

A model of the polling core of vaccineFinder, a desktop tool that watches
three vaccine providers for open appointments.

Every provider is a *target*. Each target runs the same check loop:

1. reset its state to `NormalCheck`;
2. ask its checker whether appointments are available;
3. on success, log "Found appointment!", post `url + "\n" + message` to the
   history and to the notification sink, and enter its post-success state;
4. pause for the check period, or four times it in `FoundAppointmentDelay`.

The model covers this loop and the three checkers:

- **Rite Aid** keeps a cache of nearby stores. The cache is rebuilt from
  store-finder searches and deduplicated by store number, first occurrence
  winning. Each cached store is then checked through its slot document. A
  store found available is postponed for ten check periods.
- **CVS** reads the Pennsylvania status document. It collects the cities of
  the entries that are not fully booked, and reports those that are not in
  the upper-cased exclude list.
- **Jefferson** counts the "Registration is currently full at this
  location." statements on the clinic page and reports availability when it
  finds fewer than three.

It also covers the main window's small string codecs: the `;`-joined
configuration lists, the Rite Aid search lines with spaces written as `%20`,
and the synchronisation of the CVS location check-list.

Modules, one per source file plus two support modules:

| file | module | models |
|---|---|---|
| `finder_target.dfy` | `FinderTargets` | `FinderTarget` (class): state, stop flag, history and notification sinks |
| `rite_aid_target.dfy` | `RiteAid` | `RiteAidTarget` (class over the store cache), store parsing, slot parsing, cache merge and the store loop |
| `cvs_target.dfy` | `Cvs` | `CvsTarget` (class), `MakeListAllCaps`, `ParseResponse` and its loop over the `PA` entries |
| `jefferson_target.dfy` | `Jefferson` | `JeffersonTarget` (class) and the phrase-counting loop |
| `main_frame.dfy` | `MainFrame` | configuration strings, Rite Aid search lines, the CVS check-list |
| `std_text.dfy` | `StdText` | `std::string::find`, `std::getline` with a delimiter, ASCII `towupper`, decimal printing of an unsigned number |
| `json.dfy` | `Json` | an already-parsed JSON tree (RFC 8259) and the object, array and member reads the checkers perform |
| `wrappers.dfy` | `Wrappers` | `Option` |

The outside world enters as parameters:

- an HTTP GET is a function `get: string -> Option<string>` (`None` is a
  transport failure);
- JSON text parsing is a function `parse: string -> Option<Json>`;
- the clock is an integer `now`, in seconds.

Inheritance becomes composition. Each concrete target holds its
`FinderTarget` as `base`, and the virtual post-success state becomes the
base's `foundAppointmentState`. One loop iteration is one call to the
target's `Cycle` method, which returns the pause it would take.

Most loops of the source are `while` loops here, each proved against a
recursive specification function: `Discovered`/`Reported` for the CVS
entries, `ReadStores` for a store array, `RebuildCache`/`Merge` for the
cache, `SweepStores` for the store loop, `CountFrom` for the phrase count,
`Split` for `std::getline` and `ConfigString` for the configuration writer.
The lemmas then state the promised properties about those functions. The
exceptions: the two loops of `UpdateCVSLocations` are proved against the
sequence comprehension `SyncedCheckList`; `std::transform` with `towupper`
becomes the function `StdText.ToUpper`; and `std::find` over the exclude list
becomes sequence membership (`in`).

## Behaviour as written

Where the intended behaviour and the code differ, the model follows the
code.

- **Rite Aid cache test** (`src/riteAidTarget.cpp:29`). The cache is
  rebuilt when it is empty or when `cacheUpdatedTime + 24h > now`.
  `cacheUpdatedTime` is never assigned, so it stays at the clock's epoch.
  More than a day after the epoch, only an empty cache is rebuilt
  (`NeverStaleAfterFirstDay`); a non-empty cache is never refreshed for age.
- **Rite Aid store parsing** (`src/riteAidTarget.cpp:227-228`). The first
  store outside Pennsylvania ends parsing *successfully*. That store and
  every later one are dropped (`OutOfStateStoreEndsParsing`).
- **Rite Aid postponement** (`src/riteAidTarget.cpp:42`). A store postponed
  until `T` is released only when `now > T`. At `now == T` it is still
  skipped (`PostponementWindow`).
- **CVS exclusion** (`src/cvsTarget.cpp:155`). The received city is compared
  exactly with the upper-cased exclude entries. A city that holds a
  lower-case letter is never excluded (`MixedCaseCityNeverExcluded`), so the
  comparison is not case-insensitive in general.
- **CVS discovered list** (`src/cvsTarget.cpp:143-154`). A fully booked
  entry is skipped before its city is read. For the document with a fully
  booked "PITTSBURGH" and an available "PHILADELPHIA", the discovered list
  is `["PHILADELPHIA"]`, not both cities (`ExampleWithoutExclusions`).
- **CVS booking flag** (`src/cvsTarget.cpp:96-101`). A missing or
  non-boolean `isBookingCompleted` fails the parse.
- **Jefferson count** (`src/jeffersonTarget.cpp:29`). The first search
  starts at index 1, so a statement at index 0 is never counted
  (`StatementAtStartNotCounted`, `PageOfOnlyThePhrase`). Each later search
  starts one past the previous match. The phrase cannot overlap itself
  (`OccurrencesDoNotOverlap`), so counting start indices counts separate
  statements.

## Model

| member | source | states |
|---|---|---|
| FinderTargets.FinderTarget.constructor | src/finderTarget.cpp:15-20 | stores the URL, name and period; starts in `NormalCheck` with `stop` false; the only history line is "Beginning <name> search..." |
| FinderTargets.FinderTarget.SendLogMessage | src/finderTarget.cpp:34-37 | appends exactly the given line to the history |
| FinderTargets.FinderTarget.OnAppointmentsAvailable | src/finderTarget.cpp:39-45 | posts `url + "\n" + info` to both the history and the notification sink |
| FinderTargets.FinderTarget.BeginCycle | src/finderTarget.cpp:63-65 | a cycle starts in `NormalCheck` with an empty message, before the checker runs |
| FinderTargets.FinderTarget.FinishCycle | src/finderTarget.cpp:66-73 | on success: logs "Found appointment!", posts the info to both sinks and takes the target's post-success state; on failure: nothing is logged or notified and the state stays `NormalCheck`; the pause follows the state |
| FinderTargets.FinderTarget.Sleep | src/finderTarget.cpp:77-84 | the pause is the period in `NormalCheck` and four periods in `FoundAppointmentDelay` |
| FinderTargets.FinderTarget.Stop | src/finderTarget.cpp:86-91 | sets `stop`, whatever it was, so asking twice equals asking once |
| Cvs.MakeListAllCaps | src/cvsTarget.cpp:168-174 | same length; element i is the upper-casing of input element i |
| Cvs.ParseResponse | src/cvsTarget.cpp:77-166 | fails exactly when the root, payload, booking flag, `data` or `PA` node is missing; completed booking gives no availability, an unchanged message and no post; otherwise posts the discovered cities, adds one line per reported city and is available exactly when some city is reported |
| Cvs.EvaluateEntries | src/cvsTarget.cpp:127-160 | the loop collects exactly `Discovered(entries)`, appends `CityLines(Reported(entries, exclude))` and sets availability exactly when that list is non-empty |
| Cvs.DiscoveredAppend | src/cvsTarget.cpp:127-160 | the discovered list of two concatenated arrays is the concatenation of theirs: array order is kept |
| Cvs.ReportedAppend | src/cvsTarget.cpp:127-160 | the same for the reported list |
| Cvs.FullyBookedEntryIgnored | src/cvsTarget.cpp:143-144 | inserting a "Fully Booked" entry anywhere changes neither list |
| Cvs.DiscoveredDropsSkipped | src/cvsTarget.cpp:136-152 | an entry with no city to count (unreadable status or city, or fully booked) leaves the discovered list as it was |
| Cvs.ReportedDropsSkipped | src/cvsTarget.cpp:136-152 | such an entry leaves the reported list as it was |
| Cvs.DiscoveredMembership | src/cvsTarget.cpp:154 | a city is discovered exactly when some entry contributes it, whether excluded or not |
| Cvs.ReportedMembership | src/cvsTarget.cpp:155-159 | a city is reported exactly when some entry contributes it and it is not exactly equal to an exclude entry |
| Cvs.AvailableIffOpenCity | src/cvsTarget.cpp:155-158 | availability holds exactly when some entry contributes a city outside the exclude list |
| Cvs.UnknownStatusCounts | src/cvsTarget.cpp:143-154 | any readable status other than "Fully Booked" counts: its city is discovered, and reported unless excluded |
| Cvs.ExcludedIffUpperCasedEntry | src/cvsTarget.cpp:155 | a city is excluded exactly when it equals the upper-casing of some operator entry |
| Cvs.MixedCaseCityNeverExcluded | src/cvsTarget.cpp:155 | a city holding a lower-case letter is never excluded |
| Cvs.ExampleDocumentIsOpen | src/cvsTarget.cpp:87-124 | the two-entry example document is read as open with its two entries |
| Cvs.ExampleCities | src/cvsTarget.cpp:136-152 | its fully booked entry is skipped and its available entry contributes "PHILADELPHIA" |
| Cvs.SkippedThenOpen | src/cvsTarget.cpp:127-159 | a skipped entry then an open one: only the open city is discovered, and it is reported unless excluded |
| Cvs.ExampleWithoutExclusions | src/cvsTarget.cpp:127-159 | with no exclusions the example discovers and reports only "PHILADELPHIA", with message "PHILADELPHIA\n" |
| Cvs.PhiladelphiaUpperCased | src/cvsTarget.cpp:168-174 | the operator entry "Philadelphia" is stored as "PHILADELPHIA" |
| Cvs.ExampleWithPhiladelphiaExcluded | src/cvsTarget.cpp:154-159 | with "PHILADELPHIA" excluded the example reports nothing but still discovers the city |
| Cvs.BookingCompletedIgnoresData | src/cvsTarget.cpp:103-107 | a document with booking completed reads as `BookingCompleted`, whatever its data |
| Cvs.CvsTarget.constructor | src/cvsTarget.h:15-16 | the engine name is "CVS", the post-success state is the default, and the exclude list is the upper-cased argument |
| Cvs.CvsTarget.AppointmentsAvailable | src/cvsTarget.cpp:25-47 | each failed GET logs its own line and reports false with nothing parsed or posted; otherwise the result, message and post follow the status document |
| Cvs.CvsTarget.Cycle | src/cvsTarget.h:19-20 | no cycle once stopped; a cycle notifies `url` and the reported cities exactly when both pages load, booking is open and some discovered city is not excluded, and otherwise notifies nothing; it posts the discovered list exactly when booking is open, logs each failure or the success, enters `FoundAppointmentDelay` exactly when it notifies and pauses per state |
| Jefferson.DoesNotHaveThreeRegistrationFullStatements | src/jeffersonTarget.cpp:22-35 | the search loop terminates; the result is true exactly when fewer than three statements start at index 1 or later |
| Jefferson.StatementAtStartNotCounted | src/jeffersonTarget.cpp:24-29 | the counted statements are all statements except one at index 0 |
| Jefferson.PageOfOnlyThePhrase | src/jeffersonTarget.cpp:26-34 | a page that is just the phrase holds it at index 0 yet counts zero |
| Jefferson.NoStatementMeansAvailable | src/jeffersonTarget.cpp:34 | a page without the phrase counts zero |
| Jefferson.FullStopOnlyAtEnd | src/jeffersonTarget.cpp:26 | the phrase's only full stop is its last character |
| Jefferson.OccurrencesDoNotOverlap | src/jeffersonTarget.cpp:29-32 | two occurrences of the phrase start at least its length apart |
| Jefferson.JeffersonTarget.constructor | src/jeffersonTarget.h:15-16 | the engine name is "Jefferson" and the post-success state is the default |
| Jefferson.JeffersonTarget.AppointmentsAvailable | src/jeffersonTarget.cpp:10-20 | a failed GET logs "Jefferson check failed" and reports false; otherwise the page count decides |
| Jefferson.JeffersonTarget.Cycle | src/jeffersonTarget.cpp:10-20 | an available page enters `FoundAppointmentDelay`, pauses four periods and notifies `url + "\n"` (the message is never written); otherwise one period and no notification; the log gains the failure line, or "Found appointment!" and the info line, or nothing |
| RiteAid.FindStoresURLInjective | src/riteAidTarget.cpp:116-119 | different search locations give different store-finder URLs |
| RiteAid.StatusCheckURLInjective | src/riteAidTarget.cpp:121-126 | different store numbers give different slot URLs |
| RiteAid.ReadLocation | src/riteAidTarget.cpp:191-225 | a freshly read store is not postponed |
| RiteAid.ParseLocations | src/riteAidTarget.cpp:156-236 | the loop succeeds exactly when the document's store array yields a store list, and then returns that list |
| RiteAid.ParsedStoresInScope | src/riteAidTarget.cpp:227-232 | every kept store is in "PA", matches the Philadelphia mode, is not postponed and comes from the array |
| RiteAid.InScopeStoreKept | src/riteAidTarget.cpp:227-232 | conversely, a readable "PA" store that matches the mode and follows only readable "PA" stores is kept whenever parsing succeeds |
| RiteAid.AllReadableParses | src/riteAidTarget.cpp:181-235 | an array whose stores are all readable and in "PA" always parses |
| RiteAid.ReadableStoresExactly | src/riteAidTarget.cpp:181-235 | on such an array, a store is kept exactly when it is read from the array and matches the Philadelphia mode |
| RiteAid.OutOfStateStoreEndsParsing | src/riteAidTarget.cpp:227-228 | the first out-of-state store ends parsing: it and everything after it are dropped |
| RiteAid.UnreadableStoreFailsParsing | src/riteAidTarget.cpp:191-225 | a store with an unreadable field, reached before any out-of-state store, fails the whole array |
| RiteAid.ParseStatus | src/riteAidTarget.cpp:238-285 | succeeds exactly when both slot flags are readable, and then reports availability exactly when either is true |
| RiteAid.SlotsExample | src/riteAidTarget.cpp:247-279 | a slots document with flags a and b reads as `a || b` |
| RiteAid.MergeExtends | src/riteAidTarget.cpp:96-110 | merging keeps every cached entry in place |
| RiteAid.MergeCovers | src/riteAidTarget.cpp:96-110 | after a merge every store number of the search is cached |
| RiteAid.MergeNoDuplicates | src/riteAidTarget.cpp:96-110 | merging into a duplicate-free cache keeps it duplicate-free |
| RiteAid.MergeFirstOccurrenceWins | src/riteAidTarget.cpp:96-110 | every appended entry is a search store whose number was not cached and not held by an earlier store of that search |
| RiteAid.RebuildFailureEnds | src/riteAidTarget.cpp:81-90 | once a store-finder GET fails, later search locations are not queried and the partial cache stays |
| RiteAid.RebuildNoDuplicates | src/riteAidTarget.cpp:78-114 | a rebuilt cache, complete or not, holds no two entries for one store |
| RiteAid.NeverStaleAfterFirstDay | src/riteAidTarget.cpp:29 | with the update time at the epoch, any time a day or more later rebuilds exactly when the cache is empty |
| RiteAid.PostponementWindow | src/riteAidTarget.cpp:40-66 | an available store is postponed until `now + 10 × period`; until then, inclusive, it is skipped unchanged; after that it is checked again |
| RiteAid.CheckStatus | src/riteAidTarget.cpp:40-71 | one pass of the store loop body: release, status GET, parse and postponement, as `CheckStore` |
| RiteAid.CheckKeepsStore | src/riteAidTarget.cpp:40-66 | a check changes only a store's postponement fields |
| RiteAid.SweepOfAvailableIff | src/riteAidTarget.cpp:38-72 | the loop completes exactly when no status GET fails, and then finds availability exactly when some store was checked available |
| RiteAid.SweepOfMessageIffAvailable | src/riteAidTarget.cpp:63-75 | the message is empty exactly when no store was available |
| RiteAid.SweepOfPointwise | src/riteAidTarget.cpp:53-66 | stores up to the first failed GET hold their checks' results, so postponements made before the failure remain; later stores are untouched |
| RiteAid.SweepOfKeepsStores | src/riteAidTarget.cpp:38-72 | a loop whose steps keep identities keeps every store's identity |
| RiteAid.SweepAvailableIff | src/riteAidTarget.cpp:38-75 | the same success and availability statement for the loop over the real per-store checks, with the empty-message link |
| RiteAid.SweepPointwise | src/riteAidTarget.cpp:53-66 | the same store-by-store statement for the real per-store checks |
| RiteAid.SweepKeepsNoDuplicates | src/riteAidTarget.cpp:38-72 | the store loop keeps the cache free of duplicates |
| RiteAid.RiteAidTarget.constructor | src/riteAidTarget.h:15-17 | the engine name is "Rite Aid Checker", the post-success state is `NormalCheck`, the cache starts empty and the update time at the epoch |
| RiteAid.RiteAidTarget.UpdateCachedLocations | src/riteAidTarget.cpp:78-114 | clears the cache and rebuilds it as `RebuildCache`; only a failed store-finder GET reports false, logged once |
| RiteAid.RiteAidTarget.MergeIntoCache | src/riteAidTarget.cpp:96-110 | the nested loops append exactly as `Merge` |
| RiteAid.RiteAidTarget.CheckStores | src/riteAidTarget.cpp:36-72 | the store loop updates the cache in place and computes success, availability and the message as `SweepStores`; a failed status GET logs once |
| RiteAid.RiteAidTarget.AppointmentsAvailable | src/riteAidTarget.cpp:18-76 | a failed base GET logs and reports false; the cache is rebuilt exactly when the test holds; any failure reports false with the message unchanged; otherwise the message is replaced by the loop's lines; no duplicates before or after |
| RiteAid.RiteAidTarget.Cycle | src/riteAidTarget.h:23 | no cycle once stopped; a cycle notifies exactly when the base page loads, the (possibly rebuilt) cache is obtained and the sweep over it succeeds with a store available, with the sweep's lines as the message; the new cache, the log lines, the `NormalCheck` state and the one-period pause follow, so the four-fold pause never happens |
| MainFrame.ArrayToConfigString | src/mainFrame.cpp:171-177 | writes each element followed by `;`, in order; the empty list gives "" |
| MainFrame.ReadPieces | src/mainFrame.cpp:182-185 | the `std::getline` loop yields exactly the pieces `Split` defines |
| MainFrame.ConfigStringToArray | src/mainFrame.cpp:179-187 | splits on `;` with no piece after a final `;`; "" gives the empty list; no piece holds `;` |
| MainFrame.ConfigRoundTrip | src/mainFrame.cpp:171-187 | reading back a written list gives the list, empty elements included, when no element holds `;` |
| MainFrame.ConfigStringRoundTrip | src/mainFrame.cpp:171-187 | writing back a read string gives the string, when it is empty or ends with `;` |
| MainFrame.EncodeSpaces | src/mainFrame.cpp:293-294 | an encoded line holds no space; a line without spaces is unchanged |
| MainFrame.EncodeSpacesRoundTrip | src/mainFrame.cpp:293-294 | replacing each `%20` by a space restores a line that holds no `%` |
| MainFrame.GetRiteAidLocations | src/mainFrame.cpp:285-298 | one entry per line of the text, encoded exactly when asked |
| MainFrame.EncodedLocationLines | src/mainFrame.cpp:285-298 | every entry is a single line; an encoded entry holds no space and decodes back to its line |
| MainFrame.UpdateCVSLocations | src/mainFrame.cpp:99-126 | no change when the labels already are the new locations; otherwise exactly the synced check-list |
| MainFrame.SyncedCheckListUnchecksFirstOnly | src/mainFrame.cpp:105-125 | the list carries the new locations in order, so a second update with them keeps it; an item is unchecked exactly when it is the first item of an excluded location |
| MainFrame.ExcludedLocationUnchecked | src/mainFrame.cpp:115-125 | every excluded location present in the list has an unchecked item |
| StdText.Find | src/jeffersonTarget.cpp:29 | `find` returns the first occurrence at or after the start, or none when there is none |
| StdText.FindAdvancesCount | src/jeffersonTarget.cpp:27-32 | each search accounts for one counted occurrence; the rest are counted from one past the match |
| StdText.CountFromNone | src/jeffersonTarget.cpp:27-34 | with no occurrence from some index on, the count from there is zero |
| StdText.SplitAfterPiece | src/mainFrame.cpp:184-185 | text starting with a piece and a separator splits into that piece then the rest's pieces |
| StdText.SplitNoSeparator | src/mainFrame.cpp:290 | non-empty text without a separator is one piece |
| StdText.SplitAt | src/mainFrame.cpp:184 | one `getline` call takes the text up to the next separator and resumes after it |
| StdText.SplitPiecesLackSeparator | src/mainFrame.cpp:184-185 | no piece holds the separator |
| StdText.UpperChar | src/cvsTarget.cpp:172 | an upper-cased character is never a lower-case letter; characters that are not lower-case letters are kept |
| StdText.ToUpper | src/cvsTarget.cpp:172 | same length, upper-cased character by character |
| StdText.ToUpperIdempotent | src/cvsTarget.cpp:171-172 | upper-casing twice is upper-casing once |
| StdText.ToUpperHasNoLowerCase | src/cvsTarget.cpp:172 | an upper-cased string holds no lower-case letter |
| StdText.DecimalString | src/riteAidTarget.cpp:124 | a store number prints as a non-empty string of digits |
| StdText.DecimalRoundTrip | src/riteAidTarget.cpp:124 | reading the printed digits back gives the number |
| StdText.DecimalStringInjective | src/riteAidTarget.cpp:124 | different numbers print differently |
| Json.LookupFindsFirst | src/cvsTarget.cpp:87 | an object item is found exactly when some member has that name, and the value found is that of the first member with the name |

## Left out

- Threads, the mutex, the condition variable and the atomic `stop`. One loop
  iteration is one `Cycle` call, `stop` is a plain field, and a pause is the
  length it would take. A stop request cannot cut a pause short here.
- libcurl. `DoCURLGet` and the option hooks become the `get` parameter.
  Cookies, the referer header and NOSIGNAL are not modelled.
- cJSON text parsing becomes the `parse` parameter, and memory release is
  not modelled. `JSONInterface::ReadJSON` is not part of this model. It is
  taken to read a member of the matching JSON type, and an unsigned integer
  as a non-negative number.
- `cJSON_GetArraySize` and `cJSON_GetArrayItem` are modelled by the
  definition `Json.Children` (an array's items, an object's member values,
  nothing otherwise); it carries no separate contract.
- `cJSON_GetObjectItem` ignores the case of member names. `Json.Lookup`
  compares names exactly.
- `std::chrono`. Times and durations are integer seconds. The Rite Aid
  clock is a parameter read once per check, as the source reads it once.
- Wide/narrow string conversion. `towupper` is modelled for ASCII letters
  only ("C" locale).
- The wx user interface and configuration I/O:
  - `CallAfter` dispatch; `SendMessageForHistory`, whose timestamp is left
    out because `GetTimeStamp` reads the local clock;
  - `DoAppointmentNotification`, `CreateControls`, and
    `LoadConfiguration`/`WriteConfiguration`;
  - `GetCVSExcludeLocations`, which reads the widget's selections. Its
    result is the `exclude` parameter of `MainFrame.UpdateCVSLocations`.
- `wxString::Replace` is modelled only for the one use here, every space
  written as `%20` (`MainFrame.EncodeSpaces`). `MainFrame.DecodeSpaces` is
  the model's own inverse and has no source counterpart.
- `FinderTarget::ReplaceAll`. It is never called.
- The application bootstrap (`vaccineFinderApp`).
- The `Cerr` diagnostics of the parsers (`src/cvsTarget.cpp:83-150`,
  `src/riteAidTarget.cpp:161-274`). They go to the console only and change
  no result.
