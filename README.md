# Classroom booking front end: a Dafny model of its logic

This project models the small amount of real logic in a React front end for booking
classrooms. Logging in, listing rooms and booking a room for a recurring weekly slot go
through a REST backend, so most of the front end is screens and HTTP calls. The modelled
parts are these:

- **The occupation observer.** Subscribed callbacks are polled, and every one of them is
  notified when the set of occupied rooms changes. This is a Dafny class, `ClassroomObserver`.
  - One poll is one `CheckOccupations` call, given the room ids fetched for now.
  - The change test keeps the source's two `for` loops with their early exit.
- **The room filters.**
  - The `searchByFilters` predicate.
  - The dashboard's occupied/available split, and the search run on each tab.
  - The page handlers that store the result and the error message, as class `HomePage`.
- **The search bar handlers.**
  - The parse rule of the capacity field: trim, then `parseInt`, then keep only positive numbers.
  - The clear button.
  - The Enter key.
- **The booking dialog.**
  - The weekday table.
  - The weekday toggle, as class `DayPicker` for the selection state.
  - The "Dias selecionados" summary.
  - The payload handed to `onSubmit`.
- **The zod schemas** for rooms, bookings, registration and login. Each becomes a list of
  issues that carry the schema's own messages.
  - The e-mail regular expression is matched by hand.
  - The matcher is proved equal to a declarative reading of the pattern.
- **The two services.**
  - How the auth and user services turn a failed request into a message.
  - The auth session, kept under the `token` and `user` keys of a string-to-string store.

JavaScript semantics are written out where they matter:
- `String.prototype.trim` removes the full JavaScript set of white-space and line-terminator characters.
- `parseInt(value, 10)` skips leading white space, reads an optional sign and then the
  longest digit prefix. `None` stands for `NaN`.
- A `number | ''` filter value is truthy only when it is a non-zero number (`Capacity`, `CapacityIsSet`).
- `includes`, ASCII `toLowerCase` and `${n}` are defined in `Text`.
- `${n}` is proved to read back through `parseInt`.
- A JavaScript `Set<number>` is modelled two ways. The observer's `lastOccupiedRooms`, which is
  iterated, is a duplicate-free sequence in insertion order (`ClassroomObservers.ToSet`). The
  dashboard's `occupiedRoomIds`, which is only asked `has`, is a Dafny `set<int>` (`Home.OccupiedRoomIds`).

The code has no conflict check between bookings, and the model has none either:
- The booking dialog only forwards its data, and nothing compares bookings.
- No rule forces a start before an end, and none limits weekdays to 0–6. Nothing checks the
  weekday set is non-empty either, because the dialog submits without running the schema
  (`OccupationSchema.SubmitSkipsSchema`).

## Model

| member | source | states |
|---|---|---|
| Rooms.KeepRoom | src/services/api.ts:27-58 | The early-return callback of `classrooms.filter`, one `return false` per filter. Its meaning is stated by `Rooms.KeepRoomIffCriteria`. |
| Rooms.SearchByFilters | src/services/api.ts:27-58 | `classrooms.filter` with that callback. Its meaning is stated by `Rooms.SearchByFiltersSpec`. |
| Rooms.KeepRoomIffCriteria | src/services/api.ts:27-58 | The early-return filter keeps a room exactly when four criteria all hold. (1) A set occupancy filter equals the room's `isOccupied`. (2) A non-empty term occurs, ASCII-case-insensitively, in the room number, the present teacher or the present subject. (3) A truthy capacity is at most `maxStudents`. (4) The projector filter rejects only `projectors == 0`. |
| Rooms.SearchByFiltersSpec | src/services/api.ts:27-58 | The result is a subsequence of the input rooms, in order. A room is in the result iff it is an input room that meets every criterion. |
| Rooms.SearchWithoutFiltersKeepsAll | src/services/api.ts:27-58 | With an empty term, `''` capacity, no projector and undefined occupancy, the result is the input unchanged. |
| Rooms.ZeroCapacityDoesNotFilter | src/services/api.ts:48-50 | A capacity of `0` filters exactly like `''`. |
| Text.ToLower | src/services/api.ts:37-40 | The result has the input's length and no upper-case ASCII letter left. Each upper-case letter becomes its lower-case letter (code +32), and every other character is kept. |
| Text.ToLowerIdempotent | src/services/api.ts:37-40 | Lower-casing twice is lower-casing once. |
| Text.Includes | src/services/api.ts:38-40 | `includes`, as a scan over the offsets from the left. `Text.IncludesIffOccurs` proves it is substring containment. |
| Text.IncludesIffOccurs | src/services/api.ts:38-40 | The left-to-right `includes` scan succeeds iff the term occurs at some offset. |
| Text.Trim | src/components/AvailableSearchBar.tsx:52 | `trim`, as `trimEnd` after `trimStart`. Its meaning is stated by `Text.TrimShape`, `Text.TrimEdges` and `Text.TrimEmptyIff`. |
| Text.TrimShape | src/components/AvailableSearchBar.tsx:52 | `trim` returns a middle slice of its input, with only white space cut from each end. |
| Text.TrimEmptyIff | src/components/AvailableSearchBar.tsx:52-53 | A value trims to `''` iff it is all white space. |
| Text.TrimEdges | src/components/AvailableSearchBar.tsx:52 | A non-empty trimmed value neither starts nor ends with white space. |
| Text.LeadingWhitespace | src/components/AvailableSearchBar.tsx:52 | The count of leading characters `trim` removes: all white space, and the next character is not. |
| Text.TrailingWhitespace | src/components/AvailableSearchBar.tsx:52 | Where the trailing white space `trim` removes begins: all after it is white space, and the character before is not. |
| Text.TrimAround | src/components/AvailableSearchBar.tsx:52 | White space around a core that has no white space at its ends is exactly what `trim` removes. |
| Text.ParseInt | src/components/AvailableSearchBar.tsx:56 | `parseInt(value, 10)`: leading white space, an optional sign, then the longest digit run; `NaN` (`None`) when there is no digit. `Text.ParseIntOfIntToString` proves it reads back `${n}`. |
| Text.IntToString | src/services/authService.ts:110 | `${n}` for an integer: a minus sign, then the digits without leading zeros. `Text.ParseIntOfIntToString` and `Text.IntToStringInjective` are about it. |
| Text.ParseIntOfIntToString | src/components/AvailableSearchBar.tsx:56 | `parseInt` of the decimal text of any integer gives back that integer. |
| Text.IntToStringInjective | src/services/authService.ts:110 | Different integers have different decimal texts. |
| AvailableSearchBar.HandleKeyDown | src/components/AvailableSearchBar.tsx:38-42 | A key press fires either one search or nothing. |
| AvailableSearchBar.KeyDownSearchesOnlyOnEnter | src/components/AvailableSearchBar.tsx:38-42 | A search fires iff the key is `Enter`. Any other key fires nothing. |
| AvailableSearchBar.HandleClear | src/components/AvailableSearchBar.tsx:44-49 | Clearing resets the term to `''`, the capacity to `''` and the projector to `false`. Then exactly one search fires, as the last call. |
| AvailableSearchBar.CapacityInput | src/components/AvailableSearchBar.tsx:51-61 | The capacity the field asks for: `''` when it trims to nothing, the parsed number when it is positive, and no call otherwise. `AvailableSearchBar.HandleMaxStudentsChange` states each case. |
| AvailableSearchBar.HandleMaxStudentsChange | src/components/AvailableSearchBar.tsx:51-61 | At most one callback fires. It sets `''` iff the input is all white space. It sets `n` iff the trimmed input parses to a positive `n`. Nothing fires iff the parse is `NaN` or not positive. |
| AvailableSearchBar.TypedPositiveNumberSetsCapacity | src/components/AvailableSearchBar.tsx:51-61 | Typing a positive number's digits, with white space around them, sets exactly that capacity. |
| Home.FindOccupation | src/pages/Home.tsx:65 | `find` returns nothing iff no occupation names the room. Otherwise it returns the first occupation that does. |
| Home.OccupiedCards | src/pages/Home.tsx:60-66 | Tab 0 of `loadClassrooms`: filter by `occupiedRoomIds.has`, then attach `find`'s occupation. Its meaning is stated by `Home.OccupiedCardsSpec`. |
| Home.AvailableCards | src/pages/Home.tsx:68-72 | The other tab of `loadClassrooms`: the rooms whose id is not occupied, copied. Its meaning is stated by `Home.AvailableCardsSpec`. |
| Home.OccupiedCardsSpec | src/pages/Home.tsx:55-66 | Tab 0 lists exactly the rooms whose id is occupied, in the fetched order. Each carries the first occupation of its room. |
| Home.AvailableCardsSpec | src/pages/Home.tsx:69-71 | The other tab lists exactly the rooms whose id no occupation names, in order, without an occupation. |
| Home.TabsPartitionRooms | src/pages/Home.tsx:60-73 | The two tabs together hold the fetched rooms as a multiset. Each fetched room is on exactly one tab. |
| Home.OccupiedSearchKeeps | src/pages/Home.tsx:104-114 | The tab-0 callback of `handleSearch`, with its two early returns. Its meaning is stated by `Home.OccupiedSearchSpec`. |
| Home.OccupiedSearchSpec | src/pages/Home.tsx:102-118 | The tab-0 search keeps an occupied room iff the lower-cased term occurs in its number, or in its occupation's teacher or subject. The order is kept. |
| Home.OccupiedKeepsRoom | src/pages/Home.tsx:104-114 | The filter predicate of the tab-0 search, room by room. |
| Home.OccupiedSearchEmptyTerm | src/pages/Home.tsx:104-114 | With an empty term, that search shows exactly the tab-0 list. |
| Home.AvailableSearchKeeps | src/pages/Home.tsx:121-137 | The other tab's callback of `handleSearch`, with its four early returns. Its meaning is stated by `Home.AvailableSearchSpec`. |
| Home.AvailableSearchSpec | src/pages/Home.tsx:120-138 | A room is dropped iff one of four things holds. It is occupied. A non-empty term misses its number. It is below a truthy capacity. A projector is asked for and it has none. |
| Home.ClearedSearchShowsAllAvailable | src/pages/Home.tsx:120-138 | Searching with cleared filters shows every available room. |
| Home.ClearResetsInputs | src/pages/Home.tsx:227-229 | Whatever the page's filters were, the clear button's setters leave them cleared. |
| Home.ClearSearchAsWrittenKeepsOldFilter | src/components/AvailableSearchBar.tsx:44-49 | As written, the search fired by "clear" still uses the term typed before. A room with another number stays hidden although the filters are reset. |
| Home.ClearSearch | src/components/AvailableSearchBar.tsx:44-49 | The intended clear shows exactly the available rooms. |
| Home.HomePage.LoadClassrooms | src/pages/Home.tsx:40-85 | On success, the tab's list is stored. The "no occupied" or "no available" message is set iff that list is empty. On failure, the list is unchanged and the load error is set. Loading ends false. |
| Home.HomePage.HandleSearch | src/pages/Home.tsx:87-150 | On success, the tab's search result is stored, and the "no match" message is set iff it is empty. On failure, the list is emptied and the search error is set. |
| Home.HomePage.ClearFilters | src/components/AvailableSearchBar.tsx:44-49 | The corrected clear on the available tab. The filters end cleared, and the list is every available room. The message is `''` when that list is non-empty and the no-match text when it is empty; a failed fetch empties the list with the error text. Loading ends off. |
| ClassroomObservers.RemoveFirst | src/services/classroomObserver.ts:20-24 | `indexOf`, then `splice(index, 1)` when found. Its meaning is stated by `ClassroomObservers.RemoveFirstSpec`. |
| ClassroomObservers.RemoveFirstSpec | src/services/classroomObserver.ts:20-24 | `indexOf` plus `splice` removes one copy of the callback when there is one, and none otherwise. The rest keep their order, because the result is a subsequence. |
| ClassroomObservers.UnsubscribeUndoesSubscribe | src/services/classroomObserver.ts:10-24 | Unsubscribing a callback that was subscribed once, last, gives back the earlier list. |
| ClassroomObservers.ToSet | src/services/classroomObserver.ts:51 | `new Set(ids)` holds the same ids without repetition. |
| ClassroomObservers.HasChanges | src/services/classroomObserver.ts:54-72 | The two scanning loops report a change iff the fetched ids and the remembered ids differ as sets. |
| ClassroomObservers.ClassroomObserver.constructor | src/services/classroomObserver.ts:5-8 | The observer starts with no callbacks, not polling, and nothing remembered. |
| ClassroomObservers.ClassroomObserver.Subscribe | src/services/classroomObserver.ts:10-18 | The callback is appended and polling is on. The remembered rooms and the notifications are unchanged. |
| ClassroomObservers.ClassroomObserver.Unsubscribe | src/services/classroomObserver.ts:20-28 | The first copy of the callback is removed. Polling continues iff callbacks remain. An empty list also forgets the remembered rooms. |
| ClassroomObservers.ClassroomObserver.StartChecking | src/services/classroomObserver.ts:30-33 | Polling is switched on. |
| ClassroomObservers.ClassroomObserver.StopChecking | src/services/classroomObserver.ts:35-38 | Polling is switched off and the remembered rooms are forgotten. |
| ClassroomObservers.ClassroomObserver.CheckOccupations | src/services/classroomObserver.ts:40-85 | Nothing changes and nobody is called when polling is off, the fetch failed or the set is unchanged. Otherwise the new set is remembered and every callback is called once, in subscription order. |
| ClassroomObservers.ClassroomObserver.NotifyObservers | src/services/classroomObserver.ts:87-89 | The notification log grows by exactly the subscribed callbacks, in order. |
| ClassroomObservers.SubscribeThenUnsubscribe | src/services/classroomObserver.ts:10-38 | Subscribing and unsubscribing on an idle observer leaves it idle and forgetful. |
| Sorting.Sort | src/components/OccupationForm.tsx:95 | The numeric sort returns a sorted permutation of its input. |
| Sorting.StrictlySortedUnique | src/components/OccupationForm.tsx:93-95 | Two strictly ascending lists with the same members are equal. |
| OccupationForm.DayLabel | src/components/OccupationForm.tsx:39-47 | `DAYS_OF_WEEK[day]` is the entry whose value is `day`, for days 0–6. No other entry carries its label. |
| OccupationForm.ToggleDay | src/components/OccupationForm.tsx:91-100 | The updater passed to `setSelectedDays`: filter the day out when present, else append it and sort. Its meaning is stated by `OccupationForm.ToggleOffSpec`, `OccupationForm.ToggleOnSpec` and `OccupationForm.ToggleFlipsMembership`. |
| OccupationForm.ToggleFlipsMembership | src/components/OccupationForm.tsx:93-95 | A toggle flips the toggled day's membership and keeps every other day's. |
| OccupationForm.ToggleOffSpec | src/components/OccupationForm.tsx:93-94 | Toggling a selected day drops every copy of it, keeping the other days in order. |
| OccupationForm.ToggleOnSpec | src/components/OccupationForm.tsx:95 | Toggling an unselected day gives the old days plus it, sorted. |
| OccupationForm.ToggleKeepsStrictlySorted | src/components/OccupationForm.tsx:93-95 | A sorted, repetition-free selection stays so. |
| OccupationForm.ToggleKeepsDays | src/components/OccupationForm.tsx:91-95 | Toggles of table days keep the selection within 0–6. |
| OccupationForm.ToggleTwice | src/components/OccupationForm.tsx:93-95 | Pressing a day twice restores a sorted, repetition-free selection. |
| OccupationForm.Join | src/components/OccupationForm.tsx:270 | `array.join(sep)`. `OccupationForm.SummaryGrowsByLabel` and `OccupationForm.SummaryOfOneDay` state what the summary built with it shows. |
| OccupationForm.SelectedDaysText | src/components/OccupationForm.tsx:268-272 | The summary is shown iff some day is selected, and it starts with "Dias selecionados: ". |
| OccupationForm.SummaryGrowsByLabel | src/components/OccupationForm.tsx:270 | One more day extends the summary by ", " and that day's label. |
| OccupationForm.SummaryOfOneDay | src/components/OccupationForm.tsx:270 | Selecting one day from none shows just its label. |
| OccupationForm.Payload | src/components/OccupationForm.tsx:139-147 | `daysOfWeek` is the selection as it is. `teacher` is the user's e-mail, or `''` when there is no user. `subject` is the discipline's name, or `''` when there is none. The dates and times are the form's fields. |
| OccupationForm.DayPicker.constructor | src/components/OccupationForm.tsx:52 | The selection starts empty. |
| OccupationForm.DayPicker.HandleDayClick | src/components/OccupationForm.tsx:91-100 | The selection becomes its toggle, and the form field gets the same list. It stays sorted and repetition-free, and within 0–6 when the day is. |
| OccupationForm.DayPicker.Submit | src/components/OccupationForm.tsx:111-147 | The handed-on payload's days are exactly the current selection. |
| Validation.RangeIssues | src/schemas/classroomSchema.ts:7-9 | A `min`/`max` number check reports no issue iff the value is within the bounds, inclusive. Each failed bound reports its own message on the field. |
| Validation.LengthIssues | src/schemas/classroomSchema.ts:4-6 | A `min`/`max` string check reports no issue iff the length is within the bounds. |
| ClassroomSchema.Issues | src/schemas/classroomSchema.ts:3-28 | The issues `safeParse` reports for a room form, field by field with the schema's messages. `ClassroomSchema.ValidIff` and `ClassroomSchema.IssuePaths` are about it. |
| ClassroomSchema.ValidIff | src/schemas/classroomSchema.ts:3-28 | A room form is valid iff each field is in range. The number is at most 10 characters and the building at most 50. The floor is 0–100, desks 1–100, chairs 1–200, capacity 1–200, and computers 0–50 when given. No rule spans two fields. |
| ClassroomSchema.IssuePaths | src/schemas/classroomSchema.ts:3-28 | Issues name only the form's checked fields, never `hasProjector`. |
| ClassroomSchema.OptionalFieldsMayBeAbsent | src/schemas/classroomSchema.ts:19-24 | Leaving out `computers` never invalidates a form, and `hasProjector` is never checked. |
| ClassroomSchema.BoundsAreInclusive | src/schemas/classroomSchema.ts:4-27 | Forms at the lower and upper bounds are valid. An 11-character room number is not. |
| OccupationSchema.Issues | src/schemas/occupationSchema.ts:3-15 | The issues reported for a booking form, field by field with the schema's messages. `OccupationSchema.ValidIff` is about it. |
| OccupationSchema.ValidIff | src/schemas/occupationSchema.ts:3-15 | A booking form is valid iff four things hold. The teacher is non-empty. The discipline is 3–100 characters. The four date and time texts are non-empty. There are 1–7 days. |
| OccupationSchema.DaysAreCountedOnly | src/schemas/occupationSchema.ts:3-15 | Validity depends on the number of days only, not on their values, order or repetition. Non-empty dates are never compared. |
| OccupationSchema.NoRangeOrOrderCheck | src/schemas/occupationSchema.ts:12-14 | Seven copies of an unknown day, with the end before the start, pass. |
| OccupationSchema.SubmitSkipsSchema | src/components/OccupationForm.tsx:111-147 | The dialog hands on a payload with no day selected, although the schema rejects it with the "Selecione pelo menos um dia da semana" message. |
| UserSchema.IsEmail | src/schemas/userSchema.ts:4 | The e-mail matcher: split at the first `@` and the last `.`, then check the three character classes. `UserSchema.IsEmailIffMatches` proves it equals the pattern. |
| UserSchema.IsEmailIffMatches | src/schemas/userSchema.ts:4 | The matcher, which splits at the first `@` and the last `.`, accepts exactly the strings the e-mail pattern matches. |
| UserSchema.ExampleAddressesMatch | src/schemas/userSchema.ts:6-10 | The three example addresses match the pattern. |
| UserSchema.NoLocalPart | src/schemas/userSchema.ts:4 | An address with nothing before the `@` does not match. |
| UserSchema.OneLetterEnding | src/schemas/userSchema.ts:4 | One letter after the last dot does not match. |
| UserSchema.ParseUserType | src/schemas/userSchema.ts:22 | The enum accepts exactly the three member values, giving the member whose value it is. |
| UserSchema.ParseUserTypeValue | src/schemas/userSchema.ts:22 | Every member's value is accepted as that member. |
| UserSchema.ParseRegister | src/schemas/userSchema.ts:12-23 | A rejected registration always carries at least one issue. |
| UserSchema.RegisterIssues | src/schemas/userSchema.ts:12-23 | The issues reported for a registration, every check of every field collected. `UserSchema.ParseRegisterSpec` and `UserSchema.EmptyEmailBothIssues` are about it. |
| UserSchema.ParseRegisterSpec | src/schemas/userSchema.ts:12-23 | A registration is accepted iff four things hold. The name is 3–100 characters. The e-mail matches the pattern. The password is 6–50 characters. The type, when given, is an enum value. Accepted data keeps the fields, and an absent type becomes `aluno`. |
| UserSchema.EmptyEmailBothIssues | src/schemas/userSchema.ts:16-18 | An empty e-mail reports both the "required" issue and the "format" issue. |
| UserSchema.LoginIssues | src/schemas/userSchema.ts:25-30 | The issues reported for a login: one per empty field. `UserSchema.LoginValidIff` is about it. |
| UserSchema.LoginValidIff | src/schemas/userSchema.ts:25-30 | A login is valid iff the e-mail and the password are non-empty. |
| UserSchema.LoginLaxerThanRegister | src/schemas/userSchema.ts:25-30 | Login accepts an e-mail and a password that registration refuses. |
| AuthService.HandleError | src/services/authService.ts:83-119 | The message of the error `_handleError` returns: the body message, else the status text, else `Erro inesperado (n)`; without a response, the no-response or connection text. The lemmas below state each branch. |
| AuthService.StatusMessage | src/services/authService.ts:96-108 | The six statuses with a fixed text, and no text for any other. `AuthService.StatusMessagesDistinct` is about it. |
| AuthService.UnexpectedMessage | src/services/authService.ts:110 | `Erro inesperado (${status})`. `AuthService.UnexpectedMessageNamesStatus` proves the status reads back from it. |
| AuthService.BodyMessageTakesPrecedence | src/services/authService.ts:91-93 | A non-empty `data.message` is the message, whatever the status. |
| AuthService.StatusMessagesDistinct | src/services/authService.ts:96-108 | The six fixed status messages are pairwise different. |
| AuthService.UnexpectedMessageNamesStatus | src/services/authService.ts:109-110 | "Erro inesperado (n)" starts with its prefix, ends with ")", and gives back `n` when the number inside is parsed. |
| AuthService.UnexpectedMessagesDistinct | src/services/authService.ts:109-110 | Different unexpected statuses give different messages. |
| AuthService.NoResponseCases | src/services/authService.ts:112-118 | Without a response, the message is the no-response text when a request went out. Otherwise it is "Erro na conexão: " followed by the error's message. |
| AuthService.MissingCredentialsText | src/services/authService.ts:19-21 | The empty-credentials error reaches the caller prefixed with "Erro na conexão: ", not as thrown. |
| AuthService.GetToken | src/services/authService.ts:79-81 | `localStorage.getItem('token')`, `None` for `null`. |
| AuthService.IsAuthenticated | src/services/authService.ts:60-72 | Whether a truthy (present, non-empty) token is stored. |
| AuthService.GetCurrentUser | src/services/authService.ts:74-77 | The stored user text when it is truthy, else `None`. |
| AuthService.SignedOut | src/services/authService.ts:55-58 | The store after removing `token` and `user`. `AuthService.LogoutSignsOut` is about it. |
| AuthService.SignedIn | src/services/authService.ts:40-44 | The store after removing and then setting `token` and `user`. `AuthService.LoginSignsIn` is about it. |
| AuthService.LogoutSignsOut | src/services/authService.ts:55-81 | After `logout`, `isAuthenticated` is false, `getToken` and `getCurrentUser` are null, and every other key is untouched. |
| AuthService.LoginSignsIn | src/services/authService.ts:40-44 | After the login writes, the store holds the received token and user, and every other key is untouched. `isAuthenticated` holds iff the token is non-empty. |
| AuthService.LogoutUndoesLogin | src/services/authService.ts:40-58 | Logging out after logging in leaves what logging out alone leaves. |
| AuthService.AuthSession.Login | src/services/authService.ts:14-53 | An empty e-mail or password fails with the classified missing-credentials error before any request, leaving the store unchanged. A failed request fails with `_handleError`'s message, also leaving the store unchanged. A success stores the token and the user. |
| AuthService.AuthSession.Logout | src/services/authService.ts:55-58 | Both session keys are removed. |
| UserService.HandleError | src/services/userService.ts:40-56 | The message of `userService._handleError`: four fixed status texts, a generic one for any other status, and the connection text without a response. The lemmas below are about it. |
| UserService.OnlyStatusMatters | src/services/userService.ts:40-56 | The message depends only on whether a response came back and on its status. |
| UserService.OtherStatusesAreGeneric | src/services/userService.ts:41-53 | The generic message comes iff the status is not 404, 409, 400 or 500, so 401 and 403 get it too. |
| UserService.AgreesWithAuthService | src/services/userService.ts:40-56 | Without a body message, the two services agree on 409, 400 and 500 and differ on 404, 401 and 403. |

## Left out

- **Network and HTTP.** The axios calls are replaced by their outcomes, passed as parameters:
  - `Fetch` for the dashboard's two fetches;
  - `Option<seq<int>>` for an observer poll;
  - `Result` for a login reply.
- **Errors are classified by shape.** An error is the shape `_handleError` inspects: `response`, `request`,
  `data.message` and `message`, as an `HttpError`.
- **Timers.** The `setTimeout` re-scheduling of polls and the dashboard clock are not modelled. A poll is one `CheckOccupations` call.
- **The first poll.** It is not part of `Subscribe`: it is the separate first `CheckOccupations`.
- **A poll in flight.** A poll whose fetch returns after the last unsubscribe still stores the fetched set in the source. The model has no interleaving, since a poll runs as one step.
- **Dates, times and locales.** `toISOString`, `toLocaleTimeString` and `format` only choose which occupations the backend returns, so they are not modelled.
- **Browser storage and JSON.** `localStorage` is a `map<string, string>`, and the stored user text is opaque.
  - `getCurrentUser` returns that text instead of parsing it.
  - `JSON.stringify` of the user is not modelled.
- **Library internals.** zod, the regular-expression engine and `parseInt` are replaced by hand-written definitions of the rules used here.
  - zod's issue objects are reduced to a path and a message.
  - The wording of the message for an unknown user type follows zod's default, and its exact text is an assumption.
- **String lengths.** They count Unicode characters, where zod counts UTF-16 code units.
- **Lower-casing.** `toLowerCase` is ASCII only.
- **Numbers.** `z.number()` and the room fields are integers here. Non-integer numbers and `parseInt`'s rounding of huge values are not modelled.
- **The rest of the booking dialog and dashboard.**
  - The dialog's opening reset (`useEffect`) is not modelled.
  - Neither is its discipline select.
  - The dialog's own `loading` and `error` state are not modelled. The dashboard's `isLoading` and `error` are, in `Home.HomePage`.
  - Neither is registration through `authService.register`.
  - The dashboard's rendering and routing are not modelled.
  - Screens without stateable rules are omitted.
- **The two room shapes.** `api.ts` reads `projectors`, but the dashboard reads `hasProjector`. The single `Room` record carries both, with the optional fields as `Option`.
- **Conflict detection between bookings.** It does not exist in this code.

## Findings

| source | as written | input that shows it | evidently intended | confidence | as-written member | corrected member |
|---|---|---|---|---|---|---|
| src/components/AvailableSearchBar.tsx:44-49 | The clear button calls the three setters and then `onSearch()`. That is the dashboard's `handleSearch` from the render that drew the button, so it filters with the term, capacity and projector of before the reset. | Available rooms "101" and "202", with the term "101" typed. Pressing "Limpar" still shows only "101". | After clearing, the search shows every available room. | not executed | Home.ClearSearchAsWrittenKeepsOldFilter | Home.ClearSearch |
