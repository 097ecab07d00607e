# agenda-facil in Dafny

agenda-facil is a booking web application for small businesses. A business
registers, configures its services, connects a calendar and a messaging
account, and shares a public link where its customers book appointments. The
backend is a mock: every "API call" reads and writes the browser's storage.

This project models the logic of that application as pure Dafny functions
and proves properties about them. It covers:

- **the mock API** (`src/services/api.ts`): login, registration, logout, the
  two account connections, the service catalogue, booking creation with its
  client upsert, cancellation, the half-hour slot grid, the public link path
  and the list getters;
- **the public link builder** (`src/utils/urlUtils.ts`);
- **the dashboard pages that compute things**:
  - the clients page, which rebuilds clients from the bookings, searches
    them and builds a WhatsApp link;
  - the appointments page, which filters, groups and sorts bookings by date;
- **the calendar widget** (`src/components/CalendarView.tsx`);
- **the customer booking wizard** (`src/pages/Booking.tsx`).

The storage becomes one immutable `Api.Store` value, and every call is a
function from the store before to the reply and the store after. Identifiers
built from `Date.now()`, the random availability flags, the page origin and
today's date all arrive as arguments.

Modules, one per file:

| file | module | covers |
|---|---|---|
| common.dfy | `Common` | `Option`, `find`/`findIndex`, `filter`, subsequences |
| strings.dfy | `Strings` | string `<`, `includes`, `startsWith`, ASCII `toLowerCase`, `toString`, `padStart` |
| types.dfy | `Types` | the records of `src/types/index.ts`, error messages, replies |
| slots.dfy | `Slots` | the shared half-hour grid |
| api.dfy | `Api` | the mock API |
| api_props.dfy | `ApiProperties` | properties relating several API calls |
| urls.dfy | `Urls` | `getPublicBookingUrl` |
| client_list.dfy | `ClientList` | the clients page |
| appointment_list.dfy | `AppointmentList` | the appointments page |
| calendar_view.dfy | `CalendarView` | the calendar widget |
| booking_wizard.dfy | `BookingWizard` | the customer booking wizard |
| reconcile.dfy | `Reconcile` | the API's stored clients against the clients page's rebuilt ones |

### Behaviour of the code worth knowing

Each of these is the code's own behaviour; the model follows it, and a lemma
states it.

- **Absent phones and emails.** `createBooking` looks up the client with
  `c.phone === booking.clientPhone`, but stores a missing phone as `""`. So
  every phone-less booking adds another client
  (`ApiProperties.AbsentPhoneAlwaysAddsClient`). `register` behaves the same
  way for a missing email (`ApiProperties.RegisterWithoutEmailDuplicates`).
- **The stored last visit is the last write.** It is the date of the most
  recent *call*, not the latest date (`ApiProperties.LastVisitIsLastWrite`).
  The clients page instead takes the latest date. The two agree when
  bookings are made in date order (`Reconcile.ReplayAgrees`) and disagree
  otherwise (`Reconcile.EarlierBookingBreaksAgreement`).
- **Back during a submission does not cancel it.** The booking form calls
  the page back 1.5 seconds after a submission, and the back button stays
  usable meanwhile. Going back then shows the date step, and the timer
  jumps the page to the confirmation step anyway
  (`BookingWizard.BackDuringSubmission`).
- **Unknown ids succeed silently.** Cancelling an unknown booking id
  succeeds and changes nothing, and so does saving a service under an
  unknown id.
- **The grid has 22 slots.** The loop `hour <= 19` over minutes `[0, 30]`
  yields 22 slots, 09:00 to 19:30 (`Slots.GridEnds`).

## Model

| member | source | states |
|---|---|---|
| Common.FindIndex | src/services/api.ts:34 | the index found is the first element satisfying the test; none is found exactly when no element satisfies it (`find`/`findIndex`) |
| Common.Filter | src/services/api.ts:244 | `Array.prototype.filter` returns no more elements than it was given, each satisfying the test |
| Common.FilterMembers | src/services/api.ts:244 | an element is kept exactly when it occurs in the input and satisfies the test |
| Common.FilterCounts | src/services/api.ts:244 | each element satisfying the test is kept as often as it occurs, every other element never |
| Common.FilterSubsequence | src/services/api.ts:244 | the kept elements keep their relative order |
| Common.FilterCons | src/services/api.ts:244 | filtering decides the first element, then filters the rest |
| Common.FilterAll | src/services/api.ts:244 | filtering with a test every element passes returns the list unchanged |
| Common.FilterIdempotent | src/pages/ClientList.tsx:86 | filtering a filtered list again with the same test changes nothing |
| Common.FilterAppend | src/services/api.ts:244 | filtering a concatenation is concatenating the filtered parts |
| Common.FilterCongruent | src/pages/AppointmentList.tsx:99-110 | two tests that agree on every element filter alike |
| Common.NoDupMultiset | src/pages/AppointmentList.tsx:122-126 | a list has no duplicates iff every element occurs at most once in its multiset; this is how `SortedDates` shows each key of the group object occurs once |
| Strings.LexIrreflexive | src/pages/ClientList.tsx:62 | no string is `<` itself |
| Strings.LexAsymmetric | src/pages/ClientList.tsx:62 | `a < b` excludes `b < a` |
| Strings.LexTransitive | src/pages/ClientList.tsx:62 | string `<` is transitive |
| Strings.LexTotal | src/pages/ClientList.tsx:62 | two different strings are ordered one way or the other |
| Strings.LexNotLessTransitive | src/pages/ClientList.tsx:62 | "not less than" is transitive |
| Strings.LexLessAt | src/services/api.ts:410 | the first differing character decides string order |
| Strings.ContainsSound | src/pages/ClientList.tsx:78-81 | `includes` holds only when the term occurs at some position |
| Strings.ContainsComplete | src/pages/ClientList.tsx:78-81 | a term occurring at any position is found by `includes` |
| Strings.Lower | src/pages/ClientList.tsx:79 | `toLowerCase` maps A–Z to a–z and keeps every other character, position by position |
| Strings.LowerIdempotent | src/pages/ClientList.tsx:79 | lower-casing twice is lower-casing once |
| Strings.DigitChar | src/services/api.ts:410 | the character of a single decimal digit is a digit character of that value |
| Strings.DecimalString | src/services/api.ts:410 | `toString` of a natural number is a non-empty run of digits |
| Strings.DecimalStringSpells | src/services/api.ts:410 | the digits of `toString` read back, left to right, as the number itself, and start with "0" only for zero |
| Strings.PadStart | src/services/api.ts:410 | `padStart` reaches the width by prepending the fill, keeping the string as its suffix |
| Strings.TwoDigits | src/services/api.ts:410 | a number below 100 padded to two places is its tens digit then its units digit |
| Slots.ClockChars | src/services/api.ts:410 | a rendered time below 100:100 is the two digits of the hour, a colon and the two digits of the minutes |
| Slots.ClockTextOrder | src/services/api.ts:408-416 | two "HH:MM" strings compare as strings the way the times they read as compare |
| Slots.ClockRoundTrip | src/services/api.ts:410 | a rendered time has the "HH:MM" shape and reads back as the hour and minutes rendered |
| Slots.ClockOrder | src/services/api.ts:408-416 | rendered times compare as strings the way they compare as times |
| Slots.SlotReadsBack | src/services/api.ts:408-416 | grid entry k is "HH:MM" with hour 9 + k/2 and minutes 0 or 30 |
| Slots.SlotOrder | src/services/api.ts:408-416 | later grid entries are strictly later strings |
| Slots.GridEnds | src/services/api.ts:405-409 | the grid opens at "09:00" and closes at "19:30" |
| Slots.SlotStep | src/services/api.ts:408-410 | the entry the nested loop appends for an hour and minute index is the closed-form entry at that position |
| Slots.GridFacts | src/services/api.ts:405-416 | a grid equal to the closed form has every shape, order and end-point property |
| Slots.HalfHourGrid | src/services/api.ts:405-416 | the nested loop yields 22 "HH:MM" times, strictly increasing, from 09:00 to 19:30 |
| Api.Login | src/services/api.ts:25-49 | succeeds iff some user has the email, returns and remembers the first such user, otherwise fails with "Usuario no encontrado" and writes nothing |
| Api.Register | src/services/api.ts:51-84 | fails with "El email ya está en uso" iff the email is given and taken; otherwise appends a user with both connections off and absent fields as "", and makes it current |
| Api.Logout | src/services/api.ts:86-89 | forgets the current user and touches nothing else |
| Api.ReplaceUser | src/services/api.ts:110-112 | the `users.map` replaces exactly the users with the updated user's id |
| Api.UpdateCurrentUser | src/services/api.ts:98-116 | without a current user fails and writes nothing; otherwise writes the updated user back as current and over the stored users |
| Api.ConnectGoogleCalendar | src/services/api.ts:92-120 | marks the current user's calendar connected, in the current user and in the user list, and changes nothing else |
| Api.ConnectTwilio | src/services/api.ts:123-160 | an absent or shorter-than-ten token is refused before anything else; otherwise the token is stored on the current user as connected |
| Api.AsDraft | src/services/api.ts:179 | a stored service seen as a form carrying every field |
| Api.Overlay | src/services/api.ts:193-196 | the object spread: every field the form carries wins, every other comes from the stored service |
| Api.NewService | src/services/api.ts:204-214 | a new service gets a fresh id, and defaults of 30 minutes for a falsy duration, 0 for a missing price, "" and false |
| Api.ReplaceService | src/services/api.ts:199-201 | the `map` replaces exactly the services with the given id |
| Api.UpdateService | src/services/api.ts:191-201 | for a form with an id: every service with that id becomes the first one with that id overlaid with the form, every other service stays; with no such service the list and form come back unchanged |
| Api.SaveService | src/services/api.ts:179-232 | with an id, the first matching service overlaid with the form replaces every service with that id and the list keeps its length; an unknown id changes nothing and echoes the form; without an id a new service is appended |
| Api.DeleteService | src/services/api.ts:234-261 | keeps, in order, exactly the services with a different id and reports success |
| Api.GetServices | src/services/api.ts:163-177 | one business's services, empty for a business with none stored |
| Api.GetBookings | src/services/api.ts:264-281 | one business's bookings, empty for a business with none stored |
| Api.GetClients | src/services/api.ts:453-467 | one business's clients, empty for a business with none stored |
| Api.ClientIndex | src/services/api.ts:325 | the first client with the request's phone; an absent phone matches no client |
| Api.FirstVisit | src/services/api.ts:333-340 | a new client has one booking, the booking's date as last visit, and "" for an absent phone |
| Api.UpsertClient | src/services/api.ts:325-340 | a known phone's first client gets one more booking and the new date as last visit, with every other client unchanged; an unknown phone appends one new client |
| Api.CreateBooking | src/services/api.ts:283-360 | fails and writes nothing when a required field is falsy or the service is not the business's, and fails for no other reason; otherwise appends a confirmed booking carrying the service's current name and "" for an absent phone, and upserts the client |
| Api.CancelIn | src/services/api.ts:372-376 | every booking with the id becomes cancelled; every other booking and position is kept |
| Api.CancelBooking | src/services/api.ts:362-392 | always reports success and only rewrites that business's bookings, as above |
| Api.GetAvailableSlots | src/services/api.ts:395-423 | 22 slots on the half-hour grid, strictly increasing, each flagged by its availability draw |
| Api.GetPublicUrl | src/services/api.ts:426-450 | "/booking/" and the id for a registered business, "Usuario no encontrado" otherwise |
| ApiProperties.RegisterKeepsEmailsUnique | src/services/api.ts:59-61 | registering with an email keeps every stored email distinct |
| ApiProperties.RegisterWithoutEmailDuplicates | src/services/api.ts:59-67 | a registration without email is stored with "" even beside another user with "" |
| ApiProperties.RegisterThenLogin | src/services/api.ts:25-84 | a business that just registered with a fresh email logs in as itself, even when older users share an email among themselves |
| ApiProperties.RegisterThenPublicUrl | src/services/api.ts:426-450 | a just-registered business has the public path "/booking/user_" followed by its stamp |
| ApiProperties.ConnectGoogleCalendarIdempotent | src/services/api.ts:92-120 | connecting the calendar twice stores the same as once |
| ApiProperties.ConnectTwilioIdempotent | src/services/api.ts:123-160 | connecting with the same token twice stores the same as once |
| ApiProperties.PublicUrlIgnoresBusinessName | src/services/api.ts:436-444 | renaming a business leaves its public path unchanged |
| ApiProperties.CreateThenDeleteService | src/services/api.ts:179-261 | creating a service and then deleting its id restores the business's list |
| ApiProperties.ResaveIsNoOp | src/services/api.ts:191-201 | saving a stored service back unchanged leaves the list as it was |
| ApiProperties.DeleteServiceIdempotent | src/services/api.ts:234-261 | deleting twice is deleting once |
| ApiProperties.CreateBookingIsolatesTenants | src/services/api.ts:283-360 | a booking call leaves every other business's services, bookings and clients as they were |
| ApiProperties.HaircutBooking | src/services/api.ts:283-360 | a haircut booked for a new phone is confirmed as "Haircut" and creates that phone's client with one booking |
| ApiProperties.BookingNameIsSnapshot | src/services/api.ts:301-311 | saving any service afterwards does not change the bookings, so the booking keeps the name it was made with |
| ApiProperties.AbsentPhoneAlwaysAddsClient | src/services/api.ts:302-340 | without a phone every booking appends a new client with phone "", even beside an existing one |
| ApiProperties.LastVisitIsLastWrite | src/services/api.ts:327-330 | a known client's last visit becomes the new booking's date, whatever the old one was, and the count grows by one |
| ApiProperties.CancelBookingIdempotent | src/services/api.ts:362-392 | cancelling twice is cancelling once |
| ApiProperties.CancelUnknownIdChangesNothing | src/services/api.ts:362-392 | cancelling an id no booking has succeeds and leaves the list unchanged |
| ApiProperties.CancelOnlyTouchesStatus | src/services/api.ts:372-376 | cancelling changes no field but status, only of the booking with the id, only to cancelled |
| Urls.PublicBookingUrl | src/utils/urlUtils.ts:7-19 | the link starts with the origin; a path already starting with it is kept, one starting with "/" is appended, any other gets a "/" between |
| Urls.PublicBookingUrlIdempotent | src/utils/urlUtils.ts:7-19 | building the link of a built link changes nothing |
| Urls.DocumentedExample | src/utils/urlUtils.ts:2-6 | "/booking/user_123" becomes the origin followed by that path |
| Urls.PublicLinkOfRegisteredBusiness | src/utils/urlUtils.ts:7-19 | combined with the API's path, a registered business's link is the origin, "/booking/" and its id |
| ClientList.Tally | src/pages/ClientList.tsx:47-64 | folding one booking in adds its phone to the table and leaves every other phone's client unchanged |
| ClientList.CountPhoneSnoc | src/pages/ClientList.tsx:58 | one more booking with the phone counts one more |
| ClientList.CountPhoneAbsent | src/pages/ClientList.tsx:48 | a phone no booking has is counted zero times |
| ClientList.AggregateKeys | src/pages/ClientList.tsx:45-66 | the rebuilt table has a client for exactly the phones that occur in the bookings |
| ClientList.AggregateMeaning | src/pages/ClientList.tsx:45-66 | each rebuilt client has its phone, the name of the phone's first booking, the phone's booking count (cancelled included) and the latest of its dates as last visit |
| ClientList.StillDescribes | src/pages/ClientList.tsx:47-64 | a booking for another phone leaves a client's description true |
| ClientList.TallyDescribes | src/pages/ClientList.tsx:48-64 | after the newest booking is folded in, its phone's client is correctly described |
| ClientList.KnownPhoneLatest | src/pages/ClientList.tsx:62-64 | moving the last visit forward only for a later date keeps it the latest date of the phone's bookings |
| ClientList.ClientOfPhone | src/pages/ClientList.tsx:45-66 | every booking's phone has a client whose count is that phone's booking count and whose last visit is not before the booking |
| ClientList.SumTotalsRemove | src/pages/ClientList.tsx:58 | the sum of counts does not depend on the order phones are taken |
| ClientList.SumTotalsFrame | src/pages/ClientList.tsx:58 | the sum of counts reads only the summed phones' clients |
| ClientList.TotalsAddUp | src/pages/ClientList.tsx:45-66 | the clients' counts add up to the number of bookings |
| ClientList.FilterClients | src/pages/ClientList.tsx:78-81 | keeps, in order, exactly the clients whose lower-cased name contains the lower-cased term or whose phone contains the term, each as often as it occurs |
| ClientList.EmptySearchKeepsAllClients | src/pages/ClientList.tsx:78-81 | an empty search keeps every client |
| ClientList.FoundByPieceOfPhone | src/pages/ClientList.tsx:80 | any piece of a client's phone finds the client |
| ClientList.FoundByPieceOfName | src/pages/ClientList.tsx:79 | any piece of a client's name finds the client, whatever the case of the letters typed |
| ClientList.DigitsOnly | src/pages/ClientList.tsx:86 | removing non-digits keeps every digit, in order, and only digits |
| ClientList.WhatsAppUrl | src/pages/ClientList.tsx:86 | the chat link is "https://wa.me/" followed by digits only |
| ClientList.DigitsOnlyFixesDigits | src/pages/ClientList.tsx:86 | an all-digit phone is used as it is, and cleaning twice is cleaning once |
| AppointmentList.FilteredBookings | src/pages/AppointmentList.tsx:99-110 | keeps, in order, exactly the bookings matching the search and the tab, each as often as it occurs |
| AppointmentList.StatusTabShowsThatStatus | src/pages/AppointmentList.tsx:105-107 | a status tab shows exactly the matching bookings with that status |
| AppointmentList.AllTabEmptySearchShowsAll | src/pages/AppointmentList.tsx:99-110 | the "all" tab with an empty search shows every booking in order |
| AppointmentList.UnknownTabIsAll | src/pages/AppointmentList.tsx:104-109 | any tab but the three status tabs filters like "all" |
| AppointmentList.GroupKeys | src/pages/AppointmentList.tsx:113-119 | the groups are keyed by exactly the dates that occur |
| AppointmentList.GroupsAreFilters | src/pages/AppointmentList.tsx:113-119 | each group is the bookings of its date in their original order |
| AppointmentList.GroupStep | src/pages/AppointmentList.tsx:114-118 | pushing one booking onto its date keeps every group the bookings of its date |
| AppointmentList.FilterNone | src/pages/AppointmentList.tsx:115-116 | a date no booking has has an empty group |
| AppointmentList.EachBookingInOneGroup | src/pages/AppointmentList.tsx:113-119 | each booking is in the group of its date and in no other |
| AppointmentList.Latest | src/pages/AppointmentList.tsx:122-126 | the newest of a non-empty set of dates, later than none of them |
| AppointmentList.SortedDates | src/pages/AppointmentList.tsx:122-126 | the group keys, each exactly once and nothing else, newest first |
| AppointmentList.ShownDate | src/pages/AppointmentList.tsx:99-118 | a date occurs among the shown bookings exactly when a booking on that date passes the filter |
| AppointmentList.DayList | src/pages/AppointmentList.tsx:99-126 | the page's dates are exactly the dates of the shown bookings, newest first |
| CalendarView.TimeSlots | src/components/CalendarView.tsx:19-35 | 22 slots on the half-hour grid, each flagged by its draw |
| CalendarView.GenerateTimeSlots | src/components/CalendarView.tsx:19-35 | the widget's loop yields those slots, in strictly increasing time order |
| CalendarView.FirstDay | src/components/CalendarView.tsx:46 | the weekday of the 1st, Monday 1 to Sunday 7; one less is the number of blank cells |
| CalendarView.CalendarDays | src/components/CalendarView.tsx:50-60 | the grid is FirstDay - 1 blanks followed by the days 1 to the month's length |
| CalendarView.DayUnderItsWeekday | src/components/CalendarView.tsx:46-60 | every day lands in the column of its weekday, counted Monday-first |
| CalendarView.NormalizeMonth | src/components/CalendarView.tsx:62-72 | a month index outside 0–11 rolls into the neighbouring year |
| CalendarView.PreviousMonth | src/components/CalendarView.tsx:62-66 | shows the month before and clears the chosen day and time |
| CalendarView.NextMonth | src/components/CalendarView.tsx:68-72 | shows the month after and clears the chosen day and time |
| CalendarView.NextThenPrevious | src/components/CalendarView.tsx:62-72 | forward then back, or back then forward, returns to the month shown |
| CalendarView.SelectDate | src/components/CalendarView.tsx:74-80 | a listed day becomes the chosen day, clears the time and redraws the slots; any other day changes nothing |
| CalendarView.SelectTime | src/components/CalendarView.tsx:82-84 | the time becomes the chosen one and nothing else changes |
| CalendarView.ClickSlot | src/components/CalendarView.tsx:167-189 | the slot buttons exist only while a day is chosen; there, an available slot's click chooses that slot's time; no other click changes the chosen time, and nothing else ever changes |
| CalendarView.ActKeepsTimeWithDay | src/components/CalendarView.tsx:62-189 | month moves, day clicks and slot clicks each keep a chosen time tied to a chosen day |
| CalendarView.TimeOnlyWithDay | src/components/CalendarView.tsx:62-189 | from a state with no time chosen without a day, no sequence of actions chooses one |
| CalendarView.MountedTimeOnlyWithDay | src/components/CalendarView.tsx:36-189 | the widget as it first appears, with slots drawn and no day chosen, never shows a chosen time without a day |
| CalendarView.ChosenTimeIsOnGrid | src/components/CalendarView.tsx:74-84 | after picking a day, any time chosen is an "HH:MM" grid time between 09 and 19 with minutes 00 or 30 |
| CalendarView.SlotTimeOnGrid | src/services/api.ts:405-416 | every grid time is "HH:MM" with an hour from 9 to 19 and minutes 0 or 30 |
| CalendarView.PastIsEarlier | src/components/CalendarView.tsx:90-96 | for real dates the three-step test is "earlier than today" |
| CalendarView.PastIsDownwardClosed | src/components/CalendarView.tsx:90-96 | today is not past, and a day before a past day is past |
| CalendarView.ClickDay | src/components/CalendarView.tsx:149-153 | a click on a listed day not in the past selects it, clears the time and draws fresh slots; any other day click changes nothing, and the month shown never changes |
| BookingWizard.SelectService | src/pages/Booking.tsx:51-59 | remembers the service and shows step 2 |
| BookingWizard.SelectDateTime | src/pages/Booking.tsx:61-66 | takes today's date and "10:30" and shows step 3 |
| BookingWizard.Submit | src/pages/Booking.tsx:68-70 | shows step 4 from any step, keeping the choices |
| BookingWizard.SubmitForm | src/components/AppointmentForm.tsx:61-72 | a valid submission disables the form's button and starts one more 1.5-second timer, leaving the step as it is |
| BookingWizard.Back | src/pages/Booking.tsx:72-76 | one step back, never before step 1, keeping the choices |
| BookingWizard.Apply | src/pages/Booking.tsx:51-76 | every handler and the form's timer keep the step between 1 and 4; back never raises it, a submission keeps it and adds a pending timer, and the others never return to step 1 |
| BookingWizard.Click | src/pages/Booking.tsx:84-257 | a control off screen does nothing; a card, the date button or back moves exactly one step; a submission keeps the step and adds a pending timer; a timer goes to step 4 from any step; the step stays between 1 and 4 |
| BookingWizard.ServiceKeptPastFirstStep | src/pages/Booking.tsx:140-257 | a service is chosen whenever the page is past step 1 or a submission is pending, and only the shown form can be submitting; every event sequence keeps this |
| BookingWizard.BackDuringSubmission | src/pages/Booking.tsx:68-91 | a back click after submitting shows step 2, and the submission's timer then jumps to step 4 |
| BookingWizard.ServiceChosenBeforeConfirmation | src/pages/Booking.tsx:35-257 | from the mounted page no click sequence leaves step 1 without a chosen service |
| BookingWizard.StepStaysInRange | src/pages/Booking.tsx:35-76 | any sequence of clicks keeps the step between 1 and 4 |
| BookingWizard.FromInitialStaysInRange | src/pages/Booking.tsx:35-76 | from the mounted page, any clicks keep the step between 1 and 4 |
| BookingWizard.BackFromInitial | src/pages/Booking.tsx:72-76 | back clicks on the first step change nothing |
| BookingWizard.HappyPath | src/pages/Booking.tsx:35-70 | service, date and confirm clicks, then the form's timer, end on step 4 with the service, today's date and "10:30" and nothing pending |
| Reconcile.RebuiltSnoc | src/pages/ClientList.tsx:47-64 | the clients page folds the newest booking into the table of the earlier ones |
| Reconcile.TallyKnown | src/pages/ClientList.tsx:58-64 | for a date no earlier than a known phone's last visit, the page counts one more booking and takes that date |
| Reconcile.UpsertKnownAgrees | src/services/api.ts:327-330 | for a known phone and a date no earlier than its last visit, the API's update matches the page's |
| Reconcile.UpsertNewAgrees | src/services/api.ts:331-340 | for a new phone, the client the API appends matches the one the page creates |
| Reconcile.UpsertAgrees | src/services/api.ts:321-340 | a booking with a phone, dated no earlier than any before, keeps the stored clients equal to the rebuilt ones |
| Reconcile.CreateBookingAgrees | src/services/api.ts:283-360 | the same for a successful `createBooking` call |
| Reconcile.ReplayDates | src/services/api.ts:314-317 | every booking a run of calls stores carries the date of one of the requests |
| Reconcile.ReplayAgrees | src/services/api.ts:283-360 | from a business with no bookings, any run of phone-carrying bookings in date order leaves stored and rebuilt clients equal |
| Reconcile.PairRebuilt | src/pages/ClientList.tsx:47-64 | two bookings of one phone, the second for an earlier date: the page keeps the first date as last visit |
| Reconcile.StoredPairClients | src/services/api.ts:325-340 | the same two bookings through the API leave one stored client for the phone, with the second date as last visit |
| Reconcile.EarlierBookingBreaksAgreement | src/services/api.ts:327-330 | a second booking of the same phone for an earlier date makes stored and rebuilt clients disagree |

## Left out

- Storage and JSON: `localStorage` and its serialisation are the immutable `Store` value; parse failures and the `try`/`catch` replies ("Error al …") have no counterpart.
- Delays and logs: the mock API's `setTimeout` delays and the `console.log` webhook notifications have no effect on the result and are left out. The booking form's 1.5-second delay does matter and is modelled (`BookingWizard.SubmitForm`, `TimerFires`).
- Random flags and clock ids: `Math.random()` availability flags are the `draw` argument, and `Date.now()` ids are the `stamp` argument.
- Api.CreateBooking: one `stamp` serves both the booking id and the client id, as both are read from the same clock within one call.
- Api.GetPublicUrl: the business slug computed from the business name is never used by the code, so it is not modelled.
- Api.SaveService: a form key present with the value `undefined` is treated as absent; the object spread would copy the `undefined`.
- Api.NewService: price is a Dafny `real`, so `NaN` and `-0` do not arise.
- Api.GetAvailableSlots: the business and the date are not consulted, as in the code.
- Api.Login: the password is not checked, as in the code.
- ClientList.Aggregate: the result is a map keyed by phone; the order `Object.values` lists the clients in (integer-like keys first) is not modelled.
- ClientList.Fresh: the random client id of the clients page is the `mint` argument.
- Strings.Lower: `toLowerCase` is modelled on ASCII letters only; other cased letters are kept as they are.
- Strings.LexLess: JavaScript compares strings by UTF-16 code units; here it compares Dafny characters.
- Api.ConnectTwilio: the token's length counts Dafny characters, while `token.length` counts UTF-16 code units, so a token of five characters outside the Basic Multilingual Plane, accepted by the source, is refused here.
- ClientList.Tally: the page keys a plain object by phone. A phone such as "constructor" or "__proto__" finds an inherited property there, so the source creates no client for it. The model's map treats every phone as a fresh key.
- AppointmentList.GroupByDate: the page keys a plain object by date. A date such as "constructor" finds an inherited property, and the source's `.push` then throws. The model's map treats every date as a fresh key.
- AppointmentList.SortedDates: sorts dates as strings, newest first. The page sorts by `new Date(d).getTime()`, which agrees for the stored "yyyy-MM-dd" dates. Dates that `Date` cannot parse are not modelled.
- CalendarView: `Date` arithmetic is not modelled. The weekday of the 1st, the month's length and today's year, month and day are arguments.
- CalendarView.NormalizeMonth: only the month and year of the `new Date(year, month, 1)` roll-over are modelled.
- BookingWizard: the hard-coded business and service catalogue of the booking page, its date formatting and locale, and its animations are left out. `Offer` stands for a catalogue entry.
- UI rendering, form validation, the authentication context, route guards, `getInitials`, the clipboard and `window.open` are outside this model.
