# NinjaPark core, modelled in Dafny

This project models two stateful parts of the NinjaPark parking application and proves
properties about them.

**The public-spot tracker** (`public_parking.dfy`, module `PublicParking`) is the client's
crowd-sourced reporting service:

- A user reports that they are leaving an on-street spot. The spot is stored as `Available`
  and the user's report counter goes up.
- A deferred callback turns a still-available spot `Uncertain` after ten minutes.
- A user, possibly the reporter, confirms the spot was taken. The spot becomes `Occupied`, its original reporter
  gains a confirmation, and the reporter's reliability score is recomputed.
- After every ledger update, a fixed catalogue of four badges is checked and missing badges
  are awarded.
- Reading the active spots evicts occupied spots older than thirty minutes. The proximity
  query filters the active spots by distance.

The service object is the class `Tracker`. It has:

- the spot table, as a map;
- the table's key order, since a JavaScript `Map` iterates in insertion order;
- the reliability ledger.

The pure parts are functions with lemmas about them:

- the score formula;
- the badge check;
- the per-record ledger updates;
- the spot-table filters.

**The in-memory store** (`storage.dfy`, module `Storage`) is the server's `MemStorage`. It is
the class `MemStorage`, with three tables (users, parking spots and bookings) and one id counter
per table.

- Creation assigns the counter's value as the id and then increments the counter.
- Creation applies the JavaScript defaulting operators. `x || null` turns empty strings and a
  zero host id into null. `x ?? d` fills in a missing flag.
- Partial updates are the object spread `{...record, ...updates}`, written as a patch with one
  `Option` per field.
- The class invariant says each table's keys are exactly `1 .. next-1`. Keys are handed out in
  ascending order and never removed, so the insertion order the source iterates in is ascending
  key order. The lookups by email or Firebase uid and the booking filter are therefore loops
  over the key range.

`wrappers.dfy` holds the `Option` type.

The clock is an integer parameter `now` in milliseconds everywhere. Other stand-ins:

- The tracker's spot id is the parameter `spotId`.
- The great-circle distance is the function parameter `distance`.
- The ten-minute timer callback is the method `Tracker.Expire`, which the caller invokes.

## Model

| member | source | states |
|---|---|---|
| PublicParking.Confirmed | client/src/lib/publicParkingService.ts:55-59 | a confirmed spot is occupied (status rank never goes down); the confirming user is appended to `confirmedBy`, keeping the earlier entries; every other field is unchanged |
| PublicParking.ReliabilityScore | client/src/lib/publicParkingService.ts:105-108 | 100 with no reports; otherwise the integer nearest to 100·confirmed/total, halves rounded up; never negative, at most 100 while confirmations do not exceed reports |
| PublicParking.ScoreIsNearest | client/src/lib/publicParkingService.ts:105-108 | the rounding property has a single solution, so it determines the score |
| PublicParking.ScoreExamples | client/src/lib/publicParkingService.ts:105-108 | 3 of 5 gives 60, no reports gives 100, 1 of 8 gives 13, 2 of 1 gives 200 |
| PublicParking.KeysDistinct | client/src/lib/publicParkingService.ts:120-153 | the four badge identifier strings are pairwise distinct, so a lookup by id string names one catalogue entry |
| PublicParking.Qualifies | client/src/lib/publicParkingService.ts:118-158 | the catalogue thresholds (1 report; 10 reports and score at least 80; 50 reports; 20 reports and score exactly 100); every badge needs at least one report |
| PublicParking.QualifiesMonotone | client/src/lib/publicParkingService.ts:118-158 | more reports never lose a qualification; a record qualifying for the perfect badge also qualifies for the reliable and first-report badges |
| PublicParking.AwardSpec | client/src/lib/publicParkingService.ts:118-159 | one catalogue check yields at most one badge, exactly when the condition holds and the id is not already held, with id and `unlockedAt` set to now |
| PublicParking.AwardAll | client/src/lib/publicParkingService.ts:114-160 | walking a list of badge ids yields only badges that qualify and are not held, stamped with `now`; every such id in the list yields one; with distinct ids the results have distinct ids |
| PublicParking.CatalogueComplete | client/src/lib/publicParkingService.ts:114-160 | the four checks cover every badge id |
| PublicParking.NewBadges | client/src/lib/publicParkingService.ts:114-160 | one check yields exactly the qualifying badges not yet held, once each, stamped with `now` |
| PublicParking.CheckAndAwardBadges | client/src/lib/publicParkingService.ts:114-162 | only the badge list changes and it only grows at the end; afterwards a badge is held iff it was held or qualifies; new badges carry `now`; unique badge ids stay unique |
| PublicParking.AwardIdempotent | client/src/lib/publicParkingService.ts:114-162 | checking again with no ledger change adds nothing and keeps every `unlockedAt` |
| PublicParking.NothingNew | client/src/lib/publicParkingService.ts:114-162 | a record already holding every badge it qualifies for is left unchanged by a check |
| PublicParking.FreshScore | client/src/lib/publicParkingService.ts:74-80 | the record created for an unseen user carries that user's id, is well formed, and its score 100 agrees with the formula for zero reports |
| PublicParking.LedgerOf | client/src/lib/publicParkingService.ts:74-80 | a stored user's record is returned unchanged; an absent user gets the fresh record with that user's id, zero counters, score 100 and no badges |
| PublicParking.UserStatsAfter | client/src/lib/publicParkingService.ts:73-90 | a leaving report adds one report and a taken action none; confirmations and score are unchanged; badges are checked against the new counts; a record with unique badges becomes well formed |
| PublicParking.ReporterReliabilityAfter | client/src/lib/publicParkingService.ts:92-112 | a confirmed report adds one confirmation; the report count is unchanged; the score is recomputed from both counters; badges are checked against the new score |
| PublicParking.AfterConfirm | client/src/lib/publicParkingService.ts:63-67 | the ledger after a confirmation has exactly the old users plus the reporter and the confirming user |
| PublicParking.AfterConfirmCounts | client/src/lib/publicParkingService.ts:50-71 | after a confirmation the ledger holds the reporter and the confirming user; the reporter gains one confirmation and a recomputed score; nobody's report count moves; a distinct confirming user keeps their counters; every other record is untouched |
| PublicParking.AfterConfirmValid | client/src/lib/publicParkingService.ts:50-71 | a confirmation keeps every ledger record keyed by its user and well formed |
| PublicParking.RepeatConfirmationInflatesScore | client/src/lib/publicParkingService.ts:50-71 | confirming the same single report twice gives the reporter a score of 200 |
| PublicParking.FirstReportConfirmed | client/src/lib/publicParkingService.ts:16-112 | one report followed by one confirmation leaves the reporter with 1 report, 1 confirmation, score 100 and the first-report badge |
| PublicParking.StaleLater | client/src/lib/publicParkingService.ts:168 | a spot stale at some time stays stale later; a spot that is not occupied is never stale |
| PublicParking.ActiveOf | client/src/lib/publicParkingService.ts:166-173 | the filtered list is never longer than the walked key list |
| PublicParking.ActiveOfMembers | client/src/lib/publicParkingService.ts:166-173 | a spot is in the filtered list iff a walked key names it in the table and it is not occupied |
| PublicParking.ActiveOfAll | client/src/lib/publicParkingService.ts:166-173 | walking every key of the table yields exactly the table's non-occupied spots |
| PublicParking.StaleInMembers | client/src/lib/publicParkingService.ts:168-171 | the evicted keys are exactly the walked keys whose spot is occupied and more than 30 minutes old |
| PublicParking.RemoveAllMembers | client/src/lib/publicParkingService.ts:169 | deleting keys from the order keeps exactly the other keys, still without repeats |
| PublicParking.RemoveOneMore | client/src/lib/publicParkingService.ts:169 | deleting keys one at a time is the same as deleting the whole set at once |
| PublicParking.Near | client/src/lib/publicParkingService.ts:180-185 | a spot is kept iff it is in the input and within `radius` of the point; the result is no longer than the input |
| PublicParking.EvictionKeepsValid | client/src/lib/publicParkingService.ts:164-174 | deleting the stale spots from the table and from the key order keeps the table consistent |
| PublicParking.Tracker.constructor | client/src/lib/publicParkingService.ts:6-7 | both tables start empty |
| PublicParking.Tracker.ReportLeaving | client/src/lib/publicParkingService.ts:16-48 | stores an available spot that expires 10 minutes later under the given id; appends the id to the order only when it is new; records one more report for the user; returns the id |
| PublicParking.Tracker.Expire | client/src/lib/publicParkingService.ts:39-44 | an available spot becomes uncertain; a missing or non-available spot is left alone; no key appears or disappears; status never moves backwards |
| PublicParking.Tracker.ConfirmParkingTaken | client/src/lib/publicParkingService.ts:50-71 | false and no change for an unknown id; otherwise true, the spot is confirmed and the ledger is updated as `AfterConfirm`; status never moves backwards |
| PublicParking.Tracker.UpdateUserStats | client/src/lib/publicParkingService.ts:73-90 | replaces the user's record, or a fresh one, by its updated copy; the ledger stays valid |
| PublicParking.Tracker.UpdateReporterReliability | client/src/lib/publicParkingService.ts:92-112 | replaces the reporter's record, or a fresh one, by its updated copy; the ledger stays valid |
| PublicParking.Tracker.Sweep | client/src/lib/publicParkingService.ts:166-173 | walking the keys in order collects the non-occupied spots and deletes the stale ones from the table and from the order |
| PublicParking.Tracker.GetActiveSpots | client/src/lib/publicParkingService.ts:164-174 | returns the non-occupied spots in insertion order, and exactly those; removes exactly the occupied spots older than 30 minutes; every non-occupied spot stays as it was |
| PublicParking.Tracker.GetUserScore | client/src/lib/publicParkingService.ts:176-178 | null for a user with no record; otherwise the stored record, which is keyed by its user and well formed |
| PublicParking.Tracker.GetSpotsNearLocation | client/src/lib/publicParkingService.ts:180-185 | the active spots within the radius, and exactly those; the same eviction as `GetActiveSpots` |
| Storage.StringOrNull | server/storage.ts:134-142 | the logical-or default to null on a string: present exactly when given and non-empty, and then unchanged |
| Storage.IdOrNull | server/storage.ts:138 | the logical-or default to null on an id: present exactly when given and non-zero, and then unchanged |
| Storage.BoolOr | server/storage.ts:137 | the nullish default on a flag: a given flag is kept, even `false`; a missing one becomes the default |
| Storage.NewUser | server/storage.ts:96-105 | the stored user has the new id and the creation time, and gives back exactly the insert's fields |
| Storage.NewSpot | server/storage.ts:125-148 | the stored spot has the new id and the creation time; required fields and arrays are copied; description, rating, both availability times and host are the given value when it is truthy and null otherwise; availability defaults to true and accessibility to false |
| Storage.NewSpotRoundTrip | server/storage.ts:127-145 | creation keeps every insert field iff the insert has no empty optional string, no zero host id and both flags given |
| Storage.NewSpotCanonical | server/storage.ts:127-145 | a stored spot is such an insert, so creating it again changes only id and creation time |
| Storage.NewBooking | server/storage.ts:190-204 | the stored booking copies the insert's fields; its status is never empty and is the given status, or "confirmed" when that is missing or empty |
| Storage.NewBookingRoundTrip | server/storage.ts:192-201 | creation keeps every insert field iff a non-empty status is given |
| Storage.Override | server/storage.ts:111 | a spread field takes the update's value when the update names it, and keeps the old value otherwise |
| Storage.Later | server/storage.ts:111 | two spreads in a row equal one spread in which the later update wins |
| Storage.ApplyUserPatch | server/storage.ts:111 | a user update that does not name `id` keeps the id; an update naming nothing returns the user unchanged |
| Storage.UserPatchLaws | server/storage.ts:107-114 | an empty user update is the identity; two updates compose into one; repeating an update changes nothing |
| Storage.RolePatchOnlyRole | server/storage.ts:215-230 | setting a role changes only the role, to "host" or "guest" |
| Storage.ApplySpotPatch | server/storage.ts:154 | a spot update that does not name `id` keeps the id; an update naming nothing returns the spot unchanged |
| Storage.SpotPatchLaws | server/storage.ts:150-157 | the same three laws for parking-spot updates |
| Storage.ApplyBookingPatch | server/storage.ts:210 | a booking update that does not name `id` keeps the id; an update naming nothing returns the booking unchanged |
| Storage.BookingPatchLaws | server/storage.ts:206-213 | the same three laws for booking updates |
| Storage.ValuesUpTo | server/storage.ts:122 | listing the keys 1 .. n-1 gives at most n-1 values |
| Storage.ValueListed | server/storage.ts:121-123 | a value is listed iff some key in the range holds it |
| Storage.ValuesUpToAll | server/storage.ts:121-123 | for a table with keys `1 .. n-1`, the listing holds exactly the table's values |
| Storage.ValuesUpToLength | server/storage.ts:121-123 | such a table lists one value per key |
| Storage.KeyCount | server/storage.ts:121-123 | a table with keys `1 .. n-1` has n-1 keys |
| Storage.GuestBookings | server/storage.ts:184-188 | keeps a booking iff it is in the input and belongs to the guest; the result is no longer than the input |
| Storage.FirstMatch | server/storage.ts:85-93 | any user returned matches the key |
| Storage.FirstMatchSpec | server/storage.ts:84-94 | `find` returns a stored matching user whose key precedes every other match; it returns nothing iff no user in the range matches |
| Storage.FirstMatchInTable | server/storage.ts:84-94 | over a whole table, a result is a stored matching user, and no result means no stored user matches |
| Storage.MemStorage.constructor | server/storage.ts:33-77 | no users and no bookings; exactly the two sample spots, with ids 1 and 2, built by creation from the listed values; next spot id 3, next user and booking ids 1 |
| Storage.MemStorage.GetUser | server/storage.ts:80-82 | the user stored under the id, or nothing when the id is absent |
| Storage.MemStorage.FindUser | server/storage.ts:84-94 | the first user in insertion order matching the key; a result is a stored matching user; no result iff no stored user matches |
| Storage.MemStorage.GetUserByUsername | server/storage.ts:84-88 | the first stored user whose email equals the username, or nothing iff none has it |
| Storage.MemStorage.GetUserByFirebaseUid | server/storage.ts:90-94 | the first stored user with that Firebase uid, or nothing iff none has it |
| Storage.MemStorage.CreateUser | server/storage.ts:96-105 | the new user gets the counter's value as id, which was not a key yet; it is stored under that id; the counter goes up by one |
| Storage.MemStorage.UpdateUser | server/storage.ts:107-114 | an absent id gives nothing and no change; otherwise the spread is stored under the same key and returned; no other key changes |
| Storage.MemStorage.UpdateUserRole | server/storage.ts:215-230 | a missing user gives null and no change; otherwise only the role changes, and the updated user is stored and returned |
| Storage.MemStorage.GetParkingSpot | server/storage.ts:117-119 | the spot stored under the id, or nothing when the id is absent |
| Storage.MemStorage.GetAllParkingSpots | server/storage.ts:121-123 | every stored spot once, in insertion order: one entry per key, and exactly the stored values |
| Storage.MemStorage.CreateParkingSpot | server/storage.ts:125-148 | the new spot gets the counter's value as id, which was not a key yet, and the defaulted fields; the counter goes up by one |
| Storage.MemStorage.UpdateParkingSpot | server/storage.ts:150-157 | an absent id gives nothing and no change; otherwise the spread is stored under the same key and returned |
| Storage.MemStorage.GetBooking | server/storage.ts:180-182 | the booking stored under the id, or nothing when the id is absent |
| Storage.MemStorage.GetUserBookings | server/storage.ts:184-188 | the guest's bookings in insertion order: a booking is listed iff it is stored and its guest is the user |
| Storage.MemStorage.CreateBooking | server/storage.ts:190-204 | the new booking gets the counter's value as id, which was not a key yet, and its status defaulted; the counter goes up by one |
| Storage.MemStorage.UpdateBooking | server/storage.ts:206-213 | an absent id gives nothing and no change; otherwise the spread is stored under the same key and returned |

## Left out

- The `setTimeout` scheduling of the uncertain transition. `Tracker.Expire` is the callback; when it runs is up to the caller.
- `Date.now()` and `new Date()`. Times are the integer parameter `now`.
- The spot id built from `toFixed(6)` of the coordinates and the clock is a parameter. A repeated id overwrites the stored spot as `Map.set` does.
- The haversine `calculateDistance` is floating-point trigonometry. It is the function parameter `distance`, so its symmetry and zero-on-identical-points properties are not modelled.
- PublicParking.Tracker.GetSpotsNearLocation: the radius is always passed. The source's default of 200 metres is the constant `DefaultRadiusMeters`, which a caller passes explicitly.
- `searchParkingSpots` is a floating-point degree-distance filter over `parseFloat` of decimal strings, and is not modelled.
- `async` / `Promise` wrappers, the singleton `getInstance`, `console.log` and the `try`/`catch` in `updateUserRole` (nothing in its body throws) are not modelled.
- PublicParking.ReliabilityScore: rounds the exact quotient. `Math.round` on a floating-point quotient can land just below a half and round down, e.g. 29 of 200. The model does not reproduce such floating-point artefacts.
- PublicParking.Tracker.GetUserScore: returns the record as a value. The source hands out the live object, and a caller mutating it would change the ledger; that aliasing is not modelled. Likewise, the in-place updates of score objects are modelled as replacing the map entry.
- Input validation of a report (an empty user id, non-finite coordinates) is not modelled: the code performs none, and the model follows the code.
- PublicParking.Tracker.ReportLeaving: a report under an id already in the table resets that spot to `Available`. The status-never-moves-backwards guarantee is proved for `Expire` and `ConfirmParkingTaken` only.
- The score can exceed 100 because the code counts every confirmation of a spot, including repeats; `RepeatConfirmationInflatesScore` exhibits it. The model keeps the code's behaviour; the intended bound of 0–100 is not enforced.
- Partial updates model a field as either absent or set. A field present with the value `undefined` overwrites with `undefined` in JavaScript, and this is not modelled. Neither are extra properties of the update or insert objects outside the record type.
- Storage.NewSpot: the schema's column default `"0"` for `rating` belongs to the relational table, not to `MemStorage`. The model follows `MemStorage`, which stores null for a missing rating.
- Storage.IdOrNull: a `NaN` host id, also falsy in JavaScript, is not modelled; ids are integers.
- The schema's uniqueness of email and Firebase uid is not enforced by `MemStorage` and is not modelled. The lookups return the first match in insertion order.
- Decimal columns (coordinates, prices, rating) are kept as the strings the source stores.
