/**
 * The server's in-memory store: three tables (users, parking spots, bookings)
 * keyed by integer ids handed out by one counter per table, with create-time
 * defaulting of optional fields and partial updates.
 *
 * A nullable column is an `Option`; a `Partial<T>` update is a patch with one
 * `Option` per field (`None` = the field is not named in the update).  Dates
 * are integer milliseconds passed in by the caller.
 */
module Storage {
  import opened Wrappers

  // ---------------------------------------------------------------------------
  // Records and the two JavaScript defaulting operators

  datatype InsertUser = InsertUser(email: string, name: string, role: string, firebaseUid: string)

  datatype User = User(
    id: int,
    email: string,
    name: string,
    role: string,
    firebaseUid: string,
    createdAt: Option<int>)

  datatype InsertParkingSpot = InsertParkingSpot(
    name: string,
    address: string,
    latitude: string,
    longitude: string,
    pricePerHour: string,
    description: Option<string>,
    features: Option<seq<string>>,
    imageUrls: Option<seq<string>>,
    isAvailable: Option<bool>,
    hostId: Option<int>,
    rating: Option<string>,
    availabilityDays: Option<seq<string>>,
    availabilityStartTime: Option<string>,
    availabilityEndTime: Option<string>,
    isAccessible: Option<bool>)

  datatype ParkingSpot = ParkingSpot(
    id: int,
    name: string,
    address: string,
    latitude: string,
    longitude: string,
    pricePerHour: string,
    description: Option<string>,
    features: Option<seq<string>>,
    imageUrls: Option<seq<string>>,
    isAvailable: Option<bool>,
    hostId: Option<int>,
    rating: Option<string>,
    availabilityDays: Option<seq<string>>,
    availabilityStartTime: Option<string>,
    availabilityEndTime: Option<string>,
    isAccessible: Option<bool>,
    createdAt: Option<int>)

  datatype InsertBooking = InsertBooking(
    parkingSpotId: int,
    guestId: int,
    startTime: int,
    endTime: int,
    totalPrice: string,
    status: Option<string>)

  datatype Booking = Booking(
    id: int,
    parkingSpotId: int,
    guestId: int,
    startTime: int,
    endTime: int,
    totalPrice: string,
    status: string,
    createdAt: Option<int>)

  /** `s || null` on an optional string: the empty string is falsy and becomes null. */
  function StringOrNull(s: Option<string>): (r: Option<string>)
    ensures r.Some? <==> s.Some? && s.value != ""
    ensures r.Some? ==> r == s
  {
    if s.Some? && s.value != "" then s else None
  }

  /** `n || null` on an optional id: zero is falsy and becomes null. */
  function IdOrNull(n: Option<int>): (r: Option<int>)
    ensures r.Some? <==> n.Some? && n.value != 0
    ensures r.Some? ==> r == n
  {
    if n.Some? && n.value != 0 then n else None
  }

  /** `b ?? d`: only a missing value is replaced, `false` is kept. */
  function BoolOr(b: Option<bool>, d: bool): (r: bool)
    ensures b.Some? ==> r == b.value
    ensures b.None? ==> r == d
  {
    b.GetOr(d)
  }

  // ---------------------------------------------------------------------------
  // Creating records

  /** The record `createUser` stores: the insert's fields, the new id and the creation time. */
  function NewUser(id: int, ins: InsertUser, now: int): (r: User)
    ensures r.id == id && r.createdAt == Some(now)
    ensures UserInsertOf(r) == ins
  {
    User(id, ins.email, ins.name, ins.role, ins.firebaseUid, Some(now))
  }

  /** The insert fields of a stored user. */
  function UserInsertOf(u: User): InsertUser
  {
    InsertUser(u.email, u.name, u.role, u.firebaseUid)
  }

  /**
   * The record `createParkingSpot` stores: required fields copied, falsy
   * optional strings and a zero host id made null, arrays kept as given
   * (an empty array is truthy), availability defaulting to true and
   * accessibility to false.
   */
  function NewSpot(id: int, ins: InsertParkingSpot, now: int): (r: ParkingSpot)
    ensures r.id == id && r.createdAt == Some(now)
    ensures r.name == ins.name && r.address == ins.address
    ensures r.latitude == ins.latitude && r.longitude == ins.longitude && r.pricePerHour == ins.pricePerHour
    ensures r.features == ins.features && r.imageUrls == ins.imageUrls && r.availabilityDays == ins.availabilityDays
    ensures r.description == StringOrNull(ins.description) && r.rating == StringOrNull(ins.rating)
    ensures r.availabilityStartTime == StringOrNull(ins.availabilityStartTime)
    ensures r.availabilityEndTime == StringOrNull(ins.availabilityEndTime)
    ensures r.hostId == IdOrNull(ins.hostId)
    ensures r.isAvailable.Some? && r.isAccessible.Some?
    ensures r.isAvailable.value == (ins.isAvailable != Some(false))
    ensures r.isAccessible.value == (ins.isAccessible == Some(true))
  {
    ParkingSpot(
      id, ins.name, ins.address, ins.latitude, ins.longitude, ins.pricePerHour,
      StringOrNull(ins.description),
      ins.features,
      ins.imageUrls,
      Some(BoolOr(ins.isAvailable, true)),
      IdOrNull(ins.hostId),
      StringOrNull(ins.rating),
      ins.availabilityDays,
      StringOrNull(ins.availabilityStartTime),
      StringOrNull(ins.availabilityEndTime),
      Some(BoolOr(ins.isAccessible, false)),
      Some(now))
  }

  /** The insert fields of a stored spot. */
  function SpotInsertOf(s: ParkingSpot): InsertParkingSpot
  {
    InsertParkingSpot(
      s.name, s.address, s.latitude, s.longitude, s.pricePerHour, s.description, s.features,
      s.imageUrls, s.isAvailable, s.hostId, s.rating, s.availabilityDays,
      s.availabilityStartTime, s.availabilityEndTime, s.isAccessible)
  }

  /** An insert that creation stores unchanged: no falsy optional value, both flags given. */
  predicate CanonicalSpot(ins: InsertParkingSpot)
  {
    && (ins.description.Some? ==> ins.description.value != "")
    && (ins.rating.Some? ==> ins.rating.value != "")
    && (ins.availabilityStartTime.Some? ==> ins.availabilityStartTime.value != "")
    && (ins.availabilityEndTime.Some? ==> ins.availabilityEndTime.value != "")
    && (ins.hostId.Some? ==> ins.hostId.value != 0)
    && ins.isAvailable.Some? && ins.isAccessible.Some?
  }

  /** Creation keeps every insert field exactly when the insert is canonical. */
  lemma NewSpotRoundTrip(id: int, ins: InsertParkingSpot, now: int)
    ensures SpotInsertOf(NewSpot(id, ins, now)) == ins <==> CanonicalSpot(ins)
  {
    var r := SpotInsertOf(NewSpot(id, ins, now));
    if r == ins {
      assert StringOrNull(ins.description) == ins.description;
      assert StringOrNull(ins.rating) == ins.rating;
    }
  }

  /** What creation stores is canonical, so storing it again changes nothing but id and date. */
  lemma NewSpotCanonical(id: int, ins: InsertParkingSpot, now: int, id2: int, now2: int)
    ensures CanonicalSpot(SpotInsertOf(NewSpot(id, ins, now)))
    ensures NewSpot(id2, SpotInsertOf(NewSpot(id, ins, now)), now2) == NewSpot(id, ins, now).(id := id2, createdAt := Some(now2))
  {
    NewSpotRoundTrip(id2, SpotInsertOf(NewSpot(id, ins, now)), now2);
  }

  /** The record `createBooking` stores: a missing or empty status becomes "confirmed". */
  function NewBooking(id: int, ins: InsertBooking, now: int): (r: Booking)
    ensures r.id == id && r.createdAt == Some(now)
    ensures r.parkingSpotId == ins.parkingSpotId && r.guestId == ins.guestId
    ensures r.startTime == ins.startTime && r.endTime == ins.endTime && r.totalPrice == ins.totalPrice
    ensures r.status != ""
    ensures ins.status.Some? && ins.status.value != "" ==> r.status == ins.status.value
    ensures ins.status.None? || ins.status.value == "" ==> r.status == "confirmed"
  {
    Booking(
      id, ins.parkingSpotId, ins.guestId, ins.startTime, ins.endTime, ins.totalPrice,
      StringOrNull(ins.status).GetOr("confirmed"), Some(now))
  }

  /** The insert fields of a stored booking. */
  function BookingInsertOf(b: Booking): InsertBooking
  {
    InsertBooking(b.parkingSpotId, b.guestId, b.startTime, b.endTime, b.totalPrice, Some(b.status))
  }

  /** Creation keeps every insert field exactly when a non-empty status is given. */
  lemma NewBookingRoundTrip(id: int, ins: InsertBooking, now: int)
    ensures BookingInsertOf(NewBooking(id, ins, now)) == ins <==> ins.status.Some? && ins.status.value != ""
  {
  }

  // ---------------------------------------------------------------------------
  // Partial updates: `{...record, ...updates}`

  /** One field of a spread: the update's value when it names the field, the old one otherwise. */
  function Override<T>(current: T, update: Option<T>): (r: T)
    ensures update.None? ==> r == current
    ensures update.Some? ==> r == update.value
  {
    update.GetOr(current)
  }

  /** Two updates in a row: the later one wins on every field it names. */
  function Later<T(!new)>(first: Option<T>, second: Option<T>): (r: Option<T>)
    ensures forall v: T :: Override(Override(v, first), second) == Override(v, r)
  {
    if second.Some? then second else first
  }

  datatype UserPatch = UserPatch(
    id: Option<int>,
    email: Option<string>,
    name: Option<string>,
    role: Option<string>,
    firebaseUid: Option<string>,
    createdAt: Option<Option<int>>)

  const NoUserChange := UserPatch(None, None, None, None, None, None)

  /** `{...u, ...updates}`: an update that does not name the id keeps it, an empty update keeps everything. */
  function ApplyUserPatch(u: User, p: UserPatch): (r: User)
    ensures p.id.None? ==> r.id == u.id
    ensures p == NoUserChange ==> r == u
  {
    User(
      Override(u.id, p.id), Override(u.email, p.email), Override(u.name, p.name),
      Override(u.role, p.role), Override(u.firebaseUid, p.firebaseUid), Override(u.createdAt, p.createdAt))
  }

  function ThenUser(p: UserPatch, q: UserPatch): UserPatch
  {
    UserPatch(
      Later(p.id, q.id), Later(p.email, q.email), Later(p.name, q.name),
      Later(p.role, q.role), Later(p.firebaseUid, q.firebaseUid), Later(p.createdAt, q.createdAt))
  }

  /**
   * The spread's laws on users: an empty update is the identity, two updates
   * in a row are one merged update, and so repeating an update changes nothing.
   */
  lemma UserPatchLaws(u: User, p: UserPatch, q: UserPatch)
    ensures ApplyUserPatch(u, NoUserChange) == u
    ensures ApplyUserPatch(ApplyUserPatch(u, p), q) == ApplyUserPatch(u, ThenUser(p, q))
    ensures ApplyUserPatch(ApplyUserPatch(u, p), p) == ApplyUserPatch(u, p)
  {
    assert ThenUser(p, p) == p;
  }

  /** The roles `updateUserRole` accepts. */
  datatype Role = Host | Guest
  {
    function Name(): string
    {
      match this
      case Host => "host"
      case Guest => "guest"
    }
  }

  /** The patch naming only the role. */
  function RolePatch(role: Role): UserPatch
  {
    NoUserChange.(role := Some(role.Name()))
  }

  /** Setting the role changes the role and nothing else. */
  lemma RolePatchOnlyRole(u: User, role: Role)
    ensures ApplyUserPatch(u, RolePatch(role)) == u.(role := role.Name())
    ensures ApplyUserPatch(u, RolePatch(role)).role in {"host", "guest"}
  {
  }

  datatype SpotPatch = SpotPatch(
    id: Option<int>,
    name: Option<string>,
    address: Option<string>,
    latitude: Option<string>,
    longitude: Option<string>,
    pricePerHour: Option<string>,
    description: Option<Option<string>>,
    features: Option<Option<seq<string>>>,
    imageUrls: Option<Option<seq<string>>>,
    isAvailable: Option<Option<bool>>,
    hostId: Option<Option<int>>,
    rating: Option<Option<string>>,
    availabilityDays: Option<Option<seq<string>>>,
    availabilityStartTime: Option<Option<string>>,
    availabilityEndTime: Option<Option<string>>,
    isAccessible: Option<Option<bool>>,
    createdAt: Option<Option<int>>)

  const NoSpotChange := SpotPatch(None, None, None, None, None, None, None, None, None, None, None, None, None, None, None, None, None)

  /** `{...s, ...updates}`: an update that does not name the id keeps it, an empty update keeps everything. */
  function ApplySpotPatch(s: ParkingSpot, p: SpotPatch): (r: ParkingSpot)
    ensures p.id.None? ==> r.id == s.id
    ensures p == NoSpotChange ==> r == s
  {
    ParkingSpot(
      Override(s.id, p.id), Override(s.name, p.name), Override(s.address, p.address),
      Override(s.latitude, p.latitude), Override(s.longitude, p.longitude),
      Override(s.pricePerHour, p.pricePerHour), Override(s.description, p.description),
      Override(s.features, p.features), Override(s.imageUrls, p.imageUrls),
      Override(s.isAvailable, p.isAvailable), Override(s.hostId, p.hostId),
      Override(s.rating, p.rating), Override(s.availabilityDays, p.availabilityDays),
      Override(s.availabilityStartTime, p.availabilityStartTime),
      Override(s.availabilityEndTime, p.availabilityEndTime),
      Override(s.isAccessible, p.isAccessible), Override(s.createdAt, p.createdAt))
  }

  function ThenSpot(p: SpotPatch, q: SpotPatch): SpotPatch
  {
    SpotPatch(
      Later(p.id, q.id), Later(p.name, q.name), Later(p.address, q.address),
      Later(p.latitude, q.latitude), Later(p.longitude, q.longitude),
      Later(p.pricePerHour, q.pricePerHour), Later(p.description, q.description),
      Later(p.features, q.features), Later(p.imageUrls, q.imageUrls),
      Later(p.isAvailable, q.isAvailable), Later(p.hostId, q.hostId),
      Later(p.rating, q.rating), Later(p.availabilityDays, q.availabilityDays),
      Later(p.availabilityStartTime, q.availabilityStartTime),
      Later(p.availabilityEndTime, q.availabilityEndTime),
      Later(p.isAccessible, q.isAccessible), Later(p.createdAt, q.createdAt))
  }

  /** The spread's laws on parking spots. */
  lemma SpotPatchLaws(s: ParkingSpot, p: SpotPatch, q: SpotPatch)
    ensures ApplySpotPatch(s, NoSpotChange) == s
    ensures ApplySpotPatch(ApplySpotPatch(s, p), q) == ApplySpotPatch(s, ThenSpot(p, q))
    ensures ApplySpotPatch(ApplySpotPatch(s, p), p) == ApplySpotPatch(s, p)
  {
    assert ThenSpot(p, p) == p;
  }

  datatype BookingPatch = BookingPatch(
    id: Option<int>,
    parkingSpotId: Option<int>,
    guestId: Option<int>,
    startTime: Option<int>,
    endTime: Option<int>,
    totalPrice: Option<string>,
    status: Option<string>,
    createdAt: Option<Option<int>>)

  const NoBookingChange := BookingPatch(None, None, None, None, None, None, None, None)

  /** `{...b, ...updates}`: an update that does not name the id keeps it, an empty update keeps everything. */
  function ApplyBookingPatch(b: Booking, p: BookingPatch): (r: Booking)
    ensures p.id.None? ==> r.id == b.id
    ensures p == NoBookingChange ==> r == b
  {
    Booking(
      Override(b.id, p.id), Override(b.parkingSpotId, p.parkingSpotId), Override(b.guestId, p.guestId),
      Override(b.startTime, p.startTime), Override(b.endTime, p.endTime),
      Override(b.totalPrice, p.totalPrice), Override(b.status, p.status), Override(b.createdAt, p.createdAt))
  }

  function ThenBooking(p: BookingPatch, q: BookingPatch): BookingPatch
  {
    BookingPatch(
      Later(p.id, q.id), Later(p.parkingSpotId, q.parkingSpotId), Later(p.guestId, q.guestId),
      Later(p.startTime, q.startTime), Later(p.endTime, q.endTime),
      Later(p.totalPrice, q.totalPrice), Later(p.status, q.status), Later(p.createdAt, q.createdAt))
  }

  /** The spread's laws on bookings. */
  lemma BookingPatchLaws(b: Booking, p: BookingPatch, q: BookingPatch)
    ensures ApplyBookingPatch(b, NoBookingChange) == b
    ensures ApplyBookingPatch(ApplyBookingPatch(b, p), q) == ApplyBookingPatch(b, ThenBooking(p, q))
    ensures ApplyBookingPatch(ApplyBookingPatch(b, p), p) == ApplyBookingPatch(b, p)
  {
    assert ThenBooking(p, p) == p;
  }

  // ---------------------------------------------------------------------------
  // Reading a table in insertion order

  /**
   * The values of the keys 1 .. n-1 present in `m`, by ascending key.  Keys
   * are handed out in ascending order and never removed, so this is the
   * insertion order a JavaScript `Map` iterates in.
   */
  function ValuesUpTo<T>(m: map<int, T>, n: int): (r: seq<T>)
    ensures |r| <= if n <= 1 then 0 else n - 1
    decreases n
  {
    if n <= 1 then []
    else ValuesUpTo(m, n - 1) + (if n - 1 in m then [m[n - 1]] else [])
  }

  /** `v` is listed exactly when some key 1 .. n-1 of `m` holds it. */
  lemma {:induction false} ValueListed<T>(m: map<int, T>, n: int, v: T)
    ensures v in ValuesUpTo(m, n) <==> exists k :: 1 <= k < n && k in m && m[k] == v
    decreases n
  {
    if n > 1 {
      ValueListed(m, n - 1, v);
      if v in ValuesUpTo(m, n) {
        if v in ValuesUpTo(m, n - 1) {
          var k :| 1 <= k < n - 1 && k in m && m[k] == v;
          assert 1 <= k < n;
        } else {
          assert 1 <= n - 1 < n && n - 1 in m && m[n - 1] == v;
        }
      }
      if exists k :: 1 <= k < n && k in m && m[k] == v {
        var k :| 1 <= k < n && k in m && m[k] == v;
        if k < n - 1 {
          assert v in ValuesUpTo(m, n - 1);
        }
      }
    }
  }

  /** Some key of `m` holds `v`: `v` is among the table's values. */
  ghost predicate Stored<T>(m: map<int, T>, v: T)
  {
    exists k :: k in m && m[k] == v
  }

  /** A table whose keys are exactly 1 .. n-1 lists all its values. */
  lemma ValuesUpToAll<T>(m: map<int, T>, n: int)
    requires KeysBelow(m, n)
    ensures forall v :: v in ValuesUpTo(m, n) <==> Stored(m, v)
  {
    forall v ensures v in ValuesUpTo(m, n) <==> Stored(m, v) {
      ValueListed(m, n, v);
      if Stored(m, v) {
        var k :| k in m && m[k] == v;
        assert 1 <= k < n;
      }
    }
  }

  /** A table whose keys are exactly 1 .. n-1 lists one value per key. */
  lemma {:induction false} ValuesUpToLength<T>(m: map<int, T>, n: int, j: int)
    requires 1 <= j <= n
    requires forall k :: k in m <==> 1 <= k < n
    ensures |ValuesUpTo(m, j)| == j - 1
    decreases j
  {
    if j > 1 {
      ValuesUpToLength(m, n, j - 1);
    }
  }

  /** The bookings of `bs` made by `guest`, in order (the filter of `getUserBookings`). */
  function GuestBookings(bs: seq<Booking>, guest: int): (r: seq<Booking>)
    ensures |r| <= |bs|
    ensures forall b :: b in r <==> b in bs && b.guestId == guest
  {
    if bs == [] then []
    else
      var last := bs[|bs| - 1];
      assert forall b :: b in bs <==> b in bs[..|bs| - 1] || b == last;
      GuestBookings(bs[..|bs| - 1], guest) + (if last.guestId == guest then [last] else [])
  }

  /** The two ways `find` looks users up. */
  datatype UserKey = ByEmail(email: string) | ByFirebaseUid(uid: string)

  predicate Matches(u: User, key: UserKey)
  {
    match key
    case ByEmail(e) => u.email == e
    case ByFirebaseUid(uid) => u.firebaseUid == uid
  }

  /** The first user with key `from` or above, below `n`, matching `key`. */
  function FirstMatch(m: map<int, User>, key: UserKey, from: int, n: int): (r: Option<User>)
    ensures r.Some? ==> Matches(r.value, key)
    decreases n - from
  {
    if from >= n then None
    else if from in m && Matches(m[from], key) then Some(m[from])
    else FirstMatch(m, key, from + 1, n)
  }

  /**
   * `find` over the users: a result is a stored matching user and every user
   * stored under a smaller key fails to match; no result means no stored user
   * matches.
   */
  lemma {:induction false} FirstMatchSpec(m: map<int, User>, key: UserKey, from: int, n: int)
    ensures var r := FirstMatch(m, key, from, n);
      && (r.Some? ==> exists k :: from <= k < n && k in m && m[k] == r.value && Matches(r.value, key)
                                 && forall j :: from <= j < k && j in m ==> !Matches(m[j], key))
      && (r.None? <==> forall k :: from <= k < n && k in m ==> !Matches(m[k], key))
    decreases n - from
  {
    if from < n && !(from in m && Matches(m[from], key)) {
      FirstMatchSpec(m, key, from + 1, n);
      var r := FirstMatch(m, key, from + 1, n);
      if r.Some? {
        var k :| from + 1 <= k < n && k in m && m[k] == r.value && Matches(r.value, key)
                  && forall j :: from + 1 <= j < k && j in m ==> !Matches(m[j], key);
        assert forall j :: from <= j < k && j in m ==> !Matches(m[j], key);
      }
    }
  }

  /** Over a whole table, `find` answers with a stored matching user, or with nothing when none matches. */
  lemma FirstMatchInTable(m: map<int, User>, key: UserKey, n: int)
    requires KeysBelow(m, n)
    ensures FirstMatch(m, key, 1, n).Some? ==> Stored(m, FirstMatch(m, key, 1, n).value) && Matches(FirstMatch(m, key, 1, n).value, key)
    ensures FirstMatch(m, key, 1, n).None? <==> forall u :: Stored(m, u) ==> !Matches(u, key)
  {
    FirstMatchSpec(m, key, 1, n);
    var r := FirstMatch(m, key, 1, n);
    if r.None? {
      forall u | Stored(m, u) ensures !Matches(u, key) {
        var k :| k in m && m[k] == u;
        assert 1 <= k < n;
      }
    } else {
      var k :| 1 <= k < n && k in m && m[k] == r.value && Matches(r.value, key);
      assert Stored(m, r.value);
    }
  }

  // ---------------------------------------------------------------------------
  // The store

  /** The first seeded spot. */
  const CityHall := InsertParkingSpot(
    "City Hall Parking", "Downtown Plaza", "40.7580", "-73.9855", "3.50",
    Some("Public parking near city center"),
    Some(["Security", "24/7"]),
    Some(["https://images.unsplash.com/photo-1506905925346-21bda4d32df4?ixlib=rb-4.0.3&auto=format&fit=crop&w=800&h=400"]),
    Some(true), None, Some("4.2"),
    Some(["monday", "tuesday", "wednesday", "thursday", "friday"]),
    Some("06:00"), Some("22:00"), Some(true))

  /** The second seeded spot. */
  const MetroLot := InsertParkingSpot(
    "Metro Station Lot", "Transit Center", "40.7614", "-73.9776", "4.00",
    Some("Convenient parking near metro"),
    Some(["Covered", "Electric Charging"]),
    Some(["https://images.unsplash.com/photo-1486325212027-8081e485255e?ixlib=rb-4.0.3&auto=format&fit=crop&w=800&h=400"]),
    Some(true), None, Some("4.5"),
    Some(["monday", "tuesday", "wednesday", "thursday", "friday", "saturday"]),
    Some("07:00"), Some("20:00"), Some(false))

  /** The keys of a table are exactly the ids handed out so far: 1 .. next-1. */
  ghost predicate KeysBelow<T>(m: map<int, T>, next: int)
  {
    1 <= next && forall k :: k in m <==> 1 <= k < next
  }

  class MemStorage {
    var users: map<int, User>
    var spots: map<int, ParkingSpot>
    var bookings: map<int, Booking>
    /** The id the next created record of each table receives. */
    var nextUserId: int
    var nextSpotId: int
    var nextBookingId: int

    ghost predicate Valid()
      reads this
    {
      KeysBelow(users, nextUserId) && KeysBelow(spots, nextSpotId) && KeysBelow(bookings, nextBookingId)
    }

    /** Empty tables, then the two sample spots created with ids 1 and 2. */
    constructor (now: int)
      ensures Valid()
      ensures users == map[] && bookings == map[]
      ensures nextUserId == 1 && nextBookingId == 1 && nextSpotId == 3
      ensures spots == map[1 := NewSpot(1, CityHall, now), 2 := NewSpot(2, MetroLot, now)]
    {
      users := map[];
      spots := map[];
      bookings := map[];
      nextUserId := 1;
      nextSpotId := 1;
      nextBookingId := 1;
      new;
      var _ := CreateParkingSpot(CityHall, now);
      var _ := CreateParkingSpot(MetroLot, now);
    }

    /** `getUser`: a plain lookup. */
    function GetUser(id: int): (r: Option<User>)
      reads this
      ensures r.Some? <==> id in users
      ensures r.Some? ==> r.value == users[id]
    {
      if id in users then Some(users[id]) else None
    }

    /** The first user, in insertion order, matching `key`. */
    method FindUser(key: UserKey) returns (r: Option<User>)
      requires Valid()
      ensures r == FirstMatch(users, key, 1, nextUserId)
      ensures r.Some? ==> Stored(users, r.value) && Matches(r.value, key)
      ensures r.None? <==> forall u :: Stored(users, u) ==> !Matches(u, key)
    {
      FirstMatchInTable(users, key, nextUserId);
      var i := 1;
      while i < nextUserId
        invariant 1 <= i <= nextUserId
        invariant FirstMatch(users, key, i, nextUserId) == FirstMatch(users, key, 1, nextUserId)
      {
        if Matches(users[i], key) {
          return Some(users[i]);
        }
        i := i + 1;
      }
      return None;
    }

    /** `getUserByUsername`: the username is matched against the email. */
    method GetUserByUsername(username: string) returns (r: Option<User>)
      requires Valid()
      ensures r == FirstMatch(users, ByEmail(username), 1, nextUserId)
      ensures r.Some? ==> Stored(users, r.value) && r.value.email == username
      ensures r.None? <==> forall u :: Stored(users, u) ==> u.email != username
    {
      r := FindUser(ByEmail(username));
    }

    /** `getUserByFirebaseUid`. */
    method GetUserByFirebaseUid(firebaseUid: string) returns (r: Option<User>)
      requires Valid()
      ensures r == FirstMatch(users, ByFirebaseUid(firebaseUid), 1, nextUserId)
      ensures r.Some? ==> Stored(users, r.value) && r.value.firebaseUid == firebaseUid
      ensures r.None? <==> forall u :: Stored(users, u) ==> u.firebaseUid != firebaseUid
    {
      r := FindUser(ByFirebaseUid(firebaseUid));
    }

    /** `createUser`: the counter's value becomes the id, then the counter moves on. */
    method CreateUser(ins: InsertUser, now: int) returns (u: User)
      requires Valid()
      modifies this`users, this`nextUserId
      ensures Valid()
      ensures u == NewUser(old(nextUserId), ins, now)
      ensures u.id !in old(users)
      ensures users == old(users)[u.id := u]
      ensures nextUserId == old(nextUserId) + 1
    {
      var id := nextUserId;
      nextUserId := nextUserId + 1;
      u := NewUser(id, ins, now);
      users := users[id := u];
    }

    /** `updateUser`: an unknown id changes nothing; otherwise the spread is stored under the same key. */
    method UpdateUser(id: int, updates: UserPatch) returns (r: Option<User>)
      requires Valid()
      modifies this`users
      ensures Valid()
      ensures id !in old(users) ==> r.None? && users == old(users)
      ensures id in old(users) ==> r == Some(ApplyUserPatch(old(users)[id], updates)) && users == old(users)[id := r.value]
    {
      if id !in users {
        return None;
      }
      var updated := ApplyUserPatch(users[id], updates);
      users := users[id := updated];
      r := Some(updated);
    }

    /** `updateUserRole`: an unknown user gives null; otherwise only the role changes. */
    method UpdateUserRole(userId: int, role: Role) returns (r: Option<User>)
      requires Valid()
      modifies this`users
      ensures Valid()
      ensures userId !in old(users) ==> r.None? && users == old(users)
      ensures userId in old(users) ==> r == Some(old(users)[userId].(role := role.Name())) && users == old(users)[userId := r.value]
    {
      if userId in users {
        var updated := users[userId].(role := role.Name());
        users := users[userId := updated];
        return Some(updated);
      }
      return None;
    }

    /** `getParkingSpot`: a plain lookup. */
    function GetParkingSpot(id: int): (r: Option<ParkingSpot>)
      reads this
      ensures r.Some? <==> id in spots
      ensures r.Some? ==> r.value == spots[id]
    {
      if id in spots then Some(spots[id]) else None
    }

    /** `getAllParkingSpots`: every stored spot, one per key, in insertion order. */
    method GetAllParkingSpots() returns (r: seq<ParkingSpot>)
      requires Valid()
      ensures r == ValuesUpTo(spots, nextSpotId)
      ensures |r| == |spots.Keys|
      ensures forall s :: s in r <==> Stored(spots, s)
    {
      r := [];
      var i := 1;
      while i < nextSpotId
        invariant 1 <= i <= nextSpotId
        invariant r == ValuesUpTo(spots, i)
      {
        r := r + [spots[i]];
        i := i + 1;
      }
      ValuesUpToLength(spots, nextSpotId, nextSpotId);
      ValuesUpToAll(spots, nextSpotId);
      KeyCount(spots, nextSpotId);
    }

    /** `createParkingSpot`: a fresh id and the defaulted record. */
    method CreateParkingSpot(ins: InsertParkingSpot, now: int) returns (s: ParkingSpot)
      requires Valid()
      modifies this`spots, this`nextSpotId
      ensures Valid()
      ensures s == NewSpot(old(nextSpotId), ins, now)
      ensures s.id !in old(spots)
      ensures spots == old(spots)[s.id := s]
      ensures nextSpotId == old(nextSpotId) + 1
    {
      var id := nextSpotId;
      nextSpotId := nextSpotId + 1;
      s := NewSpot(id, ins, now);
      spots := spots[id := s];
    }

    /** `updateParkingSpot`: an unknown id changes nothing; otherwise the spread is stored under the same key. */
    method UpdateParkingSpot(id: int, updates: SpotPatch) returns (r: Option<ParkingSpot>)
      requires Valid()
      modifies this`spots
      ensures Valid()
      ensures id !in old(spots) ==> r.None? && spots == old(spots)
      ensures id in old(spots) ==> r == Some(ApplySpotPatch(old(spots)[id], updates)) && spots == old(spots)[id := r.value]
    {
      if id !in spots {
        return None;
      }
      var updated := ApplySpotPatch(spots[id], updates);
      spots := spots[id := updated];
      r := Some(updated);
    }

    /** `getBooking`: a plain lookup. */
    function GetBooking(id: int): (r: Option<Booking>)
      reads this
      ensures r.Some? <==> id in bookings
      ensures r.Some? ==> r.value == bookings[id]
    {
      if id in bookings then Some(bookings[id]) else None
    }

    /** `getUserBookings`: the stored bookings of one guest, in insertion order. */
    method GetUserBookings(userId: int) returns (r: seq<Booking>)
      requires Valid()
      ensures r == GuestBookings(ValuesUpTo(bookings, nextBookingId), userId)
      ensures forall b :: b in r <==> Stored(bookings, b) && b.guestId == userId
    {
      r := [];
      var i := 1;
      while i < nextBookingId
        invariant 1 <= i <= nextBookingId
        invariant r == GuestBookings(ValuesUpTo(bookings, i), userId)
      {
        var b := bookings[i];
        assert ValuesUpTo(bookings, i + 1) == ValuesUpTo(bookings, i) + [b];
        if b.guestId == userId {
          r := r + [b];
        }
        i := i + 1;
      }
      ValuesUpToAll(bookings, nextBookingId);
    }

    /** `createBooking`: a fresh id and the record with its status defaulted. */
    method CreateBooking(ins: InsertBooking, now: int) returns (b: Booking)
      requires Valid()
      modifies this`bookings, this`nextBookingId
      ensures Valid()
      ensures b == NewBooking(old(nextBookingId), ins, now)
      ensures b.id !in old(bookings)
      ensures bookings == old(bookings)[b.id := b]
      ensures nextBookingId == old(nextBookingId) + 1
    {
      var id := nextBookingId;
      nextBookingId := nextBookingId + 1;
      b := NewBooking(id, ins, now);
      bookings := bookings[id := b];
    }

    /** `updateBooking`: an unknown id changes nothing; otherwise the spread is stored under the same key. */
    method UpdateBooking(id: int, updates: BookingPatch) returns (r: Option<Booking>)
      requires Valid()
      modifies this`bookings
      ensures Valid()
      ensures id !in old(bookings) ==> r.None? && bookings == old(bookings)
      ensures id in old(bookings) ==> r == Some(ApplyBookingPatch(old(bookings)[id], updates)) && bookings == old(bookings)[id := r.value]
    {
      if id !in bookings {
        return None;
      }
      var updated := ApplyBookingPatch(bookings[id], updates);
      bookings := bookings[id := updated];
      r := Some(updated);
    }
  }

  /** A table with keys 1 .. n-1 has n-1 keys. */
  lemma {:induction false} KeyCount<T>(m: map<int, T>, n: int)
    requires KeysBelow(m, n)
    ensures |m.Keys| == n - 1
    decreases n
  {
    if n > 1 {
      var m' := map k | k in m && k != n - 1 :: m[k];
      assert m'.Keys == m.Keys - {n - 1};
      KeyCount(m', n - 1);
    } else {
      assert m.Keys == {};
    }
  }
}
