/**
 * The crowd-sourced public-spot tracker of the client
 * (client/src/lib/publicParkingService.ts).
 *
 * Two keyed tables live in one service object: the reported spots by id and
 * the reliability ledger by user id.  A report creates an `Available` spot and
 * bumps the reporter's report counter; a deferred callback (here `Expire`)
 * later turns a still-available spot `Uncertain`; a confirmation marks the spot
 * `Occupied`, credits the original reporter and recomputes the reporter's
 * score.  After each ledger update a fixed catalogue of four badges is checked.
 *
 * The clock is the parameter `now` (milliseconds), the spot id the source
 * builds from the coordinates and the clock is the parameter `spotId`, and
 * the great-circle distance is the parameter `distance`.
 */
module PublicParking {
  import opened Wrappers

  type UserId = string
  type SpotId = string

  /** Delay of the deferred available-to-uncertain callback: 10 minutes. */
  const UncertainAfterMs: int := 10 * 60 * 1000
  /** Age past which an occupied spot is dropped when the table is read: 30 minutes. */
  const OccupiedRetentionMs: int := 30 * 60 * 1000
  /** Default radius of the proximity query, in metres. */
  const DefaultRadiusMeters: real := 200.0

  /** Blue stripes (paid) or white stripes (free). */
  datatype ParkingType = Blue | White

  datatype Status = Available | Uncertain | Occupied

  /** Position of a status in the lifecycle available, uncertain, occupied. */
  function Rank(s: Status): nat
  {
    match s
    case Available => 0
    case Uncertain => 1
    case Occupied => 2
  }

  /** One report of a vacated spot. */
  datatype Spot = Spot(
    id: SpotId,
    lat: real,
    lng: real,
    kind: ParkingType,
    status: Status,
    reportedAt: int,
    reportedBy: UserId,
    confirmedBy: seq<UserId>,
    expiresAt: int)

  /** The record a confirmation stores: occupied, with the confirming user appended. */
  function Confirmed(s: Spot, u: UserId): (r: Spot)
    ensures r.status == Occupied && Rank(s.status) <= Rank(r.status)
    ensures |r.confirmedBy| == |s.confirmedBy| + 1
    ensures r.confirmedBy[..|s.confirmedBy|] == s.confirmedBy && r.confirmedBy[|s.confirmedBy|] == u
    ensures r.(status := s.status, confirmedBy := s.confirmedBy) == s
  {
    s.(status := Occupied, confirmedBy := s.confirmedBy + [u])
  }

  // ---------------------------------------------------------------------------
  // Badges

  datatype BadgeId = FirstReport | Reliable | SuperReporter | Perfect {
    /** The identifier string the source stores. */
    function Key(): string
    {
      match this
      case FirstReport => "first_report"
      case Reliable => "reliable"
      case SuperReporter => "super_reporter"
      case Perfect => "perfect"
    }

    /** Display name, description and icon of the catalogue entry. */
    function Name(): string
    {
      match this
      case FirstReport => "Primo Segnalatore"
      case Reliable => "Segnalatore Affidabile"
      case SuperReporter => "Super Segnalatore"
      case Perfect => "Precisione Perfetta"
    }

    function Description(): string
    {
      match this
      case FirstReport => "Hai fatto la tua prima segnalazione!"
      case Reliable => "Hai un tasso di affidabilit\U{E0} dell'80% con almeno 10 segnalazioni"
      case SuperReporter => "Hai fatto 50 segnalazioni!"
      case Perfect => "Hai un tasso di affidabilit\U{E0} del 100% con almeno 20 segnalazioni"
    }

    function Icon(): string
    {
      match this
      case FirstReport => "\U{1F697}"
      case Reliable => "\U{2B50}"
      case SuperReporter => "\U{1F3C6}"
      case Perfect => "\U{1F48E}"
    }
  }

  /** Distinct badges have distinct identifier strings, so a lookup by string finds one badge kind. */
  lemma KeysDistinct()
    ensures forall a: BadgeId, b: BadgeId :: a.Key() == b.Key() ==> a == b
  {
    forall a: BadgeId, b: BadgeId | a.Key() == b.Key() ensures a == b {
      assert a.Key()[0] == b.Key()[0];
      assert a.Key()[|a.Key()| - 1] == b.Key()[|b.Key()| - 1];
    }
  }

  /**
   * An awarded badge.  Name, description and icon are fixed by the id
   * (`id.Name()`, `id.Description()`, `id.Icon()`); `unlockedAt` is the time of the award.
   */
  datatype Badge = Badge(id: BadgeId, unlockedAt: int)

  /** The unlock condition of each catalogue badge. */
  predicate Qualifies(id: BadgeId, totalReports: int, score: int)
    ensures Qualifies(id, totalReports, score) ==> totalReports >= 1
  {
    match id
    case FirstReport => totalReports >= 1
    case Reliable => totalReports >= 10 && score >= 80
    case SuperReporter => totalReports >= 50
    case Perfect => totalReports >= 20 && score == 100
  }

  /**
   * The catalogue's thresholds are monotone: more reports never lose a
   * qualification, and a perfect record with 20 reports also qualifies as
   * reliable.
   */
  lemma QualifiesMonotone(id: BadgeId, t: int, t': int, score: int)
    ensures Qualifies(id, t, score) && t <= t' ==> Qualifies(id, t', score)
    ensures Qualifies(Perfect, t, score) ==> Qualifies(Reliable, t, score) && Qualifies(FirstReport, t, score)
  {
  }

  /** Some badge in the list has this id (the source's `badges.find(b => b.id === id)`). */
  predicate Holds(badges: seq<Badge>, id: BadgeId)
  {
    exists i :: 0 <= i < |badges| && badges[i].id == id
  }

  predicate UniqueIds(badges: seq<Badge>)
  {
    forall i, j :: 0 <= i < j < |badges| ==> badges[i].id != badges[j].id
  }

  lemma HoldsAppend(a: seq<Badge>, b: seq<Badge>, id: BadgeId)
    ensures Holds(a + b, id) <==> Holds(a, id) || Holds(b, id)
  {
    if Holds(a + b, id) {
      var i :| 0 <= i < |a + b| && (a + b)[i].id == id;
      if i >= |a| {
        assert b[i - |a|].id == id;
      }
    }
    if Holds(a, id) {
      var i :| 0 <= i < |a| && a[i].id == id;
      assert (a + b)[i].id == id;
    }
    if Holds(b, id) {
      var i :| 0 <= i < |b| && b[i].id == id;
      assert (a + b)[|a| + i].id == id;
    }
  }

  // ---------------------------------------------------------------------------
  // Reliability ledger

  datatype UserScore = UserScore(
    userId: UserId,
    totalReports: nat,
    confirmedReports: nat,
    reliabilityScore: int,
    badges: seq<Badge>)

  /** The record the source creates for a user it has not seen yet. */
  function FreshScore(u: UserId): (r: UserScore)
    ensures r.userId == u && WellFormed(r)
    ensures r.reliabilityScore == ReliabilityScore(r.totalReports, r.confirmedReports)
  {
    UserScore(u, 0, 0, 100, [])
  }

  /** The stored record of `u`, or a fresh one (the source's `get(u) || {...}`). */
  function LedgerOf(m: map<UserId, UserScore>, u: UserId): (r: UserScore)
    ensures u in m ==> r == m[u]
    ensures u in m && m[u].userId == u ==> r.userId == u
    ensures u !in m ==> r == FreshScore(u) && r.reliabilityScore == 100
    ensures u !in m ==> r.userId == u && r.totalReports == 0 && r.confirmedReports == 0 && r.badges == []
  {
    if u in m then m[u] else FreshScore(u)
  }

  /**
   * The reliability score: `Math.round(confirmed / total * 100)` when there is
   * at least one report, 100 otherwise.  For non-negative operands rounding
   * half up is `floor((200 * confirmed + total) / (2 * total))`.
   */
  function ReliabilityScore(totalReports: nat, confirmedReports: nat): (r: int)
    ensures totalReports == 0 ==> r == 100
    // r is 100 * confirmed / total rounded to the nearest integer, halves upwards:
    // r - 1/2 <= 100 * confirmed / total < r + 1/2
    ensures totalReports > 0 ==>
      2 * totalReports * r - totalReports <= 200 * confirmedReports < 2 * totalReports * r + totalReports
    ensures 0 <= r
    ensures confirmedReports <= totalReports ==> r <= 100
  {
    if totalReports == 0 then 100
    else
      var r := (200 * confirmedReports + totalReports) / (2 * totalReports);
      RoundingBounds(totalReports, confirmedReports, r);
      r
  }

  lemma RoundingBounds(t: nat, c: nat, r: int)
    requires t > 0 && r == (200 * c + t) / (2 * t)
    ensures 2 * t * r - t <= 200 * c < 2 * t * r + t
    ensures 0 <= r
    ensures c <= t ==> r <= 100
  {
    var d := 2 * t;
    var rem := (200 * c + t) % d;
    assert 200 * c + t == d * r + rem && 0 <= rem < d;
    assert d * r == 2 * t * r;
    if c <= t {
      assert d * r < d * 101;
      MulCancel(d, r, 101);
    }
  }

  lemma MulCancel(d: int, x: int, y: int)
    requires d > 0 && d * x < d * y
    ensures x < y
  {
    if y <= x {
      MulLeft(d, y, x);
    }
  }

  lemma MulLeft(d: int, x: int, y: int)
    requires d >= 0 && x <= y
    ensures d * x <= d * y
  {
  }

  /** The rounding property determines the score: no other integer satisfies it. */
  lemma ScoreIsNearest(t: nat, c: nat, k: int)
    requires t > 0
    requires 2 * t * k - t <= 200 * c < 2 * t * k + t
    ensures k == ReliabilityScore(t, c)
  {
    var r := ReliabilityScore(t, c);
    if k < r {
      MulLeft(2 * t, k + 1, r);
    } else if k > r {
      MulLeft(2 * t, r + 1, k);
    }
  }

  /** Worked values: 3 confirmations out of 5 reports give 60, no reports give 100. */
  lemma ScoreExamples()
    ensures ReliabilityScore(5, 3) == 60
    ensures ReliabilityScore(0, 0) == 100
    ensures ReliabilityScore(8, 1) == 13
    ensures ReliabilityScore(1, 2) == 200
  {
  }

  /** The catalogue, in the order the source checks it. */
  const Catalogue: seq<BadgeId> := [FirstReport, Reliable, SuperReporter, Perfect]

  /** A badge for `id` when it qualifies and is not held yet. */
  function Award(s: UserScore, id: BadgeId, now: int): (r: seq<Badge>)
  {
    if Qualifies(id, s.totalReports, s.reliabilityScore) && !Holds(s.badges, id) then [Badge(id, now)] else []
  }

  /** One catalogue entry awards at most one badge, exactly when it qualifies and is not held, stamped with `now`. */
  lemma AwardSpec(s: UserScore, id: BadgeId, now: int)
    ensures |Award(s, id, now)| <= 1
    ensures Award(s, id, now) != [] <==> Qualifies(id, s.totalReports, s.reliabilityScore) && !Holds(s.badges, id)
    ensures Award(s, id, now) != [] ==> Award(s, id, now)[0] == Badge(id, now)
  {
  }

  /** The badges a check appends when it walks `ids`, in that order. */
  function AwardAll(s: UserScore, ids: seq<BadgeId>, now: int): (r: seq<Badge>)
    ensures forall i :: 0 <= i < |r| ==>
      r[i].unlockedAt == now && r[i].id in ids
      && Qualifies(r[i].id, s.totalReports, s.reliabilityScore) && !Holds(s.badges, r[i].id)
    ensures forall id :: id in ids && Qualifies(id, s.totalReports, s.reliabilityScore) && !Holds(s.badges, id) ==> Holds(r, id)
    ensures (forall i, j :: 0 <= i < j < |ids| ==> ids[i] != ids[j]) ==> UniqueIds(r)
  {
    if ids == [] then []
    else
      var head := Award(s, ids[0], now);
      var rest := AwardAll(s, ids[1..], now);
      AwardStep(s, ids, now, head, rest);
      head + rest
  }

  lemma AwardStep(s: UserScore, ids: seq<BadgeId>, now: int, head: seq<Badge>, rest: seq<Badge>)
    requires ids != [] && head == Award(s, ids[0], now)
    requires forall i :: 0 <= i < |rest| ==> rest[i].id in ids[1..]
    requires forall id :: id in ids[1..] && Qualifies(id, s.totalReports, s.reliabilityScore) && !Holds(s.badges, id) ==> Holds(rest, id)
    requires (forall i, j :: 0 <= i < j < |ids| - 1 ==> ids[1..][i] != ids[1..][j]) ==> UniqueIds(rest)
    ensures forall id :: id in ids && Qualifies(id, s.totalReports, s.reliabilityScore) && !Holds(s.badges, id) ==> Holds(head + rest, id)
    ensures (forall i, j :: 0 <= i < j < |ids| ==> ids[i] != ids[j]) ==> UniqueIds(head + rest)
  {
    forall id | id in ids && Qualifies(id, s.totalReports, s.reliabilityScore) && !Holds(s.badges, id)
      ensures Holds(head + rest, id)
    {
      HoldsAppend(head, rest, id);
      if id == ids[0] {
        assert head[0].id == id;
      }
    }
    if forall i, j :: 0 <= i < j < |ids| ==> ids[i] != ids[j] {
      forall i, j | 0 <= i < j < |ids| - 1 ensures ids[1..][i] != ids[1..][j] {
        assert ids[1..][i] == ids[i + 1] && ids[1..][j] == ids[j + 1];
      }
      forall i, j | 0 <= i < j < |head + rest| ensures (head + rest)[i].id != (head + rest)[j].id {
        if i < |head| {
          var x := rest[j - |head|].id;
          assert x in ids[1..];
          var k :| 0 <= k < |ids[1..]| && ids[1..][k] == x;
          assert ids[k + 1] == x;
        }
      }
    }
  }

  lemma CatalogueComplete()
    ensures forall id: BadgeId :: id in Catalogue
  {
    forall id: BadgeId ensures id in Catalogue {
      match id
      case FirstReport => assert Catalogue[0] == id;
      case Reliable => assert Catalogue[1] == id;
      case SuperReporter => assert Catalogue[2] == id;
      case Perfect => assert Catalogue[3] == id;
    }
  }

  /** The badges one check appends, in catalogue order. */
  function NewBadges(s: UserScore, now: int): (r: seq<Badge>)
    ensures forall i :: 0 <= i < |r| ==>
      r[i].unlockedAt == now && Qualifies(r[i].id, s.totalReports, s.reliabilityScore) && !Holds(s.badges, r[i].id)
    ensures forall id :: Qualifies(id, s.totalReports, s.reliabilityScore) && !Holds(s.badges, id) ==> Holds(r, id)
    ensures UniqueIds(r)
  {
    CatalogueComplete();
    AwardAll(s, Catalogue, now)
  }

  /**
   * The source's `checkAndAwardBadges`: appends every catalogue badge that the
   * record now qualifies for and does not hold yet, stamped with `now`.
   */
  function CheckAndAwardBadges(s: UserScore, now: int): (r: UserScore)
    ensures r.(badges := s.badges) == s
    ensures |s.badges| <= |r.badges| && r.badges[..|s.badges|] == s.badges
    ensures forall i :: |s.badges| <= i < |r.badges| ==> r.badges[i].unlockedAt == now
    ensures forall id :: Holds(r.badges, id) <==> Holds(s.badges, id) || Qualifies(id, s.totalReports, s.reliabilityScore)
    ensures UniqueIds(s.badges) ==> UniqueIds(r.badges)
  {
    var added := NewBadges(s, now);
    var r := s.(badges := s.badges + added);
    forall id ensures Holds(r.badges, id) <==> Holds(s.badges, id) || Holds(added, id) {
      HoldsAppend(s.badges, added, id);
    }
    AppendUnique(s.badges, added);
    assert r.badges[..|s.badges|] == s.badges;
    r
  }

  lemma AppendUnique(a: seq<Badge>, b: seq<Badge>)
    requires forall i :: 0 <= i < |b| ==> !Holds(a, b[i].id)
    requires UniqueIds(b)
    ensures UniqueIds(a) ==> UniqueIds(a + b)
  {
    if UniqueIds(a) {
      forall i, j | 0 <= i < j < |a + b| ensures (a + b)[i].id != (a + b)[j].id {
        if i < |a| && j >= |a| {
          assert !Holds(a, b[j - |a|].id);
        }
      }
    }
  }

  /** Checking twice in a row adds nothing the second time, so held badges keep their `unlockedAt`. */
  lemma {:induction false} AwardIdempotent(s: UserScore, now: int, later: int)
    ensures CheckAndAwardBadges(CheckAndAwardBadges(s, now), later) == CheckAndAwardBadges(s, now)
  {
    var r := CheckAndAwardBadges(s, now);
    assert r.totalReports == s.totalReports && r.reliabilityScore == s.reliabilityScore;
    NothingNew(r, later);
  }

  /** A record that already holds every badge it qualifies for gets nothing from a check. */
  lemma NothingNew(r: UserScore, later: int)
    requires forall id :: Qualifies(id, r.totalReports, r.reliabilityScore) ==> Holds(r.badges, id)
    ensures CheckAndAwardBadges(r, later) == r
  {
    var again := NewBadges(r, later);
    assert again == [] || Holds(r.badges, again[0].id);
    assert r.badges + again == r.badges;
  }

  /** A ledger record the service can hold: unique badge ids, and the count-only badges in place. */
  ghost predicate WellFormed(s: UserScore)
  {
    && UniqueIds(s.badges)
    && (s.totalReports >= 1 ==> Holds(s.badges, FirstReport))
    && (s.totalReports >= 50 ==> Holds(s.badges, SuperReporter))
  }

  datatype Action = Leaving | Taken

  /**
   * The source's `updateUserStats` on one record: a `Leaving` report counts one
   * more report, a `Taken` action changes no counter; then badges are checked.
   * The score is not recomputed here.
   */
  function UserStatsAfter(s: UserScore, action: Action, now: int): (r: UserScore)
    ensures r.totalReports == s.totalReports + (if action == Leaving then 1 else 0)
    ensures r.userId == s.userId && r.confirmedReports == s.confirmedReports
    ensures r.reliabilityScore == s.reliabilityScore
    ensures |s.badges| <= |r.badges| && r.badges[..|s.badges|] == s.badges
    ensures forall id :: Holds(r.badges, id) <==> Holds(s.badges, id) || Qualifies(id, r.totalReports, r.reliabilityScore)
    ensures UniqueIds(s.badges) ==> WellFormed(r)
  {
    CheckAndAwardBadges(if action == Leaving then s.(totalReports := s.totalReports + 1) else s, now)
  }

  /**
   * The source's `updateReporterReliability` on one record: a confirmed report
   * counts one more confirmation, the score is recomputed from both counters,
   * then badges are checked.
   */
  function ReporterReliabilityAfter(s: UserScore, wasConfirmed: bool, now: int): (r: UserScore)
    ensures r.confirmedReports == s.confirmedReports + (if wasConfirmed then 1 else 0)
    ensures r.userId == s.userId && r.totalReports == s.totalReports
    ensures r.reliabilityScore == ReliabilityScore(r.totalReports, r.confirmedReports)
    ensures |s.badges| <= |r.badges| && r.badges[..|s.badges|] == s.badges
    ensures forall id :: Holds(r.badges, id) <==> Holds(s.badges, id) || Qualifies(id, r.totalReports, r.reliabilityScore)
    ensures UniqueIds(s.badges) ==> WellFormed(r)
  {
    var counted := if wasConfirmed then s.(confirmedReports := s.confirmedReports + 1) else s;
    CheckAndAwardBadges(counted.(reliabilityScore := ReliabilityScore(counted.totalReports, counted.confirmedReports)), now)
  }

  /** Every record is keyed by its own user and well formed. */
  ghost predicate LedgerValid(scores: map<UserId, UserScore>)
  {
    forall u :: u in scores ==> scores[u].userId == u && WellFormed(scores[u])
  }

  /**
   * The ledger after a confirmation of a spot reported by `reporter`: first the
   * reporter is credited, then the confirming user's stats are updated.
   */
  function AfterConfirm(m: map<UserId, UserScore>, reporter: UserId, confirmer: UserId, now: int): (r: map<UserId, UserScore>)
    ensures r.Keys == m.Keys + {reporter, confirmer}
  {
    var m1 := m[reporter := ReporterReliabilityAfter(LedgerOf(m, reporter), true, now)];
    m1[confirmer := UserStatsAfter(LedgerOf(m1, confirmer), Taken, now)]
  }

  /**
   * What a confirmation does to the counters: the reporter gains one
   * confirmation and a recomputed score, nobody's report count moves, the
   * confirming user's counters stay, everybody else is untouched.
   */
  lemma AfterConfirmCounts(m: map<UserId, UserScore>, reporter: UserId, confirmer: UserId, now: int)
    ensures var r := AfterConfirm(m, reporter, confirmer, now);
      && r.Keys == m.Keys + {reporter, confirmer}
      && r[reporter].confirmedReports == LedgerOf(m, reporter).confirmedReports + 1
      && r[reporter].reliabilityScore == ReliabilityScore(r[reporter].totalReports, r[reporter].confirmedReports)
      && (forall u :: LedgerOf(r, u).totalReports == LedgerOf(m, u).totalReports)
      && (confirmer != reporter ==>
            r[confirmer].confirmedReports == LedgerOf(m, confirmer).confirmedReports
            && r[confirmer].reliabilityScore == LedgerOf(m, confirmer).reliabilityScore)
      && (forall u :: u in m && u != reporter && u != confirmer ==> r[u] == m[u])
  {
    var credited := ReporterReliabilityAfter(LedgerOf(m, reporter), true, now);
    var m1 := m[reporter := credited];
    var stats := UserStatsAfter(LedgerOf(m1, confirmer), Taken, now);
    assert forall u :: LedgerOf(m1, u).totalReports == LedgerOf(m, u).totalReports;
    assert AfterConfirm(m, reporter, confirmer, now) == m1[confirmer := stats];
  }

  /** A confirmation keeps the ledger valid. */
  lemma AfterConfirmValid(m: map<UserId, UserScore>, reporter: UserId, confirmer: UserId, now: int)
    requires LedgerValid(m)
    ensures LedgerValid(AfterConfirm(m, reporter, confirmer, now))
  {
    var credited := ReporterReliabilityAfter(LedgerOf(m, reporter), true, now);
    var m1 := m[reporter := credited];
    var stats := UserStatsAfter(LedgerOf(m1, confirmer), Taken, now);
    LedgerStore(m, reporter, credited);
    LedgerStore(m1, confirmer, stats);
  }

  /** Storing a well-formed record under its own user keeps the ledger valid. */
  lemma LedgerStore(m: map<UserId, UserScore>, u: UserId, s: UserScore)
    ensures LedgerValid(m) && s.userId == u && WellFormed(s) ==> LedgerValid(m[u := s])
  {
  }

  /**
   * Confirming the same single report twice, as the source allows, gives the
   * reporter two confirmations for one report: a score of 200.
   */
  lemma RepeatConfirmationInflatesScore(m: map<UserId, UserScore>, reporter: UserId, confirmer: UserId, now: int)
    requires LedgerOf(m, reporter).totalReports == 1 && LedgerOf(m, reporter).confirmedReports == 0
    ensures AfterConfirm(AfterConfirm(m, reporter, confirmer, now), reporter, confirmer, now)[reporter].reliabilityScore == 200
  {
    var m1 := AfterConfirm(m, reporter, confirmer, now);
    var m2 := AfterConfirm(m1, reporter, confirmer, now);
    AfterConfirmCounts(m, reporter, confirmer, now);
    AfterConfirmCounts(m1, reporter, confirmer, now);
    assert LedgerOf(m1, reporter).totalReports == 1;
    assert LedgerOf(m2, reporter).totalReports == 1;
    assert m2[reporter].confirmedReports == 2;
  }

  /**
   * A first report followed by one confirmation from anyone: the reporter
   * ends with one report, one confirmation, a score of 100 and the
   * first-report badge.
   */
  lemma FirstReportConfirmed(reporter: UserId, confirmer: UserId, reportedAt: int, confirmedAt: int)
    ensures var m := map[reporter := UserStatsAfter(FreshScore(reporter), Leaving, reportedAt)];
      var r := AfterConfirm(m, reporter, confirmer, confirmedAt)[reporter];
      && r.totalReports == 1 && r.confirmedReports == 1 && r.reliabilityScore == 100
      && Holds(r.badges, FirstReport)
  {
    var first := UserStatsAfter(FreshScore(reporter), Leaving, reportedAt);
    assert first.userId == reporter && WellFormed(first);
    var m := map[reporter := first];
    LedgerStore(map[], reporter, first);
    assert LedgerOf(m, reporter) == first;
    AfterConfirmCounts(m, reporter, confirmer, confirmedAt);
    AfterConfirmValid(m, reporter, confirmer, confirmedAt);
  }

  // ---------------------------------------------------------------------------
  // Reading the spot table

  /** An occupied spot reported more than 30 minutes before `now`. */
  predicate Stale(s: Spot, now: int)
  {
    s.status == Occupied && now - s.reportedAt > OccupiedRetentionMs
  }

  /** Staleness only sets in: a spot stale now is stale at every later time. */
  lemma StaleLater(s: Spot, now: int, later: int)
    ensures Stale(s, now) && now <= later ==> Stale(s, later)
    ensures s.status != Occupied ==> !Stale(s, later)
  {
  }

  ghost function StaleKeys(m: map<SpotId, Spot>, now: int): set<SpotId>
  {
    set k | k in m && Stale(m[k], now)
  }

  predicate Distinct(keys: seq<SpotId>)
  {
    forall i, j :: 0 <= i < j < |keys| ==> keys[i] != keys[j]
  }

  /** The non-occupied spots of `m`, taken in the order of `keys`. */
  function ActiveOf(keys: seq<SpotId>, m: map<SpotId, Spot>): (r: seq<Spot>)
    ensures |r| <= |keys|
  {
    if keys == [] then []
    else
      var k := keys[|keys| - 1];
      ActiveOf(keys[..|keys| - 1], m) + (if k in m && m[k].status != Occupied then [m[k]] else [])
  }

  /** `ActiveOf` keeps exactly the non-occupied spots its keys name. */
  lemma {:induction false} ActiveOfMembers(keys: seq<SpotId>, m: map<SpotId, Spot>)
    ensures forall s :: s in ActiveOf(keys, m) ==> s.status != Occupied && exists k :: k in keys && k in m && m[k] == s
    ensures forall k :: k in keys && k in m && m[k].status != Occupied ==> m[k] in ActiveOf(keys, m)
  {
    if keys != [] {
      var init := keys[..|keys| - 1];
      ActiveOfMembers(init, m);
      assert forall j :: j in keys <==> j in init || j == keys[|keys| - 1];
    }
  }

  /** The sequence with every occurrence of `k` removed (deleting a key from the insertion order). */
  function Without(keys: seq<SpotId>, k: SpotId): seq<SpotId>
  {
    if keys == [] then []
    else (if keys[0] == k then [] else [keys[0]]) + Without(keys[1..], k)
  }

  /** The sequence with every member of `gone` removed, order kept. */
  function RemoveAll(keys: seq<SpotId>, gone: set<SpotId>): seq<SpotId>
  {
    if keys == [] then []
    else (if keys[0] in gone then [] else [keys[0]]) + RemoveAll(keys[1..], gone)
  }

  /** `RemoveAll` keeps exactly the keys outside `gone`, and keeps them distinct. */
  lemma {:induction false} RemoveAllMembers(keys: seq<SpotId>, gone: set<SpotId>)
    ensures forall k :: k in RemoveAll(keys, gone) <==> k in keys && k !in gone
    ensures Distinct(keys) ==> Distinct(RemoveAll(keys, gone))
  {
    if keys != [] {
      RemoveAllMembers(keys[1..], gone);
      assert forall j :: j in keys <==> j == keys[0] || j in keys[1..];
      if Distinct(keys) {
        assert Distinct(keys[1..]) by {
          forall i, j | 0 <= i < j < |keys[1..]| ensures keys[1..][i] != keys[1..][j] {
            assert keys[1..][i] == keys[i + 1] && keys[1..][j] == keys[j + 1];
          }
        }
        var r := RemoveAll(keys, gone);
        var rest := RemoveAll(keys[1..], gone);
        forall i, j | 0 <= i < j < |r| ensures r[i] != r[j] {
          if keys[0] !in gone && i == 0 {
            assert r[j] == rest[j - 1] && rest[j - 1] in keys[1..];
          }
        }
      }
    }
  }

  lemma {:induction false} RemoveNothing(keys: seq<SpotId>)
    ensures RemoveAll(keys, {}) == keys
  {
    if keys != [] {
      RemoveNothing(keys[1..]);
    }
  }

  /** Deleting one more key from an order that already lost `gone`. */
  lemma {:induction false} RemoveOneMore(keys: seq<SpotId>, gone: set<SpotId>, k: SpotId)
    ensures Without(RemoveAll(keys, gone), k) == RemoveAll(keys, gone + {k})
  {
    if keys != [] {
      RemoveOneMore(keys[1..], gone, k);
      var head := if keys[0] in gone then [] else [keys[0]];
      WithoutConcat(head, RemoveAll(keys[1..], gone), k);
    }
  }

  lemma {:induction false} WithoutConcat(a: seq<SpotId>, b: seq<SpotId>, k: SpotId)
    ensures Without(a + b, k) == Without(a, k) + Without(b, k)
  {
    if a == [] {
      assert a + b == b;
    } else {
      assert (a + b)[1..] == a[1..] + b;
      WithoutConcat(a[1..], b, k);
    }
  }

  /** The stale spots among `keys`. */
  ghost function StaleIn(keys: seq<SpotId>, m: map<SpotId, Spot>, now: int): set<SpotId>
  {
    if keys == [] then {}
    else
      var k := keys[|keys| - 1];
      StaleIn(keys[..|keys| - 1], m, now) + (if k in m && Stale(m[k], now) then {k} else {})
  }

  lemma {:induction false} StaleInMembers(keys: seq<SpotId>, m: map<SpotId, Spot>, now: int)
    ensures forall k :: k in StaleIn(keys, m, now) <==> k in keys && k in m && Stale(m[k], now)
  {
    if keys != [] {
      var init := keys[..|keys| - 1];
      StaleInMembers(init, m, now);
      assert forall j :: j in keys <==> j in init || j == keys[|keys| - 1];
    }
  }

  /** Walking every key of the table: the result holds exactly its non-occupied spots. */
  lemma ActiveOfAll(keys: seq<SpotId>, m: map<SpotId, Spot>)
    requires forall k :: k in keys <==> k in m
    ensures forall s :: s in ActiveOf(keys, m) <==> s in m.Values && s.status != Occupied
  {
    ActiveOfMembers(keys, m);
    forall s | s in m.Values && s.status != Occupied ensures s in ActiveOf(keys, m) {
      var k :| k in m && m[k] == s;
      assert k in keys;
    }
  }

  /** The spots of `ss` within `radius` of the point, in order (the proximity filter). */
  function Near(ss: seq<Spot>, lat: real, lng: real, radius: real, distance: (real, real, real, real) -> real): (r: seq<Spot>)
    ensures |r| <= |ss|
    ensures forall s :: s in r <==> s in ss && distance(lat, lng, s.lat, s.lng) <= radius
  {
    if ss == [] then []
    else
      var s := ss[|ss| - 1];
      var init := Near(ss[..|ss| - 1], lat, lng, radius, distance);
      assert forall x :: x in ss <==> x in ss[..|ss| - 1] || x == s;
      init + (if distance(lat, lng, s.lat, s.lng) <= radius then [s] else [])
  }

  /** The spot table: every spot keyed by its id, ten-minute expiry, reporter on the ledger, `order` listing the keys once each. */
  ghost predicate SpotsValid(spots: map<SpotId, Spot>, order: seq<SpotId>, scores: map<UserId, UserScore>)
  {
    && (forall k :: k in spots ==>
          spots[k].id == k && spots[k].expiresAt == spots[k].reportedAt + UncertainAfterMs && spots[k].reportedBy in scores)
    && Distinct(order)
    && (forall k :: k in order <==> k in spots)
  }

  /** Evicting the stale spots, from the map and from the key order, keeps the table valid. */
  lemma EvictionKeepsValid(spots: map<SpotId, Spot>, order: seq<SpotId>, scores: map<UserId, UserScore>, now: int)
    requires SpotsValid(spots, order, scores)
    ensures SpotsValid(spots - StaleKeys(spots, now), RemoveAll(order, StaleKeys(spots, now)), scores)
  {
    RemoveAllMembers(order, StaleKeys(spots, now));
  }

  /** The service object with its two tables. */
  class Tracker {
    var spots: map<SpotId, Spot>
    /** The keys of `spots` in insertion order, the order a JavaScript `Map` iterates in. */
    var order: seq<SpotId>
    var scores: map<UserId, UserScore>

    ghost predicate Valid()
      reads this
    {
      SpotsValid(spots, order, scores) && LedgerValid(scores)
    }

    constructor ()
      ensures Valid()
      ensures spots == map[] && order == [] && scores == map[]
    {
      spots := map[];
      order := [];
      scores := map[];
    }

    /** `reportLeavingParking`: store a fresh available spot, count the report, return the id. */
    method ReportLeaving(userId: UserId, lat: real, lng: real, kind: ParkingType, spotId: SpotId, now: int)
      returns (id: SpotId)
      requires Valid()
      modifies this
      ensures Valid()
      ensures id == spotId
      ensures spots == old(spots)[spotId := Spot(spotId, lat, lng, kind, Available, now, userId, [], now + UncertainAfterMs)]
      ensures order == if spotId in old(spots) then old(order) else old(order) + [spotId]
      ensures scores == old(scores)[userId := UserStatsAfter(LedgerOf(old(scores), userId), Leaving, now)]
    {
      var spot := Spot(spotId, lat, lng, kind, Available, now, userId, [], now + UncertainAfterMs);
      if spotId !in spots {
        order := order + [spotId];
      }
      spots := spots[spotId := spot];
      UpdateUserStats(userId, Leaving, now);
      id := spotId;
    }

    /**
     * The deferred callback scheduled by a report: a spot still available
     * becomes uncertain; an occupied, uncertain or deleted one is left alone.
     */
    method Expire(spotId: SpotId)
      requires Valid()
      modifies this`spots
      ensures Valid()
      ensures spotId in old(spots) && old(spots)[spotId].status == Available ==>
        spots == old(spots)[spotId := old(spots)[spotId].(status := Uncertain)]
      ensures !(spotId in old(spots) && old(spots)[spotId].status == Available) ==> spots == old(spots)
      ensures spots.Keys == old(spots).Keys
      ensures forall k :: k in spots ==> Rank(old(spots)[k].status) <= Rank(spots[k].status)
      ensures forall k :: k in spots && spots[k].status == Available ==> spots[k] == old(spots)[k]
    {
      if spotId in spots && spots[spotId].status == Available {
        spots := spots[spotId := spots[spotId].(status := Uncertain)];
      }
    }

    /**
     * `confirmParkingTaken`: an unknown id changes nothing and answers false;
     * otherwise the spot becomes occupied, the reporter is credited and the
     * confirming user's stats are updated.
     */
    method ConfirmParkingTaken(spotId: SpotId, userId: UserId, now: int) returns (found: bool)
      requires Valid()
      modifies this`spots, this`scores
      ensures Valid()
      ensures found <==> spotId in old(spots)
      ensures !found ==> spots == old(spots) && scores == old(scores)
      ensures found ==> spots == old(spots)[spotId := Confirmed(old(spots)[spotId], userId)]
      ensures found ==> scores == AfterConfirm(old(scores), old(spots)[spotId].reportedBy, userId, now)
      ensures forall k :: k in spots ==> k in old(spots) && Rank(old(spots)[k].status) <= Rank(spots[k].status)
    {
      if spotId !in spots {
        return false;
      }
      var spot := spots[spotId];
      spots := spots[spotId := Confirmed(spot, userId)];
      UpdateReporterReliability(spot.reportedBy, true, now);
      UpdateUserStats(userId, Taken, now);
      found := true;
    }

    /** `updateUserStats`: replace the user's record by its updated copy. */
    method UpdateUserStats(userId: UserId, action: Action, now: int)
      requires LedgerValid(scores)
      modifies this`scores
      ensures LedgerValid(scores)
      ensures scores == old(scores)[userId := UserStatsAfter(LedgerOf(old(scores), userId), action, now)]
    {
      var current := LedgerOf(scores, userId);
      scores := scores[userId := UserStatsAfter(current, action, now)];
    }

    /** `updateReporterReliability`: replace the reporter's record by its updated copy. */
    method UpdateReporterReliability(reporterId: UserId, wasConfirmed: bool, now: int)
      requires LedgerValid(scores)
      modifies this`scores
      ensures LedgerValid(scores)
      ensures scores == old(scores)[reporterId := ReporterReliabilityAfter(LedgerOf(old(scores), reporterId), wasConfirmed, now)]
    {
      var score := LedgerOf(scores, reporterId);
      scores := scores[reporterId := ReporterReliabilityAfter(score, wasConfirmed, now)];
    }

    /**
     * `getActiveSpots`: walk a snapshot of the table in insertion order,
     * deleting stale occupied spots and returning the non-occupied ones.
     */
    method GetActiveSpots(now: int) returns (active: seq<Spot>)
      requires Valid()
      modifies this`spots, this`order
      ensures Valid()
      ensures active == ActiveOf(old(order), old(spots))
      ensures forall s :: s in active <==> s in old(spots).Values && s.status != Occupied
      ensures spots == old(spots) - StaleKeys(old(spots), now)
      ensures order == RemoveAll(old(order), StaleKeys(old(spots), now))
      ensures forall k :: k in old(spots) && old(spots)[k].status != Occupied ==> k in spots && spots[k] == old(spots)[k]
    {
      var snapshot := spots;
      var keys := order;
      assert forall j :: 0 <= j < |keys| ==> keys[j] in snapshot && snapshot[keys[j]].id == keys[j];
      active := Sweep(keys, snapshot, now);
      StaleInMembers(keys, snapshot, now);
      assert StaleIn(keys, snapshot, now) == StaleKeys(snapshot, now);
      ActiveOfAll(keys, snapshot);
      EvictionKeepsValid(snapshot, keys, scores, now);
    }

    /**
     * The loop of `getActiveSpots` over the keys `keys` of the table `snapshot`:
     * a stale spot is deleted from the table and from the order, a
     * non-occupied one is collected.
     */
    method Sweep(keys: seq<SpotId>, snapshot: map<SpotId, Spot>, now: int) returns (active: seq<Spot>)
      requires spots == snapshot && order == keys
      requires forall j :: 0 <= j < |keys| ==> keys[j] in snapshot && snapshot[keys[j]].id == keys[j]
      modifies this`spots, this`order
      ensures active == ActiveOf(keys, snapshot)
      ensures spots == snapshot - StaleIn(keys, snapshot, now)
      ensures order == RemoveAll(keys, StaleIn(keys, snapshot, now))
    {
      RemoveNothing(keys);
      active := [];
      var i := 0;
      while i < |keys|
        invariant 0 <= i <= |keys|
        invariant active == ActiveOf(keys[..i], snapshot)
        invariant spots == snapshot - StaleIn(keys[..i], snapshot, now)
        invariant order == RemoveAll(keys, StaleIn(keys[..i], snapshot, now))
      {
        var spot := snapshot[keys[i]];
        var id := spot.id;
        assert keys[..i + 1][..i] == keys[..i];
        ghost var gone := StaleIn(keys[..i], snapshot, now);
        assert StaleIn(keys[..i + 1], snapshot, now) == gone + (if Stale(spot, now) then {id} else {});
        if spot.status == Occupied && now - spot.reportedAt > OccupiedRetentionMs {
          RemoveOneMore(keys, gone, id);
          spots := spots - {id};
          order := Without(order, id);
          assert order == RemoveAll(keys, StaleIn(keys[..i + 1], snapshot, now));
        } else {
          assert StaleIn(keys[..i + 1], snapshot, now) == gone;
          if spot.status != Occupied {
            active := active + [spot];
          }
        }
        i := i + 1;
      }
      assert keys[..i] == keys;
    }

    /** `getUserScore`: the stored record, or nothing for a user never seen. */
    function GetUserScore(userId: UserId): (r: Option<UserScore>)
      reads this
      requires Valid()
      ensures r.None? <==> userId !in scores
      ensures r.Some? ==> r.value == scores[userId] && r.value.userId == userId && WellFormed(r.value)
    {
      if userId in scores then Some(scores[userId]) else None
    }

    /** `getSpotsNearLocation`: the active spots within `radius` metres of the point. */
    method GetSpotsNearLocation(lat: real, lng: real, radius: real, distance: (real, real, real, real) -> real, now: int)
      returns (near: seq<Spot>)
      requires Valid()
      modifies this`spots, this`order
      ensures Valid()
      ensures near == Near(ActiveOf(old(order), old(spots)), lat, lng, radius, distance)
      ensures forall s :: s in near <==> s in old(spots).Values && s.status != Occupied && distance(lat, lng, s.lat, s.lng) <= radius
      ensures spots == old(spots) - StaleKeys(old(spots), now)
      ensures order == RemoveAll(old(order), StaleKeys(old(spots), now))
    {
      var active := GetActiveSpots(now);
      near := Near(active, lat, lng, radius, distance);
    }
  }
}
