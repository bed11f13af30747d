/** Daily drop seeding (src/utils/seedBoneDrops.js): building the shared and personal drops near
    the user, clearing expired drops, and the order of the daily reset. Random draws, the next
    midnight and the ids the table assigns are parameters. */
module SeedDrops {
  import opened Common
  import opened Seqs
  import opened Geo
  import opened Store
  import opened BoneDropRules

  /** Parks are looked for within this many miles (about 1 km). */
  const SeedRadiusMiles: real := 0.62
  /** Shared drops are scattered up to half this many degrees from their park. */
  const SharedSpread: real := 0.006
  /** Personal drops are scattered up to half this many degrees from their park. */
  const PersonalSpread: real := 0.001
  const PlaceholderName: string := "Mystery Drop"

  /** The random numbers one drop consumes: two offsets and its bone value, each in [0, 1). */
  datatype Draw = Draw(lat: real, lon: real, value: real)

  predicate ValidDraw(d: Draw) {
    0.0 <= d.lat < 1.0 && 0.0 <= d.lon < 1.0 && 0.0 <= d.value < 1.0
  }

  /** A drop as the seeding code builds it, before the table gives it an id. */
  datatype NewDrop = NewDrop(kind: DropType, pos: Point, locationName: string, boneValue: int,
                             owner: Option<UserId>, expiresAt: int)

  /** A park position moved by `(draw - 0.5) * spread` degrees on each axis. */
  function Scatter(p: Point, d: Draw, spread: real): Point {
    Point(p.lat + (d.lat - 0.5) * spread, p.lon + (d.lon - 0.5) * spread)
  }

  /** The three placeholder spots used when no park is near: all at the user's position. */
  function Placeholders(user: Point): (r: seq<Park>)
    ensures |r| == 3 && forall i :: 0 <= i < |r| ==> r[i].pos == user
  {
    [Park("Nearby Spot", user), Park("Local Corner", user), Park("Hidden Gem", user)]
  }

  /** The parks drops are placed around, and whether they are placeholders. */
  function Candidates(user: Point, dist: Distance): (c: (seq<Park>, bool))
    ensures |c.0| > 0
    ensures c.1 <==> ParksWithinRadius(user, SeedRadiusMiles, dist) == []
    ensures c.1 ==> c.0 == Placeholders(user)
    ensures !c.1 ==> c.0 == ParksWithinRadius(user, SeedRadiusMiles, dist)
  {
    var near := ParksWithinRadius(user, SeedRadiusMiles, dist);
    if |near| == 0 then (Placeholders(user), true) else (near, false)
  }

  /** Drop `i` of the shared batch. */
  function SharedDrop(parks: seq<Park>, placeholder: bool, i: nat, d: Draw, midnight: int)
    : (nd: NewDrop)
    requires |parks| > 0 && ValidDraw(d)
    ensures nd.kind == Shared && nd.owner.None? && nd.expiresAt == midnight
    ensures 20 <= nd.boneValue <= 100
    ensures nd.locationName == if placeholder then PlaceholderName else parks[i % |parks|].name
    ensures nd.pos == Scatter(parks[i % |parks|].pos, d, SharedSpread)
  {
    var park := parks[i % |parks|];
    NewDrop(Shared, Scatter(park.pos, d, SharedSpread),
            if placeholder then PlaceholderName else park.name,
            GenerateBoneValue(Shared, d.value), None, midnight)
  }

  /** The loop of `seedSharedDrops`: `n` drops, drop `i` at park `i mod |parks|`. */
  method SharedBatch(parks: seq<Park>, placeholder: bool, n: nat, draws: seq<Draw>, midnight: int)
    returns (drops: seq<NewDrop>)
    requires |parks| > 0
    requires n <= |draws| && forall i :: 0 <= i < |draws| ==> ValidDraw(draws[i])
    ensures |drops| == n
    ensures forall i :: 0 <= i < n ==> drops[i] == SharedDrop(parks, placeholder, i, draws[i], midnight)
  {
    drops := [];
    for i := 0 to n
      invariant |drops| == i
      invariant forall j :: 0 <= j < i ==> drops[j] == SharedDrop(parks, placeholder, j, draws[j], midnight)
    {
      drops := drops + [SharedDrop(parks, placeholder, i, draws[i], midnight)];
    }
  }

  /** The list `seedSharedDrops` builds: `floor(coin * 2) + 2` drops, drop `i` at park
      `i mod n` of the `n` candidates. */
  method BuildSharedDrops(user: Point, dist: Distance, coin: real, draws: seq<Draw>, midnight: int)
    returns (drops: seq<NewDrop>)
    requires 0.0 <= coin < 1.0
    requires |draws| >= 3 && forall i :: 0 <= i < |draws| ==> ValidDraw(draws[i])
    ensures |drops| == ScaleDraw(coin, 2) + 2 && 2 <= |drops| <= 3
    ensures var c := Candidates(user, dist);
            forall i :: 0 <= i < |drops| ==> drops[i] == SharedDrop(c.0, c.1, i, draws[i], midnight)
  {
    var c := Candidates(user, dist);
    drops := SharedBatch(c.0, c.1, ScaleDraw(coin, 2) + 2, draws, midnight);
  }

  /** With no park within 0.62 miles every shared drop is a 'Mystery Drop' scattered around the
      user's own position; otherwise each is named after a nearby safe park. */
  lemma SharedDropsPlacement(user: Point, dist: Distance, i: nat, d: Draw, midnight: int)
    requires ValidDraw(d)
    ensures var c := Candidates(user, dist);
            var nd := SharedDrop(c.0, c.1, i, d, midnight);
            && (ParksWithinRadius(user, SeedRadiusMiles, dist) == [] ==>
                  nd.locationName == PlaceholderName && nd.pos == Scatter(user, d, SharedSpread))
            && (ParksWithinRadius(user, SeedRadiusMiles, dist) != [] ==>
                  exists p :: p in SafeParks && dist(user, p.pos) <= SeedRadiusMiles * MetersPerMile
                              && nd.locationName == p.name && nd.pos == Scatter(p.pos, d, SharedSpread))
  {
    var c := Candidates(user, dist);
    ParksWithinRadiusExactly(user, SeedRadiusMiles, dist);
    if !c.1 {
      var p := c.0[i % |c.0|];
      assert p in ParksWithinRadius(user, SeedRadiusMiles, dist);
    }
  }

  /** A JavaScript return value: `undefined`, `null` or a value. */
  datatype JsResult<T> = Undefined | Null | Value(value: T)

  /** `seedPersonalDrop` up to its insert: `undefined` without a user id, `null` without a
      nearby park, otherwise a personal drop for that user at a random nearby park. */
  function PersonalDrop(userId: Option<UserId>, user: Point, dist: Distance, rPark: real,
                        d: Draw, midnight: int): (r: JsResult<NewDrop>)
    requires 0.0 <= rPark < 1.0 && ValidDraw(d)
    ensures r.Undefined? <==> !HasUserId(userId)
    ensures r.Null? <==> HasUserId(userId) && ParksWithinRadius(user, SeedRadiusMiles, dist) == []
    ensures r.Value? ==>
              && r.value.kind == Personal && r.value.owner == userId && r.value.expiresAt == midnight
              && 5 <= r.value.boneValue <= 20
              && exists p :: p in ParksWithinRadius(user, SeedRadiusMiles, dist)
                             && r.value.locationName == p.name
                             && r.value.pos == Scatter(p.pos, d, PersonalSpread)
  {
    if !HasUserId(userId) then Undefined
    else
      match RandomPark(ParksWithinRadius(user, SeedRadiusMiles, dist), rPark)
      case None => Null
      case Some(park) =>
        Value(NewDrop(Personal, Scatter(park.pos, d, PersonalSpread), park.name,
                      GenerateBoneValue(Personal, d.value), userId, midnight))
  }

  /** A built drop as the row the table stores under `id`. */
  function ToRow(nd: NewDrop, id: DropId): DropRow {
    DropRow(id, nd.kind, nd.pos, nd.boneValue, nd.expiresAt, None, None, nd.owner, nd.locationName)
  }

  function ToRows(drops: seq<NewDrop>, ids: seq<DropId>): (r: seq<DropRow>)
    requires |ids| >= |drops|
    ensures |r| == |drops| && forall i :: 0 <= i < |r| ==> r[i] == ToRow(drops[i], ids[i])
  {
    seq(|drops|, i requires 0 <= i < |drops| => ToRow(drops[i], ids[i]))
  }

  /** `clearExpiredDrops`: delete every row expiring strictly before now. */
  function ClearExpired(rows: seq<DropRow>, now: int, fails: bool): (r: seq<DropRow>)
  {
    if fails then rows else Filter(rows, (d: DropRow) => !IsDropExpired(d, now))
  }

  /** Clearing keeps exactly the unexpired rows, in order, and is idempotent. */
  lemma ClearExpiredSpec(rows: seq<DropRow>, now: int)
    ensures forall d :: d in ClearExpired(rows, now, false) <==> d in rows && d.expiresAt >= now
    ensures Subseq(ClearExpired(rows, now, false), rows)
    ensures ClearExpired(ClearExpired(rows, now, false), now, false) == ClearExpired(rows, now, false)
  {
    var keep := (d: DropRow) => !IsDropExpired(d, now);
    FilterMembers(rows, keep);
    FilterSubseq(rows, keep);
    FilterIdentity(Filter(rows, keep), keep);
  }

  /** JavaScript truthiness of a coordinate: absent and 0 are false (a real is never NaN). */
  predicate Truthy(x: Option<real>) {
    x.Some? && x.value != 0.0
  }

  /** Which of the reset's three requests fail. */
  datatype ResetFaults = ResetFaults(clearFails: bool, sharedFails: bool, personalFails: bool)

  /** Good drops for the seeded table: shared ones carry no owner and a shared value, personal
      ones belong to the given user and carry a personal value. */
  ghost predicate WellFormedSeeds(added: seq<DropRow>, userId: Option<UserId>) {
    forall i :: 0 <= i < |added| ==>
      (added[i].kind == Shared ==> added[i].owner.None? && 20 <= added[i].boneValue <= 100) &&
      (added[i].kind == Personal ==> HasUserId(userId) && added[i].owner == userId
                                     && 5 <= added[i].boneValue <= 20)
  }

  /** The rows one seeding adds for a user at `user`: unless the shared insert fails, the
      `floor(coin * 2) + 2` shared drops, drop `i` being `SharedDrop` of the candidates stored
      under `ids[i]`; then, when `PersonalDrop` gives a drop and its insert succeeds, that drop
      stored under `ids[3]`; and nothing else. */
  ghost predicate SeededRows(added: seq<DropRow>, user: Point, userId: Option<UserId>,
                             dist: Distance, coin: real, draws: seq<Draw>, rPark: real,
                             personalDraw: Draw, midnight: int, ids: seq<DropId>,
                             sharedFails: bool, personalFails: bool)
    requires 0.0 <= coin < 1.0 && 0.0 <= rPark < 1.0 && ValidDraw(personalDraw)
    requires |draws| >= 3 && forall i :: 0 <= i < |draws| ==> ValidDraw(draws[i])
    requires |ids| >= 4
  {
    var n := if sharedFails then 0 else ScaleDraw(coin, 2) + 2;
    var c := Candidates(user, dist);
    var p := PersonalDrop(userId, user, dist, rPark, personalDraw, midnight);
    && |added| == n + (if p.Value? && !personalFails then 1 else 0)
    && SharedRows(added, c.0, c.1, n, draws, midnight, ids)
    && (p.Value? && !personalFails ==> added[n] == ToRow(p.value, ids[3]))
  }

  /** The first `n` rows are the shared batch over `parks`: row `i` is `SharedDrop` `i` stored
      under `ids[i]`. */
  ghost predicate SharedRows(rows: seq<DropRow>, parks: seq<Park>, placeholder: bool, n: nat,
                             draws: seq<Draw>, midnight: int, ids: seq<DropId>)
    requires |parks| > 0 && n <= |draws| && n <= |ids|
    requires forall i :: 0 <= i < |draws| ==> ValidDraw(draws[i])
  {
    n <= |rows| &&
    forall i :: 0 <= i < n ==> rows[i] == ToRow(SharedDrop(parks, placeholder, i, draws[i], midnight), ids[i])
  }

  /** Appending a row keeps the shared batch at the front. */
  lemma SharedRowsAppend(rows: seq<DropRow>, row: DropRow, parks: seq<Park>, placeholder: bool,
                         n: nat, draws: seq<Draw>, midnight: int, ids: seq<DropId>)
    requires |parks| > 0 && n <= |draws| && n <= |ids|
    requires forall i :: 0 <= i < |draws| ==> ValidDraw(draws[i])
    requires SharedRows(rows, parks, placeholder, n, draws, midnight, ids)
    ensures SharedRows(rows + [row], parks, placeholder, n, draws, midnight, ids)
  {
    var a := rows + [row];
    forall i | 0 <= i < n
      ensures a[i] == ToRow(SharedDrop(parks, placeholder, i, draws[i], midnight), ids[i])
    {
      assert a[i] == rows[i];
    }
  }

  /** The seeding half of the reset, for a user at `user`: the shared batch (2 or 3 rows unless
      its insert fails), then the personal drop when there is a user id and a nearby park. */
  method SeedNear(user: Point, userId: Option<UserId>, dist: Distance, coin: real,
                  draws: seq<Draw>, rPark: real, personalDraw: Draw, midnight: int,
                  ids: seq<DropId>, sharedFails: bool, personalFails: bool)
    returns (added: seq<DropRow>)
    requires 0.0 <= coin < 1.0 && 0.0 <= rPark < 1.0 && ValidDraw(personalDraw)
    requires |draws| >= 3 && forall i :: 0 <= i < |draws| ==> ValidDraw(draws[i])
    requires |ids| >= 4
    ensures |added| <= 4
    ensures !sharedFails ==> |added| >= 2
    ensures WellFormedSeeds(added, userId)
    ensures HasUserId(userId) && !personalFails && ParksWithinRadius(user, SeedRadiusMiles, dist) != [] ==>
              |added| > 0 && added[|added| - 1].kind == Personal
    ensures !HasUserId(userId) || personalFails ==> forall i :: 0 <= i < |added| ==> added[i].kind == Shared
    ensures ParksWithinRadius(user, SeedRadiusMiles, dist) == [] ==>
              forall i :: 0 <= i < |added| ==> added[i].kind == Shared
    ensures FreshRows(added, midnight)
    ensures SeededRows(added, user, userId, dist, coin, draws, rPark, personalDraw, midnight, ids,
                       sharedFails, personalFails)
  {
    var shared := BuildSharedDrops(user, dist, coin, draws, midnight);
    added := if sharedFails then [] else ToRows(shared, ids);
    ghost var c := Candidates(user, dist);
    assert SharedRows(added, c.0, c.1, |added|, draws, midnight, ids);
    var personal := PersonalDrop(userId, user, dist, rPark, personalDraw, midnight);
    if personal.Value? && !personalFails {
      SharedRowsAppend(added, ToRow(personal.value, ids[3]), c.0, c.1, |added|, draws, midnight, ids);
      added := added + [ToRow(personal.value, ids[3])];
    }
    SeededRowsShape(added, user, userId, dist, coin, draws, rPark, personalDraw, midnight, ids,
                    sharedFails, personalFails);
  }

  /** What seeded rows are like: 2 or 3 shared rows unless their insert fails, ownerless with a
      shared value; then at most one personal row, last, the user's, with a personal value, and
      only with a truthy user id and a park nearby; every row live until midnight and
      uncollected. */
  lemma SeededRowsShape(added: seq<DropRow>, user: Point, userId: Option<UserId>, dist: Distance,
                        coin: real, draws: seq<Draw>, rPark: real, personalDraw: Draw,
                        midnight: int, ids: seq<DropId>, sharedFails: bool, personalFails: bool)
    requires 0.0 <= coin < 1.0 && 0.0 <= rPark < 1.0 && ValidDraw(personalDraw)
    requires |draws| >= 3 && forall i :: 0 <= i < |draws| ==> ValidDraw(draws[i])
    requires |ids| >= 4
    requires SeededRows(added, user, userId, dist, coin, draws, rPark, personalDraw, midnight, ids,
                        sharedFails, personalFails)
    ensures |added| <= 4
    ensures !sharedFails ==> |added| >= 2
    ensures WellFormedSeeds(added, userId)
    ensures FreshRows(added, midnight)
    ensures HasUserId(userId) && !personalFails && ParksWithinRadius(user, SeedRadiusMiles, dist) != [] ==>
              |added| > 0 && added[|added| - 1].kind == Personal
    ensures !HasUserId(userId) || personalFails ==> forall i :: 0 <= i < |added| ==> added[i].kind == Shared
    ensures ParksWithinRadius(user, SeedRadiusMiles, dist) == [] ==>
              forall i :: 0 <= i < |added| ==> added[i].kind == Shared
  {
    var n := if sharedFails then 0 else ScaleDraw(coin, 2) + 2;
    var c := Candidates(user, dist);
    var p := PersonalDrop(userId, user, dist, rPark, personalDraw, midnight);
    forall i | 0 <= i < |added|
      ensures added[i].expiresAt == midnight && added[i].collectedBy.None?
      ensures added[i].kind == (if i < n then Shared else Personal)
      ensures added[i].kind == Shared ==> added[i].owner.None? && 20 <= added[i].boneValue <= 100
      ensures added[i].kind == Personal ==>
                HasUserId(userId) && added[i].owner == userId && 5 <= added[i].boneValue <= 20
    {
      if i < n {
        assert added[i] == ToRow(SharedDrop(c.0, c.1, i, draws[i], midnight), ids[i]);
      } else {
        assert p.Value? && !personalFails && i == n;
        assert added[i] == ToRow(p.value, ids[3]);
      }
    }
  }

  /** Every row expires at `midnight` and is not collected yet. */
  predicate FreshRows(rows: seq<DropRow>, midnight: int) {
    forall i :: 0 <= i < |rows| ==> rows[i].expiresAt == midnight && rows[i].collectedBy.None?
  }

  /** `dailyReset`: clear expired drops; then, only when both coordinates are truthy, seed the
      shared drops and, only with a user id, a personal drop. */
  method DailyReset(db: Db, now: int, lat: Option<real>, lon: Option<real>, userId: Option<UserId>,
                    dist: Distance, coin: real, draws: seq<Draw>, rPark: real, personalDraw: Draw,
                    midnight: int, ids: seq<DropId>, faults: ResetFaults)
    returns (db': Db)
    requires 0.0 <= coin < 1.0 && 0.0 <= rPark < 1.0 && ValidDraw(personalDraw)
    requires |draws| >= 3 && forall i :: 0 <= i < |draws| ==> ValidDraw(draws[i])
    requires |ids| >= 4
    ensures db'.wallets == db.wallets && db'.ledger == db.ledger
    ensures db'.walks == db.walks && db'.coupons == db.coupons
    ensures var cleared := ClearExpired(db.drops, now, faults.clearFails);
            && |cleared| <= |db'.drops| <= |cleared| + 4
            && db'.drops[..|cleared|] == cleared
            && WellFormedSeeds(db'.drops[|cleared|..], userId)
            && (!(Truthy(lat) && Truthy(lon)) ==> db'.drops == cleared)
            && (Truthy(lat) && Truthy(lon) && !faults.sharedFails ==> |db'.drops| >= |cleared| + 2)
            && (!HasUserId(userId) ==> forall i :: |cleared| <= i < |db'.drops| ==> db'.drops[i].kind == Shared)
            && (Truthy(lat) && Truthy(lon)
                && ParksWithinRadius(Point(lat.value, lon.value), SeedRadiusMiles, dist) == [] ==>
                  forall i :: |cleared| <= i < |db'.drops| ==> db'.drops[i].kind == Shared)
            && FreshRows(db'.drops[|cleared|..], midnight)
            && (Truthy(lat) && Truthy(lon) ==>
                  SeededRows(db'.drops[|cleared|..], Point(lat.value, lon.value), userId, dist, coin,
                             draws, rPark, personalDraw, midnight, ids, faults.sharedFails,
                             faults.personalFails))
  {
    var cleared := ClearExpired(db.drops, now, faults.clearFails);
    var added: seq<DropRow> := [];
    if Truthy(lat) && Truthy(lon) {
      added := SeedNear(Point(lat.value, lon.value), userId, dist, coin, draws, rPark, personalDraw,
                        midnight, ids, faults.sharedFails, faults.personalFails);
    }
    db' := db.(drops := cleared + added);
    assert db'.drops[..|cleared|] == cleared;
    assert db'.drops[|cleared|..] == added;
  }
}
