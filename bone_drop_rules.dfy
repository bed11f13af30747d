/** The bone-drop helper rules (src/utils/boneDrops.js): the list of safe parks, the park radius
    filter, random bone values, random park picks, expiry and the personal-drop time of day.
    Each `Math.random()` draw is a parameter in [0, 1). */
module BoneDropRules {
  import opened Common
  import opened Seqs
  import opened Geo
  import opened Store

  datatype Park = Park(name: string, pos: Point)

  /** Metres in a mile, as the radius filter converts it. */
  const MetersPerMile: real := 1609.34

  /** The thirteen safe parks in Jersey City, Hoboken and New York, in source order. */
  const SafeParks: seq<Park> := [
    Park("Liberty State Park", Point(40.7059, -74.0565)),
    Park("Van Vorst Park", Point(40.7198, -74.0463)),
    Park("Hamilton Park", Point(40.7201, -74.0400)),
    Park("Lincoln Park", Point(40.7328, -74.0756)),
    Park("Pier A Park", Point(40.7353, -74.0297)),
    Park("Church Square Park", Point(40.7422, -74.0307)),
    Park("Elysian Park", Point(40.7451, -74.0258)),
    Park("Battery Park", Point(40.7033, -74.0170)),
    Park("Washington Square Park", Point(40.7308, -73.9973)),
    Park("Union Square Park", Point(40.7359, -73.9911)),
    Park("Madison Square Park", Point(40.7422, -73.9877)),
    Park("Bryant Park", Point(40.7536, -73.9832)),
    Park("Central Park South", Point(40.7678, -73.9718))
  ]

  function WithinMeters(user: Point, meters: real, dist: Distance): Park -> bool {
    (p: Park) => dist(user, p.pos) <= meters
  }

  /** `getParksWithinRadius`: the safe parks at most `radiusMiles` miles from the user. */
  function ParksWithinRadius(user: Point, radiusMiles: real, dist: Distance): (r: seq<Park>)
    ensures forall i :: 0 <= i < |r| ==> dist(user, r[i].pos) <= radiusMiles * MetersPerMile
  {
    Filter(SafeParks, WithinMeters(user, radiusMiles * MetersPerMile, dist))
  }

  /** The radius filter keeps exactly the safe parks within the radius, in their original order. */
  lemma ParksWithinRadiusExactly(user: Point, radiusMiles: real, dist: Distance)
    ensures forall p :: p in ParksWithinRadius(user, radiusMiles, dist) <==>
                        p in SafeParks && dist(user, p.pos) <= radiusMiles * MetersPerMile
    ensures Subseq(ParksWithinRadius(user, radiusMiles, dist), SafeParks)
  {
    var f := WithinMeters(user, radiusMiles * MetersPerMile, dist);
    FilterMembers(SafeParks, f);
    FilterSubseq(SafeParks, f);
  }

  /** `generateBoneValue`: 20..100 bones for a shared drop, 5..20 for any other. */
  function GenerateBoneValue(kind: DropType, r: real): (v: int)
    requires 0.0 <= r < 1.0
    ensures kind == Shared ==> 20 <= v <= 100
    ensures kind != Shared ==> 5 <= v <= 20
  {
    if kind == Shared then ScaleDraw(r, 81) + 20 else ScaleDraw(r, 16) + 5
  }

  /** Every value of the two ranges is drawn by some random number. */
  lemma GenerateBoneValueCovers(kind: DropType, v: int)
    requires kind == Shared ==> 20 <= v <= 100
    requires kind != Shared ==> 5 <= v <= 20
    ensures kind == Shared ==> GenerateBoneValue(kind, (v - 20) as real / 81.0) == v
    ensures kind != Shared ==> GenerateBoneValue(kind, (v - 5) as real / 16.0) == v
  {
    if kind == Shared {
      var r := (v - 20) as real / 81.0;
      assert r * 81.0 == (v - 20) as real;
    } else {
      var r := (v - 5) as real / 16.0;
      assert r * 16.0 == (v - 5) as real;
    }
  }

  /** `getRandomPark`: no park from an empty list, otherwise one of the list's parks. */
  function RandomPark<T>(parks: seq<T>, r: real): (p: Option<T>)
    requires 0.0 <= r < 1.0
    ensures p.None? <==> parks == []
    ensures p.Some? ==> p.value in parks
  {
    if |parks| == 0 then None else Some(parks[ScaleDraw(r, |parks|)])
  }

  /** `isDropExpired`: the expiry instant lies strictly before now. */
  predicate IsDropExpired(drop: DropRow, now: int) {
    drop.expiresAt < now
  }

  /** Expiry is strict: a drop is still live at its own expiry instant. */
  lemma LiveAtExpiry(drop: DropRow)
    ensures !IsDropExpired(drop, drop.expiresAt)
  {
  }

  const MinuteMs: int := 60000
  const HourMs: int := 3600000

  /** The instant `getRandomTimeToday` draws: hour 8..17 and minute 0..59 of the day that
      starts (local midnight) at `dayStart`. */
  function DrawTimeToday(dayStart: int, r1: real, r2: real): (t: int)
    requires 0.0 <= r1 < 1.0 && 0.0 <= r2 < 1.0
    ensures dayStart + 8 * HourMs <= t <= dayStart + 17 * HourMs + 59 * MinuteMs
    ensures (t - dayStart) % MinuteMs == 0
  {
    var hour := ScaleDraw(r1, 10) + 8;
    var minute := ScaleDraw(r2, 60);
    dayStart + hour * HourMs + minute * MinuteMs
  }

  /** `getRandomTimeToday`: the drawn time, or nothing when that time has already passed. */
  function RandomTimeToday(dayStart: int, now: int, r1: real, r2: real): (t: Option<int>)
    requires 0.0 <= r1 < 1.0 && 0.0 <= r2 < 1.0
    ensures t.None? <==> DrawTimeToday(dayStart, r1, r2) < now
    ensures t.Some? ==> t.value == DrawTimeToday(dayStart, r1, r2) && t.value >= now
  {
    var t := DrawTimeToday(dayStart, r1, r2);
    if t < now then None else Some(t)
  }
}
