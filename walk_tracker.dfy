/** The walk tracker screen (src/components/WalkTracker.jsx): the `m:ss` clock, the bone reward
    for a finished walk, and saving the walk, its ledger entry and the wallet credit. */
module WalkTracker {
  import opened Common
  import opened Text
  import opened Store
  import opened WalkSession

  /** The text before the colon, three characters from the end, is all digits and reads as
      `q`. */
  predicate ShowsMinutes(r: string, q: nat) {
    |r| >= 4 && r[|r| - 3] == ':' && AllDigits(r[..|r| - 3]) && ParseNat(r[..|r| - 3]) == q
  }

  /** The last two characters are digits and read as `rem`. */
  predicate ShowsSeconds(r: string, rem: nat) {
    |r| >= 2 && AllDigits(r[|r| - 2..]) && ParseNat(r[|r| - 2..]) == rem
  }

  /** `formatTime`: whole minutes, a colon, and the remaining seconds padded to two digits. */
  function FormatClock(seconds: nat): (r: string)
    ensures ShowsMinutes(r, seconds / 60)
    ensures ShowsSeconds(r, seconds % 60)
  {
    assert |PadStart(NatToString(seconds % 60), 2, '0')| == 2 by { NatToStringShort(seconds % 60); }
    ClockMinutes(seconds / 60, PadStart(NatToString(seconds % 60), 2, '0'));
    ClockSeconds(NatToString(seconds / 60), seconds % 60);
    Join(NatToString(seconds / 60), PadStart(NatToString(seconds % 60), 2, '0'))
  }

  /** Minutes and seconds texts around a colon. */
  function Join(m: string, p: string): string {
    m + ":" + p
  }

  /** The part before the colon reads back as the minutes. */
  lemma ClockMinutes(q: nat, p: string)
    requires |p| == 2
    ensures ShowsMinutes(Join(NatToString(q), p), q)
  {
    var m := NatToString(q);
    assert |m| >= 1 && AllDigits(m) && ParseNat(m) == q by { ParseNatToString(q); }
    var r := Join(m, p);
    assert r[..|r| - 3] == m;
  }

  /** The two digits after the colon read back as the seconds. */
  lemma ClockSeconds(m: string, rem: nat)
    requires rem < 60
    ensures ShowsSeconds(Join(m, PadStart(NatToString(rem), 2, '0')), rem)
  {
    var p := PadStart(NatToString(rem), 2, '0');
    assert |p| == 2 && AllDigits(p) && ParseNat(p) == rem by { PaddedSeconds(rem); }
    var r := Join(m, p);
    assert r[|r| - 2..] == p;
  }

  /** The seconds part of the clock: two digits that read back as `rem`. */
  lemma PaddedSeconds(rem: nat)
    requires rem < 60
    ensures var p := PadStart(NatToString(rem), 2, '0');
            |p| == 2 && AllDigits(p) && ParseNat(p) == rem
  {
    NatToStringShort(rem);
    PadDigits(NatToString(rem), 2);
    ParsePadded(rem);
  }

  /** Padding a string of digits with zeros keeps it all digits. */
  lemma PadDigits(s: string, width: nat)
    requires forall i :: 0 <= i < |s| ==> IsDigit(s[i])
    ensures AllDigits(PadStart(s, width, '0'))
  {
    var p := PadStart(s, width, '0');
    forall i | 0 <= i < |p| ensures IsDigit(p[i]) {
      if i >= |p| - |s| {
        assert p[i] == p[|p| - |s|..][i - (|p| - |s|)];
      }
    }
  }

  /** Reads an `m:ss` clock back as a number of seconds. */
  function ParseClock(t: string): nat {
    if |t| < 4 then 0 else 60 * ParseNat(t[..|t| - 3]) + ParseNat(t[|t| - 2..])
  }

  /** Two digits, the first possibly a padding zero, read back as their value. */
  lemma ParsePadded(n: nat)
    requires n < 60
    ensures ParseNat(PadStart(NatToString(n), 2, '0')) == n
  {
    if n < 10 {
      var d := DigitChar(n);
      assert NatToString(n) == [d];
      var p := ['0', d];
      assert PadStart([d], 2, '0') == p;
      assert p[..1] == ['0'];
      assert ParseNat(['0']) == 0 by { assert ['0'][..0] == []; }
      assert DigitValue(d) == n;
    } else {
      NatToStringShort(n);
      ParseNatToString(n);
    }
  }

  /** The clock loses nothing: reading it back gives the seconds it shows. */
  lemma FormatClockRoundTrip(seconds: nat)
    ensures ParseClock(FormatClock(seconds)) == seconds
  {
    var r := FormatClock(seconds);
    ReadClock(r, seconds);
  }

  /** A clock showing the minutes and seconds of `seconds` reads back as `seconds`. */
  lemma ReadClock(r: string, seconds: nat)
    requires ShowsMinutes(r, seconds / 60) && ShowsSeconds(r, seconds % 60)
    ensures ParseClock(r) == seconds
  {
  }

  /** Walks up to this many metres earn nothing. */
  const MinRewardedMeters: int := 100
  /** The floor on a rewarded walk. */
  const MinBones: int := 5

  /** The reward for a walk of `d` (rounded) metres: nothing up to 100 m; above it, 20 bones per
      kilometre rounded to the nearest bone, but never fewer than 5. */
  function WalkBones(d: int): (b: int)
    ensures d <= MinRewardedMeters ==> b == 0
    ensures d > MinRewardedMeters ==> b >= MinBones
  {
    if d > MinRewardedMeters then Max(MinBones, Round(d as real / 1000.0 * 20.0)) else 0
  }

  /** The reward in integer terms: `max(5, (d + 25) div 50)` above 100 m, that is one bone per
      50 m rounded half up, with 5 as a floor (not 5 on top of the distance bones). */
  lemma WalkBonesInteger(d: int)
    ensures d > MinRewardedMeters ==> WalkBones(d) == Max(MinBones, (d + 25) / 50)
  {
    if d > MinRewardedMeters {
      var x := d as real / 1000.0 * 20.0;
      assert x == d as real / 50.0;
      var q := (d + 25) / 50;
      assert q * 50 <= d + 25 < q * 50 + 50;
      assert q as real <= x + 0.5 < q as real + 1.0;
    }
  }

  /** A longer walk never earns fewer bones. */
  lemma WalkBonesMonotone(d1: int, d2: int)
    requires d1 <= d2
    ensures WalkBones(d1) <= WalkBones(d2)
  {
    WalkBonesInteger(d1);
    WalkBonesInteger(d2);
  }

  /** 1 km earns 20 bones; 200 m earns the floor of 5 (4 by the rate); 100 m earns nothing. */
  lemma WalkBonesExamples()
    ensures WalkBones(1000) == 20 && WalkBones(200) == 5 && WalkBones(100) == 0
    ensures WalkBones(125) == 5 && WalkBones(1430) == 29
  {
    WalkBonesInteger(1000);
    WalkBonesInteger(200);
    WalkBonesInteger(125);
    WalkBonesInteger(1430);
  }

  /** Which of the save's requests fail. */
  datatype PersistFaults = PersistFaults(walkFails: bool, ledgerFails: bool,
                                         walletReadFails: bool, walletWriteFails: bool)

  /** The save in `handleEnd`: insert the walk; only if that succeeded, the `walk_earn` ledger
      entry; only if that succeeded, the wallet read-then-write. Nothing without a user. */
  function PersistWalk(db: Db, user: Option<UserId>, summary: Summary, bones: int,
                       walkId: string, faults: PersistFaults): (db': Db)
    ensures db'.drops == db.drops && db'.coupons == db.coupons
    ensures user.None? || faults.walkFails ==> db' == db
    ensures user.Some? && !faults.walkFails ==>
              db'.walks == db.walks + [WalkRow(walkId, user.value, summary.startedAt, summary.endedAt,
                                               summary.distanceMeters, summary.durationSeconds,
                                               bones, summary.path)]
    ensures user.Some? && !faults.walkFails && faults.ledgerFails ==>
              db'.ledger == db.ledger && db'.wallets == db.wallets
    ensures user.Some? && !faults.walkFails && !faults.ledgerFails ==>
              db'.ledger == db.ledger + [LedgerEntry(user.value, bones, WalkEarn, WalkRef(walkId))]
              && db'.wallets == CreditWallet(db.wallets, user.value, bones,
                                             faults.walletReadFails, faults.walletWriteFails)
  {
    if user.None? || faults.walkFails then db
    else
      var u := user.value;
      var row := WalkRow(walkId, u, summary.startedAt, summary.endedAt, summary.distanceMeters,
                         summary.durationSeconds, bones, summary.path);
      var db1 := db.(walks := db.walks + [row]);
      if faults.ledgerFails then db1
      else
        var db2 := db1.(ledger := AppendLedger(db1.ledger, LedgerEntry(u, bones, WalkEarn, WalkRef(walkId)), false));
        db2.(wallets := CreditWallet(db2.wallets, u, bones, faults.walletReadFails, faults.walletWriteFails))
  }

  /** A fully saved walk leaves the user's balance higher by exactly the bones the walk earned,
      and the ledger's newest entry records the same amount; a wallet is created if missing. */
  lemma PersistWalkCredits(db: Db, user: UserId, summary: Summary, walkId: string)
    ensures var bones := WalkBones(summary.distanceMeters);
            var db' := PersistWalk(db, Some(user), summary, bones, walkId, PersistFaults(false, false, false, false));
            && user in db'.wallets && db'.wallets[user] == Balance(db.wallets, user) + bones
            && db'.ledger[|db'.ledger| - 1].amount == bones && db'.ledger[|db'.ledger| - 1].kind == WalkEarn
            && db'.walks[|db'.walks| - 1].bonesEarned == bones
  {
  }

  /** `handleEnd`: end the session, compute the reward from the rounded distance, save. */
  method HandleEnd(s: Session, now: int, db: Db, user: Option<UserId>, walkId: string,
                   faults: PersistFaults)
    returns (summary: Summary, bones: int, db': Db)
    requires s.Valid()
    modifies s
    ensures s.Valid() && !s.isWalking
    ensures summary == Summary(old(s.startTime), now, Round(old(s.distanceMeters)),
                               old(s.elapsedSeconds), old(s.coords))
    ensures bones == WalkBones(summary.distanceMeters)
    ensures db' == PersistWalk(db, user, summary, bones, walkId, faults)
  {
    summary := s.End(now);
    bones := WalkBones(summary.distanceMeters);
    db' := PersistWalk(db, user, summary, bones, walkId, faults);
  }
}
