/** The bone-drop proximity engine (src/hooks/useBoneDrops.js): which drops are shown, which one
    is close enough to collect, and the collection transaction. */
module BoneDrops {
  import opened Common
  import opened Seqs
  import opened Geo
  import opened Store

  /** Drops farther than this, in metres, are not shown. */
  const VisibleRadius: real := 1000.0
  /** At most this many drops are shown. */
  const MaxVisible: nat := 3
  /** A drop this close, in metres, can be collected. */
  const CollectionRadius: real := 30.0

  /** The server-side filter of `fetchDrops`: uncollected and expiring strictly after now. */
  function Eligible(now: int): DropRow -> bool {
    (d: DropRow) => d.collectedBy.None? && d.expiresAt > now
  }

  function Near(user: Point, dist: Distance): DropRow -> bool {
    (d: DropRow) => dist(user, d.pos) <= VisibleRadius
  }

  /** The sort key: distance from the user. */
  function Key(user: Point, dist: Distance): DropRow -> real {
    (d: DropRow) => dist(user, d.pos)
  }

  /** The eligible rows within 1000 m, in table order. */
  function InRadius(table: seq<DropRow>, user: Point, now: int, dist: Distance): seq<DropRow> {
    Filter(Filter(table, Eligible(now)), Near(user, dist))
  }

  /** The list `fetchDrops` stores: the in-radius rows sorted by distance, first three. */
  function Visible(table: seq<DropRow>, user: Point, now: int, dist: Distance): seq<DropRow> {
    Take(SortBy(InRadius(table, user, now, dist), Key(user, dist)), MaxVisible)
  }

  lemma InRadiusMembers(table: seq<DropRow>, user: Point, now: int, dist: Distance)
    ensures forall d :: d in InRadius(table, user, now, dist) <==>
                        d in table && d.collectedBy.None? && d.expiresAt > now
                        && dist(user, d.pos) <= VisibleRadius
  {
    FilterMembers(table, Eligible(now));
    FilterMembers(Filter(table, Eligible(now)), Near(user, dist));
  }

  /** The shown drops: at most three, nearest first, each an uncollected, unexpired row within
      1000 m, as many as there are such rows up to three, and none of the rows left out is
      strictly closer than one shown. */
  lemma VisibleSpec(table: seq<DropRow>, user: Point, now: int, dist: Distance)
    ensures var v := Visible(table, user, now, dist);
      && |v| <= MaxVisible
      && |v| == (if |InRadius(table, user, now, dist)| <= MaxVisible
                 then |InRadius(table, user, now, dist)| else MaxVisible)
      && SortedBy(v, Key(user, dist))
      && (forall d :: d in v ==> d in table && d.collectedBy.None? && d.expiresAt > now
                                 && dist(user, d.pos) <= VisibleRadius)
      && (forall x, e :: x in InRadius(table, user, now, dist) && x !in v && e in v ==>
                           dist(user, e.pos) <= dist(user, x.pos))
  {
    var near := InRadius(table, user, now, dist);
    var key := Key(user, dist);
    var sorted := SortBy(near, key);
    var v := Take(sorted, MaxVisible);
    assert v == Visible(table, user, now, dist);
    InRadiusMembers(table, user, now, dist);
    TakeSortedPrefix(sorted, key, MaxVisible);
    forall d | d in sorted ensures d in near {
      assert d in multiset(sorted);
    }
    forall x | x in near ensures x in sorted {
      assert x in multiset(sorted);
    }
    forall x, e | x in near && x !in v && e in v ensures dist(user, e.pos) <= dist(user, x.pos) {
      assert key(e) <= key(x);
    }
  }

  /** A drop within the collection radius and its distance, as `nearbyDrop` holds it. */
  datatype Nearby = Nearby(drop: DropRow, distance: real)

  /** Index `k` holds the drop the nearest-drop loop settles on: within 30 m, strictly closer
      than every earlier drop and no farther than every later one. */
  ghost predicate IsNearestAt(drops: seq<DropRow>, user: Point, dist: Distance, k: int) {
    && 0 <= k < |drops|
    && dist(user, drops[k].pos) <= CollectionRadius
    && (forall j :: 0 <= j < k ==> dist(user, drops[j].pos) > dist(user, drops[k].pos))
    && (forall j :: k < j < |drops| ==> dist(user, drops[j].pos) >= dist(user, drops[k].pos))
  }

  /** The nearest drop is well defined: ties go to the first. */
  lemma NearestUnique(drops: seq<DropRow>, user: Point, dist: Distance, k1: int, k2: int)
    requires IsNearestAt(drops, user, dist, k1) && IsNearestAt(drops, user, dist, k2)
    ensures k1 == k2
  {
  }

  /** The nearest-drop effect: nothing without a position or drops; otherwise the first drop
      at minimum distance among those within 30 m, if any is. */
  method FindNearest(drops: seq<DropRow>, position: Option<Point>, dist: Distance)
    returns (nearest: Option<Nearby>)
    ensures position.None? || drops == [] ==> nearest.None?
    ensures nearest.None? <==>
              position.None? || forall i :: 0 <= i < |drops| ==> dist(position.value, drops[i].pos) > CollectionRadius
    ensures nearest.Some? ==>
              exists k :: IsNearestAt(drops, position.value, dist, k)
                          && nearest.value == Nearby(drops[k], dist(position.value, drops[k].pos))
  {
    if position.None? || |drops| == 0 {
      return None;
    }
    var user := position.value;
    var best := -1;
    var minDistance: Option<real> := None;
    for i := 0 to |drops|
      invariant -1 <= best < i
      invariant best == -1 <==> minDistance.None?
      invariant best == -1 ==> forall j :: 0 <= j < i ==> dist(user, drops[j].pos) > CollectionRadius
      invariant best >= 0 ==> minDistance == Some(dist(user, drops[best].pos))
      invariant best >= 0 ==> dist(user, drops[best].pos) <= CollectionRadius
      invariant best >= 0 ==> forall j :: 0 <= j < best ==> dist(user, drops[j].pos) > dist(user, drops[best].pos)
      invariant best >= 0 ==> forall j :: best < j < i ==> dist(user, drops[j].pos) >= dist(user, drops[best].pos)
    {
      var d := dist(user, drops[i].pos);
      if d <= CollectionRadius && (minDistance.None? || d < minDistance.value) {
        minDistance := Some(d);
        best := i;
      }
    }
    if best == -1 {
      nearest := None;
    } else {
      assert IsNearestAt(drops, user, dist, best);
      nearest := Some(Nearby(drops[best], dist(user, drops[best].pos)));
    }
  }

  /** Why a collection failed. `AlreadyCollected` exists only in the checked transaction. */
  datatype CollectError = ClaimFailed | DropNotFound | AlreadyCollected

  datatype CollectResult = Collected(bonesEarned: int) | CollectFailed(error: CollectError)

  /** Which of the transaction's requests fail. The wallet and ledger requests do not report
      their failures to the code, so they only decide whether the table changes. */
  datatype CollectFaults = CollectFaults(claimFails: bool, walletReadFails: bool,
                                         walletWriteFails: bool, ledgerFails: bool)

  datatype CollectTx = CollectTx(db: Db, result: CollectResult)

  predicate Claimable(row: DropRow, id: DropId) {
    row.id == id && row.collectedBy.None?
  }

  /** The conditional update: every uncollected row with this id becomes collected by `user`
      at `now`; every other row is left alone. */
  function ClaimRows(rows: seq<DropRow>, id: DropId, user: UserId, now: int): (r: seq<DropRow>)
    ensures |r| == |rows|
    ensures forall i :: 0 <= i < |rows| && Claimable(rows[i], id) ==>
              r[i] == rows[i].(collectedBy := Some(user), collectedAt := Some(now))
    ensures forall i :: 0 <= i < |rows| && !Claimable(rows[i], id) ==> r[i] == rows[i]
  {
    seq(|rows|, i requires 0 <= i < |rows| =>
      if Claimable(rows[i], id) then rows[i].(collectedBy := Some(user), collectedAt := Some(now))
      else rows[i])
  }

  /** The number of rows the conditional update matches. */
  function MatchedRows(rows: seq<DropRow>, id: DropId): nat {
    |Filter(rows, (row: DropRow) => Claimable(row, id))|
  }

  lemma MatchedRowsZero(rows: seq<DropRow>, id: DropId)
    ensures MatchedRows(rows, id) == 0 <==> forall i :: 0 <= i < |rows| ==> !Claimable(rows[i], id)
  {
    FilterEmpty(rows, (row: DropRow) => Claimable(row, id));
  }

  /** After the update no row with this id is still claimable. */
  lemma ClaimRowsExhausts(rows: seq<DropRow>, id: DropId, user: UserId, now: int)
    ensures MatchedRows(ClaimRows(rows, id, user, now), id) == 0
  {
    MatchedRowsZero(ClaimRows(rows, id, user, now), id);
  }

  function HasId(id: DropId): DropRow -> bool {
    (d: DropRow) => d.id == id
  }

  /** The credit and ledger steps after a claim, using the locally held drop's value. */
  function Credit(db: Db, local: seq<DropRow>, id: DropId, user: UserId, faults: CollectFaults)
    : (tx: CollectTx)
    ensures tx.db.drops == db.drops && tx.db.walks == db.walks && tx.db.coupons == db.coupons
    ensures tx.result.Collected? <==> exists i :: 0 <= i < |local| && local[i].id == id
    ensures tx.result.CollectFailed? ==> tx == CollectTx(db, CollectFailed(DropNotFound))
    ensures tx.result.Collected? ==>
              var drop := Find(local, HasId(id)).value;
              && drop in local && drop.id == id
              && tx.result.bonesEarned == drop.boneValue
              && tx.db.wallets == CreditWallet(db.wallets, user, drop.boneValue,
                                              faults.walletReadFails, faults.walletWriteFails)
              && tx.db.ledger == (if faults.ledgerFails then db.ledger
                                  else db.ledger + [LedgerEntry(user, drop.boneValue, DropCollect,
                                                                DropRef(id, drop.kind))])
  {
    match Find(local, HasId(id))
    case None => CollectTx(db, CollectFailed(DropNotFound))
    case Some(drop) =>
      var entry := LedgerEntry(user, drop.boneValue, DropCollect, DropRef(id, drop.kind));
      var wallets := CreditWallet(db.wallets, user, drop.boneValue,
                                  faults.walletReadFails, faults.walletWriteFails);
      CollectTx(db.(wallets := wallets, ledger := AppendLedger(db.ledger, entry, faults.ledgerFails)),
                Collected(drop.boneValue))
  }

  /** `collectDrop`'s requests as written: the claim's outcome is checked for an error only,
      never for the number of rows it matched. */
  function CollectTxAsWritten(db: Db, local: seq<DropRow>, id: DropId, user: UserId, now: int,
                             faults: CollectFaults): (tx: CollectTx)
    ensures faults.claimFails ==> tx == CollectTx(db, CollectFailed(ClaimFailed))
    ensures !faults.claimFails ==>
              (tx.result.Collected? <==> exists i :: 0 <= i < |local| && local[i].id == id)
    ensures !faults.claimFails ==> tx.db.drops == ClaimRows(db.drops, id, user, now)
    ensures tx.db.walks == db.walks && tx.db.coupons == db.coupons
    ensures tx.result.Collected? ==>
              var drop := Find(local, HasId(id)).value;
              && drop in local && drop.id == id
              && tx.result.bonesEarned == drop.boneValue
              && tx.db.wallets == CreditWallet(db.wallets, user, drop.boneValue,
                                              faults.walletReadFails, faults.walletWriteFails)
    ensures tx.result.CollectFailed? ==> tx.db.wallets == db.wallets && tx.db.ledger == db.ledger
  {
    if faults.claimFails then CollectTx(db, CollectFailed(ClaimFailed))
    else Credit(db.(drops := ClaimRows(db.drops, id, user, now)), local, id, user, faults)
  }

  /** An update that matches no row leaves the table as it was. */
  lemma ClaimRowsUnmatched(rows: seq<DropRow>, id: DropId, user: UserId, now: int)
    requires MatchedRows(rows, id) == 0
    ensures ClaimRows(rows, id, user, now) == rows
  {
    MatchedRowsZero(rows, id);
  }

  /** As written, a claim that matches no row (the drop is already someone else's) still goes
      on to credit: whoever holds the drop locally is paid its value, while the drops table is
      left untouched. */
  lemma AsWrittenCreditsUnmatched(db: Db, local: seq<DropRow>, id: DropId, user: UserId, now: int,
                                  faults: CollectFaults)
    requires !faults.claimFails && MatchedRows(db.drops, id) == 0
    requires exists i :: 0 <= i < |local| && local[i].id == id
    ensures var tx := CollectTxAsWritten(db, local, id, user, now, faults);
            && tx.result.Collected?
            && tx.result.bonesEarned == Find(local, HasId(id)).value.boneValue
            && tx.db.drops == db.drops
            && tx.db.wallets == CreditWallet(db.wallets, user, tx.result.bonesEarned,
                                            faults.walletReadFails, faults.walletWriteFails)
  {
    ClaimRowsUnmatched(db.drops, id, user, now);
  }

  /** The transaction with the claim's matched-row count checked: a drop someone else already
      collected is not credited. */
  function CollectTxChecked(db: Db, local: seq<DropRow>, id: DropId, user: UserId, now: int,
                            faults: CollectFaults): (tx: CollectTx)
    ensures faults.claimFails ==> tx == CollectTx(db, CollectFailed(ClaimFailed))
    ensures !faults.claimFails && MatchedRows(db.drops, id) == 0 ==>
              tx == CollectTx(db, CollectFailed(AlreadyCollected))
    ensures !faults.claimFails && MatchedRows(db.drops, id) > 0 ==>
              tx == CollectTxAsWritten(db, local, id, user, now, faults)
  {
    if faults.claimFails then CollectTx(db, CollectFailed(ClaimFailed))
    else if MatchedRows(db.drops, id) == 0 then CollectTx(db, CollectFailed(AlreadyCollected))
    else Credit(db.(drops := ClaimRows(db.drops, id, user, now)), local, id, user, faults)
  }

  /** A successful collection credits the drop's value: with the wallet requests succeeding the
      balance grows by exactly the bones earned (from 0 when there was no wallet), nobody else's
      balance changes, and with the ledger request succeeding one `drop_collect` entry of that
      amount is appended. */
  lemma CollectCredits(db: Db, local: seq<DropRow>, id: DropId, user: UserId, now: int,
                       faults: CollectFaults)
    requires CollectTxChecked(db, local, id, user, now, faults).result.Collected?
    ensures var tx := CollectTxChecked(db, local, id, user, now, faults);
      && (forall u :: u != user && u in db.wallets ==> u in tx.db.wallets && tx.db.wallets[u] == db.wallets[u])
      && (!faults.walletReadFails && !faults.walletWriteFails ==>
            user in tx.db.wallets
            && tx.db.wallets[user] == Balance(db.wallets, user) + tx.result.bonesEarned)
      && (!faults.ledgerFails ==>
            |tx.db.ledger| == |db.ledger| + 1 && tx.db.ledger[..|db.ledger|] == db.ledger
            && tx.db.ledger[|db.ledger|].amount == tx.result.bonesEarned
            && tx.db.ledger[|db.ledger|].kind == DropCollect)
      && (faults.ledgerFails ==> tx.db.ledger == db.ledger)
  {
    var tx := CollectTxChecked(db, local, id, user, now, faults);
    var drop := Find(local, HasId(id)).value;
    if !faults.ledgerFails {
      assert tx.db.ledger == db.ledger + [LedgerEntry(user, drop.boneValue, DropCollect, DropRef(id, drop.kind))];
    }
  }

  /** One collection attempt, as a user's device would make it. */
  datatype Attempt = Attempt(user: UserId, local: seq<DropRow>, now: int, faults: CollectFaults)

  /** Run the attempts on one drop id in turn, each on the table the previous one left. */
  function RunChecked(db: Db, id: DropId, attempts: seq<Attempt>): (out: (Db, nat))
    decreases |attempts|
  {
    if attempts == [] then (db, 0)
    else
      var a := attempts[0];
      var tx := CollectTxChecked(db, a.local, id, a.user, a.now, a.faults);
      var rest := RunChecked(tx.db, id, attempts[1..]);
      (rest.0, rest.1 + if tx.result.Collected? then 1 else 0)
  }

  /** A drop nobody can still claim is never credited again, however many attempts follow. */
  lemma {:induction false} RunCheckedExhausted(db: Db, id: DropId, attempts: seq<Attempt>)
    requires MatchedRows(db.drops, id) == 0
    ensures RunChecked(db, id, attempts).1 == 0
    ensures RunChecked(db, id, attempts).0.drops == db.drops
    decreases |attempts|
  {
    if attempts != [] {
      RunCheckedExhausted(db, id, attempts[1..]);
    }
  }

  /** With the matched-row check, any sequence of attempts credits a drop at most once. */
  lemma {:induction false} CheckedAtMostOnce(db: Db, id: DropId, attempts: seq<Attempt>)
    ensures RunChecked(db, id, attempts).1 <= 1
    decreases |attempts|
  {
    if attempts != [] {
      var a := attempts[0];
      var tx := CollectTxChecked(db, a.local, id, a.user, a.now, a.faults);
      if tx.result.Collected? {
        ClaimRowsExhausts(db.drops, id, a.user, a.now);
        RunCheckedExhausted(tx.db, id, attempts[1..]);
      } else {
        CheckedAtMostOnce(tx.db, id, attempts[1..]);
      }
    }
  }

  /** As written, two users who both hold the same drop both collect it: the second claim
      matches no row and reports no error, so the second wallet is credited too. */
  lemma AsWrittenCreditsTwice()
    ensures var drop := DropRow("d1", Shared, Point(40.7, -74.0), 50, 100, None, None, None, "Hamilton Park");
            var ok := CollectFaults(false, false, false, false);
            var db0 := Db([drop], map[], [], [], []);
            var first := CollectTxAsWritten(db0, [drop], "d1", "alice", 10, ok);
            var second := CollectTxAsWritten(first.db, [drop], "d1", "bob", 11, ok);
            && first.result == Collected(50) && second.result == Collected(50)
            && second.db.wallets == map["alice" := 50, "bob" := 50]
            && |second.db.ledger| == 2
  {
    var drop := DropRow("d1", Shared, Point(40.7, -74.0), 50, 100, None, None, None, "Hamilton Park");
    assert Find([drop], HasId("d1")) == Some(drop);
    assert "alice" != "bob";
  }

  /** With the check, the second of those two users is refused and nothing changes. */
  lemma CheckedCreditsOnce()
    ensures var drop := DropRow("d1", Shared, Point(40.7, -74.0), 50, 100, None, None, None, "Hamilton Park");
            var ok := CollectFaults(false, false, false, false);
            var db0 := Db([drop], map[], [], [], []);
            var first := CollectTxChecked(db0, [drop], "d1", "alice", 10, ok);
            var second := CollectTxChecked(first.db, [drop], "d1", "bob", 11, ok);
            && first.result == Collected(50) && second.result == CollectFailed(AlreadyCollected)
            && second.db == first.db && first.db.wallets == map["alice" := 50]
  {
    var drop := DropRow("d1", Shared, Point(40.7, -74.0), 50, 100, None, None, None, "Hamilton Park");
    assert Find([drop], HasId("d1")) == Some(drop);
    assert MatchedRows([drop], "d1") == 1;
    ClaimRowsExhausts([drop], "d1", "alice", 10);
  }

  /** The hook's state: the shown drops, the collectable one and the re-entry flag. */
  class Engine {
    const userId: Option<UserId>
    const dist: Distance
    var drops: seq<DropRow>
    var nearby: Option<Nearby>
    var collecting: bool

    constructor (userId: Option<UserId>, dist: Distance)
      ensures this.userId == userId && this.dist == dist
      ensures drops == [] && nearby.None? && !collecting
    {
      this.userId, this.dist := userId, dist;
      drops, nearby, collecting := [], None, false;
    }

    /** `fetchDrops`: nothing without a position or when the query fails. */
    method FetchDrops(db: Db, position: Option<Point>, now: int, fails: bool)
      modifies this`drops
      ensures drops == if position.None? || fails then old(drops)
                       else Visible(db.drops, position.value, now, dist)
    {
      if position.Some? && !fails {
        drops := Visible(db.drops, position.value, now, dist);
      }
    }

    /** The nearest-drop effect, re-run whenever the position or the drops change. */
    method UpdateNearby(position: Option<Point>)
      modifies this`nearby
      ensures nearby.None? <==>
                position.None? || forall i :: 0 <= i < |drops| ==> dist(position.value, drops[i].pos) > CollectionRadius
      ensures nearby.Some? ==>
                exists k :: IsNearestAt(drops, position.value, dist, k)
                            && nearby.value == Nearby(drops[k], dist(position.value, drops[k].pos))
    {
      nearby := FindNearest(drops, position, dist);
    }

    /** The guard at the top of `collectDrop`: refused without a (truthy) user id or while a
        collection is under way; otherwise the flag is raised. */
    method BeginCollect() returns (started: bool)
      modifies this`collecting
      ensures started <==> HasUserId(userId) && !old(collecting)
      ensures collecting == (old(collecting) || started)
    {
      started := HasUserId(userId) && !collecting;
      if started {
        collecting := true;
      }
    }

    /** The rest of `collectDrop`: run the (checked) transaction; on success drop only that id
        from the shown drops, keeping the others in order, and clear the collectable drop; in
        every case lower the flag. */
    method FinishCollect(db: Db, id: DropId, now: int, faults: CollectFaults)
      returns (db': Db, result: CollectResult)
      requires collecting && userId.Some?
      modifies this`drops, this`nearby, this`collecting
      ensures var tx := CollectTxChecked(db, old(drops), id, userId.value, now, faults);
              db' == tx.db && result == tx.result
      ensures !collecting
      ensures result.Collected? ==>
                nearby.None?
                && drops == Filter(old(drops), (d: DropRow) => d.id != id)
                && (forall d :: d in drops <==> d in old(drops) && d.id != id)
                && Subseq(drops, old(drops))
      ensures result.CollectFailed? ==> drops == old(drops) && nearby == old(nearby)
    {
      var tx := CollectTxChecked(db, drops, id, userId.value, now, faults);
      db', result := tx.db, tx.result;
      if result.Collected? {
        var keep := (d: DropRow) => d.id != id;
        FilterMembers(drops, keep);
        FilterSubseq(drops, keep);
        drops := Filter(drops, keep);
        nearby := None;
      }
      collecting := false;
    }
  }

  /** Two taps in a row: the first starts exactly with a non-empty user id, and the second is
      refused either way. */
  method DoubleTap(userId: UserId, dist: Distance) returns (first: bool, second: bool)
    ensures first <==> userId != ""
    ensures !second
  {
    var e := new Engine(Some(userId), dist);
    first := e.BeginCollect();
    second := e.BeginCollect();
  }
}
