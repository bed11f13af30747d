/** The marketplace page (src/pages/Marketplace.jsx): spending bones on store deals and on
    scratch-card coupons, with the local balance deducted before the requests and restored when
    one of them fails. */
module Marketplace {
  import opened Common
  import opened Text
  import opened Store

  datatype Deal = Deal(id: string, title: string, bonesCost: int)

  /** The code of a losing scratch card. */
  const NoLuck: string := "NO-LUCK"

  datatype Modal = DealModal(deal: Deal, code: string) | CouponModal(coupon: CouponRow, code: string)

  datatype SpendOutcome = NotEnoughBones | Cancelled | Spent | SpendFailed

  /** The deal redemption code: "WOOF" and `floor(1000 + r * 9000)`. */
  function RedeemCode(r: real): (code: string)
    requires 0.0 <= r < 1.0
    ensures |code| == 8 && code[..4] == "WOOF"
    ensures AllDigits(code[4..]) && 1000 <= ParseNat(code[4..]) <= 9999
  {
    var n := 1000 + ScaleDraw(r, 9000);
    NatToStringShort(n);
    ParseNatToString(n);
    assert ("WOOF" + NatToString(n))[4..] == NatToString(n);
    "WOOF" + NatToString(n)
  }

  /** `update({ is_redeemed: true, redeemed_by: user }).eq('id', id)` on the coupon table. */
  function MarkRedeemed(rows: seq<CouponRow>, id: string, user: UserId): (r: seq<CouponRow>)
    ensures |r| == |rows|
    ensures forall i :: 0 <= i < |rows| ==>
              r[i] == if rows[i].id == id then rows[i].(isRedeemed := true, redeemedBy := Some(user))
                      else rows[i]
  {
    seq(|rows|, i requires 0 <= i < |rows| =>
      if rows[i].id == id then rows[i].(isRedeemed := true, redeemedBy := Some(user)) else rows[i])
  }

  class Page {
    /** The signed-in user; the handlers' requests fail without one. */
    const userId: Option<UserId>
    /** The balance shown on the page (`bones`). */
    var bones: int
    /** Cards paid for and not yet scratched (`unlockedCardIds`). */
    var unlockedCardIds: set<string>
    /** The won coupons list (`unlockedCoupons`). */
    var unlockedCoupons: seq<CouponRow>
    var redeemModal: Option<Modal>

    constructor (userId: Option<UserId>, balance: int)
      ensures this.userId == userId && bones == balance
      ensures unlockedCardIds == {} && unlockedCoupons == [] && redeemModal.None?
    {
      this.userId := userId;
      bones, unlockedCardIds, unlockedCoupons, redeemModal := balance, {}, [], None;
    }

    /** `handleRedeemDeal`: refuse when the balance is short or the user cancels; otherwise
        deduct, record a `store_redeem` debit, write the pre-click balance minus the cost, and
        show a code; when a request fails, add the cost back. A ledger debit already written
        stays even if the wallet write then fails. */
    method RedeemDeal(deal: Deal, confirmed: bool, db: Db, ledgerFails: bool, walletFails: bool,
                      r: real)
      returns (outcome: SpendOutcome, db': Db)
      requires 0.0 <= r < 1.0
      modifies this`bones, this`redeemModal
      ensures old(bones) < deal.bonesCost ==> outcome == NotEnoughBones
      ensures old(bones) >= deal.bonesCost && !confirmed ==> outcome == Cancelled
      ensures outcome in {NotEnoughBones, Cancelled} ==>
                db' == db && bones == old(bones) && redeemModal == old(redeemModal)
      ensures old(bones) >= deal.bonesCost && confirmed ==> outcome in {Spent, SpendFailed}
      ensures outcome == Spent <==>
                old(bones) >= deal.bonesCost && confirmed && userId.Some? && !ledgerFails && !walletFails
      ensures outcome == Spent ==>
                && bones == old(bones) - deal.bonesCost
                && db'.ledger == db.ledger + [LedgerEntry(userId.value, -deal.bonesCost, StoreRedeem,
                                                          DealRef(deal.id, deal.title))]
                && db'.wallets == UpdateBalance(db.wallets, userId.value, old(bones) - deal.bonesCost, false)
                && redeemModal == Some(DealModal(deal, RedeemCode(r)))
      ensures outcome == SpendFailed ==> bones == old(bones) && redeemModal == old(redeemModal)
      ensures outcome == SpendFailed && (userId.None? || ledgerFails) ==> db' == db
      ensures outcome == SpendFailed && userId.Some? && !ledgerFails ==>
                && db'.ledger == db.ledger + [LedgerEntry(userId.value, -deal.bonesCost, StoreRedeem,
                                                          DealRef(deal.id, deal.title))]
                && db'.wallets == db.wallets
      ensures db'.drops == db.drops && db'.walks == db.walks && db'.coupons == db.coupons
    {
      db' := db;
      if bones < deal.bonesCost {
        return NotEnoughBones, db';
      }
      if !confirmed {
        return Cancelled, db';
      }
      var before := bones;
      bones := bones - deal.bonesCost;
      if userId.None? || ledgerFails {
        bones := bones + deal.bonesCost;
        return SpendFailed, db';
      }
      var u := userId.value;
      db' := db'.(ledger := db'.ledger + [LedgerEntry(u, -deal.bonesCost, StoreRedeem,
                                                      DealRef(deal.id, deal.title))]);
      if walletFails {
        bones := bones + deal.bonesCost;
        return SpendFailed, db';
      }
      db' := db'.(wallets := UpdateBalance(db'.wallets, u, before - deal.bonesCost, false));
      redeemModal := Some(DealModal(deal, RedeemCode(r)));
      outcome := Spent;
    }

    /** `handleUnlockCard`: refuse when the balance is short or the user cancels; otherwise
        deduct and mark the card unlocked, write the pre-click balance minus the cost, mark the
        coupon redeemed by the user, and record a `coupon_redeem` debit (whose failure goes
        unnoticed); when the wallet or coupon request fails, add the cost back and take the
        card off the unlocked set. */
    method UnlockCard(coupon: CouponRow, confirmed: bool, db: Db, walletFails: bool,
                      couponFails: bool, ledgerFails: bool)
      returns (outcome: SpendOutcome, db': Db)
      modifies this`bones, this`unlockedCardIds
      ensures old(bones) < coupon.bonesCost ==> outcome == NotEnoughBones
      ensures old(bones) >= coupon.bonesCost && !confirmed ==> outcome == Cancelled
      ensures outcome in {NotEnoughBones, Cancelled} ==>
                db' == db && bones == old(bones) && unlockedCardIds == old(unlockedCardIds)
      ensures old(bones) >= coupon.bonesCost && confirmed ==> outcome in {Spent, SpendFailed}
      ensures outcome == Spent <==>
                old(bones) >= coupon.bonesCost && confirmed && userId.Some? && !walletFails && !couponFails
      ensures outcome == Spent ==>
                && bones == old(bones) - coupon.bonesCost
                && unlockedCardIds == old(unlockedCardIds) + {coupon.id}
                && db'.wallets == UpdateBalance(db.wallets, userId.value, old(bones) - coupon.bonesCost, false)
                && db'.coupons == MarkRedeemed(db.coupons, coupon.id, userId.value)
                && db'.ledger == (if ledgerFails then db.ledger
                                  else db.ledger + [LedgerEntry(userId.value, -coupon.bonesCost, CouponRedeem,
                                                                CouponRef(coupon.id, coupon.storeName))])
      ensures outcome == SpendFailed ==>
                bones == old(bones) && unlockedCardIds == old(unlockedCardIds) - {coupon.id}
                && db'.ledger == db.ledger
      ensures outcome == SpendFailed && (userId.None? || walletFails) ==> db' == db
      ensures outcome == SpendFailed && userId.Some? && !walletFails ==>
                && db'.wallets == UpdateBalance(db.wallets, userId.value, old(bones) - coupon.bonesCost, false)
                && db'.coupons == db.coupons
      ensures db'.drops == db.drops && db'.walks == db.walks
    {
      db' := db;
      if bones < coupon.bonesCost {
        return NotEnoughBones, db';
      }
      if !confirmed {
        return Cancelled, db';
      }
      var before := bones;
      bones := bones - coupon.bonesCost;
      unlockedCardIds := unlockedCardIds + {coupon.id};
      if userId.None? || walletFails {
        bones := bones + coupon.bonesCost;
        unlockedCardIds := unlockedCardIds - {coupon.id};
        return SpendFailed, db';
      }
      var u := userId.value;
      db' := db'.(wallets := UpdateBalance(db'.wallets, u, before - coupon.bonesCost, false));
      if couponFails {
        bones := bones + coupon.bonesCost;
        unlockedCardIds := unlockedCardIds - {coupon.id};
        return SpendFailed, db';
      }
      db' := db'.(coupons := MarkRedeemed(db'.coupons, coupon.id, u));
      db' := db'.(ledger := AppendLedger(db'.ledger, LedgerEntry(u, -coupon.bonesCost, CouponRedeem,
                                                                 CouponRef(coupon.id, coupon.storeName)),
                                         ledgerFails));
      outcome := Spent;
    }

    /** `handleRevealCard`: a losing card changes nothing; a winning one is put first in the
        won list and its code shown. */
    method RevealCard(coupon: CouponRow)
      modifies this`unlockedCoupons, this`redeemModal
      ensures coupon.code == NoLuck ==>
                unlockedCoupons == old(unlockedCoupons) && redeemModal == old(redeemModal)
      ensures coupon.code != NoLuck ==>
                unlockedCoupons == [coupon] + old(unlockedCoupons)
                && redeemModal == Some(CouponModal(coupon, coupon.code))
    {
      if coupon.code != NoLuck {
        unlockedCoupons := [coupon] + unlockedCoupons;
        redeemModal := Some(CouponModal(coupon, coupon.code));
      }
    }
  }

  /** A confirmed redemption whose wallet write fails nets out to no change of the shown
      balance: the optimistic deduction is rolled back. */
  method RedeemThenFail(balance: int, deal: Deal, db: Db) returns (before: int, after: int)
    ensures before == balance && after == balance
  {
    var page := new Page(Some("u1"), balance);
    before := page.bones;
    var outcome, db' := page.RedeemDeal(deal, true, db, false, true, 0.0);
    after := page.bones;
  }
}
