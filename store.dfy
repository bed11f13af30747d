/** The shared storage the application talks to, as a value: each table is a field, and each
    request the application makes is a function from the old contents to the new ones. A request
    that can fail takes a `fails` flag; a failed request changes nothing and, as in the client
    library, reports an error value rather than raising. */
module Store {
  import opened Common
  import opened Geo

  type UserId = string

  /** JavaScript truthiness of a user id (`!userId` refuses it): absent and the empty string are
      false. */
  predicate HasUserId(userId: Option<UserId>) {
    userId.Some? && userId.value != ""
  }
  type DropId = string

  datatype DropType = Shared | Personal

  /** A row of `bone_drops`. `owner` is the `user_id` column of personal drops. */
  datatype DropRow = DropRow(id: DropId, kind: DropType, pos: Point, boneValue: int,
                             expiresAt: int, collectedBy: Option<UserId>,
                             collectedAt: Option<int>, owner: Option<UserId>,
                             locationName: string)

  datatype TxKind = WalkEarn | DropCollect | StoreRedeem | CouponRedeem

  /** The `meta` column of a ledger row. */
  datatype TxMeta =
    | WalkRef(walkId: string)
    | DropRef(dropId: DropId, dropType: DropType)
    | DealRef(dealId: string, dealTitle: string)
    | CouponRef(couponId: string, store: string)

  /** A row of the append-only `bone_transactions` ledger. */
  datatype LedgerEntry = LedgerEntry(user: UserId, amount: int, kind: TxKind, meta: TxMeta)

  /** A row of `walks`: the archived summary of one walk. */
  datatype WalkRow = WalkRow(id: string, user: UserId, startedAt: Option<int>, endedAt: int,
                             distanceMeters: int, durationSeconds: nat, bonesEarned: int,
                             path: seq<Point>)

  /** A row of `scraped_coupons`. */
  datatype CouponRow = CouponRow(id: string, storeName: string, code: string, bonesCost: int,
                                 isRedeemed: bool, redeemedBy: Option<UserId>)

  datatype Db = Db(drops: seq<DropRow>, wallets: map<UserId, int>, ledger: seq<LedgerEntry>,
                   walks: seq<WalkRow>, coupons: seq<CouponRow>)

  /** The balance a user holds, 0 when the user has no wallet row. */
  function Balance(wallets: map<UserId, int>, user: UserId): int {
    if user in wallets then wallets[user] else 0
  }

  /** `select('balance').eq('user_id', user).single()`: the row's balance, or no data when the
      row is missing or the request fails. */
  function ReadBalance(wallets: map<UserId, int>, user: UserId, fails: bool): (r: Option<int>)
    ensures r.Some? <==> !fails && user in wallets
    ensures r.Some? ==> r.value == wallets[user]
  {
    if fails || user !in wallets then None else Some(wallets[user])
  }

  /** `update({ balance }).eq('user_id', user)`: rewrites an existing row only. */
  function UpdateBalance(wallets: map<UserId, int>, user: UserId, balance: int, fails: bool)
    : map<UserId, int>
  {
    if !fails && user in wallets then wallets[user := balance] else wallets
  }

  /** `insert({ user_id, balance })`: `user_id` is unique, so inserting over an existing row fails. */
  function InsertWallet(wallets: map<UserId, int>, user: UserId, balance: int, fails: bool)
    : map<UserId, int>
  {
    if !fails && user !in wallets then wallets[user := balance] else wallets
  }

  /** The read-then-write credit both the drop collection and the walk save perform: read the
      balance; if a row came back, write balance + amount, otherwise insert a row holding amount.
      Neither caller checks the outcome of the write. */
  function CreditWallet(wallets: map<UserId, int>, user: UserId, amount: int,
                        readFails: bool, writeFails: bool): (w: map<UserId, int>)
    ensures forall u :: u != user ==> (u in w <==> u in wallets)
    ensures forall u :: u != user && u in wallets ==> w[u] == wallets[u]
    ensures !readFails && !writeFails ==> user in w && w[user] == Balance(wallets, user) + amount
    ensures writeFails || (readFails && user in wallets) ==> w == wallets
  {
    match ReadBalance(wallets, user, readFails)
    case Some(balance) => UpdateBalance(wallets, user, balance + amount, writeFails)
    case None => InsertWallet(wallets, user, amount, writeFails)
  }

  /** `insert` into the ledger. */
  function AppendLedger(ledger: seq<LedgerEntry>, e: LedgerEntry, fails: bool): seq<LedgerEntry> {
    if fails then ledger else ledger + [e]
  }
}
