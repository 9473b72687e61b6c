/** The bridge as a state machine: deposits that may wait for a KYC mark, and withdrawals kept
    in a vault until they are finished or refunded. */
module BridgeState {
  import opened Base
  import opened Ledger

  type TxHash = nat

  datatype BlackOrWhite = Black | White

  datatype Auth = All | MayDeposit | MayWithdraw | MayRefund | MayMark

  datatype Deposit = Deposit(account: AccountId, txHash: Option<TxHash>, amount: nat)

  /** The Deposit event, emitted once for every mint. */
  datatype Minted = Minted(account: AccountId, amount: nat, txHash: TxHash)

  datatype Bridge = Bridge(
    book: Book,
    list: map<AccountId, BlackOrWhite>,
    pending: map<AccountId, seq<Deposit>>,
    history: map<TxHash, Deposit>,
    withdraws: map<AccountId, seq<nat>>,
    events: seq<Minted>)

  datatype Setup = Setup(asset: AssetId, sudoKey: AccountId, threshold: nat, admins: map<AccountId, Auth>,
      vault: AccountId)

  predicate HasAuth(c: Setup, who: AccountId, auth: Auth) {
    who in c.admins && (c.admins[who] == All || c.admins[who] == auth)
  }

  function PendingOf(pending: map<AccountId, seq<Deposit>>, who: AccountId): seq<Deposit> {
    if who in pending then pending[who] else []
  }

  function WithdrawsOf(withdraws: map<AccountId, seq<nat>>, who: AccountId): seq<nat> {
    if who in withdraws then withdraws[who] else []
  }

  // ---------- deposits ----------

  /** The hash enters the history first; a mint that fails afterwards does not take it out. */
  function SimpleDeposit(c: Setup, s: Bridge, account: AccountId, amount: nat, hash: TxHash): (DispatchResult, Bridge) {
    var seen := s.(history := s.history[hash := Deposit(account, None, amount)]);
    var (r, b) := Mint(s.book, c.asset, c.sudoKey, account, amount);
    if r.Err? then (r, seen) else (Ok, seen.(book := b, events := s.events + [Minted(account, amount, hash)]))
  }

  function Hold(s: Bridge, account: AccountId, amount: nat, hash: TxHash): Bridge {
    s.(history := s.history[hash := Deposit(account, None, amount)],
       pending := s.pending[account := PendingOf(s.pending, account) + [Deposit(account, Some(hash), amount)]])
  }

  predicate NeedsKyc(c: Setup, s: Bridge, account: AccountId, amount: nat) {
    amount >= c.threshold && !(account in s.list && s.list[account] == White)
  }

  function Depositing(c: Setup, s: Bridge, who: AccountId, account: AccountId, amount: nat,
      hash: TxHash): (DispatchResult, Bridge) {
    if hash in s.history then (Err(RepeatedTransaction), s)
    else if !HasAuth(c, who, MayDeposit) then (Err(NoAuth), s)
    else if NeedsKyc(c, s, account, amount) then (Ok, Hold(s, account, amount, hash))
    else SimpleDeposit(c, s, account, amount, hash)
  }

  function PendingHashes(s: seq<Deposit>): set<TxHash> {
    set i | 0 <= i < |s| && s[i].txHash.Some? :: s[i].txHash.value
  }

  /** Black: the account's pending deposits are dropped and their hashes may be submitted again. */
  function MarkingBlack(c: Setup, s: Bridge, who: AccountId, account: AccountId): (DispatchResult, Bridge) {
    if !HasAuth(c, who, MayMark) then (Err(NoAuth), s)
    else (Ok, s.(pending := s.pending - {account},
                 history := s.history - PendingHashes(PendingOf(s.pending, account)),
                 list := s.list[account := Black]))
  }

  /** Mints pending deposits from the front; at the first failure what is left is put back. */
  function Release(c: Setup, s: Bridge, account: AccountId, rest: seq<Deposit>): (DispatchResult, Bridge)
    requires forall d :: d in rest ==> d.txHash.Some?
    decreases |rest|
  {
    if rest == [] then (Ok, s)
    else
      var (r, n) := SimpleDeposit(c, s, rest[0].account, rest[0].amount, rest[0].txHash.value);
      if r.Err? then (r, n.(pending := n.pending[account := rest])) else Release(c, n, account, rest[1..])
  }

  function MarkingWhite(c: Setup, s: Bridge, who: AccountId, account: AccountId): (DispatchResult, Bridge)
    requires forall d :: d in PendingOf(s.pending, account) ==> d.txHash.Some?
  {
    if !HasAuth(c, who, MayMark) then (Err(NoAuth), s)
    else
      var (r, n) := Release(c, s.(pending := s.pending - {account}), account, PendingOf(s.pending, account));
      if r.Err? then (r, n) else (Ok, n.(list := n.list[account := White]))
  }

  // ---------- withdrawals ----------

  function RemoveOne(s: seq<nat>, x: nat): seq<nat> {
    if s == [] then [] else if s[0] == x then s[1..] else [s[0]] + RemoveOne(s[1..], x)
  }

  /** The list is taken out; it goes back, one shorter, only if it held more than one amount. */
  function Removed(withdraws: map<AccountId, seq<nat>>, who: AccountId, amount: nat): map<AccountId, seq<nat>> {
    if |WithdrawsOf(withdraws, who)| > 1 then withdraws[who := RemoveOne(withdraws[who], amount)] else withdraws - {who}
  }

  function Withdrawing(c: Setup, s: Bridge, who: AccountId, amount: nat): (DispatchResult, Bridge) {
    var (r, b) := Transfer(s.book, c.asset, who, c.vault, amount);
    if r.Err? then (r, s)
    else (Ok, s.(book := b, withdraws := s.withdraws[who := WithdrawsOf(s.withdraws, who) + [amount]]))
  }

  function Refunding(c: Setup, s: Bridge, author: AccountId, who: AccountId, amount: nat): (DispatchResult, Bridge) {
    if !HasAuth(c, author, MayRefund) then (Err(NoAuth), s)
    else if amount !in WithdrawsOf(s.withdraws, who) then (Err(PendingWithdrawNotFound), s)
    else
      var (r, b) := Transfer(s.book, c.asset, c.vault, who, amount);
      if r.Err? then (r, s) else (Ok, s.(book := b, withdraws := Removed(s.withdraws, who, amount)))
  }

  function Finishing(c: Setup, s: Bridge, author: AccountId, who: AccountId, amount: nat): (DispatchResult, Bridge) {
    if !HasAuth(c, author, MayWithdraw) then (Err(NoAuth), s)
    else if amount !in WithdrawsOf(s.withdraws, who) then (Err(PendingWithdrawNotFound), s)
    else (Ok, s.(withdraws := Removed(s.withdraws, who, amount)))
  }
}
