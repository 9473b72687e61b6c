/** What a call pays, as a list of payments, and books that settle it: the account-by-account
    meaning of the transfers a call makes, whichever of its accounts coincide. */
module Payments {
  import opened Base
  import opened Ledger

  datatype Payment = Payment(asset: AssetId, from: AccountId, to: AccountId, amount: nat)

  /** x for one account, nothing for the others. */
  function Got(who: AccountId, account: AccountId, x: int): int {
    if who == account then x else 0
  }

  /** What account who gains of asset a by the payments. */
  function Net(ps: seq<Payment>, a: AssetId, who: AccountId): int {
    if ps == [] then 0
    else
      var p := ps[0];
      (if p.asset == a then Got(who, p.to, p.amount) - Got(who, p.from, p.amount) else 0) + Net(ps[1..], a, who)
  }

  /** Every free balance of every asset changes by what was paid, and nothing else in the book does. */
  ghost predicate Settles(b: Book, n: Book, ps: seq<Payment>) {
    n == b.(free := n.free) && forall a: AssetId, who: AccountId :: Free(n, a, who) == Free(b, a, who) + Net(ps, a, who)
  }

  /** What one move does to any account's balance, also when both ends are the same account. */
  lemma MoveDelta(b: Book, a: AssetId, from: AccountId, to: AccountId, x: nat, k: AssetId, who: AccountId)
    requires Free(b, a, from) >= x
    ensures Free(Moved(b, a, from, to, x), k, who)
         == Free(b, k, who) + (if k == a then Got(who, to, x) - Got(who, from, x) else 0)
  {
  }

  lemma {:induction false} NetAppend(ps: seq<Payment>, p: Payment, a: AssetId, who: AccountId)
    ensures Net(ps + [p], a, who)
         == Net(ps, a, who) + (if p.asset == a then Got(who, p.to, p.amount) - Got(who, p.from, p.amount) else 0)
  {
    if ps == [] {
      assert ps + [p] == [p];
    } else {
      assert (ps + [p])[1..] == ps[1..] + [p];
      NetAppend(ps[1..], p, a, who);
    }
  }

  lemma NothingPaid(b: Book)
    ensures Settles(b, b, [])
  {
  }

  /** One more payment, when it is covered at that point. */
  lemma SettlesNext(b: Book, m: Book, ps: seq<Payment>, p: Payment)
    requires Settles(b, m, ps) && Free(m, p.asset, p.from) >= p.amount
    ensures Settles(b, Moved(m, p.asset, p.from, p.to, p.amount), ps + [p])
  {
    var n := Moved(m, p.asset, p.from, p.to, p.amount);
    forall a: AssetId, who: AccountId ensures Free(n, a, who) == Free(b, a, who) + Net(ps + [p], a, who) {
      MoveDelta(m, p.asset, p.from, p.to, p.amount, a, who);
      NetAppend(ps, p, a, who);
    }
  }

  lemma SettlesOne(b: Book, p: Payment)
    requires Free(b, p.asset, p.from) >= p.amount
    ensures Settles(b, Moved(b, p.asset, p.from, p.to, p.amount), [p])
  {
    NothingPaid(b);
    SettlesNext(b, b, [], p);
    assert [] + [p] == [p];
  }

  lemma SettlesTwo(b: Book, p: Payment, q: Payment)
    requires Free(b, p.asset, p.from) >= p.amount
    requires Free(Moved(b, p.asset, p.from, p.to, p.amount), q.asset, q.from) >= q.amount
    ensures Settles(b, Moved(Moved(b, p.asset, p.from, p.to, p.amount), q.asset, q.from, q.to, q.amount), [p, q])
  {
    SettlesOne(b, p);
    SettlesNext(b, Moved(b, p.asset, p.from, p.to, p.amount), [p], q);
    assert [p] + [q] == [p, q];
  }

  /** A payment and its way back leave every balance as it was. */
  lemma ThereAndBack(b: Book, a: AssetId, from: AccountId, to: AccountId, x: nat)
    requires Free(b, a, from) >= x
    ensures Free(Moved(b, a, from, to, x), a, to) >= x
    ensures Settles(b, Moved(Moved(b, a, from, to, x), a, to, from, x), [])
  {
    var m := Moved(b, a, from, to, x);
    MoveDelta(b, a, from, to, x, a, to);
    var n := Moved(m, a, to, from, x);
    forall k: AssetId, who: AccountId ensures Free(n, k, who) == Free(b, k, who) {
      MoveDelta(b, a, from, to, x, k, who);
      MoveDelta(m, a, to, from, x, k, who);
    }
  }
}
