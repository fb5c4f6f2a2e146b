/**
  The transactions service's account balances, the sum of all balances, and
  `AccountRepository.updateBalance`, the guarded debit query.
 */
module LedgerStore {

  /** Account id to balance, as stored in the account table. */
  type Balances = map<nat, real>

  /** Some account of a non-empty ledger. */
  ghost function AnyAccount(b: Balances): (k: nat)
    requires |b| > 0
    ensures k in b
  {
    var k :| k in b; k
  }

  /** The sum of every balance in `b`. */
  ghost function Total(b: Balances): real
    decreases |b|
  {
    if |b| == 0 then 0.0
    else
      var k := AnyAccount(b);
      b[k] + Total(b - {k})
  }

  /** The sum can be split at any account, whichever one `Total` happens to pick. */
  lemma {:induction false} TotalRemove(b: Balances, k: nat)
    requires k in b
    ensures Total(b) == b[k] + Total(b - {k})
    decreases |b|
  {
    var j := AnyAccount(b);
    if j != k {
      TotalRemove(b - {j}, k);
      TotalRemove(b - {k}, j);
      assert b - {j} - {k} == b - {k} - {j};
    }
  }

  /** Overwriting one balance changes the sum by exactly the difference. */
  lemma TotalUpdate(b: Balances, k: nat, v: real)
    requires k in b
    ensures Total(b[k := v]) == Total(b) - b[k] + v
  {
    TotalRemove(b, k);
    TotalRemove(b[k := v], k);
    assert b[k := v] - {k} == b - {k};
  }

  /**
    Debit `sender` by `amount`, then credit `recipient` by it, each update
    against the balance as it then stands; when the two are the same account
    the balances come back as they were.
   */
  function Move(b: Balances, sender: nat, recipient: nat, amount: real): (r: Balances)
    requires sender in b && recipient in b
    ensures r.Keys == b.Keys
    ensures forall id :: id in b && id != sender && id != recipient ==> r[id] == b[id]
    ensures sender != recipient ==> r[sender] == b[sender] - amount && r[recipient] == b[recipient] + amount
    ensures sender == recipient ==> r == b
  {
    var debited := b[sender := b[sender] - amount];
    debited[recipient := debited[recipient] + amount]
  }

  /** Moving money between two accounts leaves the sum of all balances unchanged. */
  lemma MoveConservesTotal(b: Balances, sender: nat, recipient: nat, amount: real)
    requires sender in b && recipient in b
    ensures Total(Move(b, sender, recipient, amount)) == Total(b)
  {
    DebitThenCreditTotal(b, sender, recipient, amount);
  }

  /** `MoveConservesTotal` on the two updates themselves, kept apart from `Move`'s contract. */
  lemma DebitThenCreditTotal(b: Balances, sender: nat, recipient: nat, amount: real)
    requires sender in b && recipient in b
    ensures var debited := b[sender := b[sender] - amount];
            Total(debited[recipient := debited[recipient] + amount]) == Total(b)
  {
    var debited := b[sender := b[sender] - amount];
    TotalUpdate(b, sender, b[sender] - amount);
    TotalUpdate(debited, recipient, debited[recipient] + amount);
  }

  /** No account is overdrawn. */
  predicate NonNegative(b: Balances) {
    forall id :: id in b ==> b[id] >= 0.0
  }

  /**
    `updateBalance`: subtracts `amount` from the balance of row `accountId`
    when that row exists and holds at least `amount`, and reports the number
    of rows it changed; no other row is touched.
   */
  function UpdateBalance(b: Balances, accountId: nat, amount: real): (r: (Balances, nat))
    ensures r.1 <= 1
    ensures r.1 == 1 <==> accountId in b && b[accountId] >= amount
    ensures r.1 == 0 ==> r.0 == b
    ensures r.0.Keys == b.Keys
    ensures forall id :: id in b && id != accountId ==> r.0[id] == b[id]
    ensures r.1 == 1 ==> r.0[accountId] == b[accountId] - amount && r.0[accountId] >= 0.0
  {
    if accountId in b && b[accountId] >= amount then
      (b[accountId := b[accountId] - amount], 1)
    else
      (b, 0)
  }

  /** The query removes `amount` from the total when it changes a row, and nothing otherwise. */
  lemma UpdateBalanceTotal(b: Balances, accountId: nat, amount: real)
    ensures var r := UpdateBalance(b, accountId, amount);
            Total(r.0) == Total(b) - (if r.1 == 1 then amount else 0.0)
  {
    var r := UpdateBalance(b, accountId, amount);
    if r.1 == 1 {
      assert r.0 == b[accountId := b[accountId] - amount];
      TotalUpdate(b, accountId, b[accountId] - amount);
    }
  }

  /** The query never overdraws an account that was not already overdrawn. */
  lemma UpdateBalanceKeepsNonNegative(b: Balances, accountId: nat, amount: real)
    requires NonNegative(b)
    ensures NonNegative(UpdateBalance(b, accountId, amount).0)
  {
  }
}
