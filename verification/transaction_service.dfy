/**
  The transactions service's `TransactionService.transferFunds`: look up the
  sender, then the recipient, check the sender's balance, debit the sender,
  credit the recipient, save both and publish a transfer message.
 */
module TransactionService {
  import opened Outcome
  import opened LedgerStore

  /** The content of the message "Transfer: <from> to <to> amount: <amount>". */
  datatype TransferEvent = TransferEvent(from: string, to: string, amount: real)

  /** A record sent to a Kafka topic. */
  datatype Message = Message(topic: string, payload: TransferEvent)

  const TransactionsTopic := "transactions"

  /**
    The transactions database as the service sees it: each alias name with
    the id of its account (`alias.getAccount()`), the balances by account id,
    and every message published so far. An alias whose account id is not in
    `balances` has no account.
   */
  datatype Ledger = Ledger(accountOf: map<string, nat>, balances: Balances, published: seq<Message>)

  datatype TransferError =
    | AliasNotFound(message: string)
    | InsufficientFunds(message: string)
    | InvalidAmount(message: string)

  const InsufficientFundsMessage := "Insufficient funds"

  function SenderNotFoundMessage(from: string): string {
    "Alias '" + from + "' not found"
  }

  function RecipientNotFoundMessage(to: string): string {
    "Recipient alias '" + to + "' not found"
  }

  /** `name` is a registered alias with an account. */
  predicate HasAccount(l: Ledger, name: string) {
    name in l.accountOf && l.accountOf[name] in l.balances
  }

  /** Every registered alias has an account. */
  predicate AllAliasesHaveAccounts(l: Ledger) {
    forall name :: name in l.accountOf ==> l.accountOf[name] in l.balances
  }

  /**
    `transferFunds` reaches a missing account (a null dereference in the
    source) only when both aliases exist and the sender has no account, or
    the balance check passes and the recipient has none.
   */
  predicate AccountsPresentWhereRead(l: Ledger, from: string, to: string, amount: real) {
    from in l.accountOf && to in l.accountOf ==>
      && HasAccount(l, from)
      && (l.balances[l.accountOf[from]] >= amount ==> HasAccount(l, to))
  }

  /** The sender's balance covers `amount` (the negation of the check that throws). */
  predicate Covers(l: Ledger, from: string, amount: real)
    requires HasAccount(l, from)
  {
    !(l.balances[l.accountOf[from]] < amount)
  }

  /**
    `transferFunds` as written. The sender is looked up first, then the
    recipient, then the balance is checked; an `Err` carries no ledger, so
    the caller's ledger, balances and published messages are unchanged. On
    success the debit and the credit are applied one after the other, each to
    the balance as it stands, and exactly one message is published after both.
    The sign of `amount` is not checked.
   */
  function TransferFunds(l: Ledger, from: string, to: string, amount: real): (r: Result<Ledger, TransferError>)
    requires AccountsPresentWhereRead(l, from, to, amount)
    ensures from !in l.accountOf ==> r == Err(AliasNotFound(SenderNotFoundMessage(from)))
    ensures from in l.accountOf && to !in l.accountOf ==> r == Err(AliasNotFound(RecipientNotFoundMessage(to)))
    ensures from in l.accountOf && to in l.accountOf && !Covers(l, from, amount)
            ==> r == Err(InsufficientFunds(InsufficientFundsMessage))
    ensures r.Ok? <==> from in l.accountOf && to in l.accountOf && Covers(l, from, amount)
    ensures r.Ok? ==> r.value.accountOf == l.accountOf && r.value.balances.Keys == l.balances.Keys
    ensures r.Ok? ==> var sender := l.accountOf[from]; var recipient := l.accountOf[to];
            && (forall id :: id in l.balances && id != sender && id != recipient ==> r.value.balances[id] == l.balances[id])
            && (sender != recipient ==>
                  && r.value.balances[sender] == l.balances[sender] - amount
                  && r.value.balances[recipient] == l.balances[recipient] + amount
                  && r.value.balances[sender] + r.value.balances[recipient] == l.balances[sender] + l.balances[recipient]
                  && r.value.balances[sender] >= 0.0)
            && (sender == recipient ==> r.value.balances == l.balances)
    ensures r.Ok? ==> r.value.published == l.published + [Message(TransactionsTopic, TransferEvent(from, to, amount))]
  {
    if from !in l.accountOf then
      Err(AliasNotFound(SenderNotFoundMessage(from)))
    else if to !in l.accountOf then
      Err(AliasNotFound(RecipientNotFoundMessage(to)))
    else
      var sender := l.accountOf[from];
      var recipient := l.accountOf[to];
      if l.balances[sender] < amount then
        Err(InsufficientFunds(InsufficientFundsMessage))
      else
        Ok(l.(balances := Move(l.balances, sender, recipient, amount),
              published := l.published + [Message(TransactionsTopic, TransferEvent(from, to, amount))]))
  }

  /** A transfer neither creates nor destroys money: the sum of all balances is unchanged. */
  lemma TransferConservesTotal(l: Ledger, from: string, to: string, amount: real)
    requires AccountsPresentWhereRead(l, from, to, amount)
    requires TransferFunds(l, from, to, amount).Ok?
    ensures Total(TransferFunds(l, from, to, amount).value.balances) == Total(l.balances)
  {
    MoveConservesTotal(l.balances, l.accountOf[from], l.accountOf[to], amount);
  }

  /**
    The guarded `updateBalance` query agrees with the service's own check and
    debit: it changes a row exactly when the transfer succeeds, and crediting
    the recipient afterwards gives the transfer's balances.
   */
  lemma ConditionalDebitMatchesTransfer(l: Ledger, from: string, to: string, amount: real)
    requires HasAccount(l, from) && HasAccount(l, to)
    ensures var (debited, count) := UpdateBalance(l.balances, l.accountOf[from], amount);
            var r := TransferFunds(l, from, to, amount);
            && (r.Ok? <==> count == 1)
            && (r.Ok? ==> r.value.balances == debited[l.accountOf[to] := debited[l.accountOf[to]] + amount])
  {
  }

  /** The service test: Alice (100) sends 30 to Bob (50), leaving 70 and 80 and one message. */
  lemma TransferTestExample()
    ensures var l := Ledger(map["Alice" := 1, "Bob" := 2], map[1 := 100.0, 2 := 50.0], []);
            var r := TransferFunds(l, "Alice", "Bob", 30.0);
            && r.Ok? && r.value.balances == map[1 := 70.0, 2 := 80.0]
            && r.value.published == [Message("transactions", TransferEvent("Alice", "Bob", 30.0))]
  {
    var l := Ledger(map["Alice" := 1, "Bob" := 2], map[1 := 100.0, 2 := 50.0], []);
    assert TransferFunds(l, "Alice", "Bob", 30.0).value.balances == map[1 := 70.0, 2 := 80.0];
  }

  /**
    As written, a negative amount passes the balance check and moves money
    from the recipient to the sender: two empty accounts and an amount of
    -10 leave the recipient at -10.
   */
  lemma NegativeAmountOverdrawsRecipient()
    ensures var l := Ledger(map["alice" := 1, "bob" := 2], map[1 := 0.0, 2 := 0.0], []);
            var r := TransferFunds(l, "alice", "bob", -10.0);
            && NonNegative(l.balances)
            && r.Ok? && r.value.balances[2] == -10.0 && !NonNegative(r.value.balances)
  {
    var l := Ledger(map["alice" := 1, "bob" := 2], map[1 := 0.0, 2 := 0.0], []);
    assert TransferFunds(l, "alice", "bob", -10.0).value.balances == map[1 := 10.0, 2 := -10.0];
  }

  const NonPositiveAmountMessage := "Amount must be positive"

  /**
    `transferFunds` with a positive-amount check added before any lookup: a
    zero or negative amount is rejected, otherwise it behaves exactly as
    written. It keeps every balance non-negative when all were before.
   */
  function Transfer(l: Ledger, from: string, to: string, amount: real): (r: Result<Ledger, TransferError>)
    requires AccountsPresentWhereRead(l, from, to, amount)
    ensures amount <= 0.0 ==> r == Err(InvalidAmount(NonPositiveAmountMessage))
    ensures amount > 0.0 ==> r == TransferFunds(l, from, to, amount)
    ensures r.Ok? && NonNegative(l.balances) ==> NonNegative(r.value.balances)
  {
    if amount <= 0.0 then Err(InvalidAmount(NonPositiveAmountMessage))
    else TransferFunds(l, from, to, amount)
  }

  /** A transfer request: sender alias, recipient alias and amount. */
  datatype TransferRequest = TransferRequest(from: string, to: string, amount: real)

  /** The ledger after a sequence of transfers, in order; a rejected transfer leaves it as it was. */
  function RunTransfers(l: Ledger, requests: seq<TransferRequest>): (r: Ledger)
    requires AllAliasesHaveAccounts(l)
    ensures AllAliasesHaveAccounts(r) && r.accountOf == l.accountOf && r.balances.Keys == l.balances.Keys
    decreases |requests|
  {
    if |requests| == 0 then l
    else
      var req := requests[0];
      var next := match Transfer(l, req.from, req.to, req.amount)
        case Ok(after) => after
        case Err(_) => l;
      RunTransfers(next, requests[1..])
  }

  /**
    Any sequence of transfers conserves the sum of all balances, and keeps
    every balance non-negative when it started so.
   */
  lemma {:induction false} RunTransfersConserves(l: Ledger, requests: seq<TransferRequest>)
    requires AllAliasesHaveAccounts(l)
    ensures Total(RunTransfers(l, requests).balances) == Total(l.balances)
    ensures NonNegative(l.balances) ==> NonNegative(RunTransfers(l, requests).balances)
    decreases |requests|
  {
    if |requests| > 0 {
      var req := requests[0];
      var r := Transfer(l, req.from, req.to, req.amount);
      var next := if r.Ok? then r.value else l;
      if r.Ok? {
        TransferConservesTotal(l, req.from, req.to, req.amount);
      }
      RunTransfersConserves(next, requests[1..]);
    }
  }
}
