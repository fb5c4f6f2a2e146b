/**
  The account service's `AccountService`: create an account from a request,
  read one by id, and update an account's bank name and balance. Every write
  publishes one account event through `EventListener.publishAccountEvent`.
 */
module AccountService {
  import opened Outcome
  import opened AccountData
  import opened EventListener
  import opened AccountRequestValidation

  /** The response body: a copy of the stored row's fields. */
  datatype AccountResponse = AccountResponse(id: nat, alias: Option<string>, bankName: Option<string>, balance: Option<real>)

  datatype AccountError = AccountNotFound(id: nat)

  /** The response describes exactly the row `account`. */
  predicate Mirrors(response: AccountResponse, account: Account) {
    && response.id == account.id && response.alias == account.alias
    && response.bankName == account.bankName && response.balance == account.balance
  }

  /** `mapToDTO`: the one response that mirrors the row, field for field. */
  function MapToDto(account: Account): (r: AccountResponse)
    ensures Mirrors(r, account)
    ensures forall other :: Mirrors(other, account) ==> other == r
  {
    AccountResponse(account.id, account.alias, account.bankName, account.balance)
  }

  /** Rows other than `id` are the same in both stores, and no row appears or disappears. */
  predicate OnlyRowChanged(before: AccountStore, after: AccountStore, id: nat) {
    && after.rows.Keys == before.rows.Keys
    && forall other :: other in before.rows && other != id ==> after.rows[other] == before.rows[other]
  }

  /**
    `createAccount`: a new row under a fresh id with the request's alias and
    bank name and its balance, or 0 when the balance is `null`; one `CREATED`
    event for it; the response mirrors the saved row.
   */
  function CreateAccount(store: AccountStore, req: AccountRequest): (r: (AccountStore, AccountResponse))
    requires Valid(store)
    ensures var (after, response) := r;
            && Valid(after)
            && response.id !in store.rows
            && after.rows.Keys == store.rows.Keys + {response.id}
            && (forall id :: id in store.rows ==> after.rows[id] == store.rows[id])
            && Mirrors(response, after.rows[response.id])
            && response.alias == req.alias && response.bankName == req.bankName
            && response.balance == Some(if req.balance.Some? then req.balance.value else 0.0)
            && after.published == store.published + [Message(AccountEventsTopic, AccountEvent(response.id, Created))]
  {
    var balance := Some(if req.balance.Some? then req.balance.value else 0.0);
    var saved := Insert(store, req.alias, req.bankName, balance);
    var account := saved.rows[store.nextId];
    (PublishAccountEvent(saved, account, Created), MapToDto(account))
  }

  /** `getAccountById`: the row's fields, or `AccountNotFound` when no row has this id. */
  function GetAccountById(store: AccountStore, id: nat): (r: Result<AccountResponse, AccountError>)
    ensures r.Err? <==> id !in store.rows
    ensures r.Err? ==> r.error == AccountNotFound(id)
    ensures r.Ok? ==> Mirrors(r.value, store.rows[id])
  {
    if id in store.rows then Ok(MapToDto(store.rows[id])) else Err(AccountNotFound(id))
  }

  /**
    `updateAccount`: with no row for `id`, `AccountNotFound` and nothing
    changes. Otherwise the row's bank name and balance become the request's
    (a `null` balance is stored as `null`), its id and alias stay, no other
    row changes, one `UPDATED` event names it, and the response mirrors it.
   */
  function UpdateAccount(store: AccountStore, id: nat, req: AccountRequest): (r: Result<(AccountStore, AccountResponse), AccountError>)
    requires Valid(store)
    ensures r.Err? <==> id !in store.rows
    ensures r.Err? ==> r.error == AccountNotFound(id)
    ensures r.Ok? ==> var (after, response) := r.value;
            && Valid(after) && after.nextId == store.nextId
            && OnlyRowChanged(store, after, id)
            && after.rows[id].id == id && after.rows[id].alias == store.rows[id].alias
            && after.rows[id].bankName == req.bankName && after.rows[id].balance == req.balance
            && Mirrors(response, after.rows[id])
            && after.published == store.published + [Message(AccountEventsTopic, AccountEvent(id, Updated))]
  {
    if id !in store.rows then
      Err(AccountNotFound(id))
    else
      var account := store.rows[id].(bankName := req.bankName, balance := req.balance);
      var saved := store.(rows := store.rows[id := account]);
      Ok((PublishAccountEvent(saved, account, Updated), MapToDto(account)))
  }

  /** Reading back a created account returns exactly the creation response. */
  lemma GetAfterCreate(store: AccountStore, req: AccountRequest)
    requires Valid(store)
    ensures var (after, response) := CreateAccount(store, req);
            GetAccountById(after, response.id) == Ok(response)
  {
  }

  /** Reading back an updated account returns exactly the update response. */
  lemma GetAfterUpdate(store: AccountStore, id: nat, req: AccountRequest)
    requires Valid(store) && id in store.rows
    ensures var (after, response) := UpdateAccount(store, id, req).value;
            GetAccountById(after, id) == Ok(response)
  {
  }

  /** Repeating an update leaves the same rows (only a second event is published). */
  lemma UpdateTwiceSameRows(store: AccountStore, id: nat, req: AccountRequest)
    requires Valid(store) && id in store.rows
    ensures var once := UpdateAccount(store, id, req).value.0;
            var twice := UpdateAccount(once, id, req).value.0;
            twice.rows == once.rows && |twice.published| == |once.published| + 1
  {
  }

  /**
    An account created directly for an alias also satisfies the provisioner:
    a later alias-created event for that alias saves and publishes nothing.
   */
  lemma CreatedAccountBlocksProvisioning(store: AccountStore, req: AccountRequest, event: AliasCreatedEvent)
    requires Valid(store) && req.alias == Some(event.alias) && AccountsFor(store, event.alias) == {}
    ensures var after := CreateAccount(store, req).0;
            ListenAliasCreatedEvent(after, event) == after
  {
    var (after, response) := CreateAccount(store, req);
    assert AccountsFor(after, event.alias) == {response.id};
  }

  /** The service tests: a `null` balance is stored as 0, a given one as given. */
  lemma ServiceTestExamples()
    ensures var store := AccountStore(map[], 1, []);
            var req := AccountRequest(Some("test-alias"), Some("Test Bank"), None);
            CreateAccount(store, req).1 == AccountResponse(1, Some("test-alias"), Some("Test Bank"), Some(0.0))
    ensures var store := AccountStore(map[], 1, []);
            var req := AccountRequest(Some("test-alias"), Some("Test Bank"), Some(1000.0));
            CreateAccount(store, req).1 == AccountResponse(1, Some("test-alias"), Some("Test Bank"), Some(1000.0))
  {
  }
}
