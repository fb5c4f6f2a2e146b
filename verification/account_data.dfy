/**
  The account service's storage: the account table keyed by id, the next
  identity value, and the log of `AccountEvent`s sent to Kafka.
 */
module AccountData {
  import opened Outcome

  /** An account row. Every column but `id` is nullable in the entity. */
  datatype Account = Account(id: nat, alias: Option<string>, bankName: Option<string>, balance: Option<real>)

  /** The event published on account changes: the account's id and `CREATED` or `UPDATED`. */
  datatype AccountEvent = AccountEvent(accountId: nat, eventType: string)

  /** A record sent to a Kafka topic. */
  datatype Message = Message(topic: string, event: AccountEvent)

  const AccountEventsTopic := "account-events-topic"
  const Created := "CREATED"
  const Updated := "UPDATED"

  datatype AccountStore = AccountStore(rows: map<nat, Account>, nextId: nat, published: seq<Message>)

  /** Each row is stored under its own id, and every id is below the next identity value. */
  predicate Valid(store: AccountStore) {
    forall id :: id in store.rows ==> store.rows[id].id == id && id < store.nextId
  }

  /** The ids of the rows whose alias is `alias`: what `findByAlias` matches. */
  function AccountsFor(store: AccountStore, alias: string): set<nat> {
    set id | id in store.rows && store.rows[id].alias == Some(alias)
  }

  /** `AccountRepository.save` of a new account: the row gets the next identity value. */
  function Insert(store: AccountStore, alias: Option<string>, bankName: Option<string>, balance: Option<real>): (r: AccountStore)
    requires Valid(store)
    ensures Valid(r) && r.nextId == store.nextId + 1 && r.published == store.published
    ensures store.nextId !in store.rows && r.rows.Keys == store.rows.Keys + {store.nextId}
    ensures r.rows[store.nextId] == Account(store.nextId, alias, bankName, balance)
    ensures forall id :: id in store.rows ==> r.rows[id] == store.rows[id]
  {
    store.(rows := store.rows[store.nextId := Account(store.nextId, alias, bankName, balance)],
           nextId := store.nextId + 1)
  }

  /** Inserting a row for `alias` adds exactly its fresh id to the rows `alias` matches. */
  lemma InsertAddsOneForAlias(store: AccountStore, alias: string, bankName: Option<string>, balance: Option<real>)
    requires Valid(store)
    ensures AccountsFor(Insert(store, Some(alias), bankName, balance), alias)
            == AccountsFor(store, alias) + {store.nextId}
    ensures store.nextId !in AccountsFor(store, alias)
  {
  }
}
