/**
  The account service's `EventListener`: it provisions an account for every
  alias-created event whose alias has none yet, and publishes account events
  for itself and for `AccountService`.
 */
module EventListener {
  import opened Outcome
  import opened AccountData

  /** The bank name given to accounts created from alias events. */
  const DefaultBankName := "Default Bank"

  /** The event consumed from the alias-created topic. */
  datatype AliasCreatedEvent = AliasCreatedEvent(id: nat, alias: string)

  /**
    The failure `processAliasCreation` can raise here: `findByAlias` returns
    an `Optional`, so Spring Data throws when more than one row matches.
   */
  datatype ProvisionError = NonUniqueResult(alias: string)

  /** `publishAccountEvent`: one event with the account's id and the given type, on the account-events topic. */
  function PublishAccountEvent(store: AccountStore, account: Account, eventType: string): (r: AccountStore)
    ensures r.rows == store.rows && r.nextId == store.nextId
    ensures |r.published| == |store.published| + 1 && r.published[..|store.published|] == store.published
    ensures r.published[|store.published|].topic == AccountEventsTopic
    ensures r.published[|store.published|].event.accountId == account.id
    ensures r.published[|store.published|].event.eventType == eventType
  {
    store.(published := store.published + [Message(AccountEventsTopic, AccountEvent(account.id, eventType))])
  }

  /**
    `processAliasCreation`. With no account for the alias, exactly one is
    created (the alias, "Default Bank", balance 0) and one `CREATED` event
    names it; with one account, nothing is saved or published; with several,
    `findByAlias` fails. Rows of other aliases never change.
   */
  function ProcessAliasCreation(store: AccountStore, event: AliasCreatedEvent): (r: Result<AccountStore, ProvisionError>)
    requires Valid(store)
    ensures r.Err? <==> |AccountsFor(store, event.alias)| > 1
    ensures |AccountsFor(store, event.alias)| == 1 ==> r == Ok(store)
    ensures r.Ok? ==> Valid(r.value) && |AccountsFor(r.value, event.alias)| == 1
    ensures r.Ok? ==> store.rows.Keys <= r.value.rows.Keys
                      && forall id :: id in store.rows ==> r.value.rows[id] == store.rows[id]
    ensures r.Ok? ==> forall other :: other != event.alias ==> AccountsFor(r.value, other) == AccountsFor(store, other)
    ensures |AccountsFor(store, event.alias)| == 0 ==>
              && r.Ok? && |r.value.rows| == |store.rows| + 1
              && (forall id :: id in r.value.rows && id !in store.rows ==>
                    r.value.rows[id] == Account(id, Some(event.alias), Some(DefaultBankName), Some(0.0)))
              && r.value.published == store.published + [Message(AccountEventsTopic, AccountEvent(store.nextId, Created))]
              && store.nextId in r.value.rows && store.nextId !in store.rows
  {
    var existing := AccountsFor(store, event.alias);
    if |existing| == 0 then
      var saved := Insert(store, Some(event.alias), Some(DefaultBankName), Some(0.0));
      InsertAddsOneForAlias(store, event.alias, Some(DefaultBankName), Some(0.0));
      assert saved.rows.Keys == store.rows.Keys + {store.nextId};
      Ok(PublishAccountEvent(saved, saved.rows[store.nextId], Created))
    else if |existing| == 1 then
      Ok(store)
    else
      Err(NonUniqueResult(event.alias))
  }

  /**
    `listenAliasCreatedEvent`: processing errors are logged and swallowed,
    so the result is always a store (the event counts as consumed). When
    processing fails the store is unchanged; otherwise the alias ends up with
    exactly one account.
   */
  function ListenAliasCreatedEvent(store: AccountStore, event: AliasCreatedEvent): (r: AccountStore)
    requires Valid(store)
    ensures Valid(r)
    ensures |AccountsFor(store, event.alias)| > 1 ==> r == store
    ensures |AccountsFor(store, event.alias)| <= 1 ==> |AccountsFor(r, event.alias)| == 1
    ensures forall id :: id in store.rows ==> id in r.rows && r.rows[id] == store.rows[id]
  {
    match ProcessAliasCreation(store, event)
    case Ok(s) => s
    case Err(_) => store
  }

  /** Processing the same event a second time changes nothing: no account is saved and no event is published. */
  lemma ListenIsIdempotent(store: AccountStore, event: AliasCreatedEvent)
    requires Valid(store)
    ensures ListenAliasCreatedEvent(ListenAliasCreatedEvent(store, event), event) == ListenAliasCreatedEvent(store, event)
  {
    var once := ListenAliasCreatedEvent(store, event);
    if |AccountsFor(store, event.alias)| > 1 {
      assert once == store;
    } else {
      assert |AccountsFor(once, event.alias)| == 1;
    }
  }

  /** The store after the same event has been delivered `n` times. */
  function Redeliver(store: AccountStore, event: AliasCreatedEvent, n: nat): (r: AccountStore)
    requires Valid(store)
    ensures Valid(r)
    decreases n
  {
    if n == 0 then store else Redeliver(ListenAliasCreatedEvent(store, event), event, n - 1)
  }

  /** At-least-once delivery is harmless: any number of deliveries has the effect of one. */
  lemma {:induction false} RedeliveryIsIdempotent(store: AccountStore, event: AliasCreatedEvent, n: nat)
    requires Valid(store) && n >= 1
    ensures Redeliver(store, event, n) == ListenAliasCreatedEvent(store, event)
    decreases n
  {
    if n > 1 {
      var once := ListenAliasCreatedEvent(store, event);
      RedeliveryIsIdempotent(once, event, n - 1);
      ListenIsIdempotent(store, event);
    }
  }

  /** The event listener tests: a new alias gets a default account, an existing one gets nothing. */
  lemma ListenerTestExamples()
    ensures var empty := AccountStore(map[], 1, []);
            var r := ListenAliasCreatedEvent(empty, AliasCreatedEvent(123, "new-alias"));
            && r.rows == map[1 := Account(1, Some("new-alias"), Some("Default Bank"), Some(0.0))]
            && r.published == [Message("account-events-topic", AccountEvent(1, "CREATED"))]
    ensures var existing := AccountStore(map[1 := Account(1, Some("existing-alias"), None, None)], 2, []);
            ListenAliasCreatedEvent(existing, AliasCreatedEvent(123, "existing-alias")) == existing
  {
    var existing := AccountStore(map[1 := Account(1, Some("existing-alias"), None, None)], 2, []);
    assert AccountsFor(existing, "existing-alias") == {1};
    var empty := AccountStore(map[], 1, []);
    var r := ListenAliasCreatedEvent(empty, AliasCreatedEvent(123, "new-alias"));
    assert AccountsFor(empty, "new-alias") == {};
    assert r.rows.Keys == {1};
  }
}
