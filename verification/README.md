# Wallet ledger core in Dafny

A model of the business rules in the three Spring services of a small wallet
system, with proofs:

- **alias service**: request validation for `POST /api/alias`, and
  `AliasService.createAlias`. It rejects a duplicate name, inserts the alias
  and publishes an `AliasRegisteredEvent`.
- **account service**: request validation for `AccountRequest`; the
  `AccountService` create, get and update operations; and `EventListener`,
  which provisions a "Default Bank" account for every alias-created event whose
  alias has no account yet, and publishes account events.
- **transactions service**: `TransactionService.transferFunds` (look up
  sender, then recipient, check funds, debit, credit, publish) and
  `AccountRepository.updateBalance`, the guarded debit query.

Every repository is a Dafny `map` keyed by id or by alias name. Published
Kafka messages form an append-only `seq`. Every operation is a pure function.
A thrown exception is an `Err` value that carries no state, so the caller's
state is unchanged. Java `null` is `Option.None`. Money is an exact `real`.
A bean-validation result is a set of `Violation` values, one constructor per
annotation; each `Violation`'s `Message()` is the exact message text the
annotation declares. The tables below quote those texts.

Files:

| file | module | models |
|---|---|---|
| `outcome.dfy` | `Outcome` | `Option` for nullable values, `Result` for exceptions |
| `text.dfy` | `Text` | `String.trim()`, `@NotBlank`, `^[a-zA-Z0-9]+$`, group sequences |
| `alias_request.dfy` | `AliasRequestValidation` | `CreateAliasRequest` constraints |
| `account_request.dfy` | `AccountRequestValidation` | `AccountRequest` constraints |
| `alias_service.dfy` | `AliasService` | `AliasService`, `KafkaProducerService` |
| `account_data.dfy` | `AccountData` | the account table and account events |
| `event_listener.dfy` | `EventListener` | `EventListener` |
| `account_service.dfy` | `AccountService` | `AccountService` |
| `ledger_store.dfy` | `LedgerStore` | balances, their sum, `AccountRepository.updateBalance` |
| `transaction_service.dfy` | `TransactionService` | `TransactionService.transferFunds` |

The model follows the code, which:

- does not reject a transfer to oneself. The debit and then the credit leave
  the balance as it was, and a message is still published.
- reports a missing alias as `AliasNotFound`. There is no separate "not
  provisioned" error.
- writes no transaction row.
- swallows a failure while provisioning an account. It is not retried.

Java measures strings in UTF-16 code units. `@Size` therefore counts a
character above U+FFFF twice (`Text.Utf16Length`). `trim()` compares code
units with the space, and both halves of a surrogate pair lie above it, so
trimming per Dafny character gives the same result.

## Model

| member | source | states |
|---|---|---|
| `Text.TrimEmptyIffBlank` | alias/src/main/java/org/cyan/in/model/CreateAliasRequest.java:12 | `@NotBlank` fails (`trim()` leaves nothing) exactly when every character is at most U+0020 (the space or a C0 control character); DEL and U+0080–U+009F are kept, so a value made only of them is not blank |
| `Text.TrimStart` | alias/src/main/java/org/cyan/in/model/CreateAliasRequest.java:12 | the leading part `trim()` drops is all characters up to the space; the rest is a suffix that starts with a significant character |
| `Text.TrimEnd` | alias/src/main/java/org/cyan/in/model/CreateAliasRequest.java:12 | the trailing part `trim()` drops is all characters up to the space; the rest is a prefix that ends with a significant character |
| `Text.AlnumWordIsNotBlank` | alias/src/main/java/org/cyan/in/model/CreateAliasRequest.java:12-13 | a name that matches `^[a-zA-Z0-9]+$` always passes `@NotBlank` |
| `Text.NotBlankIsTrimNonEmpty` | alias/src/main/java/org/cyan/in/model/CreateAliasRequest.java:16 | `@NotBlank` holds exactly when the value is not null and `trim()` leaves at least one character |
| `Text.AlnumPatternAcceptance` | alias/src/main/java/org/cyan/in/model/CreateAliasRequest.java:13 | `@Pattern("^[a-zA-Z0-9]+$")` accepts null, rejects the empty string, and every non-null value it accepts is also not blank |
| `Text.Utf16Length` | account/src/main/java/org/cyan/in/model/AccountRequest.java:25 | the Java `length()` of a string is between its character count and twice that, and equals the character count iff no character lies above U+FFFF |
| `Text.FirstFailingOfThree` | alias/src/main/java/org/cyan/in/model/CreateAliasRequest.java:8 | a sequence of three groups yields the first group that has a violation, or the last (empty) one when none has |
| `Text.FirstFailingGroup` | alias/src/main/java/org/cyan/in/model/CreateAliasRequest.java:8 | group-sequence semantics: the result is empty iff every group passes; otherwise it is the violations of the first failing group, and all earlier groups passed |
| `AliasRequestValidation.NameNotBlankGroup` | alias/src/main/java/org/cyan/in/model/CreateAliasRequest.java:12 | `NotBlankGroup` reports at most the blank-name violation, and reports it exactly when the name is null or blank; a name that matches the alphanumeric pattern never fails it |
| `AliasRequestValidation.Validate` | alias/src/main/java/org/cyan/in/model/CreateAliasRequest.java:8-17 | no violation iff the password is non-blank and the name is a non-empty ASCII alphanumeric word. A blank password gives only the password message. Otherwise a blank or null name gives only the blank-name message, and a non-blank name outside the pattern gives only the pattern message. At most one message is reported |
| `AliasRequestValidation.ValidateFollowsGroupSequence` | alias/src/main/java/org/cyan/in/model/CreateAliasRequest.java:8 | the validator's result is the group sequence (default group with the password, then the name's not-blank group, then its pattern group) |
| `AliasRequestValidation.BlankNameNeverReportsPattern` | alias/src/main/java/org/cyan/in/model/CreateAliasRequest.java:8-13 | a blank name never also reports the pattern message, and with a good password it reports the blank-name message |
| `AliasRequestValidation.BlankNameExamples` | alias/src/test/java/org/cyan/in/AliasControllerTest.java:59-84 | a null name and an empty name each give exactly "Alias name cannot be null or blank" |
| `AliasRequestValidation.SpecialCharacterExample` | alias/src/test/java/org/cyan/in/AliasControllerTest.java:85-97 | "Invalid@Name!" gives exactly "Alias name can only contain letters and numbers" |
| `AliasRequestValidation.EmptyPasswordExample` | alias/src/test/java/org/cyan/in/AliasControllerTest.java:98-109 | an empty password gives exactly the violation "Alias password cannot be null or blank" |
| `AliasRequestValidation.MissingPasswordExample` | alias/src/test/java/org/cyan/in/AliasControllerTest.java:111-122 | a null password gives exactly the violation "Alias password cannot be null or blank" |
| `AliasRequestValidation.ValidExample` | alias/src/test/java/org/cyan/in/AliasControllerTest.java:29-41 | "JohnDoe123" with "password" has no violations |
| `AccountRequestValidation.Validate` | account/src/main/java/org/cyan/in/model/AccountRequest.java:17-30 | no violation iff the alias is an ASCII alphanumeric word, the bank name is non-blank with a Java length (UTF-16 code units) ≥ 2, and the balance is present and ≥ 0. A blank bank name gives exactly "Bank name is required". A non-blank bank name whose Java length is below 2 gives exactly the length message. Once both bank-name groups pass, only alias and balance messages can appear, each exactly when its constraint fails: "Alias is required" iff the alias is null or blank; the pattern message iff a non-null alias is not alphanumeric; "Balance is required" iff the balance is null; "Balance must be non-negative" iff it is negative |
| `AccountRequestValidation.SecondGroup` | account/src/main/java/org/cyan/in/model/AccountRequest.java:25 | `@Size(min = 2)` reports at most the length violation. It accepts null and any bank name of two or more characters, and rejects the empty string. For a name with no character above U+FFFF it passes iff there are at least two characters |
| `AccountRequestValidation.SupplementaryBankNameExample` | account/src/main/java/org/cyan/in/model/AccountRequest.java:24-25 | a bank name of the single character U+1F600 has Java length 2 and is accepted, so the whole request is valid |
| `AccountRequestValidation.DefaultGroup` | account/src/main/java/org/cyan/in/model/AccountRequest.java:20-30 | the default group reports only alias and balance violations, each exactly when its constraint fails (null counts as passing for the pattern and the minimum), and nothing iff the alias is an alphanumeric word and the balance is present and ≥ 0 |
| `AccountRequestValidation.ValidateFollowsGroupSequence` | account/src/main/java/org/cyan/in/model/AccountRequest.java:17 | the validator's result is the group sequence (`First`, `Second`, default) |
| `AccountRequestValidation.DefaultGroupRunsLast` | account/src/main/java/org/cyan/in/model/AccountRequest.java:17-30 | any alias or balance message implies that both bank-name groups passed |
| `AccountRequestValidation.BlankBankNameIsReportedAlone` | account/src/main/java/org/cyan/in/model/AccountRequest.java:17-24 | a blank bank name gives exactly one violation, never the length or alias-pattern message |
| `AccountRequestValidation.EmptyBankNameExample` | account/src/test/java/org/cyan/in/AccountControllerTest.java:95-104 | ("Alias123", "", 10) gives exactly {"Bank name is required"} |
| `AccountRequestValidation.BadAliasExample` | account/src/test/java/org/cyan/in/AccountControllerTest.java:72-81 | alias "bad*alias" reports "Alias must contain only letters and numbers" |
| `AccountRequestValidation.NegativeBalanceExample` | account/src/test/java/org/cyan/in/AccountControllerTest.java:117-126 | balance -5 reports "Balance must be non-negative" |
| `AccountRequestValidation.ValidExample` | account/src/test/java/org/cyan/in/AccountControllerTest.java:42-56 | ("validAlias", "Chase", 100) has no violations |
| `AliasService.ExistsByName` | alias/src/main/java/org/cyan/core/data/AliasRepository.java:12 | `existsByName` is true exactly when some row carries the name (its set of matching ids is non-empty) |
| `AliasService.Insert` | alias/src/main/java/org/cyan/core/service/AliasService.java:29 | `save` of a new alias stores it under the next identity value, which then advances, and publishes nothing. In a valid table that id was unused, the table stays valid, and every existing row is unchanged |
| `AliasService.SendAliasRegisteredEvent` | alias/src/main/java/org/cyan/core/event/KafkaProducerService.java:16-19 | exactly one message is appended, on "alias-created-topic", carrying the alias's id and name. Earlier messages and the alias table are unchanged |
| `AliasService.CreateAlias` | alias/src/main/java/org/cyan/core/service/AliasService.java:21-34 | fails with DuplicateAlias("Alias name already exists") iff the name is already registered. On success exactly one row is added under a fresh id, with the given name and password. Existing rows are unchanged, and the name then has exactly one row. Exactly one message is appended: on "alias-created-topic", carrying the new row's id and the name. The store invariant and the one-alias-per-name invariant are preserved |
| `AliasService.SecondRegistrationFails` | alias/src/main/java/org/cyan/core/service/AliasService.java:24-26 | after a successful registration, registering the same name again fails, whatever the password |
| `AliasService.RegisterAllKeepsNamesUnique` | alias/src/main/java/org/cyan/core/service/AliasService.java:24-29 | any sequence of registrations keeps at most one alias per name. No existing row is lost or changed. Every requested name is registered at the end |
| `AccountData.Insert` | account/src/main/java/org/cyan/core/event/EventListener.java:50 | `save` of a new account stores exactly the given alias, bank name and balance under the next identity value, which was unused and then advances. Existing rows and published events are unchanged, and the table stays valid |
| `EventListener.PublishAccountEvent` | account/src/main/java/org/cyan/core/event/EventListener.java:57-65 | rows are unchanged and exactly one message is appended: on "account-events-topic", with the account's id and the given event type |
| `EventListener.ProcessAliasCreation` | account/src/main/java/org/cyan/core/event/EventListener.java:38-55 | no account for the alias: exactly one row is added (alias, "Default Bank", balance 0) under a fresh id, and exactly one CREATED event names that id. One account: the store is returned unchanged. Several: findByAlias fails. On success the alias has exactly one account, and the rows of other aliases and all existing rows are untouched |
| `EventListener.ListenAliasCreatedEvent` | account/src/main/java/org/cyan/core/event/EventListener.java:27-37 | always returns a store, because errors are swallowed. On a processing failure the store is unchanged. Otherwise the alias ends with exactly one account. Existing rows are kept |
| `EventListener.ListenIsIdempotent` | account/src/main/java/org/cyan/core/event/EventListener.java:42-54 | processing the same event twice gives the same rows and published events as processing it once |
| `EventListener.RedeliveryIsIdempotent` | account/src/main/java/org/cyan/core/event/EventListener.java:27-55 | delivering the same event n ≥ 1 times has exactly the effect of one delivery |
| `EventListener.ListenerTestExamples` | account/src/test/java/org/cyan/core/event/EventListenerTest.java:32-75 | a new alias yields account 1 ("new-alias", "Default Bank", 0) and one CREATED event. An alias that already has an account changes nothing |
| `AccountService.MapToDto` | account/src/main/java/org/cyan/core/service/AccountService.java:69-76 | the response copies the row's id, alias, bank name and balance, and it is the only response that does |
| `AccountService.CreateAccount` | account/src/main/java/org/cyan/core/service/AccountService.java:27-41 | adds one row under a fresh id, with the request's alias and bank name. Its balance is the request's balance, or 0 when that is null. Other rows are unchanged. One CREATED event names the new id. The response mirrors the saved row |
| `AccountService.GetAccountById` | account/src/main/java/org/cyan/core/service/AccountService.java:43-49 | AccountNotFound(id) iff no row has the id; otherwise the row's id, alias, bank name and balance |
| `AccountService.UpdateAccount` | account/src/main/java/org/cyan/core/service/AccountService.java:51-66 | AccountNotFound(id) iff no row has the id. Otherwise bank name and balance come from the request (a null balance is stored as null). The id and alias are kept. No other row changes, and no row is added. Exactly one UPDATED event names the id. The response mirrors the row |
| `AccountService.GetAfterCreate` | account/src/main/java/org/cyan/core/service/AccountService.java:27-49 | reading a created account back by its id returns exactly the creation response |
| `AccountService.GetAfterUpdate` | account/src/main/java/org/cyan/core/service/AccountService.java:51-76 | reading an updated account back returns exactly the update response |
| `AccountService.UpdateTwiceSameRows` | account/src/main/java/org/cyan/core/service/AccountService.java:53-63 | repeating an update leaves the same rows and publishes one more event |
| `AccountService.CreatedAccountBlocksProvisioning` | account/src/main/java/org/cyan/core/event/EventListener.java:42-54 | after createAccount for an alias that had no account, an alias-created event for it changes nothing |
| `AccountService.ServiceTestExamples` | account/src/test/java/org/cyan/core/service/AccountServiceTest.java:35-78 | a null balance is stored and returned as 0; a balance of 1000 as 1000 |
| `LedgerStore.UpdateBalance` | transactions/src/main/java/org/cyan/core/data/AccountRepository.java:10-12 | the count is 1 iff the account exists and its balance is ≥ amount; otherwise it is 0 and nothing changes. On 1 that balance drops by exactly amount and stays ≥ 0. No other row changes, and no row is added or removed |
| `LedgerStore.UpdateBalanceTotal` | transactions/src/main/java/org/cyan/core/data/AccountRepository.java:11 | the sum of all balances drops by amount when a row changes, and is unchanged otherwise |
| `LedgerStore.TotalRemove` | transactions/src/main/java/org/cyan/core/data/AccountRepository.java:11 | the sum of all balances is any one balance plus the sum of the rest |
| `LedgerStore.Move` | transactions/src/main/java/org/cyan/core/service/TransactionService.java:39-40 | debit then credit: for distinct accounts the sender drops and the recipient rises by exactly amount, a self-transfer changes nothing, and no other balance or key changes |
| `LedgerStore.MoveConservesTotal` | transactions/src/main/java/org/cyan/core/service/TransactionService.java:39-40 | the debit-then-credit leaves the sum of all balances unchanged |
| `TransactionService.TransferFunds` | transactions/src/main/java/org/cyan/core/service/TransactionService.java:21-46 | an unknown sender gives AliasNotFound("Alias '<from>' not found"), whatever the recipient. A known sender with an unknown recipient gives AliasNotFound("Recipient alias '<to>' not found"). Insufficient funds give InsufficientFunds. Success happens iff both are known and the balance covers amount. On success, for two distinct accounts, the sender drops by exactly amount and stays ≥ 0, the recipient rises by exactly amount, and their sum is kept. A self-transfer leaves the balances as they were. All other balances and the alias table are unchanged. Exactly one message, (from, to, amount) on "transactions", is appended |
| `TransactionService.TransferConservesTotal` | transactions/src/main/java/org/cyan/core/service/TransactionService.java:39-43 | a successful transfer leaves the sum of all balances unchanged |
| `TransactionService.ConditionalDebitMatchesTransfer` | transactions/src/main/java/org/cyan/core/service/TransactionService.java:34-40 | the guarded updateBalance debits exactly when transferFunds succeeds. Crediting the recipient afterwards gives the same balances as the transfer |
| `TransactionService.TransferTestExample` | transactions/src/test/java/org/cyan/core/service/TransactionServiceTest.java:44-60 | Alice 100, Bob 50, transfer 30: the balances become 70 and 80, with one message |
| `TransactionService.NegativeAmountOverdrawsRecipient` | transactions/src/main/java/org/cyan/core/service/TransactionService.java:34-40 | as written, two empty accounts and amount -10 succeed and leave the recipient at -10 |
| `TransactionService.Transfer` | transactions/src/main/java/org/cyan/core/service/TransactionService.java:22-46 | the corrected transfer rejects amount ≤ 0 with InvalidAmount. Otherwise it equals transferFunds. A success keeps every balance non-negative when every balance was non-negative before |
| `TransactionService.RunTransfersConserves` | transactions/src/main/java/org/cyan/core/service/TransactionService.java:34-43 | any sequence of corrected transfers keeps the sum of all balances, and keeps every balance non-negative if it started so |

## Left out

- Kafka wiring and delivery. A published message is only appended to a sequence, and a failed send is not modelled.
- The text of the transfer message. "Transfer: <from> to <to> amount: <amount>" is kept as its three fields, because Java's `Double.toString` formatting of the amount is not modelled.
- Controllers, HTTP status codes and the exception handlers. They only map results to responses.
- JPA: `@Transactional` rollback, the `@Cacheable`/`@CacheEvict` cache, and persistence-time entity validation. Each operation is applied whole or not at all.
- Storage failures. The only processing error modelled is `findByAlias` matching more than one account.
- Concurrency. The check-then-insert in `createAlias` and the read-modify-write in `transferFunds` are modelled as sequential steps. Nothing is claimed about interleavings.
- Floating point. `double` and `BigDecimal` amounts are exact `real`s, and the 64-bit `Long` ids are unbounded `nat`s.
- Passwords are stored as given. Hashing is not part of this model.
- Java `null` alias names passed to `transferFunds` and `null` aliases in alias-created events are not modelled. `TransactionController.transferFunds` has no `@Valid`, so a JSON `null` `fromAlias` or `toAlias` does reach the service. The event's alias comes from Kafka JSON. Both end in a repository lookup by `null`, whose result is Spring Data's and not part of this model. (A `null` alias name never reaches `createAlias`: `@Valid` on the alias controller rejects it first. Null request fields are modelled in both validators.)
- TransactionService.TransferFunds: requires that no missing account is read, because the source throws a NullPointerException when an alias has no account.
- TransactionService.TransferFunds: alias names are assumed unique in the transactions database (`accountOf` maps each name to one account). The transactions `Alias` entity declares no unique constraint on `name`, and `findByName` fails when two rows match; that duplicate-name lookup failure is not modelled.
- AliasService.CreateAlias: requires that every row is stored under its own id, below the next identity value. This is the invariant the database's identity column keeps.
- The account service's `Account` entity and `AccountRepository` are modelled only through `AccountData`'s table: `AccountData.Insert` stands for `save` of a new account and `AccountData.AccountsFor` for what `findByAlias` matches; the entity's source is not part of this model. The model assumes no uniqueness constraint on the account alias, because `createAccount` does not check for one.
- The alias service publishes `{name, id}`. The account service consumes an `AliasCreatedEvent` whose class is not part of this model, so the wiring between the two services is not modelled.
- `updateBalance` is never called by `transferFunds`. It is modelled on its own, and `ConditionalDebitMatchesTransfer` relates the two.

## Findings

| source | as written | input that shows it | evidently intended | confidence | as-written member | corrected member |
|---|---|---|---|---|---|---|
| transactions/src/main/java/org/cyan/core/service/TransactionService.java:22-40 | the sign of `amount` is never checked, so a negative amount passes `balance < amount` and moves money from the recipient to the sender | sender 0, recipient 0, amount -10: the call succeeds and the recipient's balance is -10 | reject amount ≤ 0 before moving money, so that no balance goes negative | medium, not executed | `TransactionService.NegativeAmountOverdrawsRecipient` | `TransactionService.Transfer` |
