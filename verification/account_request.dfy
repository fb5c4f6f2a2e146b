/**
  Validation of the account service's `AccountRequest`. Its group sequence is
  (`First`, `Second`, the default group): the bank name's `@NotBlank` runs
  alone first, then its `@Size(min = 2)`, and only when both pass are the
  alias and balance constraints checked, all together.
 */
module AccountRequestValidation {
  import opened Outcome
  import opened Text

  /** The request body of `POST` and `PUT /api/accounts`; `None` is `null`. */
  datatype AccountRequest = AccountRequest(alias: Option<string>, bankName: Option<string>, balance: Option<real>)

  /** A constraint violation, one per annotation; `Message` is the text it reports. */
  datatype Violation = AliasRequired | AliasPattern | BankNameRequired | BankNameShort | BalanceRequired | BalanceNegative
  {
    function Message(): string {
      match this
      case AliasRequired => "Alias is required"
      case AliasPattern => "Alias must contain only letters and numbers"
      case BankNameRequired => "Bank name is required"
      case BankNameShort => "Bank name must be at least 2 characters long"
      case BalanceRequired => "Balance is required"
      case BalanceNegative => "Balance must be non-negative"
    }
  }

  /** The smallest bank-name length `@Size` accepts. */
  const MinBankNameLength := 2

  /** Group `First`: `@NotBlank` on the bank name. */
  function FirstGroup(req: AccountRequest): set<Violation> {
    if NotBlank(req.bankName) then {} else {BankNameRequired}
  }

  /**
    Group `Second`: `@Size(min = 2)` on the bank name, measured as Java's
    `length()` in UTF-16 code units; `@Size` accepts `null`.
   */
  function SecondGroup(req: AccountRequest): (r: set<Violation>)
    ensures r <= {BankNameShort}
    ensures req.bankName.None? ==> r == {}
    ensures req.bankName.Some? && |req.bankName.value| >= MinBankNameLength ==> r == {}
    ensures req.bankName.Some? && |req.bankName.value| == 0 ==> r == {BankNameShort}
    ensures req.bankName.Some? && (forall i :: 0 <= i < |req.bankName.value| ==> req.bankName.value[i] <= '\U{FFFF}')
            ==> (r == {} <==> |req.bankName.value| >= MinBankNameLength)
  {
    if req.bankName.None? || Utf16Length(req.bankName.value) >= MinBankNameLength then {} else {BankNameShort}
  }

  /**
    The default group: `@NotBlank` and `@Pattern` on the alias, `@NotNull` and
    `@DecimalMin("0.0")` (inclusive) on the balance. `@Pattern` and
    `@DecimalMin` accept `null`.
   */
  function DefaultGroup(req: AccountRequest): (r: set<Violation>)
    ensures r <= {AliasRequired, AliasPattern, BalanceRequired, BalanceNegative}
    ensures AliasRequired in r <==> !NotBlank(req.alias)
    ensures AliasPattern in r <==> req.alias.Some? && !IsAlnumWord(req.alias.value)
    ensures BalanceRequired in r <==> req.balance.None?
    ensures BalanceNegative in r <==> req.balance.Some? && req.balance.value < 0.0
    ensures r == {} <==> req.alias.Some? && IsAlnumWord(req.alias.value) && req.balance.Some? && req.balance.value >= 0.0
  {
    AlnumPatternAcceptance(req.alias);
    DefaultViolations(req)
  }

  /** The default group's constraints, each checked on its own. */
  function DefaultViolations(req: AccountRequest): set<Violation> {
    (if NotBlank(req.alias) then {} else {AliasRequired})
    + (if MatchesAlnumPattern(req.alias) then {} else {AliasPattern})
    + (if req.balance.Some? then {} else {BalanceRequired})
    + (if req.balance.None? || req.balance.value >= 0.0 then {} else {BalanceNegative})
  }

  /** The bank name passes both of its groups: not blank, and at least two characters long. */
  predicate BankNamePasses(req: AccountRequest) {
    NotBlank(req.bankName) && Utf16Length(req.bankName.value) >= MinBankNameLength
  }

  /** A request with a well-formed alias, a bank name of two or more characters and a non-negative balance. */
  predicate IsWellFormed(req: AccountRequest) {
    && req.alias.Some? && IsAlnumWord(req.alias.value)
    && BankNamePasses(req)
    && req.balance.Some? && req.balance.value >= 0.0
  }

  /** The set of violations the validator reports for `req`. */
  function Validate(req: AccountRequest): (violations: set<Violation>)
    ensures violations == {} <==> IsWellFormed(req)
    ensures !NotBlank(req.bankName) ==> violations == {BankNameRequired}
    ensures (NotBlank(req.bankName) && Utf16Length(req.bankName.value) < MinBankNameLength)
            ==> violations == {BankNameShort}
    ensures BankNamePasses(req) ==>
              violations <= {AliasRequired, AliasPattern, BalanceRequired, BalanceNegative}
    ensures BankNamePasses(req) ==> (AliasRequired in violations <==> !NotBlank(req.alias))
    ensures BankNamePasses(req) ==>
              (AliasPattern in violations <==> req.alias.Some? && !IsAlnumWord(req.alias.value))
    ensures BankNamePasses(req) ==> (BalanceRequired in violations <==> req.balance.None?)
    ensures BankNamePasses(req) ==>
              (BalanceNegative in violations <==> req.balance.Some? && req.balance.value < 0.0)
  {
    if FirstGroup(req) != {} then FirstGroup(req)
    else if SecondGroup(req) != {} then SecondGroup(req)
    else DefaultGroup(req)
  }

  /** `Validate` is the group sequence (`First`, `Second`, default) run in order. */
  lemma ValidateFollowsGroupSequence(req: AccountRequest)
    ensures Validate(req) == FirstFailingGroup([FirstGroup(req), SecondGroup(req), DefaultGroup(req)])
  {
    FirstFailingOfThree(FirstGroup(req), SecondGroup(req), DefaultGroup(req));
  }

  /** Default-group messages appear only when both bank-name groups pass. */
  lemma DefaultGroupRunsLast(req: AccountRequest)
    requires Validate(req) * {AliasRequired, AliasPattern, BalanceRequired, BalanceNegative} != {}
    ensures BankNamePasses(req)
  {
  }

  /** A blank bank name is the only violation reported, however bad the other fields are. */
  lemma BlankBankNameIsReportedAlone(req: AccountRequest)
    requires !NotBlank(req.bankName)
    ensures |Validate(req)| == 1
    ensures BankNameShort !in Validate(req) && AliasPattern !in Validate(req)
  {
  }

  /** An empty bank name with valid other fields gives exactly the "required" message (controller test). */
  lemma EmptyBankNameExample()
    ensures Validate(AccountRequest(Some("Alias123"), Some(""), Some(10.0))) == {BankNameRequired}
  {
  }

  /** An alias with a `*` in it is rejected by the pattern (controller test). */
  lemma BadAliasExample()
    ensures AliasPattern in Validate(AccountRequest(Some("bad*alias"), Some("Chase"), Some(100.0)))
  {
    PrintableStartIsNotBlank("Chase");
    assert !IsAsciiAlnum("bad*alias"[3]);
  }

  /** A negative balance is rejected (controller test). */
  lemma NegativeBalanceExample()
    ensures BalanceNegative in Validate(AccountRequest(Some("validAlias"), Some("Chase"), Some(-5.0)))
  {
    PrintableStartIsNotBlank("Chase");
  }

  /**
    A single character outside the Basic Multilingual Plane is two UTF-16
    code units, so it meets `@Size(min = 2)`.
   */
  lemma SupplementaryBankNameExample()
    ensures Validate(AccountRequest(Some("validAlias"), Some("\U{1F600}"), Some(1.0))) == {}
  {
    var req := AccountRequest(Some("validAlias"), Some("\U{1F600}"), Some(1.0));
    PrintableStartIsNotBlank("\U{1F600}");
    assert Utf16Length("\U{1F600}") == 2 by {
      assert "\U{1F600}"[1..] == "";
    }
    assert IsAlnumWord("validAlias");
    assert IsWellFormed(req);
  }

  /** The controller tests' valid request passes. */
  lemma ValidExample()
    ensures Validate(AccountRequest(Some("validAlias"), Some("Chase"), Some(100.0))) == {}
  {
    PrintableStartIsNotBlank("Chase");
    assert IsAlnumWord("validAlias");
  }
}
