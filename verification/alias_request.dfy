/**
  Validation of the alias service's `CreateAliasRequest`. The class redefines
  its default group sequence as (its own default group, `NotBlankGroup`,
  `PatternGroup`), so at most one of the three messages is ever reported.
 */
module AliasRequestValidation {
  import opened Outcome
  import opened Text

  /** The request body of `POST /api/alias`; `None` is a JSON `null` or a missing field. */
  datatype CreateAliasRequest = CreateAliasRequest(name: Option<string>, password: Option<string>)

  /** A constraint violation, one per annotation; `Message` is the text it reports. */
  datatype Violation = NameBlank | NamePattern | PasswordBlank
  {
    function Message(): string {
      match this
      case NameBlank => "Alias name cannot be null or blank"
      case NamePattern => "Alias name can only contain letters and numbers"
      case PasswordBlank => "Alias password cannot be null or blank"
    }
  }

  /** The default group: `@NotBlank` on the password. */
  function DefaultGroup(req: CreateAliasRequest): set<Violation> {
    if NotBlank(req.password) then {} else {PasswordBlank}
  }

  /** `NotBlankGroup`: `@NotBlank` on the name. */
  function NameNotBlankGroup(req: CreateAliasRequest): (r: set<Violation>)
    ensures r <= {NameBlank}
    ensures r == {} <==> NotBlank(req.name)
    ensures req.name.Some? && IsAlnumWord(req.name.value) ==> r == {}
  {
    AlnumPatternAcceptance(req.name);
    if NotBlank(req.name) then {} else {NameBlank}
  }

  /** `PatternGroup`: `@Pattern(regexp = "^[a-zA-Z0-9]+$")` on the name. */
  function NamePatternGroup(req: CreateAliasRequest): set<Violation> {
    if MatchesAlnumPattern(req.name) then {} else {NamePattern}
  }

  /** The set of violations the validator reports for `req`. */
  function Validate(req: CreateAliasRequest): (violations: set<Violation>)
    ensures violations == {} <==> NotBlank(req.password) && req.name.Some? && IsAlnumWord(req.name.value)
    ensures !NotBlank(req.password) ==> violations == {PasswordBlank}
    ensures NotBlank(req.password) && !NotBlank(req.name) ==> violations == {NameBlank}
    ensures (NotBlank(req.password) && NotBlank(req.name) && !IsAlnumWord(req.name.value))
            ==> violations == {NamePattern}
    ensures |violations| <= 1
  {
    if DefaultGroup(req) != {} then DefaultGroup(req)
    else if NameNotBlankGroup(req) != {} then NameNotBlankGroup(req)
    else NamePatternGroup(req)
  }

  /** `Validate` is the group sequence (default, `NotBlankGroup`, `PatternGroup`) run in order. */
  lemma ValidateFollowsGroupSequence(req: CreateAliasRequest)
    ensures Validate(req) == FirstFailingGroup([DefaultGroup(req), NameNotBlankGroup(req), NamePatternGroup(req)])
  {
    FirstFailingOfThree(DefaultGroup(req), NameNotBlankGroup(req), NamePatternGroup(req));
  }

  /** A blank name is reported once, never together with the pattern message. */
  lemma BlankNameNeverReportsPattern(req: CreateAliasRequest)
    requires !NotBlank(req.name)
    ensures NamePattern !in Validate(req)
    ensures NotBlank(req.password) ==> NameBlank in Validate(req)
  {
  }

  /** Missing and empty names are reported as blank (controller tests). */
  lemma BlankNameExamples()
    ensures Validate(CreateAliasRequest(None, Some("password"))) == {NameBlank}
    ensures Validate(CreateAliasRequest(Some(""), Some("password"))) == {NameBlank}
  {
    PrintableStartIsNotBlank("password");
  }

  /** A name with punctuation is reported by the pattern group (controller test). */
  lemma SpecialCharacterExample()
    ensures Validate(CreateAliasRequest(Some("Invalid@Name!"), Some("password"))) == {NamePattern}
  {
    PrintableStartIsNotBlank("password");
    PrintableStartIsNotBlank("Invalid@Name!");
    assert !IsAsciiAlnum("Invalid@Name!"[7]);
  }

  /** An empty password is reported first (controller test). */
  lemma EmptyPasswordExample()
    ensures Validate(CreateAliasRequest(Some("JohnDoe123"), Some(""))) == {PasswordBlank}
  {
  }

  /** A missing password is reported first (controller test). */
  lemma MissingPasswordExample()
    ensures Validate(CreateAliasRequest(Some("JohnDoe123"), None)) == {PasswordBlank}
  {
  }

  /** A well-formed request passes (controller test). */
  lemma ValidExample()
    ensures Validate(CreateAliasRequest(Some("JohnDoe123"), Some("password"))) == {}
  {
    PrintableStartIsNotBlank("password");
    assert IsAlnumWord("JohnDoe123");
  }
}
