/** The usual Some/None wrapper, standing for a C string pointer that may be null. */
module Wrappers {
  datatype Option<T> = None | Some(value: T)
}

/** The string validation helpers of `impl` (utils.hpp). */
module Utils {
  import opened Wrappers

  /** The domain used when none is given. */
  const LOCAL_DOMAIN: string := "local."

  /** `validate_name`: the name is taken as it is. */
  function ValidateName(name: string): (r: string)
    ensures r == name
  {
    name
  }

  /** `validate_regtype`: the service type is taken as it is. */
  function ValidateRegtype(regtype: string): (r: string)
    ensures r == regtype
  {
    regtype
  }

  /** `validate_domain`: a null or empty domain becomes "local.", any other is kept. */
  function ValidateDomain(domain: Option<string>): (r: string)
    ensures domain == None ==> r == LOCAL_DOMAIN
    ensures domain == Some("") ==> r == LOCAL_DOMAIN
    ensures domain.Some? && domain.value != "" ==> r == domain.value
    ensures r != ""
  {
    if domain.None? || domain.value == "" then LOCAL_DOMAIN else domain.value
  }

  /** Validating an already validated domain changes nothing. */
  lemma ValidateDomainIdempotent(domain: Option<string>)
    ensures ValidateDomain(Some(ValidateDomain(domain))) == ValidateDomain(domain)
  {
  }
}
