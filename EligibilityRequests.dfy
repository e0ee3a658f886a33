/**
 * The structured eligibility request (AddressEligibilityRequest.java): its fields, the
 * builder's defaults and the bean-validation constraints the `/check` endpoint applies
 * through `@Valid`. Validation is a predicate here, not a precondition of the service:
 * the `/eligibility_check` endpoint builds requests that fail it and calls the service anyway.
 */
module EligibilityRequests {
  import opened Options
  import opened JavaStrings

  /**
   * `streetAddress`, `city`, `state` and `zipCode` are never null on any path that reaches
   * the service; the optional fields are `None` when null.
   */
  datatype AddressEligibilityRequest = AddressEligibilityRequest(
    streetAddress: string,
    streetAddress2: Option<string>,
    city: string,
    state: string,
    zipCode: string,
    country: Option<string>,
    latitude: Option<real>,
    longitude: Option<real>,
    checkCoordinates: bool,
    includeReason: bool)

  const DefaultCountry := "USA"

  /** `AddressEligibilityRequest.builder()` with only the four required fields set. */
  function Build(streetAddress: string, city: string, state: string, zipCode: string)
    : (r: AddressEligibilityRequest)
    ensures r.country == Some("USA") && !r.checkCoordinates && r.includeReason
    ensures r.streetAddress2.None? && r.latitude.None? && r.longitude.None?
    ensures r.streetAddress == streetAddress && r.city == city
    ensures r.state == state && r.zipCode == zipCode
  {
    AddressEligibilityRequest(streetAddress, None, city, state, zipCode,
                              Some(DefaultCountry), None, None, false, true)
  }

  /** `@NotBlank`: at least one character that `trim` would keep. */
  predicate NotBlank(s: string) {
    !IsBlank(s)
  }

  predicate IsDigit(c: char) {
    '0' <= c <= '9'
  }

  predicate AllDigits(s: string) {
    forall i :: 0 <= i < |s| ==> IsDigit(s[i])
  }

  /** `@Pattern(regexp = "^\\d{5}(-\\d{4})?$")`, read group by group. */
  predicate MatchesZipPattern(zip: string) {
    && |zip| >= 5
    && AllDigits(zip[..5])
    && (|zip| == 5 || (zip[5] == '-' && |zip[6..]| == 4 && AllDigits(zip[6..])))
  }

  /** All constraints on the request's fields; the optional fields are unconstrained. */
  predicate IsValid(r: AddressEligibilityRequest) {
    && NotBlank(r.streetAddress)
    && NotBlank(r.city)
    && NotBlank(r.state)
    && NotBlank(r.zipCode)
    && MatchesZipPattern(r.zipCode)
  }

  /** A valid ZIP is five digits, or five digits, a hyphen and four digits. */
  lemma ZipShape(zip: string)
    ensures MatchesZipPattern(zip) <==>
      || (|zip| == 5 && AllDigits(zip))
      || (|zip| == 10 && AllDigits(zip[..5]) && zip[5] == '-' && AllDigits(zip[6..]))
  {
    if |zip| == 5 {
      assert zip[..5] == zip;
    }
  }

  /** A valid request has a ZIP of exactly 5 or 10 characters. */
  lemma ValidZipLength(r: AddressEligibilityRequest)
    requires IsValid(r)
    ensures |r.zipCode| == 5 || |r.zipCode| == 10
  {
  }

  /**
   * The request the `/eligibility_check` endpoint builds (empty city and state, ZIP "00000")
   * fails validation, so the service cannot assume a valid request.
   */
  lemma ControllerRequestIsNotValid(address: string)
    ensures !IsValid(Build(address, "", "", "00000"))
  {
    var r := Build(address, "", "", "00000");
    assert !NotBlank(r.city);
  }
}
