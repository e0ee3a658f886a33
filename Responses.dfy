/**
 * The response the eligibility service returns and caches (AddressEligibilityResponse.java).
 * `checkedAt` and `processingTimeMs` carry wall-clock readings and are not modelled.
 */
module Responses {
  import opened Options

  /** The address block of a response; nullable fields are `Option`s. */
  datatype AddressDetails = AddressDetails(
    streetAddress: string,
    streetAddress2: Option<string>,
    city: string,
    state: string,
    zipCode: string,
    country: Option<string>,
    formattedAddress: string,
    latitude: Option<real>,
    longitude: Option<real>)

  /**
   * `reason` is null when the caller asked for no reason; `matchedZones` and
   * `confidenceScore` are null on a response rebuilt from a stored address.
   */
  datatype AddressEligibilityResponse = AddressEligibilityResponse(
    eligible: bool,
    reason: Option<string>,
    address: AddressDetails,
    matchedZones: Option<seq<string>>,
    confidenceScore: Option<real>,
    cacheHit: bool)
}
