/**
 * Property eligibility (PropertyEligibilityService.java): the formatted address produced by
 * the lookup is judged by the region directory, and the answer is a small result map with a
 * message, the address when it is eligible, and optionally a reason.
 */
module PropertyEligibility {
  import opened Options
  import opened RegionsConfig
  import opened RegionEligibility

  const MessageEligible := "address_eligible"
  const MessageNotEligible := "address not eligible"
  const MessageNotFound := "address not found"
  const MissingAddressReason := "Address information is missing or incomplete"

  /**
   * The result map: "message" is always present; "formatted_address" and "reason" are
   * present exactly when the option holds a value.
   */
  datatype PropertyResult = PropertyResult(
    message: string,
    formattedAddress: Option<map<string, string>>,
    reason: Option<string>)

  /** A null or empty formatted address: nothing to judge. */
  predicate IsMissing(formattedAddress: Option<map<string, string>>) {
    formattedAddress.None? || formattedAddress.value == map[]
  }

  /** The directory's verdict on the "city", "county" and "state" entries of the map. */
  function Verdict(config: EligibleRegionsConfig, address: map<string, string>): bool {
    IsAddressEligible(config, Get(address, "city"), Get(address, "county"), Get(address, "state"))
  }

  /**
   * `checkEligibility`: "address not found" alone for a missing address; otherwise
   * "address_eligible" with the address itself, or "address not eligible" alone.
   */
  function CheckEligibility(config: EligibleRegionsConfig, formattedAddress: Option<map<string, string>>)
    : (r: PropertyResult)
    ensures r.reason.None?
    ensures IsMissing(formattedAddress) <==> r.message == MessageNotFound
    ensures IsMissing(formattedAddress) ==> r.formattedAddress.None?
    ensures !IsMissing(formattedAddress) ==>
      (r.message == MessageEligible <==> Verdict(config, formattedAddress.value))
    ensures r.formattedAddress.Some? <==> r.message == MessageEligible
    ensures r.formattedAddress.Some? ==> r.formattedAddress == formattedAddress
  {
    if IsMissing(formattedAddress) then PropertyResult(MessageNotFound, None, None)
    else if Verdict(config, formattedAddress.value) then
      PropertyResult(MessageEligible, formattedAddress, None)
    else PropertyResult(MessageNotEligible, None, None)
  }

  /**
   * `checkEligibilityWithReason`: as `checkEligibility`, but the verdict comes with the
   * directory's explanation, and a missing address gets a fixed reason of its own.
   */
  function CheckEligibilityWithReason(config: EligibleRegionsConfig,
                                      formattedAddress: Option<map<string, string>>)
    : (r: PropertyResult)
    ensures r.reason.Some?
    ensures IsMissing(formattedAddress) ==>
      r == PropertyResult(MessageNotFound, None, Some(MissingAddressReason))
    ensures !IsMissing(formattedAddress) ==>
      var a := formattedAddress.value;
      var check := RegionEligibility.CheckEligibilityWithReason(config, Get(a, "city"), Get(a, "county"),
                                                                Get(a, "state"));
      && r.reason == Some(check.reason)
      && (r.message == MessageEligible <==> check.eligible)
      && (r.message == MessageNotEligible <==> !check.eligible)
      && (r.formattedAddress.Some? <==> check.eligible)
      && (r.formattedAddress.Some? ==> r.formattedAddress == formattedAddress)
  {
    if IsMissing(formattedAddress) then PropertyResult(MessageNotFound, None, Some(MissingAddressReason))
    else
      var a := formattedAddress.value;
      var check := RegionEligibility.CheckEligibilityWithReason(config, Get(a, "city"), Get(a, "county"),
                                                                Get(a, "state"));
      if check.eligible then PropertyResult(MessageEligible, formattedAddress, Some(check.reason))
      else PropertyResult(MessageNotEligible, None, Some(check.reason))
  }

  /** Asking for the reason changes nothing but the reason: same message, same address. */
  lemma ReasonOnlyAddsReason(config: EligibleRegionsConfig, formattedAddress: Option<map<string, string>>)
    ensures CheckEligibilityWithReason(config, formattedAddress).message ==
            CheckEligibility(config, formattedAddress).message
    ensures CheckEligibilityWithReason(config, formattedAddress).formattedAddress ==
            CheckEligibility(config, formattedAddress).formattedAddress
  {
  }

  /** An address whose state has no configured key is never eligible, and the reason says so. */
  lemma UnconfiguredStateIsExplained(config: EligibleRegionsConfig, address: map<string, string>)
    requires address != map[]
    requires NormalizeState(Get(address, "state")) !in EligibleStates(config)
    ensures CheckEligibility(config, Some(address)).message == MessageNotEligible
    ensures CheckEligibilityWithReason(config, Some(address)).reason ==
            Some(StateNotConfiguredReason(Get(address, "state")))
  {
    UnconfiguredStateIsNeverEligible(config, Get(address, "city"), Get(address, "county"), Get(address, "state"));
  }

  /** Only the "city", "county" and "state" entries matter: other entries never change the message. */
  lemma OnlyRegionEntriesMatter(config: EligibleRegionsConfig, address: map<string, string>, key: string,
                                value: string)
    requires address != map[]
    requires key != "city" && key != "county" && key != "state"
    ensures CheckEligibility(config, Some(address[key := value])).message ==
            CheckEligibility(config, Some(address)).message
  {
    assert Get(address[key := value], "city") == Get(address, "city");
    assert Get(address[key := value], "county") == Get(address, "county");
    assert Get(address[key := value], "state") == Get(address, "state");
  }
}
