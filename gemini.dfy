/** services/gemini.ts: the two calls to the vision model, with the model itself
    abstracted as a function from the base64 payload to an outcome. */
module Gemini {

  /** What the ID-card extraction returns. */
  datatype ExtractedId = ExtractedId(studentId: string, name: string, valid: bool)

  /** The two statuses the selfie verification may report. */
  datatype VerdictStatus = VerdictVerified | VerdictRejected

  datatype Verdict = Verdict(status: VerdictStatus, note: string)

  /** One round trip to the model: the request throws (network, missing key, bad
      JSON), the response has no text, or the parsed JSON is returned as is. */
  datatype CallOutcome<T> = CallFailed | EmptyText | Returned(value: T)

  const PngPrefix := "data:image/png;base64,"
  const JpegPrefix := "data:image/jpeg;base64,"
  const JpgPrefix := "data:image/jpg;base64,"

  predicate IsImagePrefix(p: string) {
    p == PngPrefix || p == JpegPrefix || p == JpgPrefix
  }

  predicate StartsWithImagePrefix(s: string) {
    PngPrefix <= s || JpegPrefix <= s || JpgPrefix <= s
  }

  /** The anchored, case-sensitive regex replace `^data:image\/(png|jpeg|jpg);base64,`
      with "": at most one leading prefix is removed. */
  function StripDataUrlPrefix(s: string): (r: string)
    ensures |r| <= |s| && r == s[|s| - |r|..]
    ensures StartsWithImagePrefix(s) <==> r != s
    ensures r != s ==> IsImagePrefix(s[..|s| - |r|])
  {
    if PngPrefix <= s then s[|PngPrefix|..]
    else if JpegPrefix <= s then s[|JpegPrefix|..]
    else if JpgPrefix <= s then s[|JpgPrefix|..]
    else s
  }

  /** Stripping undoes prefixing: whichever prefix is put in front, the payload comes back. */
  lemma StripAfterPrefix(p: string, payload: string)
    requires IsImagePrefix(p)
    ensures StripDataUrlPrefix(p + payload) == payload
  {
    var s := p + payload;
    assert p <= s;
    if p == JpegPrefix {
      assert s[11] == 'j' != PngPrefix[11];
    } else if p == JpgPrefix {
      assert s[11] == 'j' != PngPrefix[11];
      assert s[13] == 'g' != JpegPrefix[13];
    }
    assert s[|p|..] == payload;
  }

  /** Only one prefix is removed, so stripping is not idempotent. */
  lemma StripNotIdempotent()
    ensures StripDataUrlPrefix(StripDataUrlPrefix(PngPrefix + PngPrefix + "AAAA"))
            != StripDataUrlPrefix(PngPrefix + PngPrefix + "AAAA")
  {
    StripAfterPrefix(PngPrefix, PngPrefix + "AAAA");
    assert PngPrefix + PngPrefix + "AAAA" == PngPrefix + (PngPrefix + "AAAA");
    StripAfterPrefix(PngPrefix, "AAAA");
    assert |"AAAA"| < |PngPrefix + "AAAA"|;
  }

  /** The fallback a failed extraction returns. */
  const ExtractionFallback := ExtractedId("UNKNOWN", "Manual Entry Required", false)

  /** extractDetailsFromIDCard: the model sees the stripped payload; a parsed answer is
      passed through unvalidated, and every failure (an empty text included) is caught. */
  function ExtractDetailsFromIdCard(image: string, service: string -> CallOutcome<ExtractedId>): (r: ExtractedId)
    ensures service(StripDataUrlPrefix(image)).Returned? ==> r == service(StripDataUrlPrefix(image)).value
    ensures !service(StripDataUrlPrefix(image)).Returned? ==> r == ExtractionFallback && !r.valid
    ensures r.valid ==> service(StripDataUrlPrefix(image)) == Returned(r)
  {
    match service(StripDataUrlPrefix(image))
    case Returned(v) => v
    case _ => ExtractionFallback
  }

  /** A data URL and its bare payload get the same extraction. */
  lemma ExtractionSeesOnlyPayload(p: string, payload: string, service: string -> CallOutcome<ExtractedId>)
    requires IsImagePrefix(p) && !StartsWithImagePrefix(payload)
    ensures ExtractDetailsFromIdCard(p + payload, service) == ExtractDetailsFromIdCard(payload, service)
  {
    StripAfterPrefix(p, payload);
  }

  /** The fallback a failed verification returns: the check-in is accepted. */
  const VerificationFallback := Verdict(VerdictVerified, "AI Verification unavailable, accepted by default.")

  /** verifySelfie: fails open. */
  function VerifySelfie(selfie: string, service: string -> CallOutcome<Verdict>): (r: Verdict)
    ensures service(StripDataUrlPrefix(selfie)).Returned? ==> r == service(StripDataUrlPrefix(selfie)).value
    ensures !service(StripDataUrlPrefix(selfie)).Returned? ==> r == VerificationFallback
    ensures r.status == VerdictRejected ==> service(StripDataUrlPrefix(selfie)) == Returned(r)
  {
    match service(StripDataUrlPrefix(selfie))
    case Returned(v) => v
    case _ => VerificationFallback
  }

  /** When the model is unreachable no selfie is ever rejected. */
  lemma UnavailableServiceAcceptsAll(selfie: string)
    ensures VerifySelfie(selfie, (_: string) => CallFailed).status == VerdictVerified
  {
  }
}
