/**
 * The usage payload the SLT API returns and how the worker normalises it into the record
 * it stores: parseNullableNumber, transformPayload and the error message recordUsage raises.
 */
module Payload {
  import opened Wrappers

  /** A JavaScript number: a finite value, NaN, or an infinity. */
  datatype JsNumber = Finite(value: real) | NaN | Infinity(negative: bool)

  /** A JSON or database scalar: null or undefined, a number, or a string. */
  datatype Scalar = Nullish | Num(n: JsNumber) | Str(s: string)

  /** The number parseNullableNumber tests for finiteness: a number as it is, a string converted. */
  function AsNumber(v: Scalar, toNumber: string -> JsNumber): JsNumber
    requires !v.Nullish?
  {
    if v.Num? then v.n else toNumber(v.s)
  }

  /**
   * parseNullableNumber: null and undefined give no number; a number is kept and a string is
   * converted with `toNumber` (JavaScript's `Number`); a non-finite result gives no number.
   */
  function ParseNullableNumber(v: Scalar, toNumber: string -> JsNumber): (r: Option<real>)
    ensures v.Nullish? ==> r == None
    ensures r.Some? <==> !v.Nullish? && AsNumber(v, toNumber).Finite?
    ensures r.Some? ==> AsNumber(v, toNumber) == Finite(r.value)
  {
    match v
    case Nullish => None
    case Num(n) => if n.Finite? then Some(n.value) else None
    case Str(s) => var n := toNumber(s); if n.Finite? then Some(n.value) else None
  }

  /** A finite number is returned unchanged, whatever the string conversion does. */
  lemma ParseFiniteNumber(x: real, toNumber: string -> JsNumber)
    ensures ParseNullableNumber(Num(Finite(x)), toNumber) == Some(x)
  {
  }

  /** Parsing the number parseNullableNumber produced gives it back. */
  lemma ParseNullableNumberIdempotent(v: Scalar, toNumber: string -> JsNumber)
    ensures var r := ParseNullableNumber(v, toNumber);
      r.Some? ==> ParseNullableNumber(Num(Finite(r.value)), toNumber) == r
  {
  }

  /** `summary.used` of a package or value-added-service summary. */
  datatype Summary = Summary(used: Scalar)

  /** One entry of `my_package_info.usageDetails`. */
  datatype UsageDetail = UsageDetail(used: Scalar)

  datatype PackageInfo = PackageInfo(packageName: Option<string>, usageDetails: Option<seq<UsageDetail>>)

  datatype DataBundle = DataBundle(
    myPackageSummary: Option<Summary>,
    vasDataSummary: Option<Summary>,
    myPackageInfo: Option<PackageInfo>)

  /** The JSON body of a usage-summary response; both spellings of the error field occur. */
  datatype UsagePayload = UsagePayload(
    isSuccess: bool,
    dataBundle: Option<DataBundle>,
    errorMessage: Option<string>,
    errorMessege: Option<string>)

  /** The row recordUsage inserts into the usage log. */
  datatype UsageRecord = UsageRecord(
    timestamp: string,
    packageName: Option<string>,
    usedGb: Option<real>,
    vasUsedGb: Option<real>,
    raw: UsagePayload)

  /** `payload.dataBundle?.my_package_summary?.used`. */
  function UsedSummary(p: UsagePayload): Scalar {
    if p.dataBundle.Some? && p.dataBundle.value.myPackageSummary.Some?
    then p.dataBundle.value.myPackageSummary.value.used else Nullish
  }

  /** `payload.dataBundle?.vas_data_summary?.used`. */
  function VasSummary(p: UsagePayload): Scalar {
    if p.dataBundle.Some? && p.dataBundle.value.vasDataSummary.Some?
    then p.dataBundle.value.vasDataSummary.value.used else Nullish
  }

  /** `payload.dataBundle?.my_package_info?.usageDetails?.[0]?.used`. */
  function FallbackUsage(p: UsagePayload): Scalar {
    if p.dataBundle.Some? && p.dataBundle.value.myPackageInfo.Some?
       && p.dataBundle.value.myPackageInfo.value.usageDetails.Some?
       && |p.dataBundle.value.myPackageInfo.value.usageDetails.value| > 0
    then p.dataBundle.value.myPackageInfo.value.usageDetails.value[0].used else Nullish
  }

  /** `payload.dataBundle?.my_package_info?.package_name ?? null`. */
  function PackageNameOf(p: UsagePayload): Option<string> {
    if p.dataBundle.Some? && p.dataBundle.value.myPackageInfo.Some?
    then p.dataBundle.value.myPackageInfo.value.packageName else None
  }

  /**
   * transformPayload: the record stamped `now`, keeping the raw payload. The used volume is
   * the package summary's, or else that of the first usage detail; the value-added-service
   * volume is the service summary's with no fallback.
   */
  function TransformPayload(p: UsagePayload, now: string, toNumber: string -> JsNumber): (r: UsageRecord)
    ensures r.timestamp == now && r.raw == p && r.packageName == PackageNameOf(p)
    ensures ParseNullableNumber(UsedSummary(p), toNumber).Some? ==>
      r.usedGb == ParseNullableNumber(UsedSummary(p), toNumber)
    ensures ParseNullableNumber(UsedSummary(p), toNumber).None? ==>
      r.usedGb == ParseNullableNumber(FallbackUsage(p), toNumber)
    ensures r.vasUsedGb == ParseNullableNumber(VasSummary(p), toNumber)
  {
    var usedGb := ParseNullableNumber(UsedSummary(p), toNumber);
    UsageRecord(
      now,
      PackageNameOf(p),
      if usedGb.Some? then usedGb else ParseNullableNumber(FallbackUsage(p), toNumber),
      ParseNullableNumber(VasSummary(p), toNumber),
      p)
  }

  /** The used volume is missing exactly when neither the summary nor the first detail gives a finite number. */
  lemma UsedGbMissing(p: UsagePayload, now: string, toNumber: string -> JsNumber)
    ensures TransformPayload(p, now, toNumber).usedGb.None? <==>
      ParseNullableNumber(UsedSummary(p), toNumber).None? && ParseNullableNumber(FallbackUsage(p), toNumber).None?
  {
  }

  /** A payload without a data bundle gives a record with neither package name nor volumes. */
  lemma TransformPayloadWithoutBundle(p: UsagePayload, now: string, toNumber: string -> JsNumber)
    requires p.dataBundle.None?
    ensures var r := TransformPayload(p, now, toNumber);
      r.packageName.None? && r.usedGb.None? && r.vasUsedGb.None?
  {
  }

  /** The value-added-service volume ignores the package summary and usage details. */
  lemma VasUsedHasNoFallback(p: UsagePayload, q: UsagePayload, now: string, toNumber: string -> JsNumber)
    requires VasSummary(p) == VasSummary(q)
    ensures TransformPayload(p, now, toNumber).vasUsedGb == TransformPayload(q, now, toNumber).vasUsedGb
  {
  }

  const UNKNOWN_API_ERROR: string := "Unknown SLT API error"

  /**
   * `payload.errorMessage ?? payload.errorMessege ?? "Unknown SLT API error"`: `??` passes over
   * only null and undefined, so an empty message is kept.
   */
  function ErrorMessage(p: UsagePayload): (m: string)
    ensures p.errorMessage.Some? ==> m == p.errorMessage.value
    ensures p.errorMessage.None? && p.errorMessege.Some? ==> m == p.errorMessege.value
    ensures p.errorMessage.None? && p.errorMessege.None? ==> m == UNKNOWN_API_ERROR
  {
    p.errorMessage.GetOr(p.errorMessege.GetOr(UNKNOWN_API_ERROR))
  }

  /** An empty `errorMessage` wins over a non-empty `errorMessege`. */
  lemma EmptyErrorMessageWins(message: string)
    ensures ErrorMessage(UsagePayload(false, None, Some(""), Some(message))) == ""
  {
  }
}
