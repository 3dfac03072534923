/**
 * recordUsage: fetch the usage payload, refuse an unsuccessful one with its error message,
 * and store the normalised record in the usage log.
 */
module Poller {
  import opened Wrappers
  import opened Payload
  import opened Session

  /** The `usage_log` table, as the append-only list of the records inserted into it. */
  class UsageLog {
    var records: seq<UsageRecord>

    constructor ()
      ensures records == []
    {
      records := [];
    }

    /** `INSERT INTO usage_log`. */
    method Insert(record: UsageRecord)
      modifies this
      ensures records == old(records) + [record]
    {
      records := records + [record];
    }
  }

  /**
   * What recordUsage makes of the outcome of fetchUsagePayload, stamping a record with `now`:
   * a failed fetch fails with its message, an unsuccessful payload with its error message,
   * and a successful one gives its normalised record.
   */
  function RecordOutcome(fetched: Result<UsagePayload, string>, now: string, toNumber: string -> JsNumber): Result<UsageRecord, string> {
    if fetched.Failure? then Failure(fetched.error)
    else if !fetched.value.isSuccess then Failure(ErrorMessage(fetched.value))
    else Success(TransformPayload(fetched.value, now, toNumber))
  }

  /** A record is produced exactly when the fetch succeeded with a successful payload. */
  lemma RecordOnlySuccessfulPayloads(fetched: Result<UsagePayload, string>, now: string, toNumber: string -> JsNumber)
    ensures RecordOutcome(fetched, now, toNumber).Success? <==> fetched.Success? && fetched.value.isSuccess
  {
  }

  /** The record produced is the payload's normalisation, stamped `now` and keeping the payload. */
  lemma RecordIsTransformed(fetched: Result<UsagePayload, string>, now: string, toNumber: string -> JsNumber)
    requires RecordOutcome(fetched, now, toNumber).Success?
    ensures var record := RecordOutcome(fetched, now, toNumber).value;
      record == TransformPayload(fetched.value, now, toNumber) && record.timestamp == now && record.raw == fetched.value
  {
  }

  /**
   * An unsuccessful payload fails with `errorMessage`, else `errorMessege`, else "Unknown SLT
   * API error"; a failed fetch keeps its own message.
   */
  lemma RecordFailureMessage(fetched: Result<UsagePayload, string>, now: string, toNumber: string -> JsNumber)
    ensures fetched.Failure? ==> RecordOutcome(fetched, now, toNumber) == Failure(fetched.error)
    ensures fetched.Success? && !fetched.value.isSuccess ==>
      RecordOutcome(fetched, now, toNumber) == Failure(ErrorMessage(fetched.value))
  {
  }

  /**
   * recordUsage: one fetch, then exactly one insert when the payload is successful and none
   * otherwise; the record returned is the one inserted.
   */
  method RecordUsage(client: SltClient, upstream: Upstream, log: UsageLog, env: Env, now: string, toNumber: string -> JsNumber)
    returns (r: Result<UsageRecord, string>)
    modifies client, upstream, log
    ensures var o := FetchSpec(old(client.cachedAccessToken), CandidateTokens(old(client.cachedAccessToken), env.authToken),
                               env, upstream.usageReply, LoginSpec(env, upstream.loginReply, |old(upstream.loginRequests)|),
                               |old(upstream.usageRequests)|);
      r == RecordOutcome(o.result, now, toNumber) && client.cachedAccessToken == o.cached
      && upstream.usageRequests == old(upstream.usageRequests) + o.usageRequests
      && upstream.loginRequests == old(upstream.loginRequests) + o.loginRequests
    ensures log.records == old(log.records) + (if r.Success? then [r.value] else [])
  {
    var fetched := client.FetchUsagePayload(env, upstream);
    if fetched.Failure? {
      return Failure(fetched.error);
    }
    var payload := fetched.value;
    if !payload.isSuccess {
      return Failure(ErrorMessage(payload));
    }
    var record := TransformPayload(payload, now, toNumber);
    log.Insert(record);
    return Success(record);
  }
}
