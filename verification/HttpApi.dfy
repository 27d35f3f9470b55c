/** The retry loop of the JSON and form API client. */
module HttpApi {
  import opened Common
  import opened Retry

  datatype Answer = TransportError | Response(status: int, retryAfter: string)

  /** The response or error handed to the caller, or why no answer was waited
      for. */
  datatype Outcome = Returned(answer: Answer) | RefusedDelay(requested: int) | Cancelled

  /** What the server answers, request by request, and when the caller gives
      up; the client counts its requests and records its waits. */
  class Connection {
    const answers: nat -> Answer
    const cancelled: nat -> bool    // before a wait
    const interrupted: nat -> bool  // during it
    const after: string -> int  // `Retry.After`, against the clock of the run
    var sent: nat
    var waits: seq<int>

    constructor (answers: nat -> Answer, cancelled: nat -> bool, interrupted: nat -> bool, after: string -> int)
      ensures sent == 0 && waits == []
      ensures this.answers == answers && this.cancelled == cancelled && this.interrupted == interrupted
      ensures this.after == after
    {
      this.answers, this.cancelled, this.interrupted, this.after := answers, cancelled, interrupted, after;
      sent, waits := 0, [];
    }

    method Send() returns (a: Answer)
      modifies this
      ensures a == answers(old(sent)) && sent == old(sent) + 1 && waits == old(waits)
    {
      a := answers(sent);
      sent := sent + 1;
    }

    /** Waits unless the caller has given up, which comes first, or the delay is
        refused. The caller may also give up during the wait. */
    method Wait(base: int, attempt: nat, serverDelay: int) returns (stop: Option<Outcome>)
      modifies this
      ensures sent == old(sent)
      ensures stop == if cancelled(attempt) then Some(Cancelled)
                      else if Delay(base, attempt, serverDelay).TooLong? then Some(RefusedDelay(serverDelay))
                      else if interrupted(attempt) then Some(Cancelled)
                      else None
      ensures waits == if stop.None? then old(waits) + [Delay(base, attempt, serverDelay).duration] else old(waits)
    {
      if cancelled(attempt) {
        return Some(Cancelled);
      }
      var delay := Delay(base, attempt, serverDelay);
      if delay.TooLong? {
        return Some(RefusedDelay(delay.requested));
      }
      if interrupted(attempt) {
        return Some(Cancelled);
      }
      waits := waits + [delay.duration];
      return None;
    }
  }

  predicate Retryable(a: Answer) {
    a.TransportError? || RetryableStatus(a.status)
  }

  function ServerDelay(a: Answer, after: string -> int): int {
    if a.Response? then after(a.retryAfter) else 0
  }

  function Total(waits: seq<int>): int {
    if waits == [] then 0 else Total(waits[..|waits| - 1]) + waits[|waits| - 1]
  }

  lemma {:induction false} TotalIsBounded(waits: seq<int>)
    requires forall i :: 0 <= i < |waits| ==> 0 <= waits[i] <= MAX_DELAY
    ensures 0 <= Total(waits) <= |waits| * MAX_DELAY
  {
    if waits != [] {
      TotalIsBounded(waits[..|waits| - 1]);
    }
  }

  /** Every wait is the policy's, is within bounds, and is the server's own where
      it named one. */
  predicate Honoured(waits: seq<int>, base: int, answers: nat -> Answer, after: string -> int) {
    forall i :: 0 <= i < |waits| ==>
                  && Delay(base, i, ServerDelay(answers(i), after)) == Wait(waits[i])
                  && 0 <= waits[i] <= MAX_DELAY
                  && (ServerDelay(answers(i), after) > 0 ==> waits[i] == ServerDelay(answers(i), after))
  }

  /** Sends one request with bounded retries: at most `retries` + 1 requests and
      `retries` waits of at most the ceiling each. The answer returned is the
      first that cannot be retried, or the last; a positive server delay is
      waited exactly, or nothing further is sent. */
  method Do(c: Connection, retries: nat, base: int) returns (r: Outcome)
    requires c.sent == 0 && c.waits == [] && 0 <= base <= MAX_INT64 / 16
    modifies c
    ensures 1 <= c.sent <= retries + 1 && |c.waits| == c.sent - 1
    ensures forall i :: 0 <= i < c.sent - 1 ==> Retryable(c.answers(i))
    ensures Honoured(c.waits, base, c.answers, c.after)
    ensures forall i :: 0 <= i < |c.waits| && c.answers(i).Response? && c.after(c.answers(i).retryAfter) > 0 ==>
              c.waits[i] == c.after(c.answers(i).retryAfter)
    ensures forall i :: 0 <= i < c.sent - 1 && c.answers(i).Response? ==>
              c.answers(i).status == 429 || c.answers(i).status >= 500
    ensures r.Returned? && c.sent <= retries ==>
              r.answer.Response? && r.answer.status != 429 && r.answer.status < 500
    ensures r.Returned? ==> r.answer == c.answers(c.sent - 1) && (!Retryable(r.answer) || c.sent == retries + 1)
    ensures r.RefusedDelay? ==>
              && c.answers(c.sent - 1).Response?
              && r.requested == c.after(c.answers(c.sent - 1).retryAfter) > MAX_DELAY
    ensures r.Cancelled? ==> c.cancelled(c.sent - 1) || c.interrupted(c.sent - 1)
    ensures r.RefusedDelay? ==> !c.cancelled(c.sent - 1)
    ensures !r.Returned? ==> Retryable(c.answers(c.sent - 1)) && c.sent <= retries
  {
    var attempt := 0;
    while true
      invariant attempt == c.sent == |c.waits| <= retries
      invariant forall i :: 0 <= i < c.sent ==> Retryable(c.answers(i))
      invariant Honoured(c.waits, base, c.answers, c.after)
      decreases retries - attempt
    {
      var answer := c.Send();
      if answer.Response? && (!RetryableStatus(answer.status) || attempt >= retries) {
        return Returned(answer);
      }
      if answer.TransportError? && attempt >= retries {
        return Returned(answer);
      }
      var delay := 0;
      if answer.Response? {
        delay := c.after(answer.retryAfter);
      }
      DelayIsBounded(base, attempt, delay);
      var stop := c.Wait(base, attempt, delay);
      if stop.Some? {
        return stop.value;
      }
      attempt := attempt + 1;
    }
  }

  /** All waits of one call together. */
  lemma WaitingIsBounded(waits: seq<int>, base: int, answers: nat -> Answer, after: string -> int, retries: nat)
    requires Honoured(waits, base, answers, after) && |waits| <= retries
    ensures 0 <= Total(waits) <= retries * MAX_DELAY
  {
    TotalIsBounded(waits);
    assert |waits| * MAX_DELAY <= retries * MAX_DELAY;
  }
}
