/** What one worker decides about one delivery: dispositions, the attempt ceiling, backoff and timeouts. */
module AuditDelivery {
  import opened DecimalText
  import opened AuditOutbox

  // Seconds.
  const DRAIN_BATCH := 16
  const DRAIN_TIMEOUT := 30
  const FINALIZE_TIMEOUT := 2
  const LEASE_DURATION := 120
  const MAXIMUM_ATTEMPTS := 8
  const MAXIMUM_BACKOFF := 300

  datatype Disposition = AuditAcknowledge | AuditRetry | AuditQuarantine

  /** How an attempt to deliver can end. A lost reply may hide an accepted event. */
  datatype Reply =
    | InvalidProof
    | NoAuthority
    | Accepted
    | TransportLost(ingressAccepted: bool)
    | Rejected(status: nat)

  function DeliverAudit(reply: Reply): (Disposition, string) {
    match reply
    case InvalidProof => (AuditQuarantine, "invalid_invocation_proof")
    case NoAuthority => (AuditRetry, "authority_unavailable")
    case Accepted => (AuditAcknowledge, "")
    case TransportLost(_) => (AuditRetry, "transport_unavailable")
    case Rejected(status) =>
      var code := "http_" + Print(status);
      if status == 400 || status == 409 || status == 413 || status == 422 then (AuditQuarantine, code)
      else (AuditRetry, code)
  }

  /** What a stored disposition and code still tell of the reply: everything but whether a lost reply hid an acceptance. */
  lemma {:induction false} CodesTellReplies(a: Reply, b: Reply)
    requires DeliverAudit(a) == DeliverAudit(b)
    ensures a == b || (a.TransportLost? && b.TransportLost?)
  {
    if a.Rejected? {
      HttpCode(a.status);
    }
    if b.Rejected? {
      HttpCode(b.status);
    }
    if a.Rejected? && b.Rejected? {
      PrintInjective(a.status, b.status);
    }
  }

  lemma {:induction false} HttpCode(status: nat)
    ensures DeliverAudit(Rejected(status)).1 != "" && DeliverAudit(Rejected(status)).1[0] == 'h'
    ensures DeliverAudit(Rejected(status)).1[5..] == Print(status)
  {
    assert ("http_" + Print(status))[5..] == Print(status);
  }

  predicate IngressTook(reply: Reply) {
    reply.Accepted? || (reply.TransportLost? && reply.ingressAccepted)
  }

  /** The disposition DrainAudit acts on, after the attempt ceiling. */
  function Decide(attempts: int, reply: Reply): (d: (Disposition, string))
    ensures d.0 == AuditAcknowledge <==> reply.Accepted?
    ensures d.0 == AuditQuarantine <==>
              || reply.InvalidProof?
              || (reply.Rejected? && reply.status in {400, 409, 413, 422})
              || (!reply.Accepted? && attempts >= MAXIMUM_ATTEMPTS)
  {
    var (disposition, code) := DeliverAudit(reply);
    if disposition == AuditRetry && attempts >= MAXIMUM_ATTEMPTS then
      (AuditQuarantine, "attempts_exhausted_" + code)
    else (disposition, code)
  }

  /** The code of each case: what went wrong, marked when it was the last attempt of something worth retrying. */
  lemma DecideCodes(attempts: int)
    ensures Decide(attempts, Accepted).1 == ""
    ensures Decide(attempts, InvalidProof).1 == "invalid_invocation_proof"
    ensures forall taken :: Decide(attempts, TransportLost(taken)).1 ==
              if attempts < MAXIMUM_ATTEMPTS then "transport_unavailable" else "attempts_exhausted_transport_unavailable"
    ensures Decide(attempts, NoAuthority).1 ==
              if attempts < MAXIMUM_ATTEMPTS then "authority_unavailable" else "attempts_exhausted_authority_unavailable"
    ensures forall status: nat :: Decide(attempts, Rejected(status)).1 ==
              if attempts < MAXIMUM_ATTEMPTS || status in {400, 409, 413, 422}
              then "http_" + Print(status) else "attempts_exhausted_http_" + Print(status)
  {
    assert "attempts_exhausted_" + "transport_unavailable" == "attempts_exhausted_transport_unavailable";
    assert "attempts_exhausted_" + "authority_unavailable" == "attempts_exhausted_authority_unavailable";
    forall status: nat
      ensures "attempts_exhausted_" + ("http_" + Print(status)) == "attempts_exhausted_http_" + Print(status)
    {
    }
  }

  /** Lower-case letters, digits and underscores. */
  predicate PlainCode(code: string) {
    1 <= |code| <= MAX_ERROR_CODE && forall i :: 0 <= i < |code| ==> 'a' <= code[i] <= 'z' || '0' <= code[i] <= '9' || code[i] == '_'
  }

  /** A plain code is stored as it is. */
  lemma {:induction false} PlainCodeStays(code: string)
    requires PlainCode(code)
    ensures BoundedErrorCode(code) == code
  {
    NoSpaceInCode(code);
  }

  lemma {:induction false} NoSpaceInCode(code: string)
    requires PlainCode(code)
    ensures SpaceAhead(code) == 0 && SpaceBehind(code) == 0
  {
    forall w | IsSpace(w)
      ensures !(w <= code)
    {
    }
    NotSpaceFrom(code, |code| - 1);
    if |code| >= 2 {
      NotSpaceFrom(code, |code| - 2);
    }
    if |code| >= 3 {
      NotSpaceFrom(code, |code| - 3);
    }
  }

  lemma {:induction false} NotSpaceFrom(code: string, i: nat)
    requires PlainCode(code) && i < |code|
    ensures !IsSpace(code[i..])
  {
    assert code[i..][0] == code[i];
  }

  lemma {:induction false} DigitsAreFew(status: nat)
    requires status < 1000
    ensures |Print(status)| <= 3
  {
    assert status >= 10 ==> Print(status) == Print(status / 10) + [Digit(status % 10)];
    assert status >= 100 ==> Print(status / 10) == Print(status / 10 / 10) + [Digit(status / 10 % 10)];
  }

  lemma {:induction false} PlainJoined(a: string, b: string)
    requires PlainCode(a) && |a| + |b| <= MAX_ERROR_CODE && (b == "" || PlainCode(b) || AllDigits(b))
    ensures PlainCode(a + b)
  {
  }

  lemma ProofCode()
    ensures PlainCode("invalid_invocation_proof")
  {
  }

  lemma TransportCode()
    ensures PlainCode("transport_unavailable")
  {
  }

  lemma AuthorityCode()
    ensures PlainCode("authority_unavailable")
  {
  }

  lemma ExhaustedCode()
    ensures PlainCode("attempts_exhausted_")
  {
  }

  lemma {:induction false} StatusCode(status: nat)
    requires status < 1000
    ensures PlainCode("http_" + Print(status))
  {
    DigitsAreFew(status);
    PlainJoined("http_", Print(status));
  }

  lemma {:induction false} ReplyCodeIsPlain(reply: Reply)
    requires !reply.Accepted? && (reply.Rejected? ==> reply.status < 1000)
    ensures PlainCode(DeliverAudit(reply).1) && |DeliverAudit(reply).1| <= 24
  {
    match reply
    case InvalidProof => ProofCode();
    case NoAuthority => AuthorityCode();
    case TransportLost(_) => TransportCode();
    case Rejected(status) =>
      DigitsAreFew(status);
      StatusCode(status);
  }

  /** Every code of a failed attempt is plain, for an HTTP status of at most three digits. */
  lemma {:induction false} CodesArePlain(attempts: int, reply: Reply)
    requires !reply.Accepted? && (reply.Rejected? ==> reply.status < 1000)
    ensures PlainCode(Decide(attempts, reply).1)
  {
    ReplyCodeIsPlain(reply);
    ExhaustedCode();
    PlainJoined("attempts_exhausted_", DeliverAudit(reply).1);
  }

  function FinalOf(d: Disposition, code: string, retryAt: int): Final {
    match d
    case AuditAcknowledge => Acknowledge
    case AuditRetry => Retry(code, retryAt)
    case AuditQuarantine => Quarantine(code)
  }

  function Shift(n: nat): nat {
    if n == 0 then 1 else 2 * Shift(n - 1)
  }

  function RetryBackoff(attempts: int): int {
    var n: nat := if attempts < 1 then 1 else if attempts > 8 then 8 else attempts;
    if Shift(n) > MAXIMUM_BACKOFF then MAXIMUM_BACKOFF else Shift(n)
  }

  lemma {:induction false} ShiftMonotone(a: nat, b: nat)
    requires a <= b
    ensures Shift(a) <= Shift(b)
    decreases b - a
  {
    if a < b {
      ShiftMonotone(a, b - 1);
      assert Shift(b) == 2 * Shift(b - 1);
    }
  }

  /** The delay doubles with each attempt from two seconds on, and stays at 256 from the eighth. */
  lemma BackoffDoubles(attempts: int)
    ensures attempts <= 1 ==> RetryBackoff(attempts) == 2
    ensures 1 <= attempts < 8 ==> RetryBackoff(attempts + 1) == 2 * RetryBackoff(attempts)
    ensures attempts >= 8 ==> RetryBackoff(attempts) == 256
  {
    assert Shift(1) == 2;
    assert Shift(8) == 256 by {
      assert Shift(4) == 16;
    }
    if 1 <= attempts < 8 {
      BackoffBounded(attempts, attempts + 1);
      assert Shift(attempts + 1) == 2 * Shift(attempts);
    }
  }

  /** Every delay lies in [2s, 256s], grows with the attempts, and the five-minute cap is never reached. */
  lemma BackoffBounded(a: int, b: int)
    requires a <= b
    ensures 2 <= RetryBackoff(a) <= RetryBackoff(b) <= 256 < MAXIMUM_BACKOFF
  {
    var m: nat := if a < 1 then 1 else if a > 8 then 8 else a;
    var n: nat := if b < 1 then 1 else if b > 8 then 8 else b;
    assert Shift(1) == 2;
    assert Shift(8) == 256 by {
      assert Shift(4) == 16;
    }
    ShiftMonotone(1, m);
    ShiftMonotone(m, n);
    ShiftMonotone(n, 8);
  }
}
