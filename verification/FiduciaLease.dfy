/**
  The lease adapter: polling within a budget, releasing, and fencing tokens between JSON and unbounded integers.
 */
module FiduciaLease {
  import opened Key
  import opened LockPlan
  import opened LockErrors
  import opened LockRun
  import opened Decimals
  import Outcomes = LockOutcomes

  const MAX_SAFE_INTEGER: int := 0x1f_ffff_ffff_ffff

  /** A value as `JSON.parse` leaves it. */
  datatype Wire = JsonNumber(number: real) | JsonString(text: string) | BigInt(big: int) | Absent

  datatype MaybeToken = NoToken | Token(value: int)

  /** One acquire exchange: it failed, or the node answered. */
  datatype Posted = Threw(cause: Failure) | Output(acquired: bool, fencingToken: Wire)

  datatype AcquireOptions = AcquireOptions(ttlMs: int, waitTimeoutMs: int, retryIntervalMs: int)

  datatype LeaseGrant = LeaseGrant(key: Bytes, fencingToken: int, ttlMs: int)

  /** `Polling` is the state of a call that has not been decided by the exchanges so far. */
  datatype Acquisition = Held(grant: LeaseGrant) | Refused(error: Failure) | Polling

  predicate SafeInteger(number: real) {
    number == number.Floor as real && -MAX_SAFE_INTEGER <= number.Floor <= MAX_SAFE_INTEGER
  }

  /** Refuses a number that JSON may already have rounded. */
  function AsUint(value: Wire): (r: MaybeToken)
    ensures r.Token? ==> r.value >= 0
  {
    match value
    case JsonNumber(n) => if SafeInteger(n) && n >= 0.0 then Token(n.Floor) else NoToken
    case JsonString(text) => if Digits(text) then Token(ParseDecimal(text)) else NoToken
    case BigInt(big) => if big >= 0 then Token(big) else NoToken
    case Absent => NoToken
  }

  datatype Encoded = RangeError | OnWire(value: Wire)

  /** The number sent back to the node; a token that a JSON number cannot hold exactly is refused. */
  function EncodeWireInteger(value: int): Encoded {
    if value < 0 || value > MAX_SAFE_INTEGER then RangeError else OnWire(JsonNumber(value as real))
  }

  /** One turn of the polling loop: an exchange, and the clock read after it. */
  datatype Round = Round(posted: Posted, now: int)

  predicate KeepsPolling(opts: AcquireOptions, started: int, round: Round) {
    && round.posted.Output? && !round.posted.acquired
    && round.now - started + opts.retryIntervalMs <= opts.waitTimeoutMs
  }

  // ---------------------------------------------------------------------
  // Budget
  // ---------------------------------------------------------------------

  /** Sleeping takes at least the interval, and the clock does not run backwards before the first reading. */
  ghost predicate ClockAdvances(opts: AcquireOptions, started: int, rounds: seq<Round>) {
    && (rounds != [] ==> rounds[0].now >= started)
    && forall i :: 0 < i < |rounds| ==> rounds[i].now >= rounds[i - 1].now + opts.retryIntervalMs
  }

  lemma {:induction false} TimePasses(opts: AcquireOptions, started: int, rounds: seq<Round>, i: nat)
    requires ClockAdvances(opts, started, rounds) && i < |rounds|
    ensures rounds[i].now - started >= i * opts.retryIntervalMs
  {
    if i == 0 {
    } else {
      TimePasses(opts, started, rounds, i - 1);
    }
  }

  /** At most this many exchanges fit into the wait budget. */
  function Polls(opts: AcquireOptions): int
    requires opts.retryIntervalMs >= 1
  {
    if opts.waitTimeoutMs < 0 then 1 else opts.waitTimeoutMs / opts.retryIntervalMs + 1
  }

  lemma TimesMonotone(a: int, b: int, step: int)
    requires a <= b && step >= 0
    ensures a * step <= b * step
  {
    assert (b - a) * step >= 0;
  }

  lemma Quotient(n: nat, step: int, budget: int)
    requires step >= 1 && n > 0 && (n - 1) * step + step <= budget
    ensures n <= budget / step
  {
    var q := budget / step;
    assert budget == q * step + budget % step;
    if n > q {
      TimesMonotone(q + 1, n, step);
    }
  }

  lemma PollingIsBounded(opts: AcquireOptions, started: int, rounds: seq<Round>, n: nat)
    requires n <= |rounds| && forall i :: 0 <= i < n ==> KeepsPolling(opts, started, rounds[i])
    ensures opts.retryIntervalMs >= 1 && ClockAdvances(opts, started, rounds) ==> n < Polls(opts)
    ensures forall i :: 0 <= i < n ==> rounds[i].now + opts.retryIntervalMs <= started + opts.waitTimeoutMs
  {
    if n > 0 && opts.retryIntervalMs >= 1 && ClockAdvances(opts, started, rounds) {
      TimePasses(opts, started, rounds, n - 1);
      assert KeepsPolling(opts, started, rounds[n - 1]);
      Quotient(n, opts.retryIntervalMs, opts.waitTimeoutMs);
    }
  }

  // ---------------------------------------------------------------------
  // Acquiring and releasing
  // ---------------------------------------------------------------------

  /** The errors an acquisition can end in, by what the deciding exchange said. */
  predicate RefusalFits(key: Bytes, wait: bool, last: Posted, error: Failure) {
    if last.Threw? || last.acquired then
      && error.LockError? && error.kind == Transport && error.key == key && error.step == NoStep
      && (last.Output? ==> AsUint(last.fencingToken).NoToken?)
    else
      if wait then error == LockError(Timeout, key, At(FiduciaAcquire), NoCause)
      else error == LockError(Contention, key, At(FiduciaTryAcquire), NoCause)
  }

  /**
    The polling loop over the exchanges `rounds`. Contention and timeout are only ever decided
    by an exchange that reported the key held elsewhere; under a clock that respects the sleeps
    the call is decided within `Polls(opts)` exchanges.
   */
  method Acquire(key: Bytes, opts: AcquireOptions, wait: bool, started: int, rounds: seq<Round>)
    returns (r: Acquisition, posts: nat)
    ensures posts <= |rounds|
    ensures posts > 1 || (r.Polling? && posts > 0) ==> wait
    ensures forall i :: 0 <= i < (if r.Polling? then posts else posts - 1) ==>
      && rounds[i].posted.Output? && !rounds[i].posted.acquired
      && rounds[i].now - started + opts.retryIntervalMs <= opts.waitTimeoutMs
    ensures r.Polling? ==> posts == |rounds|
    ensures !r.Polling? ==> posts > 0
    ensures r.Refused? && wait && rounds[posts - 1].posted.Output? && !rounds[posts - 1].posted.acquired ==>
      rounds[posts - 1].now - started + opts.retryIntervalMs > opts.waitTimeoutMs
    ensures r.Held? ==>
      && rounds[posts - 1].posted.Output? && rounds[posts - 1].posted.acquired
      && Token(r.grant.fencingToken) == AsUint(rounds[posts - 1].posted.fencingToken)
      && r.grant.key == key && r.grant.ttlMs == opts.ttlMs
    ensures r.Refused? ==> RefusalFits(key, wait, rounds[posts - 1].posted, r.error)
    ensures opts.retryIntervalMs >= 1 && ClockAdvances(opts, started, rounds) ==>
      && posts <= Polls(opts)
      && (|rounds| >= Polls(opts) ==> !r.Polling?)
      && forall i :: 0 <= i < posts - 1 ==> rounds[i].now + opts.retryIntervalMs <= started + opts.waitTimeoutMs
  {
    posts := 0;
    while posts < |rounds|
      invariant posts <= |rounds|
      invariant posts > 0 ==> wait
      invariant forall i :: 0 <= i < posts ==> KeepsPolling(opts, started, rounds[i])
    {
      PollingIsBounded(opts, started, rounds, posts);
      var round := rounds[posts];
      posts := posts + 1;
      if round.posted.Threw? {
        return Refused(TransportError(key, round.posted.cause, NoStep)), posts;
      }
      if round.posted.acquired {
        var token := AsUint(round.posted.fencingToken);
        if token.NoToken? {
          return Refused(TransportError(key, Foreign(0), NoStep)), posts;
        }
        return Held(LeaseGrant(key, token.value, opts.ttlMs)), posts;
      }
      if !wait {
        return Refused(ContentionAt(key, FiduciaTryAcquire)), posts;
      }
      var waited := round.now - started;
      if waited + opts.retryIntervalMs > opts.waitTimeoutMs {
        return Refused(TimeoutAt(key, FiduciaAcquire)), posts;
      }
    }
    PollingIsBounded(opts, started, rounds, posts);
    r := Polling;
  }

  /** What the node answered to a release. */
  datatype Release = ReleaseThrew(cause: Failure) | Released(yes: bool)

  function ReleaseGrant(grant: LeaseGrant, answer: Release): Reply {
    if EncodeWireInteger(grant.fencingToken).RangeError? then
      Raised(TransportError(grant.key, Foreign(1), At(FiduciaRelease)))
    else if answer.ReleaseThrew? then
      Raised(TransportError(grant.key, answer.cause, At(FiduciaRelease)))
    else Answer(answer.yes, 0)
  }

  /** A release is answered as the node answers it; everything else is a transport error at its own step. */
  lemma ReleaseReads(grant: LeaseGrant, answer: Release)
    ensures var reply := ReleaseGrant(grant, answer);
      if 0 <= grant.fencingToken <= 0x1f_ffff_ffff_ffff && answer.Released? then reply.Answer?
        && reply.yes == answer.yes
      else
        && reply.Raised? && reply.error.LockError? && reply.error.kind == Transport
        && reply.error.key == grant.key && reply.error.step == At(FiduciaRelease)
  {
  }

  /** What the node answered to a renewal. */
  datatype Renewal = RenewalThrew(cause: Failure) | Renewed(yes: bool)

  datatype Extension = Extended(grant: LeaseGrant) | NotExtended(error: Failure)

  function Renew(grant: LeaseGrant, ttlMs: int, answer: Renewal): Extension {
    if EncodeWireInteger(grant.fencingToken).RangeError? then
      NotExtended(TransportError(grant.key, Foreign(1), NoStep))
    else if answer.RenewalThrew? then NotExtended(TransportError(grant.key, answer.cause, NoStep))
    else if !answer.yes then NotExtended(LockError(LostLease, grant.key, NoStep, NoCause))
    else Extended(grant.(ttlMs := ttlMs))
  }

  /** How an acquisition looks to the routine that asked for it. */
  function AcquireReply(r: Acquisition): Reply
    requires !r.Polling?
  {
    if r.Held? then Answer(true, 0) else Raised(r.error)
  }

  // ---------------------------------------------------------------------
  // Tokens
  // ---------------------------------------------------------------------

  /** The ways a node can write the token `value` so that nothing of it is lost. */
  ghost predicate Denotes(wire: Wire, value: nat) {
    match wire
    case JsonNumber(n) => n == value as real && value <= 0x1f_ffff_ffff_ffff
    case JsonString(text) => exists k: nat :: text == Zeros(k) + Decimal(value)
    case BigInt(big) => big == value
    case Absent => false
  }

  /** A token is read exactly from what denotes it, and as the number denoted. */
  lemma AsUintExactly(wire: Wire, value: nat)
    ensures AsUint(wire) == Token(value) <==> Denotes(wire, value)
  {
    match wire {
      case JsonNumber(n) =>
        assert (value as real).Floor == value;
      case JsonString(text) =>
        if Digits(text) {
          var k := DigitsAreDecimal(text);
        }
        if k: nat :| text == Zeros(k) + Decimal(value) {
          ParseOfDecimal(value);
          ParseAfterZeros(k, Decimal(value));
        }
      case BigInt(big) =>
      case Absent =>
    }
  }

  /** A token survives the trip to the node and back exactly when a JSON number can hold it. */
  lemma TokenRoundTrip(value: int)
    ensures EncodeWireInteger(value).OnWire? <==> 0 <= value <= 0x1f_ffff_ffff_ffff
    ensures EncodeWireInteger(value).OnWire? ==> AsUint(EncodeWireInteger(value).value) == Token(value)
  {
    assert (value as real).Floor == value;
  }

  /** A grant whose token arrived as a JSON number can always be sent back. */
  lemma NumericTokensAreReleasable(number: real)
    requires AsUint(JsonNumber(number)).Token?
    ensures EncodeWireInteger(AsUint(JsonNumber(number)).value) == OnWire(JsonNumber(number))
  {
  }

  /** A grant is stuck until it expires, whatever the node would answer, exactly when its token is out of range. */
  lemma UnreleasableExactly(grant: LeaseGrant)
    ensures (forall answer :: ReleaseGrant(grant, answer).Raised?)
      <==> !(0 <= grant.fencingToken <= 0x1f_ffff_ffff_ffff)
  {
    if 0 <= grant.fencingToken <= 0x1f_ffff_ffff_ffff {
      assert ReleaseGrant(grant, Released(true)).Answer?;
    } else {
      forall answer ensures ReleaseGrant(grant, answer).Raised? {
        assert EncodeWireInteger(grant.fencingToken).RangeError?;
      }
    }
  }

  /**
    A renewed grant has the old key and fencing token; a lease is reported lost exactly when the node refused to
    renew a token it could be sent, and a grant that cannot be released cannot be renewed either.
   */
  lemma RenewalKeepsTheToken(grant: LeaseGrant, ttlMs: int, answer: Renewal)
    ensures var r := Renew(grant, ttlMs, answer);
      && (r.Extended? ==> r.grant == LeaseGrant(grant.key, grant.fencingToken, ttlMs))
      && (r.NotExtended? && r.error.LockError? && r.error.kind == LostLease <==>
        answer == Renewed(false) && 0 <= grant.fencingToken <= 0x1f_ffff_ffff_ffff)
      && (r.NotExtended? ==> r.error.LockError? && r.error.kind in {LostLease, Transport} && r.error.key == grant.key)
      && ((forall released :: ReleaseGrant(grant, released).Raised?) ==> r.NotExtended? && !Retryable(r.error))
  {
    UnreleasableExactly(grant);
  }

  /** Decimal strings carry tokens of any size, so such grants can be handed out. */
  lemma DecimalTokenArrives(n: nat)
    ensures AsUint(JsonString(Decimal(n))) == Token(n)
  {
    ParseOfDecimal(n);
  }

  /** A routine that uses this adapter sees only errors that name its own steps, and no release that invites a retry. */
  lemma AdapterIsWellBehaved(cfg: Config, replies: Oracle, r: Acquisition, last: Posted, grant: LeaseGrant,
    answer: Release)
    requires !r.Polling? && (r.Refused? ==> RefusalFits(cfg.key, cfg.wait, last, r.error))
    requires replies(Step(AcquireStep(cfg.wait))) == AcquireReply(r)
    requires replies(Step(FiduciaRelease)) == ReleaseGrant(grant, answer)
    ensures Outcomes.FiduciaSpeaks(cfg, replies) && !Outcomes.ReleaseInvitesRetry(replies)
  {
  }
}
