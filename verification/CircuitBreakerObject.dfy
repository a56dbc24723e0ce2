/** The breaker object of shared/evm/rpc-resilience.ts, updated in place around the awaited attempt. */
module CircuitBreakerObject {
  import opened Common
  import CB = CircuitBreaker

  class Breaker {
    const config: CB.Config
    var phase: CB.Phase
    var consecutiveFailures: int
    var openedAtMs: int
    var halfOpenInFlight: int
    var halfOpenSuccesses: int

    ghost function Value(): CB.Breaker
      reads this
    {
      CB.Breaker(phase, consecutiveFailures, openedAtMs, halfOpenInFlight, halfOpenSuccesses)
    }

    ghost predicate Valid()
      reads this
    {
      CB.Sound(Value(), config)
    }

    constructor (config: CB.Config)
      ensures Valid() && this.config == config && Value() == CB.INITIAL
    {
      this.config := config;
      phase, consecutiveFailures, openedAtMs, halfOpenInFlight, halfOpenSuccesses := CB.Closed, 0, 0, 0, 0;
    }

    /** The part of a call before the attempt: a refused call throws and runs nothing. */
    method Begin(now: int) returns (a: CB.Admission)
      requires Valid()
      modifies this
      ensures Valid() && a == CB.Admitted(old(Value()), config, now) && Value() == CB.Begin(old(Value()), config, now)
    {
      if phase.Open? && now - openedAtMs >= Max(1, config.openMs) {
        phase, halfOpenInFlight, halfOpenSuccesses := CB.HalfOpen, 0, 0;
      }
      if phase.Open? { return CB.Refused; }
      if phase.HalfOpen? && halfOpenInFlight >= Max(1, config.halfOpenMaxRequests) { return CB.Refused; }
      if phase.HalfOpen? {
        halfOpenInFlight := halfOpenInFlight + 1;
        return CB.Probe;
      }
      return CB.Plain;
    }

    /** The part after the attempt, in whatever state the breaker is by then. */
    method End(a: CB.Admission, o: CB.Outcome, now: int)
      requires Valid()
      modifies this
      ensures Valid() && Value() == CB.End(old(Value()), config, a, o, now)
    {
      match a
      case Refused =>
      case Plain =>
        if o.Success? {
          consecutiveFailures := 0;
        } else if o.Recorded? {
          consecutiveFailures := consecutiveFailures + 1;
          if consecutiveFailures >= Max(1, config.failureThreshold) { OpenCircuit(now); }
        }
      case Probe =>
        if o.Recorded? { OpenCircuit(now); }
        halfOpenInFlight := Max(0, halfOpenInFlight - 1);
        if o.Success? {
          halfOpenSuccesses := halfOpenSuccesses + 1;
          if halfOpenSuccesses >= Max(1, config.halfOpenMaxRequests) && halfOpenInFlight == 0 { CloseCircuit(); }
        }
    }

    method OpenCircuit(now: int)
      modifies this
      ensures Value() == CB.Opened(now)
    {
      phase, openedAtMs, consecutiveFailures, halfOpenInFlight, halfOpenSuccesses := CB.Open, now, 0, 0, 0;
    }

    method CloseCircuit()
      modifies this
      ensures Value() == CB.Reclosed(old(Value()))
    {
      phase, consecutiveFailures, halfOpenInFlight, halfOpenSuccesses := CB.Closed, 0, 0, 0;
    }
  }
}
