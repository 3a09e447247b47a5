/** The circuit breaker of `internal/chain/circuitbreaker.go`.

    Each mutex-protected method is one atomic step that reads the clock once (`now`).
    The value functions say what a step does to the stored fields; the class performs
    the step on its fields. */
module CircuitBreakers {
  datatype State = StateClosed | StateOpen | StateHalfOpen

  datatype Config = Config(failureThreshold: int, successThreshold: int, timeout: int, halfOpenMaxRequests: int)

  /** The fields a breaker stores. `StateHalfOpen` is never stored: it is derived from the clock. */
  datatype Breaker = Breaker(state: State, failures: int, successes: int, lastFailureTime: int, halfOpenRequests: int)

  const INITIAL := Breaker(StateClosed, 0, 0, 0, 0)

  function CurrentState(c: Config, b: Breaker, now: int): State {
    if b.state.StateOpen? && now - b.lastFailureTime > c.timeout then StateHalfOpen else b.state
  }

  function Tripped(b: Breaker, now: int): Breaker {
    b.(state := StateOpen, lastFailureTime := now, halfOpenRequests := 0, successes := 0)
  }

  function Closed(b: Breaker): Breaker {
    b.(state := StateClosed, failures := 0, successes := 0, halfOpenRequests := 0)
  }

  predicate Admits(c: Config, b: Breaker, now: int) {
    match CurrentState(c, b, now)
    case StateClosed => true
    case StateOpen => false
    case StateHalfOpen => b.halfOpenRequests < c.halfOpenMaxRequests
  }

  function AfterAllow(c: Config, b: Breaker, now: int): Breaker {
    if CurrentState(c, b, now).StateHalfOpen? && Admits(c, b, now)
    then b.(halfOpenRequests := b.halfOpenRequests + 1)
    else b
  }

  function AfterSuccess(c: Config, b: Breaker, now: int): Breaker {
    match CurrentState(c, b, now)
    case StateClosed => b.(failures := 0)
    case StateOpen => b
    case StateHalfOpen =>
      if b.successes + 1 >= c.successThreshold then Closed(b) else b.(successes := b.successes + 1)
  }

  function AfterFailure(c: Config, b: Breaker, now: int): Breaker {
    match CurrentState(c, b, now)
    case StateClosed =>
      var failed := b.(failures := b.failures + 1);
      if failed.failures >= c.failureThreshold then Tripped(failed, now) else failed
    case StateOpen => b
    case StateHalfOpen => Tripped(b, now)
  }

  datatype Stats = Stats(state: State, failures: int, successes: int, lastFailureTime: int, halfOpenRequests: int)

  function StatsOf(c: Config, b: Breaker, now: int): Stats {
    Stats(CurrentState(c, b, now), b.failures, b.successes, b.lastFailureTime, b.halfOpenRequests)
  }

  function AfterExecute(c: Config, b: Breaker, fails: bool, start: int, end: int): Breaker {
    if !Admits(c, b, start) then b
    else
      var admitted := AfterAllow(c, b, start);
      if fails then AfterFailure(c, admitted, end) else AfterSuccess(c, admitted, end)
  }

  /** What `Execute` reports: the breaker's own refusal, or the function's outcome. */
  datatype ExecuteResult = ErrCircuitOpen | Ran(failed: bool)

  class CircuitBreaker {
    const config: Config
    var state: State
    var failures: int
    var successes: int
    var lastFailureTime: int
    var halfOpenRequests: int

    ghost function View(): Breaker
      reads this
    {
      Breaker(state, failures, successes, lastFailureTime, halfOpenRequests)
    }

    constructor (config: Config)
      ensures this.config == config && View() == INITIAL
    {
      this.config := config;
      state, failures, successes, lastFailureTime, halfOpenRequests := StateClosed, 0, 0, 0, 0;
    }

    function CurrentStateAt(now: int): (s: State)
      reads this
      ensures s == CurrentState(config, View(), now)
    {
      match state
      case StateOpen => if now - lastFailureTime > config.timeout then StateHalfOpen else StateOpen
      case _ => state
    }

    method Allow(now: int) returns (admitted: bool)
      modifies this
      ensures admitted == Admits(config, old(View()), now)
      ensures View() == AfterAllow(config, old(View()), now)
    {
      match CurrentStateAt(now)
      case StateClosed =>
        admitted := true;
      case StateOpen =>
        admitted := false;
      case StateHalfOpen =>
        admitted := halfOpenRequests < config.halfOpenMaxRequests;
        if admitted {
          halfOpenRequests := halfOpenRequests + 1;
        }
    }

    method RecordSuccess(now: int)
      modifies this
      ensures View() == AfterSuccess(config, old(View()), now)
    {
      match CurrentStateAt(now)
      case StateClosed =>
        failures := 0;
      case StateOpen =>
      case StateHalfOpen =>
        successes := successes + 1;
        if successes >= config.successThreshold {
          ResetFields();
        }
    }

    method RecordFailure(now: int)
      modifies this
      ensures View() == AfterFailure(config, old(View()), now)
    {
      match CurrentStateAt(now)
      case StateClosed =>
        failures := failures + 1;
        if failures >= config.failureThreshold {
          Trip(now);
        }
      case StateOpen =>
      case StateHalfOpen =>
        Trip(now);
    }

    method Trip(now: int)
      modifies this
      ensures View() == Tripped(old(View()), now)
    {
      state := StateOpen;
      lastFailureTime := now;
      halfOpenRequests := 0;
      successes := 0;
    }

    method ResetFields()
      modifies this
      ensures View() == Closed(old(View()))
    {
      state := StateClosed;
      failures := 0;
      successes := 0;
      halfOpenRequests := 0;
    }

    method GetStats(now: int) returns (stats: Stats)
      ensures stats == StatsOf(config, View(), now)
    {
      stats := Stats(CurrentStateAt(now), failures, successes, lastFailureTime, halfOpenRequests);
    }

    /** `fails` is what the guarded function would return if it were run;
        `start` and `end` are the clock before and after it. */
    method Execute(fails: bool, start: int, end: int) returns (r: ExecuteResult)
      modifies this
      ensures r == if Admits(config, old(View()), start) then Ran(fails) else ErrCircuitOpen
      ensures View() == AfterExecute(config, old(View()), fails, start, end)
    {
      var admitted := Allow(start);
      if !admitted {
        return ErrCircuitOpen;
      }
      if fails {
        RecordFailure(end);
      } else {
        RecordSuccess(end);
      }
      r := Ran(fails);
    }
  }

  /** The default filling done when a chain is built: a zero means "not configured". */
  function WithDefaults(c: Config): Config {
    Config(
      if c.failureThreshold == 0 then 5 else c.failureThreshold,
      if c.successThreshold == 0 then 2 else c.successThreshold,
      if c.timeout == 0 then 30_000_000_000 else c.timeout,
      if c.halfOpenMaxRequests == 0 then 3 else c.halfOpenMaxRequests)
  }
}
