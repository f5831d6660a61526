/** The back-off schedule of the timeout busy handler (`core/busy.rs`). Times and durations are nanoseconds. */
module BusyHandler {

  const MS: nat := 1_000_000

  const DELAYS: seq<nat> := [1, 2, 5, 10, 15, 20, 25, 25, 25, 50, 50, 100]

  const TOTALS: seq<nat> := [0, 1, 3, 8, 18, 33, 53, 78, 103, 128, 178, 228]

  datatype State = State(invocationCount: nat, timeout: nat, iteration: nat)

  function Delay(iteration: nat): nat {
    MS * if iteration < 12 then DELAYS[iteration] else DELAYS[11]
  }

  /** The time the source's tables give as already waited. */
  function Prior(iteration: nat): nat {
    MS * if iteration < 12 then TOTALS[iteration] else TOTALS[11] + DELAYS[11] * (iteration - 11)
  }

  function Start(now: nat): State {
    State(0, now, 0)
  }

  function Invoke(s: State, maxDuration: nat, now: nat): (State, bool) {
    var prior, full := Prior(s.iteration), Delay(s.iteration);
    var delay := if prior + full <= maxDuration then full else if prior < maxDuration then maxDuration - prior else 0;
    if delay == 0 then (s, false)
    else (State(s.invocationCount + 1, now + delay, s.iteration + 1), true)
  }

  class BusyHandlerState {
    var invocationCount: nat
    var timeout: nat
    var iteration: nat

    function View(): State
      reads this
    {
      State(invocationCount, timeout, iteration)
    }

    constructor (now: nat)
      ensures View() == Start(now)
    {
      invocationCount, timeout, iteration := 0, now, 0;
    }

    method Reset(now: nat)
      modifies this
      ensures View() == Start(now)
    {
      invocationCount, timeout, iteration := 0, now, 0;
    }

    method InvokeTimeoutHandler(maxDuration: nat, now: nat) returns (retry: bool)
      modifies this
      ensures (View(), retry) == Invoke(old(View()), maxDuration, now)
    {
      var idx := if iteration < 11 then iteration else 11;
      var delay := MS * DELAYS[idx];
      var prior := MS * TOTALS[idx];
      if iteration >= 12 {
        prior := prior + delay * (iteration - 11);
      }
      if prior + delay > maxDuration {
        delay := if maxDuration < prior then 0 else maxDuration - prior;
        if delay == 0 {
          return false;
        }
      }
      iteration := iteration + 1;
      invocationCount := invocationCount + 1;
      timeout := now + delay;
      return true;
    }
  }

  // ----- Waiting

  /** The delays before an iteration, added up. */
  function Waited(iteration: nat): nat {
    if iteration == 0 then 0 else Waited(iteration - 1) + Delay(iteration - 1)
  }

  /** The totals table and its extension are the running sums of the delays. */
  lemma {:induction false} PriorIsWaited(iteration: nat)
    ensures Prior(iteration) == Waited(iteration)
  {
    if iteration > 0 {
      PriorIsWaited(iteration - 1);
    }
  }

  function Min(a: nat, b: nat): nat {
    if a < b then a else b
  }

  /** A locking event: the handler is called at each of the times, and whatever it grants is waited. */
  function Run(maxDuration: nat, times: seq<nat>): (State, nat)
    requires times != []
  {
    if |times| == 1 then (Start(times[0]), 0)
    else
      var (s, waited) := Run(maxDuration, times[..|times| - 1]);
      var now := times[|times| - 1];
      var (s', retry) := Invoke(s, maxDuration, now);
      (s', if retry then waited + (s'.timeout - now) else waited)
  }

  /** How often the handler grants a retry. */
  function Retries(maxDuration: nat): nat {
    TableRetries(maxDuration, 12) +
    if maxDuration <= 328 * MS then 0 else (maxDuration - 328 * MS + 100 * MS - 1) / (100 * MS)
  }

  function TableRetries(maxDuration: nat, n: nat): nat
    requires n <= 12
  {
    if n == 0 then 0 else TableRetries(maxDuration, n - 1) + if MS * TOTALS[n - 1] < maxDuration then 1 else 0
  }

  lemma PriorGrows(a: nat, b: nat)
    requires a < b
    ensures Prior(a) < Prior(b)
  {
  }

  lemma {:induction false} TableCounts(maxDuration: nat, n: nat, k: nat)
    requires n <= 12 && k < n
    ensures k < TableRetries(maxDuration, n) <==> MS * TOTALS[k] < maxDuration
    ensures TableRetries(maxDuration, n) <= n
  {
    if n > 1 {
      if k < n - 1 {
        TableCounts(maxDuration, n - 1, k);
        if MS * TOTALS[n - 1] < maxDuration {
          TableCounts(maxDuration, n - 1, n - 2);
          PriorGrows(n - 2, n - 1);
        }
      } else {
        TableCounts(maxDuration, n - 1, n - 2);
        PriorGrows(n - 2, n - 1);
      }
    }
  }

  /** The closed form is the first iteration by which the whole timeout has been waited. */
  lemma RetriesIsExact(maxDuration: nat, iteration: nat)
    ensures iteration < Retries(maxDuration) <==> Waited(iteration) < maxDuration
  {
    hide Waited, TableRetries;
    PriorIsWaited(iteration);
    TableCounts(maxDuration, 12, 11);
    if iteration < 12 {
      TableCounts(maxDuration, 12, iteration);
      if maxDuration > 328 * MS {
        assert TableRetries(maxDuration, 12) == 12;
      }
    } else if maxDuration > 328 * MS {
      var rest := maxDuration - 328 * MS;
      CeilingIsExact(rest, 100 * MS, iteration - 12);
    }
  }

  lemma CeilingIsExact(n: nat, d: nat, k: nat)
    requires n > 0 && d > 0
    ensures k < (n + d - 1) / d <==> d * k < n
  {
    var q, r := (n + d - 1) / d, (n + d - 1) % d;
    assert n + d - 1 == d * q + r;
    if k < q {
      assert d * (k + 1) <= d * q;
    } else {
      assert d * q <= d * k;
    }
  }

  /** However the calls are spaced in time: the waits granted add up to the delays of the schedule, cut off at the
      timeout exactly, and the handler grants a retry as long as that leaves something to wait. */
  lemma {:induction false} WaitsAreCutOffAtTimeout(maxDuration: nat, times: seq<nat>)
    requires times != []
    ensures var (s, waited) := Run(maxDuration, times);
            && s.iteration == s.invocationCount == Min(|times| - 1, Retries(maxDuration))
            && waited == Min(Waited(|times| - 1), maxDuration)
  {
    hide Retries, Prior, Delay;
    var n := |times| - 1;
    if n > 0 {
      WaitsAreCutOffAtTimeout(maxDuration, times[..n]);
      var (s, waited) := Run(maxDuration, times[..n]);
      RetriesIsExact(maxDuration, n - 1);
      RetriesIsExact(maxDuration, n);
      if n - 1 < Retries(maxDuration) {
        Granted(s, maxDuration, times[n]);
      } else {
        Refused(s, maxDuration, times[n]);
        WaitedGrows(n - 1);
      }
    }
  }

  lemma WaitedGrows(n: nat)
    ensures Waited(n) < Waited(n + 1)
  {
  }

  lemma Granted(s: State, maxDuration: nat, now: nat)
    requires Waited(s.iteration) < maxDuration
    ensures var (s', retry) := Invoke(s, maxDuration, now);
            && retry && s'.timeout == now + Min(Waited(s.iteration + 1), maxDuration) - Waited(s.iteration)
            && s'.iteration == s.iteration + 1 && s'.invocationCount == s.invocationCount + 1
  {
    PriorIsWaited(s.iteration);
  }

  lemma Refused(s: State, maxDuration: nat, now: nat)
    requires s.iteration == Retries(maxDuration)
    ensures Invoke(s, maxDuration, now) == (s, false)
  {
    hide Retries, Waited;
    RetriesIsExact(maxDuration, s.iteration);
    PriorIsWaited(s.iteration);
  }

  /** The waits never pass the timeout; the first refusal comes when exactly the timeout has been waited, after the
      closed-form number of retries, and every later call is refused until the state is reset. */
  lemma RefusalMeansTimeout(maxDuration: nat, times: seq<nat>, now: nat)
    requires times != []
    ensures var (s, waited) := Run(maxDuration, times);
            var retry := Invoke(s, maxDuration, now).1;
            && waited <= maxDuration
            && (retry <==> waited < maxDuration)
            && (retry <==> |times| - 1 < Retries(maxDuration))
            && (!retry ==> Invoke(s, maxDuration, now).0 == s)
  {
    hide Retries, Prior, Delay, Waited;
    var n := |times| - 1;
    WaitsAreCutOffAtTimeout(maxDuration, times);
    RetriesIsExact(maxDuration, n);
    var (s, waited) := Run(maxDuration, times);
    if n < Retries(maxDuration) {
      Granted(s, maxDuration, now);
    } else {
      Refused(s, maxDuration, now);
    }
  }
}
