/** What the RPC client cannot control: time passing, cancellation, jitter. Every step of a run asks it anew. */
module Environment {
  import opened Prelude

  const SECOND: int := 1_000_000_000

  /** The errors of lib/rpcchain; `Classified` is a RetryableError, and `Plain` any other. */
  datatype Failure =
    | Cancelled
    | AllEndpointsDown
    | Reanchor
    | Plain(text: string)
    | Classified(retryable: bool, retryAfter: int)

  /** A draw of rand.Float64. */
  type Fraction = r: real | 0.0 <= r < 1.0 witness 0.0

  /** The answers of the environment at each step: how long it took, whether the context is done, and the next random draw. */
  datatype Env = Env(elapsed: nat -> nat, cancelled: nat -> bool, jitter: nat -> Fraction)

  datatype Outcome = Skipped | Failed(failure: Failure) | Served

  /** One endpoint's turn in a pool call. */
  datatype Visit = Visit(endpoint: nat, at: int, outcome: Outcome)

  /** The steps taken, the time in nanoseconds, and the turns so far. */
  datatype World = World(step: nat, now: int, log: seq<Visit>)

  /** Reading the clock, or waiting for an answer. */
  function Tick(env: Env, w: World): World {
    w.(step := w.step + 1, now := w.now + env.elapsed(w.step))
  }

  /** A timer fires after its duration, or later. */
  function Sleep(env: Env, w: World, d: int): World {
    w.(step := w.step + 1, now := w.now + Max(d, 0) + env.elapsed(w.step))
  }

  function Record(w: World, visit: Visit): World { w.(log := w.log + [visit]) }

  /** Time does not run backwards, and the log only grows. */
  predicate Follows(later: World, earlier: World) { earlier.now <= later.now && earlier.log <= later.log }
}
