/** Failure-compatible wrappers shared by every module, and the runtime faults of the
    analysed program. A Python exception that escapes (a missing dictionary key, an index
    out of range, an attribute read on None, a comparison with None, a failed conversion,
    an `exit` call) ends the whole computation; the model returns `Fail(fault)` where the
    program would raise, so that error paths are explicit instead of excluded. */
module Common {

  datatype Option<+T> = None | Some(value: T) {
    predicate IsFailure() { None? }
    function PropagateFailure<U>(): Option<U>
      requires None?
    {
      None
    }
    function Extract(): T
      requires Some?
    {
      value
    }
    function GetOr(default: T): T {
      match this
      case Some(v) => v
      case None => default
    }
  }

  /** Why the analysed program stops abnormally. */
  datatype Fault =
    | KeyError(key: string)           // dict[key] on a missing key
    | IndexError(what: string)        // list or string index out of range
    | NoneAttribute(what: string)     // attribute access on None
    | TypeError(what: string)         // an operation on the wrong kind of value (None < int, x in None, ...)
    | ValueError(what: string)        // int() of a malformed string, a tuple of the wrong arity
    | NonTermination(what: string)    // a loop whose state no longer changes and never exits
    | UnboundLocal(name: string)      // a local variable read before any assignment
    | Exit(code: int)                 // an explicit exit(code)

  datatype Result<+T> = Ok(value: T) | Fail(fault: Fault) {
    predicate IsFailure() { Fail? }
    function PropagateFailure<U>(): Result<U>
      requires Fail?
    {
      Fail(fault)
    }
    function Extract(): T
      requires Ok?
    {
      value
    }
  }

  /** The outcome of a computation whose value is dropped. */
  function Void<T>(x: Result<T>): (r: Result<()>)
    ensures r.Ok? <==> x.Ok?
    ensures r.Fail? ==> r.fault == x.fault
  {
    if x.Ok? then Ok(()) else Fail(x.fault)
  }

  /** A loop over `xs` whose iterations may raise; the first exception ends it. */
  function Steps<S, X>(s: S, xs: seq<X>, step: (S, X) -> Result<S>): Result<S> {
    if xs == [] then Ok(s)
    else
      var s' :- Steps(s, xs[..|xs| - 1], step);
      step(s', xs[|xs| - 1])
  }

  /** A loop that finishes finished its earlier iterations, and its last iteration
      started from where they left it. */
  lemma StepsSnoc<S, X>(s: S, xs: seq<X>, step: (S, X) -> Result<S>)
    requires xs != [] && Steps(s, xs, step).Ok?
    ensures Steps(s, xs[..|xs| - 1], step).Ok?
    ensures Steps(s, xs, step) == step(Steps(s, xs[..|xs| - 1], step).value, xs[|xs| - 1])
  {
  }

  /** One more iteration of a loop that has not raised. */
  lemma StepsNext<S, X>(s: S, xs: seq<X>, step: (S, X) -> Result<S>, i: nat, cur: S)
    requires i < |xs| && Steps(s, xs[..i], step) == Ok(cur)
    ensures Steps(s, xs[..i + 1], step) == step(cur, xs[i])
  {
    assert xs[..i + 1][..i] == xs[..i];
  }

  /** Once an iteration raises, the loop raises the same way. */
  lemma {:induction false} StepsFail<S, X>(s: S, xs: seq<X>, step: (S, X) -> Result<S>, n: nat)
    requires n <= |xs| && Steps(s, xs[..n], step).Fail?
    ensures Steps(s, xs, step) == Steps(s, xs[..n], step)
    decreases |xs| - n
  {
    if n == |xs| {
      assert xs[..n] == xs;
    } else {
      assert xs[..n + 1][..n] == xs[..n];
      StepsFail(s, xs, step, n + 1);
    }
  }

  /** The loop itself, for any iteration body. */
  method StepsLoop<S, X>(s: S, xs: seq<X>, step: (S, X) -> Result<S>) returns (r: Result<S>)
    ensures r == Steps(s, xs, step)
  {
    var cur := s;
    var i := 0;
    while i < |xs|
      invariant 0 <= i <= |xs|
      invariant Steps(s, xs[..i], step) == Ok(cur)
    {
      assert xs[..i + 1][..i] == xs[..i];
      var next := step(cur, xs[i]);
      if next.Fail? {
        StepsFail(s, xs, step, i + 1);
        return Fail(next.fault);
      }
      cur := next.value;
      i := i + 1;
    }
    assert xs[..i] == xs;
    r := Ok(cur);
  }
}
