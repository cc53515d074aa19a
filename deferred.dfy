/**
 * `streams::deferred<T>` (src/streams/deferred.h): a value that becomes
 * available later, with one callback that is told of it exactly once.
 */
module Deferred {
  import opened ErrorOr

  /** A `value_t`, that is an `error_or<T>`: a value, or an error that is not the zero condition. */
  predicate WellFormed<T>(o: Outcome<T>)
  {
    o.Failure? ==> IsError(o.error)
  }

  /** Whether a deferred value is known yet, and if so what it is. */
  datatype Resolution<T> = Pending | Done(outcome: Outcome<T>)

  /**
   * `deferred_impl_base<T>`. The callback itself is code of the caller; its
   * effect here is the record `delivered` of the values it was called with.
   */
  class Cell<T> {
    var value: Outcome<T>
    var resolved: bool
    var hasCallback: bool
    var delivered: seq<Outcome<T>>

    /** The value is well formed, and the callback has been called once exactly when it is registered and the value is known. */
    ghost predicate Valid()
      reads this
    {
      WellFormed(value) && delivered == (if resolved && hasCallback then [value] else [])
    }

    function State(): (r: Resolution<T>)
      reads this
      ensures r.Pending? <==> !resolved
    {
      if resolved then Done(value) else Pending
    }

    /** `deferred()`: not yet resolved; the value is the NOT_INITIALIZED error. */
    constructor Unresolved()
      ensures Valid() && State() == Pending && !hasCallback
      ensures value == Failure(Stream(NotInitialized))
    {
      value := Failure(Stream(NotInitialized));
      resolved, hasCallback := false, false;
      delivered := [];
    }

    /** `deferred(std::error_condition)`: already failed; it CHECKs that the condition is an error. */
    constructor Failed(e: ErrorCondition)
      requires IsError(e)
      ensures Valid() && State() == Done(Failure(e)) && !hasCallback
    {
      value := Failure(e);
      resolved, hasCallback := true, false;
      delivered := [];
    }

    /** `deferred(const T&)`: already resolved with a value. */
    constructor Resolved(t: T)
      ensures Valid() && State() == Done(Value(t)) && !hasCallback
    {
      value := Value(t);
      resolved, hasCallback := true, false;
      delivered := [];
    }

    /** `ok()`: CHECKs that the value is known, then says whether it is a value. */
    function Ok(): (b: bool)
      reads this
      requires resolved
      ensures b <==> State().outcome.Value?
    {
      value.Value?
    }

    /**
     * `on(f)`: CHECKs that no callback is registered yet; a value that is
     * already known is handed to the callback at once.
     */
    method On()
      requires Valid() && !hasCallback
      modifies this
      ensures Valid() && hasCallback && State() == old(State())
      ensures delivered == if resolved then [value] else []
    {
      hasCallback := true;
      if resolved {
        delivered := delivered + [value];
      }
    }

    /** `mark_resolved_and_notify`: CHECKs that the value was not known yet; a registered callback is called. */
    method MarkResolvedAndNotify()
      requires !resolved && WellFormed(value) && delivered == []
      modifies this
      ensures Valid() && resolved && value == old(value) && hasCallback == old(hasCallback)
      ensures delivered == if hasCallback then [value] else []
    {
      resolved := true;
      if !hasCallback {
        return;
      }
      delivered := delivered + [value];
    }

    /** `resolve(t)`: the value becomes known, at most once. */
    method Resolve(v: Outcome<T>)
      requires Valid() && !resolved && WellFormed(v)
      modifies this
      ensures Valid() && State() == Done(v) && hasCallback == old(hasCallback)
      ensures delivered == if hasCallback then [v] else []
    {
      value := v;
      MarkResolvedAndNotify();
    }

    /** `fail(ec)`: CHECKs that the condition is an error; then the value becomes that error, at most once. */
    method Fail(e: ErrorCondition)
      requires Valid() && !resolved && IsError(e)
      modifies this
      ensures Valid() && State() == Done(Failure(e)) && hasCallback == old(hasCallback)
      ensures delivered == if hasCallback then [Failure(e)] else []
    {
      value := Failure(e);
      MarkResolvedAndNotify();
    }
  }

  /** A callback registered before the value is known is called once, when it becomes known. */
  method CallbackBeforeResolve<T>(v: Outcome<T>) returns (delivered: seq<Outcome<T>>)
    requires WellFormed(v)
    ensures delivered == [v]
  {
    var d := new Cell<T>.Unresolved();
    d.On();
    delivered := d.delivered;
    assert delivered == [];
    d.Resolve(v);
    delivered := d.delivered;
  }

  /** A callback registered after the value is known is called once, at registration. */
  method CallbackAfterResolve<T>(v: Outcome<T>) returns (delivered: seq<Outcome<T>>)
    requires WellFormed(v)
    ensures delivered == [v]
  {
    var d := new Cell<T>.Unresolved();
    d.Resolve(v);
    delivered := d.delivered;
    assert delivered == [];
    d.On();
    delivered := d.delivered;
  }

  /** A deferred created already failed hands its error to the callback at registration. */
  method CallbackOnFailed<T>(e: ErrorCondition) returns (delivered: seq<Outcome<T>>)
    requires IsError(e)
    ensures delivered == [Failure(e)]
  {
    var d := new Cell<T>.Failed(e);
    d.On();
    delivered := d.delivered;
  }

  /**
   * `map(f)`: the deferred resolved, through a callback, when this one is:
   * with `f` of the value, or with the same error, `f` not being applied.
   */
  function Map<T, U>(f: T -> U, r: Resolution<T>): (m: Resolution<U>)
    ensures m.Pending? <==> r.Pending?
    ensures r.Done? && r.outcome.Failure? ==> m == Done(Failure(r.outcome.error))
    ensures r.Done? && r.outcome.Value? ==> m == Done(Value(f(r.outcome.value)))
  {
    match r
    case Pending => Pending
    case Done(Value(t)) => Done(Value(f(t)))
    case Done(Failure(e)) => Done(Failure(e))
  }

  /**
   * `then(f)`: on a value, `f` makes an inner deferred, whose resolution is
   * forwarded; on an error, `f` is not called and the error is forwarded.
   */
  function Then<T, U>(f: T -> Resolution<U>, r: Resolution<T>): (m: Resolution<U>)
    ensures r.Pending? ==> m.Pending?
    ensures r.Done? && r.outcome.Failure? ==> m == Done(Failure(r.outcome.error))
  {
    match r
    case Pending => Pending
    case Done(Value(t)) => f(t)
    case Done(Failure(e)) => Done(Failure(e))
  }

  /** `then` resolves only once the inner deferred does, and then with its outcome. */
  lemma ThenWaitsForInner<T, U>(f: T -> Resolution<U>, r: Resolution<T>)
    ensures Then(f, r).Done? <==> r.Done? && (r.outcome.Value? ==> f(r.outcome.value).Done?)
    ensures r.Done? && r.outcome.Value? ==> Then(f, r) == f(r.outcome.value)
  {
  }

  /** `map` and `then` keep well-formed outcomes well formed. */
  lemma MapWellFormed<T, U>(f: T -> U, r: Resolution<T>)
    requires r.Done? ==> WellFormed(r.outcome)
    ensures Map(f, r).Done? ==> WellFormed(Map(f, r).outcome)
  {
  }

  /** `map` with the identity changes nothing, and two maps are one map of the composition. */
  lemma MapFunctor<T, U, V>(f: T -> U, g: U -> V, r: Resolution<T>)
    ensures Map(x => x, r) == r
    ensures Map(g, Map(f, r)) == Map(x => g(f(x)), r)
  {
    match r
    case Pending =>
    case Done(Value(t)) =>
    case Done(Failure(e)) =>
  }

  /** `then` with an inner deferred already resolved with a value is `map`. */
  lemma ThenOfResolvedIsMap<T, U>(f: T -> U, r: Resolution<T>)
    ensures Then(x => Done(Value(f(x))), r) == Map(f, r)
  {
  }

  /** Chaining `then` twice is the same as one `then` of the chained inner deferreds. */
  lemma ThenAssociative<T, U, V>(f: T -> Resolution<U>, g: U -> Resolution<V>, r: Resolution<T>)
    ensures Then(g, Then(f, r)) == Then(x => Then(g, f(x)), r)
  {
  }

  /** `operator deferred<void>()`: a map to no value keeps only success or the error. */
  function Discard<T>(r: Resolution<T>): (m: Resolution<()>)
    ensures m.Pending? <==> r.Pending?
    ensures r.Done? ==> (m.outcome.Value? <==> r.outcome.Value?)
  {
    Map(_ => (), r)
  }
}
