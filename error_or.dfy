/**
 * `streams::error_or<T>` (src/streams/error_or.h): a value or an error
 * condition, and the error conditions the core files produce.
 */
module ErrorOr {
  import opened Wrappers

  /** The errors of `stream_error` (src/streams/stream_error.h). */
  datatype StreamError = ValueWasMoved | NotInitialized | Timeout | AsioError

  function StreamErrorCode(e: StreamError): (code: nat)
    ensures 1 <= code <= 4
  {
    match e
    case ValueWasMoved => 1
    case NotInitialized => 2
    case Timeout => 3
    case AsioError => 4
  }

  lemma StreamErrorCodesDistinct(a: StreamError, b: StreamError)
    ensures StreamErrorCode(a) == StreamErrorCode(b) ==> a == b
  {
  }

  /**
   * A `std::error_condition`. `NoError` is the default-constructed condition
   * with value 0, which converts to `false`; every other one converts to `true`.
   */
  datatype ErrorCondition =
    | NoError
    | BadMessage            // std::errc::bad_message (EBADMSG)
    | Stream(stream: StreamError)

  predicate IsError(e: ErrorCondition) { e != NoError }

  /**
   * The value an `error_or<T>` holds, as pure code passes it around: the
   * result of `base64::decode` or `cbor_to_json`.
   */
  datatype Outcome<T> = Value(value: T) | Failure(error: ErrorCondition)
  {
    predicate IsOk() { Value? }
  }

  /**
   * An `error_or<T>` object. `ec` is `_ec`; `stored` is the union storage,
   * which holds a value once one has been constructed in it. `move()`
   * overwrites `ec` and leaves the storage as it is.
   */
  class ErrorOr<T> {
    var ec: ErrorCondition
    var stored: Option<T>

    /** A value is in the storage whenever `ok()` holds. */
    ghost predicate Valid()
      reads this
    {
      ec == NoError ==> stored.Some?
    }

    /** `ok()`: the error condition is the zero one. */
    predicate Ok()
      reads this
    {
      ec == NoError
    }

    /** The `error_or(T t)` constructor. */
    constructor FromValue(t: T)
      ensures Valid() && Ok()
      ensures ec == NoError && stored == Some(t)
    {
      ec := NoError;
      stored := Some(t);
    }

    /** The `error_or(std::error_condition)` constructor: it CHECKs `!ok()`. */
    constructor FromError(e: ErrorCondition)
      requires IsError(e)
      ensures Valid() && !Ok()
      ensures ec == e && stored == None
    {
      ec := e;
      stored := None;
    }

    /** `get()`: CHECKs `ok()`, then yields the stored value. */
    function Get(): (t: T)
      reads this
      requires Valid() && Ok()
      ensures stored == Some(t)
    {
      stored.value
    }

    /**
     * `move()`: CHECKs `ok()`, hands out the stored value and marks the
     * object as VALUE_WAS_MOVED, so that it is no longer ok.
     */
    method Move() returns (t: T)
      requires Valid() && Ok()
      modifies this
      ensures Some(t) == old(stored)
      ensures ec == Stream(ValueWasMoved) && !Ok()
      ensures stored == old(stored) && Valid()
    {
      t := stored.value;
      ec := Stream(ValueWasMoved);
    }

    /** `error_condition()`: CHECKs `!ok()`, then yields the condition. */
    function Condition(): (e: ErrorCondition)
      reads this
      requires !Ok()
      ensures IsError(e) && e == ec
    {
      ec
    }

    /**
     * Copy assignment: the condition is copied, and the value only when the
     * source is ok; an error source leaves the old storage in place.
     */
    method Assign(other: ErrorOr<T>)
      requires other.Valid()
      modifies this
      ensures ec == old(other.ec)
      ensures stored == if old(other.ec) == NoError then old(other.stored) else old(stored)
      ensures Valid()
    {
      ec := other.ec;
      if other.ec == NoError {
        stored := other.stored;
      }
    }

    /** The object's value as an `Outcome`. */
    function Snapshot(): (o: Outcome<T>)
      reads this
      requires Valid()
      ensures o.IsOk() <==> Ok()
      ensures o.Value? ==> Some(o.value) == stored
      ensures o.Failure? ==> IsError(o.error) && o.error == ec
    {
      if ec == NoError then Value(stored.value) else Failure(ec)
    }
  }

  /** The sequence of steps of error_or_test: construct, move, then check. */
  method MoveLeavesNotOk<T>(t: T) returns (moved: T, after: ErrorCondition)
    ensures moved == t
    ensures after == Stream(ValueWasMoved)
  {
    var e := new ErrorOr.FromValue(t);
    moved := e.Move();
    after := e.Condition();
  }
}
