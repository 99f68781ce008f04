/** What `invoke` makes of the reflective call it wraps. The call itself is foreign, so its
    outcome is an input: it returned a value, the implementation threw (reported by
    `Method.invoke` as an InvocationTargetException), or `Method.invoke` failed before
    reaching the implementation. The two handlers differ only here. */
module Invocation {
  import opened JavaLang

  /** A thrown object: its class, its message (null when absent), its cause, and whether it
      is an `Exception` (as opposed to an `Error`, which `catch (Exception e)` lets by). */
  datatype Throwable = Throwable(className: string, message: Option<string>, cause: Option<Throwable>, isException: bool)

  /** How the wrapped call ended. `TargetThrew` carries the InvocationTargetException and
      its target, which `getTargetException()` may report as null. */
  datatype CallOutcome<V> =
    | Returned(value: V)
    | TargetThrew(invocationException: Throwable, target: Option<Throwable>)
    | DispatchFailed(error: Throwable)

  /** What the proxied method does for its caller: return a value or throw. */
  datatype CallResult<V> = Return(value: V) | Throw(thrown: Throwable)

  const RUNTIME_EXCEPTION := "java.lang.RuntimeException"
  const INVOCATION_PREFIX := "unexpected invocation exception: "

  /** The text string concatenation gives a message: the message, or "null". */
  function MessageText(message: Option<string>): string
  {
    match message
    case Some(text) => text
    case None => "null"
  }

  /** `new RuntimeException(INVOCATION_PREFIX + message, cause)`. */
  function InvocationFailure(message: Option<string>, cause: Option<Throwable>): Throwable
  {
    Throwable(RUNTIME_EXCEPTION, Some(INVOCATION_PREFIX + MessageText(message)), cause, true)
  }

  /** The object the `catch (Exception e)` of the wrapping handler sees, when there is one:
      the InvocationTargetException itself for a target failure (whatever the target is),
      the failure of `Method.invoke` when that is an Exception; an Error escapes the catch. */
  function CaughtException<V>(o: CallOutcome<V>): (e: Option<Throwable>)
    ensures e.None? <==> o.Returned? || (o.DispatchFailed? && !o.error.isException)
    ensures o.DispatchFailed? && e.Some? ==> e.value == o.error
    ensures o.TargetThrew? ==> e == Some(o.invocationException)
  {
    match o
    case Returned(_) => None
    case TargetThrew(ite, _) => Some(ite)
    case DispatchFailed(error) => if error.isException then Some(error) else None
  }

  /** The com.github handler: the implementation's own exception is rethrown as it was; an
      InvocationTargetException without a target becomes a RuntimeException whose cause is
      it; whatever `Method.invoke` itself throws propagates untouched. */
  function RethrowingResult<V>(o: CallOutcome<V>): (r: CallResult<V>)
    ensures r.Return? <==> o.Returned?
    ensures o.Returned? ==> r.value == o.value
    ensures o.TargetThrew? && o.target.Some? ==> r.thrown == o.target.value
    ensures o.TargetThrew? && o.target.None? ==>
      r.thrown == InvocationFailure(o.invocationException.message, Some(o.invocationException))
    ensures o.DispatchFailed? ==> r.thrown == o.error
  {
    match o
    case Returned(v) => Return(v)
    case TargetThrew(ite, target) =>
      if target.Some? then Throw(target.value)
      else Throw(InvocationFailure(ite.message, Some(ite)))
    case DispatchFailed(error) => Throw(error)
  }

  /** The com.yuga handler: every Exception from the call, the implementation's included,
      is replaced by a RuntimeException carrying only the caught message and no cause. */
  function WrappingResult<V>(o: CallOutcome<V>): (r: CallResult<V>)
    ensures r.Return? <==> o.Returned?
    ensures o.Returned? ==> r.value == o.value
    ensures CaughtException(o).Some? ==>
      r.thrown.className == RUNTIME_EXCEPTION && r.thrown.cause.None? &&
      r.thrown.message == Some(INVOCATION_PREFIX + MessageText(CaughtException(o).value.message))
  {
    match o
    case Returned(v) => Return(v)
    case TargetThrew(ite, _) => Throw(InvocationFailure(ite.message, None))
    case DispatchFailed(error) =>
      if error.isException then Throw(InvocationFailure(error.message, None)) else Throw(error)
  }

  /** A wrapped message is never the message it wraps: the prefix makes it longer. */
  lemma NoMessageWrapsItself(message: Option<string>)
    ensures message != Some(INVOCATION_PREFIX + MessageText(message))
  {
    if message.Some? {
      assert |INVOCATION_PREFIX + message.value| > |message.value|;
    }
  }

  /** The two handlers give the caller the same result exactly when the call returned,
      `Method.invoke` failed with an Error, or the implementation itself threw the very
      cause-less RuntimeException the wrapping handler makes of the InvocationTargetException.
      Every other failure reaches the caller differently: its own class and cause, or a
      RuntimeException without cause. */
  lemma HandlersAgreeIff<V>(o: CallOutcome<V>)
    ensures RethrowingResult(o) == WrappingResult(o) <==>
      o.Returned? || (o.DispatchFailed? && !o.error.isException) ||
      (o.TargetThrew? && o.target == Some(InvocationFailure(o.invocationException.message, None)))
  {
    match o
    case Returned(_) =>
    case TargetThrew(ite, target) =>
      if target.None? {
        assert RethrowingResult(o).thrown.cause == Some(ite);
      }
    case DispatchFailed(error) =>
      if error.isException {
        NoMessageWrapsItself(error.message);
      }
  }
}
