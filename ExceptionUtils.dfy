/**
 * ExceptionUtils: finding the root cause of a throwable by walking its cause chain, and
 * recognising the application's own exception.
 */
module ExceptionUtils {
  import opened Wrappers

  /**
   * A throwable and the chain of causes behind it. An EJBException also carries the
   * exception it was constructed with, which getCausedByException returns and which need not
   * be its getCause. Being an inductive value, every chain of causes is finite and acyclic.
   */
  datatype Throwable =
    | EJBException(causedByException: Option<Throwable>, cause: Option<Throwable>)
    | ValidationException(cause: Option<Throwable>)
    | OtherThrowable(className: string, cause: Option<Throwable>)

  /** The first hop of the walk: getCausedByException for an EJBException, getCause otherwise. */
  function FirstCause(t: Throwable): Option<Throwable> {
    if t.EJBException? then t.causedByException else t.cause
  }

  /** The getCause chain from t: t, its cause, that one's cause, and so on to one without a cause. */
  function CauseChain(t: Throwable): (chain: seq<Throwable>)
    ensures |chain| >= 1 && chain[0] == t && chain[|chain| - 1].cause.None?
    ensures forall i :: 0 <= i < |chain| - 1 ==> chain[i].cause == Some(chain[i + 1])
  {
    match t.cause
    case None => [t]
    case Some(c) => [t] + CauseChain(c)
  }

  function Last(chain: seq<Throwable>): Throwable
    requires |chain| >= 1
  {
    chain[|chain| - 1]
  }

  /** The root cause: none without a first cause, else the end of the getCause chain from it. */
  function RootCause(t: Throwable): Option<Throwable> {
    match FirstCause(t)
    case None => None
    case Some(first) => Some(Last(CauseChain(first)))
  }

  /** getRootCause: the loop of the source, reassigning the current throwable and the cause. */
  method GetRootCause(throwable: Throwable) returns (cause: Option<Throwable>)
    ensures cause == RootCause(throwable)
  {
    if throwable.EJBException? {
      cause := throwable.causedByException;
    } else {
      cause := throwable.cause;
    }

    if cause.Some? {
      var current := cause.value;
      // the source's loop test assigns current's cause to current and compares it with null
      while current.cause.Some?
        invariant cause == Some(current)
        invariant Last(CauseChain(current)) == Last(CauseChain(FirstCause(throwable).value))
        decreases current
      {
        current := current.cause.value;
        cause := Some(current);
      }
    }
  }

  /** isApplicationException: the throwable is a ValidationException; null is not. */
  predicate IsApplicationException(t: Option<Throwable>) {
    t.Some? && t.value.ValidationException?
  }

  /** The longest path through a throwable's links, causedByException included. */
  function Height(t: Throwable): nat {
    var viaCause := if t.cause.Some? then Height(t.cause.value) else 0;
    var viaCausedBy := if t.EJBException? && t.causedByException.Some? then Height(t.causedByException.value) else 0;
    1 + if viaCause < viaCausedBy then viaCausedBy else viaCause
  }

  /** Every throwable on the cause chain of t is at most as high as t. */
  lemma {:induction false} ChainIsNoHigher(t: Throwable)
    ensures forall x :: x in CauseChain(t) ==> Height(x) <= Height(t)
  {
    match t.cause
    case None =>
    case Some(c) =>
      ChainIsNoHigher(c);
      assert CauseChain(t) == [t] + CauseChain(c);
  }

  /**
   * What getRootCause returns: null exactly when the first cause is null; otherwise a
   * throwable without a cause, on the getCause chain of the first cause, and never the
   * argument itself; the first cause itself when it has no cause.
   */
  lemma RootCauseProperties(t: Throwable)
    ensures RootCause(t).None? <==> FirstCause(t).None?
    ensures RootCause(t).Some? ==>
      RootCause(t).value.cause.None? &&
      RootCause(t).value in CauseChain(FirstCause(t).value) &&
      RootCause(t).value != t
    ensures FirstCause(t).Some? && FirstCause(t).value.cause.None? ==> RootCause(t) == FirstCause(t)
  {
    if FirstCause(t).Some? {
      var first := FirstCause(t).value;
      ChainIsNoHigher(first);
      assert Height(first) < Height(t);
    }
  }

  /**
   * An example of the later hops: an EJBException nested under the first one is passed
   * through by getCause, even when it was constructed with another exception.
   */
  lemma LaterHopsUseGetCause(wrapped: Throwable, next: Option<Throwable>)
    requires next.None? || next.value.cause.None?
    ensures var nested := EJBException(Some(wrapped), next);
      RootCause(EJBException(Some(nested), None)) == if next.None? then Some(nested) else next
  {
    var nested := EJBException(Some(wrapped), next);
    if next.Some? {
      assert CauseChain(nested) == [nested] + CauseChain(next.value) == [nested, next.value];
    }
  }

  /**
   * A ValidationException wrapped by the container is not itself an application exception;
   * its root cause is. A throwable without a first cause has the root cause null, which is no
   * application exception.
   */
  lemma ApplicationExceptionAfterUnwrapping(cause: Option<Throwable>, t: Throwable)
    ensures var v := ValidationException(None);
      var wrapper := EJBException(Some(v), cause);
      !IsApplicationException(Some(wrapper)) && IsApplicationException(RootCause(wrapper))
    ensures !IsApplicationException(None)
    ensures FirstCause(t).None? ==> !IsApplicationException(RootCause(t))
  {
  }
}
