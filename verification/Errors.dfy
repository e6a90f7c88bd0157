/** The kernel's errors, as far as their kind decides what happens next. */
module Errors {
  datatype KernelError =
    | Cancelled
    | ExecutionTimeout(timeoutMs: nat)
    | CalleeFailed(plugin: string, action: string, source: KernelError)
    | Other(text: string)

  /** The shape a cancellation or a deadline takes on its way out of an action. */
  predicate StoppedByCancellation(e: KernelError)
  {
    match e
    case Cancelled => true
    case ExecutionTimeout(_) => true
    case CalleeFailed(_, _, source) => StoppedByCancellation(source)
    case Other(_) => false
  }

  /** What lies under any number of callee failures. */
  function Root(e: KernelError): (r: KernelError)
    ensures !r.CalleeFailed?
  {
    if e.CalleeFailed? then Root(e.source) else e
  }

  lemma {:induction false} StoppedByItsRoot(e: KernelError)
    ensures StoppedByCancellation(e) <==> Root(e).Cancelled? || Root(e).ExecutionTimeout?
  {
    if e.CalleeFailed? {
      StoppedByItsRoot(e.source);
    }
  }
}
