/** The result slots of a handler body, after effects/handle_body.h.

    A `Handle_Body_Result<R>` holds an optional value and an optional error;
    reading it rethrows the error if there is one and otherwise yields the
    value, which must then be present. A `Handle_Body_Impl` runs the body and
    the return handler and stores whatever comes out, value or error, in its
    slot. Exceptions are the opaque `Error` values of `Basics`, and a body or
    return handler is a total function answering `Success` or `Failure`. */
module HandleBodies {
  import opened Basics

  /** `Handle_Body_Result<Result>`. */
  class HandleBodyResult<R> {
    var resultValue: Option<R>
    var errorValue: Option<Error>

    constructor ()
      ensures resultValue == None && errorValue == None
    {
      resultValue, errorValue := None, None;
    }

    /** `result()`: the stored error is rethrown whenever there is one, even
        next to a value; otherwise the value, and `std::optional::value()` on
        an empty slot throws `std::bad_optional_access`. */
    function Result(): (r: Try<R>)
      reads this
      ensures errorValue.Some? ==> r == Failure(errorValue.value)
      ensures errorValue.None? && resultValue.Some? ==> r == Success(resultValue.value)
      ensures errorValue.None? && resultValue.None? ==> r == Failure(BadOptionalAccess)
    {
      match errorValue
      case Some(e) => Failure(e)
      case None => if resultValue.Some? then Success(resultValue.value) else Failure(BadOptionalAccess)
    }

    /** `set_result`: replaces the value; an error stored earlier still wins. */
    method SetResult(v: R)
      modifies this
      ensures resultValue == Some(v) && errorValue == old(errorValue)
      ensures Result() == if errorValue.Some? then Failure(errorValue.value) else Success(v)
    {
      resultValue := Some(v);
    }

    /** `set_error`: replaces the error; every later read fails with it. */
    method SetError(e: Error)
      modifies this
      ensures errorValue == Some(e) && resultValue == old(resultValue)
      ensures Result() == Failure(e)
    {
      errorValue := Some(e);
    }
  }

  /** `Handle_Body_Result<void>`: only an error. */
  class HandleBodyVoid {
    var errorValue: Option<Error>

    constructor ()
      ensures errorValue == None
    {
      errorValue := None;
    }

    /** `result()`: succeeds exactly when no error is stored. */
    function Result(): (r: Try<()>)
      reads this
      ensures r.Success? <==> errorValue.None?
      ensures errorValue.Some? ==> r == Failure(errorValue.value)
    {
      if errorValue.Some? then Failure(errorValue.value) else Success(())
    }

    method SetError(e: Error)
      modifies this
      ensures errorValue == Some(e)
      ensures Result() == Failure(e)
    {
      errorValue := Some(e);
    }
  }

  /** What running the body and then the return handler comes to: the first
      error thrown, or the return handler's value. */
  function Run<A, R>(toCall: () -> Try<A>, returnHandler: A -> Try<R>): (r: Try<R>)
    ensures toCall().Failure? ==> r == Failure(toCall().error)
    ensures toCall().Success? ==> r == returnHandler(toCall().value)
  {
    match toCall()
    case Failure(e) => Failure(e)
    case Success(a) => returnHandler(a)
  }

  /** `Handle_Body_Impl<Result, Function, ReturnHandler>`: a body, a return
      handler and the slot its results go to. */
  class HandleBodyImpl<A, R> {
    const toCall: () -> Try<A>
    const returnHandler: A -> Try<R>
    const slot: HandleBodyResult<R>

    constructor (toCall: () -> Try<A>, returnHandler: A -> Try<R>, slot: HandleBodyResult<R>)
      ensures this.toCall == toCall && this.returnHandler == returnHandler && this.slot == slot
    {
      this.toCall, this.returnHandler, this.slot := toCall, returnHandler, slot;
    }

    /** `call()`: `set_result(return_handler(to_call()))`, and any error from
        either of them caught and stored with `set_error`, the value left as
        it was. */
    method Call()
      modifies slot
      ensures Run(toCall, returnHandler).Success? ==>
                slot.resultValue == Some(Run(toCall, returnHandler).value) && slot.errorValue == old(slot.errorValue)
      ensures Run(toCall, returnHandler).Failure? ==>
                slot.errorValue == Some(Run(toCall, returnHandler).error) && slot.resultValue == old(slot.resultValue)
      ensures old(slot.errorValue).None? ==> slot.Result() == Run(toCall, returnHandler)
    {
      var a := toCall();
      if a.Failure? {
        slot.SetError(a.error);
        return;
      }
      var r := returnHandler(a.value);
      if r.Failure? {
        slot.SetError(r.error);
        return;
      }
      slot.SetResult(r.value);
    }
  }

  /** `Handle_Body_Impl<void, Function, ReturnHandler>`: the return handler
      is kept but never called. */
  class HandleBodyVoidImpl<R> {
    const toCall: () -> Try<()>
    const returnHandler: () -> Try<R>
    const slot: HandleBodyVoid

    constructor (toCall: () -> Try<()>, returnHandler: () -> Try<R>, slot: HandleBodyVoid)
      ensures this.toCall == toCall && this.returnHandler == returnHandler && this.slot == slot
    {
      this.toCall, this.returnHandler, this.slot := toCall, returnHandler, slot;
    }

    /** `call()`: runs the body; an error from it is stored. */
    method Call()
      modifies slot
      ensures toCall().Failure? ==> slot.errorValue == Some(toCall().error)
      ensures toCall().Success? ==> slot.errorValue == old(slot.errorValue)
      ensures old(slot.errorValue).None? ==> slot.Result() == toCall()
    {
      var u := toCall();
      match u
      case Failure(e) => slot.SetError(e);
      case Success(v) => assert v == ();
    }
  }
}
