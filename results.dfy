/** The cross-thread result holder of effects/result.h.

    `Result<T>` starts empty and holds an optional value and an optional
    error; reading rethrows the error if there is one and otherwise yields
    the value, which must be present. `set(T value)` as written assigns its
    parameter to itself, because the parameter hides the member of the same
    name, so the holder never receives a value: `SetAsWritten` models that,
    `Set` the assignment evidently meant. */
module Results {
  import opened Basics

  /** `Result<T>`. */
  class Result<T> {
    var value: Option<T>
    var error: Option<Error>

    /** `Result()`: neither a value nor an error. */
    constructor ()
      ensures value == None && error == None
      ensures Read() == Failure(BadOptionalAccess)
    {
      value, error := None, None;
    }

    /** `result()`: the error, if set, is rethrown whatever the value; else
        the value, and an empty `std::optional` throws
        `std::bad_optional_access`. */
    function Read(): (r: Try<T>)
      reads this
      ensures error.Some? ==> r == Failure(error.value)
      ensures error.None? ==> (r.Success? <==> value.Some?)
      ensures error.None? && value.Some? ==> r == Success(value.value)
      ensures error.None? && value.None? ==> r == Failure(BadOptionalAccess)
    {
      if error.Some? then Failure(error.value)
      else if value.Some? then Success(value.value)
      else Failure(BadOptionalAccess)
    }

    /** `set(T value)` as written: `value = std::move(value)` names the
        parameter on both sides, so the holder is left as it was. */
    method SetAsWritten(value: T)
      ensures Read() == old(Read())
    {
      var v := value;
      v := v;
    }

    /** `set(T value)` as evidently intended: the holder's value becomes
        `value`. */
    method Set(value: T)
      modifies this
      ensures this.value == Some(value) && error == old(error)
      ensures error.None? ==> Read() == Success(value)
    {
      this.value := Some(value);
    }

    /** `set_error`: every later read fails with this error. */
    method SetError(e: Error)
      modifies this
      ensures error == Some(e) && value == old(value)
      ensures Read() == Failure(e)
    {
      error := Some(e);
    }
  }

  /** A fresh holder given a value with `set` as written still has nothing
      to give: reading it throws `std::bad_optional_access`. */
  method SetThenReadAsWritten<T>(v: T) returns (got: Try<T>)
    ensures got == Failure(BadOptionalAccess)
  {
    var r := new Result<T>();
    r.SetAsWritten(v);
    got := r.Read();
  }

  /** With the intended `set`, reading a fresh holder gives the value back. */
  method SetThenRead<T>(v: T) returns (got: Try<T>)
    ensures got == Success(v)
  {
    var r := new Result<T>();
    r.Set(v);
    got := r.Read();
  }

  /** `Result<void>`: only an error. */
  class VoidResult {
    var error: Option<Error>

    constructor ()
      ensures error == None
    {
      error := None;
    }

    /** `result()`: succeeds exactly when no error is set. */
    function Read(): (r: Try<()>)
      reads this
      ensures r.Success? <==> error.None?
      ensures error.Some? ==> r == Failure(error.value)
    {
      if error.Some? then Failure(error.value) else Success(())
    }

    /** `set()`: does nothing; a read answers as before. */
    method Set()
      ensures Read() == old(Read())
    {
    }

    method SetError(e: Error)
      modifies this
      ensures error == Some(e) && Read() == Failure(e)
    {
      error := Some(e);
    }
  }

  /** `set()` on a void holder changes no read: a fresh one still succeeds,
      and one with an error still fails with it. */
  method VoidSetKeepsRead(e: Error) returns (clean: Try<()>, failed: Try<()>)
    ensures clean == Success(()) && failed == Failure(e)
  {
    var a := new VoidResult();
    a.Set();
    clean := a.Read();
    var b := new VoidResult();
    b.SetError(e);
    b.Set();
    failed := b.Read();
  }
}
