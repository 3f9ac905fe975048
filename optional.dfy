/** `Optional<T>`: a one-field wrapper whose presence is the truthiness of the
    stored value, not a test for `undefined`. The field is written only when
    the wrapper is built, so the wrapper is an immutable value. */
module Optionals {
  import opened JsValues

  /** JavaScript's `a || b`: `a` when it is truthy, `b` otherwise. */
  function Or(a: JsValue, b: JsValue): (r: JsValue)
    ensures Truthy(r) <==> Truthy(a) || Truthy(b)
    ensures Truthy(a) ==> r == a
    ensures !Truthy(a) ==> r == b
  {
    if Truthy(a) then a else b
  }

  datatype Optional = Optional(value: JsValue)
  {
    /** `Optional.of(value)`: stores the value as it is, falsy values
        included. */
    static function Of(value: JsValue): (o: Optional)
      ensures o.Get() == value
      ensures o.IsPresent() <==> value !in Falsy
    {
      Optional(value)
    }

    /** `Optional.empty()`: the constructor's default argument, `undefined`. */
    static function Empty(): (o: Optional)
      ensures o.Get() == Undefined
      ensures !o.IsPresent()
    {
      Optional(Undefined)
    }

    /** `get()` never fails: an empty Optional yields `undefined`. */
    function Get(): (v: JsValue)
      ensures Optional(v) == this
    {
      value
    }

    /** `isPresent()` is `Boolean(value)`. */
    predicate IsPresent()
      ensures IsPresent() <==> Get() !in Falsy
    {
      Truthy(value)
    }

    /** `orElse(other)` is `value || other`. */
    function OrElse(other: JsValue): (r: JsValue)
      ensures IsPresent() ==> r == Get()
      ensures !IsPresent() ==> r == other
      ensures Truthy(r) || r == other
    {
      Or(value, other)
    }
  }

  /** Falsy values are stored and returned by `get()`, yet reported absent. */
  lemma OfFalsyIsAbsent(v: JsValue)
    requires v in Falsy
    ensures Optional.Of(v).Get() == v
    ensures !Optional.Of(v).IsPresent()
    ensures Optional.Of(v).OrElse(Num(5)) == Num(5)
  {
  }
}
