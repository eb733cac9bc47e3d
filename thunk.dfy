/** A one-shot memo cell around a zero-argument function (lib/Thunk.js). */
module Thunks {
  import opened Wrappers

  class Thunk<T> {
    /** The function the thunk was created with. */
    ghost const fn: () -> T
    /** `_f`: the stored function, cleared once it has been called. */
    var f: Option<() -> T>
    /** `_realized` */
    var realized: bool
    /** `_value`: `undefined` (None) until the first `get`. */
    var value: Option<T>
    /** How many times the stored function has been invoked. */
    ghost var calls: nat

    ghost predicate Valid()
      reads this
    {
      && calls <= 1
      && (realized ==> f == None && value == Some(fn()) && calls == 1)
      && (!realized ==> f == Some(fn) && value == None && calls == 0)
    }

    constructor (f: () -> T)
      ensures Valid()
      ensures fn == f && !realized && calls == 0
    {
      this.fn := f;
      this.f := Some(f);
      this.realized := false;
      this.value := None;
      this.calls := 0;
    }

    /** Forces the thunk: on the first call invokes the stored function,
        caches its value and drops the function; later calls only return the
        cached value. */
    method Get() returns (v: T)
      requires Valid()
      modifies this
      ensures Valid()
      ensures v == fn()
      ensures realized && value == Some(v) && f == None
      ensures calls == 1
      ensures old(realized) ==> unchanged(this)
    {
      if !realized {
        var g := f.value;
        value := Some(g());
        calls := calls + 1;
        realized := true;
        f := None;
      }
      v := value.value;
    }
  }

  /** However many times `get` is called, the stored function runs once and
      every call returns the same value. */
  method GetRepeatedly<T>(th: Thunk<T>, times: nat) returns (vs: seq<T>)
    requires th.Valid()
    modifies th
    ensures th.Valid()
    ensures |vs| == times
    ensures forall i :: 0 <= i < times ==> vs[i] == th.fn()
    ensures th.calls == (if times == 0 then old(th.calls) else 1)
  {
    vs := [];
    while |vs| < times
      invariant th.Valid()
      invariant |vs| <= times
      invariant forall i :: 0 <= i < |vs| ==> vs[i] == th.fn()
      invariant th.calls == (if vs == [] then old(th.calls) else 1)
    {
      var v := th.Get();
      vs := vs + [v];
    }
  }
}
