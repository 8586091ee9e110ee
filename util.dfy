/** The memo cell `lazy` of mqtt-restful/src/util.ts.

    `lazy(init)` returns a function that calls `init` while the value it keeps is falsy and
    returns the kept value. JavaScript's truthiness of a value of `T` is the function
    `truthy` the cell is built with; the kept value starts as `undefined` (`None`), which is
    falsy. `init` is a function of no arguments, so every call of it gives the same result;
    how often it is called is counted in `initCalls`. */
module Util {
  import opened Wrappers

  class Lazy<T> {
    const init: () -> T
    const truthy: T -> bool
    var value: Option<T>
    var initCalls: nat

    constructor (init: () -> T, truthy: T -> bool)
      ensures this.init == init && this.truthy == truthy
      ensures value == None && initCalls == 0
    {
      this.init := init;
      this.truthy := truthy;
      value := None;
      initCalls := 0;
    }

    /** `!value`: the kept value is `undefined` or a falsy value. */
    predicate Falsy()
      reads this
    {
      value.None? || !truthy(value.value)
    }

    /** One call of the function `lazy` returns. While the kept value is falsy, `init` runs
        and its result is kept (a falsy result too, so the next call runs `init` again); a
        truthy kept value is returned without running `init`. The result is always the
        kept value after the possible update. */
    method Get() returns (r: T)
      modifies this
      ensures old(Falsy()) ==> value == Some(init()) && initCalls == old(initCalls) + 1
      ensures !old(Falsy()) ==> value == old(value) && initCalls == old(initCalls)
      ensures value == Some(r)
      ensures Falsy() <==> !truthy(r)
    {
      if Falsy() {
        value := Some(init());
        initCalls := initCalls + 1;
      }
      r := value.value;
    }
  }
}
