/**
 * `src/wasm-interface.ts`: the init-once flag in front of the WebAssembly module.
 *
 * The module-level `initialized` flag is a field of `WasmModule`. The asynchronous `init()` of
 * the generated bindings and the exported `transpile` are outside the model: what `init()` does
 * on this call is an input, and the exported transpiler is a function from the code to what it
 * returns or throws. Console logging is left out.
 */
module WasmInterface {
  import opened Wrappers

  /** How a call into the generated bindings ended. */
  datatype Completion = Normal | Threw(error: string)

  /** What the exported transpiler does with a piece of code. */
  datatype BackendOutcome = Returned(value: string) | Raised(message: string)

  type Backend = string -> BackendOutcome

  const NotInitialized: string := "WASM 모듈이 초기화되지 않았습니다. initWasm()을 먼저 호출하세요."
  const ConversionErrorPrefix: string := "// 변환 오류: "

  class WasmModule {
    var initialized: bool
    /** How many times `init()` of the bindings has been called. */
    ghost var initCalls: nat

    constructor ()
      ensures !initialized && initCalls == 0
    {
      initialized := false;
      initCalls := 0;
    }

    /**
     * `initWasm`: once initialized, return at once without calling `init()`; otherwise call it,
     * set the flag only when it succeeds, and rethrow its error when it fails. The flag is never
     * reset.
     */
    method InitWasm(init: Completion) returns (r: Completion)
      modifies this
      ensures old(initialized) ==> initialized && r == Normal && initCalls == old(initCalls)
      ensures !old(initialized) ==> initCalls == old(initCalls) + 1 && r == init
      ensures !old(initialized) ==> (initialized <==> init == Normal)
    {
      if initialized {
        return Normal;
      }
      initCalls := initCalls + 1;
      match init
      case Normal =>
        initialized := true;
        r := Normal;
      case Threw(e) =>
        r := Threw(e);
    }

    /**
     * `transpile`: throws when the module is not initialized; otherwise returns what the exported
     * transpiler returns, or the conversion-error comment with its message when it throws.
     */
    function Transpile(code: string, backend: Backend): (r: Result<string, string>)
      reads this
      ensures !initialized <==> r == Err(NotInitialized)
      ensures initialized && backend(code).Returned? ==> r == Ok(backend(code).value)
      ensures initialized && backend(code).Raised? ==> r == Ok(ConversionErrorPrefix + backend(code).message)
    {
      if !initialized then Err(NotInitialized)
      else match backend(code)
        case Returned(v) => Ok(v)
        case Raised(m) => Ok(ConversionErrorPrefix + m)
    }
  }

  /**
   * A failed `init()` leaves the flag down, so a later call tries again, and once a call has
   * succeeded every later call returns at once.
   */
  method RetryAfterFailure(w: WasmModule, e: string)
    requires !w.initialized
    modifies w
    ensures w.initialized && w.initCalls == old(w.initCalls) + 2
  {
    var r1 := w.InitWasm(Threw(e));
    assert r1 == Threw(e) && !w.initialized;
    var r2 := w.InitWasm(Normal);
    assert r2 == Normal;
    var r3 := w.InitWasm(Threw(e));
    assert r3 == Normal;
  }
}
