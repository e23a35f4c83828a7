/** The structured error a dispatch context accumulates (errors.go). */
module Errors {
  import opened Lang

  /** `ErrorType` is a 64-bit flag word. */
  type ErrorType = bv64

  const ErrorTypeBind: ErrorType := 1 << 63
  const ErrorTypeRender: ErrorType := 1 << 62
  const ErrorTypePrivate: ErrorType := 1 << 0
  const ErrorTypePublic: ErrorType := 1 << 1
  const ErrorTypeAny: ErrorType := 0xFFFF_FFFF_FFFF_FFFF
  const ErrorTypeNu: ErrorType := 2

  /** Exactly one bit of `f` is set. */
  predicate SingleBit(f: ErrorType) {
    f != 0 && f & (f - 1) == 0
  }

  /** The flag constants: private and public are two different single bits,
      the odd `ErrorTypeNu` is the public bit again, and `ErrorTypeAny` masks nothing away. */
  lemma ErrorTypeFlags(f: ErrorType)
    ensures SingleBit(ErrorTypePrivate) && SingleBit(ErrorTypePublic)
    ensures SingleBit(ErrorTypeBind) && SingleBit(ErrorTypeRender)
    ensures ErrorTypePrivate & ErrorTypePublic == 0
    ensures ErrorTypeNu == ErrorTypePublic
    ensures f & ErrorTypeAny == f && f | ErrorTypeAny == ErrorTypeAny
  {
  }

  /** A Go `error` handed to `Context.Error`: nil, an `*Error` already, or any
      other error, known here only by the text its `Error()` returns. */
  datatype ErrorArg = NilError | AsError(e: Error) | Foreign(message: string)

  /** `*Error`: the wrapped error (nil-able, known by its message), its type flags and metadata. */
  class Error {
    var err: Option<string>
    var errType: ErrorType
    var meta: Value

    constructor (err: Option<string>, errType: ErrorType)
      ensures this.err == err && this.errType == errType && meta == Nil
    {
      this.err := err;
      this.errType := errType;
      meta := Nil;
    }

    /** `SetType` overwrites the flags and hands back the same object for chaining. */
    method SetType(flags: ErrorType) returns (r: Error)
      modifies this`errType
      ensures r == this
      ensures errType == flags
      ensures err == old(err) && meta == old(meta)
    {
      errType := flags;
      r := this;
    }

    /** `Error()` delegates to the wrapped error; a nil one is a nil dereference. */
    function Message(): (r: Outcome<string>)
      reads this
      ensures r.Ok? <==> err.Some?
      ensures r.Ok? ==> r.value == err.value
    {
      match err
      case Some(m) => Ok(m)
      case None => Panic("runtime error: invalid memory address or nil pointer dereference")
    }
  }
}
