/** Definitions shared by every user-defined function of the library: the compile-time
    buffer limits, the shape of an argument and of a reply, and the error policy. */
module Common {

  /** Number of ints in each function's preallocated work buffer (the build default). */
  const BufferSize: nat := 4096

  /** Largest bound a caller may ask for: the buffer size, clamped to [0, 16384]. */
  const MaxEditDist: nat := if BufferSize > 16384 then 16384 else BufferSize

  datatype Option<T> = None | Some(value: T)

  /** A string argument: SQL NULL, with the length the server reports for it, or its bytes. */
  datatype Arg<T> = Null(length: nat) | Value(chars: seq<T>)

  function Length<T>(x: Arg<T>): nat
  {
    match x
    case Null(n) => n
    case Value(s) => |s|
  }

  /** What a call hands back to the server: the integer result and the two flags. */
  datatype Reply = Reply(value: int, isNull: bool, error: bool)

  /** The build-time choice for a rejected bound: reply 0, or reply SQL NULL. */
  datatype BadMaxPolicy = ReturnZero | ReturnNull

  /** An integer result with neither flag raised. */
  function Ok(v: int): (r: Reply)
    ensures r.value == v && !r.isNull && !r.error
  {
    Reply(v, false, false)
  }

  /** The reply of a call whose bound argument was rejected. */
  function BadMax(policy: BadMaxPolicy): (r: Reply)
    ensures r.error
    ensures policy == ReturnZero ==> r.value == 0 && !r.isNull
    ensures policy == ReturnNull ==> r.value == 1 && r.isNull
  {
    match policy
    case ReturnZero => Reply(0, false, true)
    case ReturnNull => Reply(1, true, true)
  }
}
