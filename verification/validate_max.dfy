/** Validation of the caller's bound argument, shared by every bounded variant. */
module ValidateMax {
  import opened Common
  import opened EditDistance

  const TwoTo31: int := 0x8000_0000
  const TwoTo32: int := 0x1_0000_0000

  /** The value a 64-bit integer takes when converted to a 32-bit `int`: the one
      in [-2^31, 2^31) congruent to it modulo 2^32. */
  function Int32(x: int): (r: int)
    ensures -TwoTo31 <= r < TwoTo31
    ensures (x - r) % TwoTo32 == 0
  {
    (x + TwoTo31) % TwoTo32 - TwoTo31
  }

  /** Conversion keeps every value that already fits in 32 bits. */
  lemma Int32Keeps(x: int)
    requires -TwoTo31 <= x < TwoTo31
    ensures Int32(x) == x
  {
  }

  /** Outcome of validation: a reply that ends the call, or the bound to work with. */
  datatype Bound = Rejected(reply: Reply) | Accepted(max: int)

  /** The validation as written: the argument is first converted to 32 bits, and
      only the converted value is checked for a negative sign and clamped against
      the bound computed before (`prior`). A missing argument is an error. */
  function ValidateMaxAsWritten(arg: Option<int>, prior: int, policy: BadMaxPolicy): (v: Bound)
    ensures arg.None? ==> v == Rejected(BadMax(policy))
    ensures arg.Some? ==> (v.Rejected? <==> Int32(arg.value) < 0)
    ensures v.Rejected? ==> v.reply == BadMax(policy)
    ensures v.Accepted? ==> v.max <= prior && v.max <= Int32(arg.value)
    ensures v.Accepted? ==> v.max == prior || v.max == Int32(arg.value)
  {
    match arg
    case None => Rejected(BadMax(policy))
    case Some(x) =>
      var userMax := Int32(x);
      if userMax < 0 then Rejected(BadMax(policy))
      else Accepted(Min(userMax, prior))
  }

  /** The validation as intended: a negative argument is rejected, and otherwise
      the bound is the smaller of the argument and `prior`, so it is never raised. */
  function ValidateBound(arg: Option<int>, prior: int, policy: BadMaxPolicy): (v: Bound)
    ensures arg.None? ==> v == Rejected(BadMax(policy))
    ensures arg.Some? ==> (v.Rejected? <==> arg.value < 0)
    ensures v.Rejected? ==> v.reply == BadMax(policy)
    ensures v.Accepted? ==> v.max <= prior && v.max <= arg.value
    ensures v.Accepted? ==> v.max == prior || v.max == arg.value
  {
    match arg
    case None => Rejected(BadMax(policy))
    case Some(x) =>
      if x < 0 then Rejected(BadMax(policy))
      else Accepted(Min(x, prior))
  }

  /** The two agree on every argument that fits in 32 bits. */
  lemma ValidationAgrees(arg: Option<int>, prior: int, policy: BadMaxPolicy)
    requires arg.Some? ==> -TwoTo31 <= arg.value < TwoTo31
    ensures ValidateMaxAsWritten(arg, prior, policy) == ValidateBound(arg, prior, policy)
  {
    if arg.Some? {
      Int32Keeps(arg.value);
    }
  }

  /** A bound of 2^32 + 1 is read as 1: the as-written validation lowers it. */
  lemma TruncatedBoundShrinks(policy: BadMaxPolicy)
    ensures ValidateMaxAsWritten(Some(TwoTo32 + 1), 4096, policy) == Accepted(1)
    ensures ValidateBound(Some(TwoTo32 + 1), 4096, policy) == Accepted(4096)
  {
  }

  /** A bound of 5 - 2^32 is negative, yet the as-written validation accepts it as 5. */
  lemma NegativeBoundAccepted(policy: BadMaxPolicy)
    ensures ValidateMaxAsWritten(Some(5 - TwoTo32), 5 - TwoTo32, policy).Accepted?
    ensures Int32(5 - TwoTo32) == 5
    ensures ValidateBound(Some(5 - TwoTo32), 5 - TwoTo32, policy) == Rejected(BadMax(policy))
  {
  }
}
