/** Small value types shared by every part of the model. */
module Values {

  datatype Option<T> = None | Some(value: T)

  /** The answer of one JSON-RPC call against one node as the client hands it
      back: the decoded value, or the `Debug` rendering of the client error. */
  datatype CallResult<T> = Success(value: T) | Failure(message: string)

  /** Block numbers are `u64` in the source; values from this bound up do not fit. */
  const U64_BOUND: nat := 0x1_0000_0000_0000_0000

  /** Rust's `u64`. */
  type U64 = x: nat | x < U64_BOUND

  /** `Option::unwrap_or_default` on a block number. */
  function OrZero(o: Option<nat>): (n: nat)
    ensures o.Some? ==> n == o.value
    ensures o.None? ==> n == 0
  {
    match o
    case Some(v) => v
    case None => 0
  }

  function Digit(d: nat): (c: char)
    requires d < 10
    ensures '0' <= c <= '9'
  {
    (48 + d) as char
  }

  /** Decimal rendering of an unsigned number, as Rust's `{}` formatting. */
  function DecimalString(n: nat): (s: string)
    ensures 1 <= |s|
    ensures |s| == 1 <==> n < 10
    ensures forall i :: 0 <= i < |s| ==> '0' <= s[i] <= '9'
    ensures s[|s| - 1] == Digit(n % 10)
  {
    if n < 10 then [Digit(n)] else DecimalString(n / 10) + [Digit(n % 10)]
  }

  /** Distinct numbers render as distinct text, so the titles built from them differ. */
  lemma {:induction false} DecimalStringInjective(a: nat, b: nat)
    requires DecimalString(a) == DecimalString(b)
    ensures a == b
  {
    if a >= 10 && b >= 10 {
      var sa, sb := DecimalString(a), DecimalString(b);
      assert DecimalString(a / 10) == sa[..|sa| - 1];
      assert DecimalString(b / 10) == sb[..|sb| - 1];
      DecimalStringInjective(a / 10, b / 10);
      assert Digit(a % 10) == Digit(b % 10);
      assert a % 10 == b % 10;
      assert a == 10 * (a / 10) + a % 10 && b == 10 * (b / 10) + b % 10;
    } else if a < 10 && b < 10 {
      assert Digit(a) == Digit(b);
    }
  }
}
