/** Types shared by the modules of this project. */
module Common {

  /** One octet on a wire or in a binary value. */
  newtype byte = x: int | 0 <= x < 256

  datatype Option<+T> = None | Some(value: T)

  /** A value, or the error code that the C++ `ValueResult` and `OperationResult` carry. */
  datatype Result<+T> = Success(value: T) | Failure(code: string)

  // The error codes of the transport, which the gateway client passes on.

  const NOT_CONNECTED := "TRANSPORT_NOT_CONNECTED"
  const SEND_FAILED := "TRANSPORT_SEND_FAILED"
  const RECEIVE_FAILED := "TRANSPORT_RECEIVE_FAILED"
  const CONNECT_FAILED := "TRANSPORT_CONNECT_FAILED"

  /** The six characters that `isspace` accepts in the C locale. */
  predicate IsSpace(c: char) {
    c == ' ' || '\t' <= c <= '\r'
  }

  predicate IsDigit(c: char) {
    '0' <= c <= '9'
  }

  lemma SmallMultiple(d: int, k: int)
    requires 0 < k && -k < d * k < k
    ensures d == 0
  {
  }

  /** Euclidean division is the only way to split a number into a quotient and a remainder. */
  lemma DivMod(x: int, q: int, k: int, r: int)
    requires 0 <= r < k && x == q * k + r
    ensures x / k == q && x % k == r
  {
    assert (x / k - q) * k == r - x % k;
    SmallMultiple(x / k - q, k);
  }

  lemma MultiplyBounds(x: int, y: int, k: int)
    requires x <= y && 0 <= k
    ensures x * k <= y * k
  {
  }

  /** Dividing twice is dividing once by the product. */
  lemma DivDiv(x: int, a: int, b: int)
    requires 0 < a && 0 < b
    ensures 0 < b * a && x / a / b == x / (b * a)
  {
    var q, r := x / a, x % a;
    var q', r' := q / b, q % b;
    assert x == q * a + r && q == q' * b + r';
    assert q * a == q' * (b * a) + r' * a;
    MultiplyBounds(r', b - 1, a);
    assert (b - 1) * a == b * a - a;
    DivMod(x, q', b * a, r' * a + r);
  }

  lemma Associate<T>(a: seq<T>, b: seq<T>, c: seq<T>)
    ensures (a + b) + c == a + (b + c)
  {
  }
}
