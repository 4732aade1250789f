/** Types shared by every component: optional values, fallible results, and the
    64-bit integers the stores keep in Rust (`i64`) and in Postgres (`BIGINT`). */
module Prelude {
  datatype Option<+T> = None | Some(value: T)

  datatype Result<+T, +E> = Ok(value: T) | Err(error: E)

  const I64_MIN: int := -0x8000_0000_0000_0000
  const I64_MAX: int := 0x7fff_ffff_ffff_ffff

  predicate FitsI64(n: int) {
    I64_MIN <= n <= I64_MAX
  }

  type i64 = n: int | FitsI64(n)

  // `i64::saturating_add`: the 64-bit number nearest to the sum.
  function SaturatingAdd(a: int, b: int): (r: int)
    ensures -9223372036854775808 <= r <= 9223372036854775807
    ensures r < a + b ==> r == 9223372036854775807
    ensures r > a + b ==> r == -9223372036854775808
  {
    if a + b > I64_MAX then I64_MAX else if a + b < I64_MIN then I64_MIN else a + b
  }

  // Unary minus on `i64` as a release build computes it: the one value without a
  // positive counterpart wraps to itself.
  function WrappingNeg(d: int): int {
    if d == I64_MIN then I64_MIN else -d
  }

  // The code points `str::trim` removes.
  predicate White(c: char): (b: bool)
    ensures b <==> c in "\t\n\U{B}\U{C}\r \U{85}\U{A0}\U{1680}\U{2000}\U{2001}\U{2002}\U{2003}\U{2004}\U{2005}\U{2006}"
                      + "\U{2007}\U{2008}\U{2009}\U{200A}\U{2028}\U{2029}\U{202F}\U{205F}\U{3000}"
  {
    var n := c as int;
    || 0x9 <= n <= 0xd || n == 0x20 || n == 0x85 || n == 0xa0 || n == 0x1680
    || 0x2000 <= n <= 0x200a || n == 0x2028 || n == 0x2029 || n == 0x202f || n == 0x205f || n == 0x3000
  }

  predicate Blank(name: string) {
    forall c :: c in name ==> White(c)
  }
}
