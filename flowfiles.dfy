/**
 * FlowFiles as the merge logic of MergeContent sees them: an attribute map and
 * a byte content. Also the small pieces of Java behaviour the merge relies on:
 * the `\d+` test of `isNumber`, `Integer.parseInt` and `Integer.toString`.
 */
module FlowFiles {
  import opened Wrappers

  newtype byte = x: int | 0 <= x < 256

  // Attribute keys (CoreAttributes, FragmentAttributes and the processor's own constants).
  const FILENAME: string := "filename"
  const PATH: string := "path"
  const MIME_TYPE: string := "mime.type"
  const FRAGMENT_ID: string := "fragment.identifier"
  const FRAGMENT_INDEX: string := "fragment.index"
  const FRAGMENT_COUNT: string := "fragment.count"
  const SEGMENT_ORIGINAL_FILENAME: string := "segment.original.filename"
  const TAR_PERMISSIONS: string := "tar.permissions"
  const MERGE_COUNT: string := "merge.count"
  const MERGE_BIN_AGE: string := "merge.bin.age"
  const MERGE_REASON: string := "merge.reason"

  // Java integer limits.
  const INT_MIN: int := -2147483648
  const INT_MAX: int := 2147483647
  const LONG_MAX: int := 9223372036854775807

  /**
   * One bin member. `id` stands for the object's identity (two FlowFiles with
   * equal attributes and content are still different members).
   */
  datatype FlowFile = FlowFile(id: nat, attributes: map<string, string>, content: seq<byte>) {

    /** `getAttribute(key)`: the value, or None for Java's null. */
    function Attr(key: string): Option<string> {
      if key in attributes then Some(attributes[key]) else None
    }

    /** `getSize()`: the content length in bytes. */
    function Size(): nat {
      |content|
    }
  }

  /**
   * Attributes the framework puts on every FlowFile before this processor sees
   * it; the source reads them without a null check.
   */
  predicate HasCoreAttributes(ff: FlowFile) {
    FILENAME in ff.attributes && PATH in ff.attributes
  }

  /** No element occurs twice. */
  predicate Distinct<T(==)>(s: seq<T>) {
    forall i, j | 0 <= i < j < |s| :: s[i] != s[j]
  }

  predicate IsDigit(c: char) {
    '0' <= c <= '9'
  }

  predicate AllDigits(s: string) {
    forall i | 0 <= i < |s| :: IsDigit(s[i])
  }

  /** `isNumber`: not null and matching the whole of `\d+` (ASCII digits). */
  predicate IsNumber(v: Option<string>) {
    v.Some? && |v.value| > 0 && AllDigits(v.value)
  }

  function DigitValue(c: char): nat
    requires IsDigit(c)
  {
    (c as int - '0' as int) as nat
  }

  function DigitChar(d: nat): (c: char)
    requires d < 10
    ensures IsDigit(c) && DigitValue(c) == d
  {
    ('0' as int + d) as char
  }

  /** The decimal value of a string of digits, most significant digit first. */
  function DigitsValue(s: string): nat
    requires AllDigits(s)
  {
    if s == [] then 0 else DigitsValue(s[..|s| - 1]) * 10 + DigitValue(s[|s| - 1])
  }

  /**
   * `Integer.parseInt`: an optional sign and at least one digit, the value
   * within 32 bits; None stands for the NumberFormatException.
   */
  function ParseInt(s: string): (r: Option<int>)
    ensures r.Some? ==> INT_MIN <= r.value <= INT_MAX
  {
    if |s| == 0 then None
    else
      var digits := if s[0] == '-' || s[0] == '+' then s[1..] else s;
      if |digits| == 0 || !AllDigits(digits) then None
      else
        var v: int := if s[0] == '-' then 0 - DigitsValue(digits) as int else DigitsValue(digits);
        if INT_MIN <= v <= INT_MAX then Some(v) else None
  }

  /** Decimal digits of a natural number, without leading zeros. */
  function NatString(n: nat): string
  {
    if n < 10 then [DigitChar(n)] else NatString(n / 10) + [DigitChar(n % 10)]
  }

  /** `Integer.toString` / `Long.toString`. */
  function DecimalString(n: int): string {
    if n < 0 then "-" + NatString(-n) else NatString(n)
  }

  /** The digits of NatString read back give the number. */
  lemma {:induction false} NatStringValue(n: nat)
    ensures |NatString(n)| > 0 && AllDigits(NatString(n))
    ensures DigitsValue(NatString(n)) == n
  {
    if n >= 10 {
      NatStringValue(n / 10);
      var s := NatString(n);
      assert s[..|s| - 1] == NatString(n / 10);
    }
  }

  /** Integer.parseInt(Integer.toString(n)) == n for every 32-bit n. */
  lemma DecimalStringRoundTrip(n: int)
    requires INT_MIN <= n <= INT_MAX
    ensures ParseInt(DecimalString(n)) == Some(n)
  {
    NatStringValue(if n < 0 then -n else n);
    if n < 0 {
      assert DecimalString(n)[1..] == NatString(-n);
    } else {
      assert DecimalString(n)[0] != '-' && DecimalString(n)[0] != '+';
    }
  }

  /**
   * A string that passes `isNumber` parses with Integer.parseInt exactly when
   * its value fits in 32 bits, and then to that value.
   */
  lemma IsNumberParse(s: string)
    requires IsNumber(Some(s))
    ensures ParseInt(s) == if DigitsValue(s) <= INT_MAX then Some(DigitsValue(s)) else None
  {
    assert IsDigit(s[0]);
  }
}
