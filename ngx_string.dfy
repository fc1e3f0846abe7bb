/** Option type used for allocations that may fail. */
module Wrappers {
  datatype Option<+T> = None | Some(value: T)
}

/**
 * Byte strings as nginx handles them (ngx_str_t contents), with the two
 * byte-level operations the header injection relies on: ASCII lower-casing
 * of keys and ngx_strncmp (C strncmp).
 */
module NgxString {

  newtype byte = x: int | 0 <= x < 256

  type Bytes = seq<byte>

  predicate IsUpper(c: byte) {
    'A' as int <= c as int <= 'Z' as int
  }

  /** ASCII lower-casing of one byte: an upper-case letter becomes its lower-case letter, any other byte is kept. */
  function ToLowerByte(c: byte): (r: byte)
    ensures !IsUpper(r)
    ensures IsUpper(c) ==> r as int == c as int + ('a' as int - 'A' as int)
    ensures !IsUpper(c) ==> r == c
  {
    if IsUpper(c) then c + 32 else c
  }

  predicate NoUpper(s: Bytes) {
    forall i :: 0 <= i < |s| ==> !IsUpper(s[i])
  }

  /** Byte-wise ASCII lower-casing of a whole string. */
  function ToLower(s: Bytes): (r: Bytes)
    ensures |r| == |s|
    ensures forall i :: 0 <= i < |s| ==> r[i] == ToLowerByte(s[i])
    ensures NoUpper(r)
  {
    if s == [] then [] else [ToLowerByte(s[0])] + ToLower(s[1..])
  }

  /**
   * Lower-casing is the identity on strings without upper-case letters, so
   * it is idempotent.
   */
  lemma ToLowerOfLower(s: Bytes)
    requires NoUpper(s)
    ensures ToLower(s) == s
  {
  }

  /**
   * ngx_strncmp(a, b, n) == 0, with the semantics of C strncmp: the first n
   * bytes are compared in order, and the comparison stops early (equal) at a
   * NUL byte both strings share.
   */
  function StrNCmpEqual(a: Bytes, b: Bytes, n: nat): bool
    requires n <= |a| && n <= |b|
  {
    n == 0 || (a[0] == b[0] && (a[0] == 0 || StrNCmpEqual(a[1..], b[1..], n - 1)))
  }

  /** Equal prefixes always compare equal. */
  lemma {:induction false} StrNCmpEqualOfEqualPrefix(a: Bytes, b: Bytes, n: nat)
    requires n <= |a| && n <= |b|
    requires a[..n] == b[..n]
    ensures StrNCmpEqual(a, b, n)
  {
    if n > 0 {
      assert a[0] == a[..n][0] && b[0] == b[..n][0];
      assert a[1..][..n - 1] == a[..n][1..];
      assert b[1..][..n - 1] == b[..n][1..];
      StrNCmpEqualOfEqualPrefix(a[1..], b[1..], n - 1);
    }
  }

  /** When the first n bytes of a hold no NUL, strncmp equality is exactly equality of the n-byte prefixes. */
  lemma {:induction false} StrNCmpEqualIffPrefix(a: Bytes, b: Bytes, n: nat)
    requires n <= |a| && n <= |b|
    requires forall i :: 0 <= i < n ==> a[i] != 0
    ensures StrNCmpEqual(a, b, n) <==> a[..n] == b[..n]
  {
    if n > 0 {
      assert a[1..][..n - 1] == a[..n][1..];
      assert b[1..][..n - 1] == b[..n][1..];
      assert a[..n] == [a[0]] + a[..n][1..];
      assert b[..n] == [b[0]] + b[..n][1..];
      StrNCmpEqualIffPrefix(a[1..], b[1..], n - 1);
    }
  }

  /**
   * strncmp stops at a NUL byte both strings share: whatever follows it is
   * never compared, so two different strings can compare equal.
   */
  lemma {:induction false} StrNCmpStopsAtNul(a: Bytes, b: Bytes, n: nat, k: nat)
    requires n <= |a| && n <= |b|
    requires k < n
    requires a[..k + 1] == b[..k + 1] && a[k] == 0
    ensures StrNCmpEqual(a, b, n)
  {
    assert a[0] == a[..k + 1][0] && b[0] == b[..k + 1][0];
    if k > 0 {
      assert a[1..][..k] == a[..k + 1][1..];
      assert b[1..][..k] == b[..k + 1][1..];
      StrNCmpStopsAtNul(a[1..], b[1..], n - 1, k - 1);
    }
  }
}
