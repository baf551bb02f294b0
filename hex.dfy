/**
 * `bytes.fromhex` as CPython implements it: a run of ASCII whitespace may
 * stand before each pair of hexadecimal digits (and at the end), each byte is
 * exactly two digits of either case, and anything else is a `ValueError`,
 * modelled as `None`.  `bytes.hex()` (lower-case digits, no separators) is
 * the partner that the round-trip lemmas relate it to.
 */
module Hex {
  import opened Wrappers
  import opened Bytes

  /** ASCII whitespace as CPython's `Py_ISSPACE` classifies it. */
  predicate IsSpace(c: char)
    ensures IsSpace(c) ==> c as int < 0x80 && !IsHexDigit(c)
  {
    c == ' ' || c == '\t' || c == '\n' || c == '\r' || c == '\U{0B}' || c == '\U{0C}'
  }

  predicate IsHexDigit(c: char) {
    ('0' <= c <= '9') || ('a' <= c <= 'f') || ('A' <= c <= 'F')
  }

  function DigitValue(c: char): (v: nat)
    requires IsHexDigit(c)
    ensures v < 16
  {
    if '0' <= c <= '9' then (c - '0') as nat
    else if 'a' <= c <= 'f' then (c - 'a') as nat + 10
    else (c - 'A') as nat + 10
  }

  /** The lower-case digit `bytes.hex()` writes for a nibble. */
  function Digit(n: nat): (c: char)
    requires n < 16
    ensures IsHexDigit(c) && !IsSpace(c) && DigitValue(c) == n
  {
    if n < 10 then '0' + n as char else 'a' + (n - 10) as char
  }

  /** `bytes.fromhex(s)`: `None` where CPython raises `ValueError`. */
  function FromHex(s: string): (r: Option<seq<byte>>)
    ensures HasNoSpace(s) && |s| % 2 == 1 ==> r.None?
    ensures r.Some? && HasNoSpace(s) ==> |s| == 2 * |r.value|
    decreases |s|
  {
    if |s| == 0 then Some([])
    else if IsSpace(s[0]) then FromHex(s[1..])
    else if |s| >= 2 && IsHexDigit(s[0]) && IsHexDigit(s[1]) then
      match FromHex(s[2..])
      case None => None
      case Some(rest) => Some([DigitValue(s[0]) * 16 + DigitValue(s[1])] + rest)
    else None
  }

  /** `b.hex()`: two lower-case digits per byte, no separators. */
  function ToHex(b: seq<byte>): (s: string)
    ensures |s| == 2 * |b|
  {
    if |b| == 0 then [] else [Digit(b[0] / 16), Digit(b[0] % 16)] + ToHex(b[1..])
  }

  /** A string `bytes.hex()` could have written: lower-case digits, no whitespace, even length. */
  predicate IsCanonical(s: string) {
    |s| % 2 == 0 && forall i :: 0 <= i < |s| ==> ('0' <= s[i] <= '9' || 'a' <= s[i] <= 'f')
  }

  predicate HasNoSpace(s: string) {
    forall i :: 0 <= i < |s| ==> !IsSpace(s[i])
  }

  /** Decoding what `bytes.hex()` wrote gives back the bytes. */
  lemma {:induction false} FromHexToHex(b: seq<byte>)
    ensures FromHex(ToHex(b)) == Some(b)
  {
    if |b| > 0 {
      var s := ToHex(b);
      assert s[2..] == ToHex(b[1..]);
      FromHexToHex(b[1..]);
      assert DigitValue(s[0]) * 16 + DigitValue(s[1]) == b[0];
      assert [b[0]] + b[1..] == b;
    }
  }

  /** Every successful decode takes two digits per byte; with no whitespace, exactly two. */
  lemma {:induction false} FromHexLength(s: string, b: seq<byte>)
    requires FromHex(s) == Some(b)
    ensures 2 * |b| <= |s|
    ensures HasNoSpace(s) ==> |s| == 2 * |b|
    decreases |s|
  {
    if |s| == 0 {
    } else if IsSpace(s[0]) {
      FromHexLength(s[1..], b);
    } else {
      FromHexLength(s[2..], b[1..]);
      assert HasNoSpace(s) ==> HasNoSpace(s[2..]) by {
        if HasNoSpace(s) {
          forall i | 0 <= i < |s[2..]| ensures !IsSpace(s[2..][i]) {
            assert s[2..][i] == s[i + 2];
          }
        }
      }
    }
  }

  /** A canonical hex string is exactly what `bytes.hex()` writes for the bytes it decodes to. */
  lemma {:induction false} ToHexFromHex(s: string)
    requires IsCanonical(s)
    ensures FromHex(s).Some? && ToHex(FromHex(s).value) == s
    decreases |s|
  {
    if |s| > 0 {
      assert '0' <= s[0] <= '9' || 'a' <= s[0] <= 'f';
      assert '0' <= s[1] <= '9' || 'a' <= s[1] <= 'f';
      assert IsCanonical(s[2..]) by {
        forall i | 0 <= i < |s[2..]| ensures '0' <= s[2..][i] <= '9' || 'a' <= s[2..][i] <= 'f' {
          assert s[2..][i] == s[i + 2];
        }
      }
      ToHexFromHex(s[2..]);
      var b := FromHex(s).value;
      var hi, lo := DigitValue(s[0]), DigitValue(s[1]);
      assert b[0] == hi * 16 + lo;
      assert b[1..] == FromHex(s[2..]).value;
      assert b[0] / 16 == hi && b[0] % 16 == lo;
      DigitInverse(s[0]);
      DigitInverse(s[1]);
      assert ToHex(b) == [s[0], s[1]] + s[2..];
    }
  }

  /** A lower-case digit is the digit `Digit` writes for its value. */
  lemma DigitInverse(c: char)
    requires '0' <= c <= '9' || 'a' <= c <= 'f'
    ensures Digit(DigitValue(c)) == c
  {
  }

  /** An empty or all-whitespace string decodes to no bytes at all. */
  lemma {:induction false} FromHexBlank(s: string)
    requires forall i :: 0 <= i < |s| ==> IsSpace(s[i])
    ensures FromHex(s) == Some([])
    decreases |s|
  {
    if |s| > 0 {
      FromHexBlank(s[1..]);
    }
  }

  /** A string with a character that is neither a hex digit nor whitespace never decodes. */
  lemma {:induction false} FromHexRejectsForeign(s: string, k: nat)
    requires k < |s| && !IsHexDigit(s[k]) && !IsSpace(s[k])
    ensures FromHex(s) == None
    decreases |s|
  {
    if IsSpace(s[0]) {
      FromHexRejectsForeign(s[1..], k - 1);
    } else if |s| >= 2 && IsHexDigit(s[0]) && IsHexDigit(s[1]) {
      FromHexRejectsForeign(s[2..], k - 2);
    }
  }
}
