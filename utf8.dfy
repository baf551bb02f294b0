/**
 * `str.encode()` with its default codec, UTF-8 (RFC 3629), over Dafny's
 * `char`, which stands for one Unicode scalar value.  The signed message
 * starts with the timestamp encoded this way.
 */
module Utf8 {
  import opened Bytes

  /** The number of bytes a sequence takes, as its first byte announces it. */
  function LeadLength(b: byte): (n: nat)
    ensures n <= 4
  {
    if b < 0x80 then 1
    else if 0xC0 <= b < 0xE0 then 2
    else if 0xE0 <= b < 0xF0 then 3
    else if 0xF0 <= b < 0xF8 then 4
    else 0
  }

  /** The one- to four-byte UTF-8 sequence of a scalar value. */
  function EncodeChar(c: char): (r: seq<byte>)
    ensures 1 <= |r| <= 4 && LeadLength(r[0]) == |r|
    ensures forall i :: 1 <= i < |r| ==> 0x80 <= r[i] < 0xC0
    ensures (c as int < 0x80) == (|r| == 1)
  {
    var cp := c as int;
    var q1 := cp / 64;
    var q2 := q1 / 64;
    if cp < 0x80 then [cp]
    else if cp < 0x800 then [0xC0 + q1, 0x80 + cp % 64]
    else if cp < 0x10000 then [0xE0 + q2, 0x80 + q1 % 64, 0x80 + cp % 64]
    else [0xF0 + q2 / 64, 0x80 + q2 % 64, 0x80 + q1 % 64, 0x80 + cp % 64]
  }

  /** `s.encode()`: the characters' sequences, in order. */
  function Encode(s: string): (r: seq<byte>)
    ensures |s| <= |r| <= 4 * |s|
  {
    if |s| == 0 then [] else EncodeChar(s[0]) + Encode(s[1..])
  }

  predicate IsAscii(s: string) {
    forall i :: 0 <= i < |s| ==> s[i] as int < 0x80
  }

  /** An ASCII string, such as a decimal timestamp, is encoded one byte per character, byte = code point. */
  lemma {:induction false} EncodeAscii(s: string)
    requires IsAscii(s)
    ensures |Encode(s)| == |s|
    ensures forall i :: 0 <= i < |s| ==> Encode(s)[i] == s[i] as int
  {
    if |s| > 0 {
      assert IsAscii(s[1..]) by {
        forall i | 0 <= i < |s[1..]| ensures s[1..][i] as int < 0x80 {
          assert s[1..][i] == s[i + 1];
        }
      }
      EncodeAscii(s[1..]);
    }
  }

  /** A number is determined by its quotient and remainder by 64. */
  lemma SplitBy64(x: nat, y: nat)
    requires x / 64 == y / 64 && x % 64 == y % 64
    ensures x == y
  {
  }

  /** Different scalar values have different sequences. */
  lemma EncodeCharInjective(c: char, d: char)
    requires EncodeChar(c) == EncodeChar(d)
    ensures c == d
  {
    var x, y := c as int, d as int;
    if x >= 0x800 {
      SplitBy64(x / 64, y / 64);
    }
    if x >= 0x80 {
      SplitBy64(x, y);
    }
  }

  /** UTF-8 is prefix-free: the first character is determined by the bytes, whatever follows. */
  lemma EncodeCharPrefixFree(c: char, d: char, u: seq<byte>, v: seq<byte>)
    requires EncodeChar(c) + u == EncodeChar(d) + v
    ensures c == d && u == v
  {
    var rc, rd := EncodeChar(c), EncodeChar(d);
    assert rc[0] == (rc + u)[0] == (rd + v)[0] == rd[0];
    assert |rc| == |rd|;
    assert rc == (rc + u)[..|rc|] == (rd + v)[..|rd|] == rd;
    EncodeCharInjective(c, d);
    assert u == (rc + u)[|rc|..] == (rd + v)[|rd|..] == v;
  }

  /** Encoding loses nothing: two strings with the same bytes followed by the same tail are equal. */
  lemma {:induction false} EncodeInjective(s: string, t: string, u: seq<byte>, v: seq<byte>)
    requires Encode(s) + u == Encode(t) + v
    requires |u| == |v|
    ensures s == t && u == v
    decreases |s| + |t|
  {
    if |s| == 0 && |t| == 0 {
      assert Encode(s) == [] && Encode(t) == [];
      assert u == Encode(s) + u && v == Encode(t) + v;
    } else if |s| > 0 && |t| > 0 {
      calc {
        EncodeChar(s[0]) + (Encode(s[1..]) + u);
        (EncodeChar(s[0]) + Encode(s[1..])) + u;
        Encode(s) + u;
        Encode(t) + v;
        (EncodeChar(t[0]) + Encode(t[1..])) + v;
        EncodeChar(t[0]) + (Encode(t[1..]) + v);
      }
      EncodeCharPrefixFree(s[0], t[0], Encode(s[1..]) + u, Encode(t[1..]) + v);
      EncodeInjective(s[1..], t[1..], u, v);
      assert s == [s[0]] + s[1..] && t == [t[0]] + t[1..];
    }
  }
}
