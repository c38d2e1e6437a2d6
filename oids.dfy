/**
 * Object ids: a SHA-1 of 20 bytes, written as 40 hexadecimal digits.
 * `FromHex` is `git_oid_fromstrn(out, str, 40)`, `ToHex` is
 * `git_oid_tostr_s`, `PathFmt` is `git_oid_pathfmt`.
 */
module Oids {
  import opened Wrappers

  newtype Byte = x: int | 0 <= x < 256

  /** GIT_OID_RAWSZ and GIT_OID_HEXSZ. */
  const RAWSZ: nat := 20
  const HEXSZ: nat := 40

  type Oid = s: seq<Byte> | |s| == 20 witness [0, 0, 0, 0, 0, 0, 0, 0, 0, 0, 0, 0, 0, 0, 0, 0, 0, 0, 0, 0]

  /** The all-zero id, what a freshly allocated (zeroed) cache item holds. */
  const ZERO_OID: Oid := [0, 0, 0, 0, 0, 0, 0, 0, 0, 0, 0, 0, 0, 0, 0, 0, 0, 0, 0, 0]

  function HexDigit(n: int): char
    requires 0 <= n < 16
  {
    "0123456789abcdef"[n]
  }

  /** `git__fromhex`: the value of a hexadecimal digit of either case. */
  function HexValue(c: char): (r: Option<int>)
    ensures r.Some? ==> 0 <= r.value < 16
  {
    if '0' <= c <= '9' then Some(c as int - '0' as int)
    else if 'a' <= c <= 'f' then Some(c as int - 'a' as int + 10)
    else if 'A' <= c <= 'F' then Some(c as int - 'A' as int + 10)
    else None
  }

  /** The lower-case spelling of a hexadecimal digit; other bytes unchanged. */
  function LowerDigit(c: char): char {
    if 'A' <= c <= 'F' then (c as int - 'A' as int + 'a' as int) as char else c
  }

  function LowerHex(s: string): (r: string)
    ensures |r| == |s| && forall i :: 0 <= i < |s| ==> r[i] == LowerDigit(s[i])
  {
    seq(|s|, i requires 0 <= i < |s| => LowerDigit(s[i]))
  }

  lemma HexValueOfDigit(n: int)
    requires 0 <= n < 16
    ensures HexValue(HexDigit(n)) == Some(n)
  {
  }

  lemma DigitOfHexValue(c: char)
    requires HexValue(c).Some?
    ensures HexDigit(HexValue(c).value) == LowerDigit(c)
  {
  }

  predicate IsHex(s: string) {
    forall i :: 0 <= i < |s| ==> HexValue(s[i]).Some?
  }

  /** Two lower-case digits per byte, high nibble first. */
  function Encode(bs: seq<Byte>): (s: string)
    ensures |s| == 2 * |bs| && IsHex(s)
  {
    if |bs| == 0 then []
    else
      HexValueOfDigit(bs[0] as int / 16);
      HexValueOfDigit(bs[0] as int % 16);
      [HexDigit(bs[0] as int / 16), HexDigit(bs[0] as int % 16)] + Encode(bs[1..])
  }

  /** Pairs of digits of either case back to bytes; fails on any non-digit. */
  function Decode(s: string): (r: Option<seq<Byte>>)
    ensures r.Some? <==> |s| % 2 == 0 && IsHex(s)
    ensures r.Some? ==> 2 * |r.value| == |s|
    decreases |s|
  {
    if |s| == 0 then Some([])
    else if |s| == 1 then None
    else match (HexValue(s[0]), HexValue(s[1]), Decode(s[2..]))
      case (Some(hi), Some(lo), Some(rest)) => Some([(hi * 16 + lo) as Byte] + rest)
      case _ =>
        assert !IsHex(s[2..]) ==> !IsHex(s);
        None
  }

  lemma {:induction false} DecodeEncode(bs: seq<Byte>)
    ensures Decode(Encode(bs)) == Some(bs)
  {
    if |bs| > 0 {
      DecodeEncode(bs[1..]);
      EncodeHead(bs);
      DecodeDigits(bs[0], Encode(bs[1..]), bs[1..]);
      assert bs == [bs[0]] + bs[1..];
    }
  }

  /** The two digits of a byte, in front of the encoding of a tail, decode to that byte and tail. */
  lemma DecodeDigits(b: Byte, t: string, rest: seq<Byte>)
    requires Decode(t) == Some(rest)
    ensures Decode([HexDigit(b as int / 16), HexDigit(b as int % 16)] + t) == Some([b] + rest)
  {
    var s := [HexDigit(b as int / 16), HexDigit(b as int % 16)] + t;
    HexValueOfDigit(b as int / 16);
    HexValueOfDigit(b as int % 16);
    assert s[2..] == t;
  }

  lemma {:induction false} EncodeDecode(s: string)
    requires Decode(s).Some?
    ensures Encode(Decode(s).value) == LowerHex(s)
    decreases |s|
  {
    if |s| > 0 {
      var b := DecodeHead(s);
      EncodeDecode(s[2..]);
      EncodeCons(b, Decode(s[2..]).value, s);
    }
  }

  /** One decoded byte in front of a tail whose encoding is already known. */
  lemma EncodeCons(b: Byte, rest: seq<Byte>, s: string)
    requires |s| >= 2 && Encode(rest) == LowerHex(s[2..])
    requires HexDigit(b as int / 16) == LowerDigit(s[0]) && HexDigit(b as int % 16) == LowerDigit(s[1])
    ensures Encode([b] + rest) == LowerHex(s)
  {
    EncodeHead([b] + rest);
    assert ([b] + rest)[1..] == rest;
    LowerHexHead(s);
  }

  /** A non-empty decoding starts with a byte whose two digits are the first two of `s`, lower-cased. */
  lemma DecodeHead(s: string) returns (b: Byte)
    requires Decode(s).Some? && |s| > 0
    ensures |s| >= 2 && Decode(s).value == [b] + Decode(s[2..]).value
    ensures HexDigit(b as int / 16) == LowerDigit(s[0]) && HexDigit(b as int % 16) == LowerDigit(s[1])
  {
    var hi, lo := HexValue(s[0]).value, HexValue(s[1]).value;
    b := (hi * 16 + lo) as Byte;
    ByteDigits(hi, lo);
    DigitOfHexValue(s[0]);
    DigitOfHexValue(s[1]);
  }

  lemma ByteDigits(hi: int, lo: int)
    requires 0 <= hi < 16 && 0 <= lo < 16
    ensures ((hi * 16 + lo) as Byte) as int / 16 == hi && ((hi * 16 + lo) as Byte) as int % 16 == lo
  {
  }

  lemma EncodeHead(bs: seq<Byte>)
    requires |bs| > 0
    ensures Encode(bs) == [HexDigit(bs[0] as int / 16), HexDigit(bs[0] as int % 16)] + Encode(bs[1..])
  {
  }

  lemma LowerHexHead(s: string)
    requires |s| >= 2
    ensures LowerHex(s) == [LowerDigit(s[0]), LowerDigit(s[1])] + LowerHex(s[2..])
  {
    assert LowerHex(s)[2..] == LowerHex(s[2..]);
  }

  /** `git_oid_fromstrn(out, s, 40)`: exactly 40 digits of either case. */
  function FromHex(s: string): (r: Option<Oid>)
    ensures r.Some? <==> |s| == HEXSZ && IsHex(s)
  {
    if |s| != HEXSZ then None
    else match Decode(s)
      case None => None
      case Some(bs) => Some(bs)
  }

  /** `git_oid_tostr_s`: the id as 40 lower-case hexadecimal digits. */
  function ToHex(id: Oid): (s: string)
    ensures |s| == HEXSZ && IsHex(s)
  {
    Encode(id)
  }

  /** Writing an id out and reading it back gives the same id. */
  lemma FromHexToHex(id: Oid)
    ensures FromHex(ToHex(id)) == Some(id)
  {
    DecodeEncode(id);
  }

  /** Reading 40 digits and writing them back gives the digits in lower case. */
  lemma ToHexFromHex(s: string)
    requires FromHex(s).Some?
    ensures ToHex(FromHex(s).value) == LowerHex(s)
  {
    EncodeDecode(s);
  }

  /** `git_oid_pathfmt`: the first two digits, '/', the other 38. */
  function PathFmt(id: Oid): (s: string)
    ensures |s| == HEXSZ + 1 && s[2] == '/'
    ensures s[..2] + s[3..] == ToHex(id)
  {
    var h := ToHex(id);
    assert h == h[..2] + h[2..];
    h[..2] + "/" + h[2..]
  }
}
