/** Hexadecimal text as the `hex` crate produces and accepts it: scripts are
    held in memory as this text. `HexEncode` writes two lower-case digits per
    byte; `HexDecode` accepts either case and fails on an odd length or a
    character that is not a hex digit. */
module Hex {
  import opened Bytes

  datatype Option<T> = None | Some(value: T)

  /** The lower-case digit for a nibble. */
  function Digit(n: nat): (c: char)
    requires n < 16
    ensures IsLowerDigit(c)
  {
    if n < 10 then ('0' as int + n) as char else ('a' as int + n - 10) as char
  }

  predicate IsLowerDigit(c: char) {
    '0' <= c <= '9' || 'a' <= c <= 'f'
  }

  /** The value of one hex digit, either case. */
  function DigitValue(c: char): (r: Option<nat>)
    ensures r.Some? ==> r.value < 16
  {
    if '0' <= c <= '9' then Some(c as nat - '0' as nat)
    else if 'a' <= c <= 'f' then Some(c as nat - 'a' as nat + 10)
    else if 'A' <= c <= 'F' then Some(c as nat - 'A' as nat + 10)
    else None
  }

  /** Text made only of lower-case hex digit pairs: the form `HexEncode` yields. */
  predicate IsLowerHex(s: string) {
    s == [] || (2 <= |s| && IsLowerDigit(s[0]) && IsLowerDigit(s[1]) && IsLowerHex(s[2..]))
  }

  function HexEncode(b: seq<u8>): (s: string)
    ensures |s| == 2 * |b|
    ensures IsLowerHex(s)
  {
    if b == [] then ""
    else
      var s := [Digit((b[0] / 16) as nat), Digit((b[0] % 16) as nat)] + HexEncode(b[1..]);
      assert s[2..] == HexEncode(b[1..]);
      s
  }

  /** The byte written by the digit pair `hi lo`. */
  function PairValue(hi: char, lo: char): (r: Option<u8>)
    ensures r.Some? <==> DigitValue(hi).Some? && DigitValue(lo).Some?
  {
    match (DigitValue(hi), DigitValue(lo))
    case (Some(h), Some(l)) => Some((16 * h + l) as u8)
    case _ => None
  }

  function HexDecode(s: string): (r: Option<seq<u8>>)
    ensures r.Some? ==> 2 * |r.value| == |s|
  {
    if |s| == 0 then Some([])
    else if |s| == 1 then None
    else if PairValue(s[0], s[1]).None? then None
    else
      var tail := HexDecode(s[2..]);
      if tail.None? then None else Some([PairValue(s[0], s[1]).value] + tail.value)
  }

  lemma LowerDigitValue(n: nat)
    requires n < 16
    ensures DigitValue(Digit(n)) == Some(n)
  {
  }

  /** Decoding what was encoded gives back the bytes. */
  lemma {:induction false} DecodeEncode(b: seq<u8>)
    ensures HexDecode(HexEncode(b)) == Some(b)
  {
    if b != [] {
      var s := HexEncode(b);
      var hi, lo := (b[0] / 16) as nat, (b[0] % 16) as nat;
      assert s == [Digit(hi), Digit(lo)] + HexEncode(b[1..]);
      LowerDigitValue(hi);
      LowerDigitValue(lo);
      assert 16 * hi + lo == b[0] as nat;
      assert PairValue(s[0], s[1]) == Some(b[0]);
      assert s[2..] == HexEncode(b[1..]);
      DecodeEncode(b[1..]);
      assert HexDecode(s) == Some([b[0]] + b[1..]);
      assert [b[0]] + b[1..] == b;
    }
  }

  /** Encoding what was decoded gives back lower-case text unchanged. */
  lemma {:induction false} EncodeDecode(s: string)
    requires IsLowerHex(s)
    ensures HexDecode(s).Some?
    ensures HexEncode(HexDecode(s).value) == s
  {
    if s != [] {
      EncodeDecode(s[2..]);
      var hi, lo := DigitValue(s[0]).value, DigitValue(s[1]).value;
      assert Digit(hi) == s[0] && Digit(lo) == s[1];
      var b := (16 * hi + lo) as u8;
      assert PairValue(s[0], s[1]) == Some(b);
      assert b / 16 == hi as u8 && b % 16 == lo as u8;
      var tail := HexDecode(s[2..]).value;
      assert HexDecode(s) == Some([b] + tail);
      assert HexEncode([b] + tail) == [s[0], s[1]] + HexEncode(tail) by {
        assert ([b] + tail)[1..] == tail;
      }
    }
  }
}
