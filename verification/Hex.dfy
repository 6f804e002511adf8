/** Hexadecimal text as encoding/hex reads and writes it (RFC 4648, section 8, both cases read,
    lower case written). */
module Hex {
  import opened Words
  import opened Options

  /** A Go string: shorter than 2^63 bytes. */
  type Text = s: string | |s| < TWO_63

  function Digit(c: char): (d: Option<nat>)
    ensures d.Some? ==> d.value < 16
  {
    if '0' <= c <= '9' then Some((c - '0') as nat)
    else if 'a' <= c <= 'f' then Some((c - 'a') as nat + 10)
    else if 'A' <= c <= 'F' then Some((c - 'A') as nat + 10)
    else None
  }

  function DigitChar(d: nat): (c: char)
    requires d < 16
    ensures Digit(c) == Some(d)
  {
    if d < 10 then '0' + d as char else 'a' + (d - 10) as char
  }

  /** hex.DecodeString: an odd length or a character that is no digit is an error. */
  function DecodeHex(s: string): (r: Option<seq<Byte>>)
    ensures r.Some? ==> 2 * |r.value| == |s|
  {
    if s == "" then Some([])
    else if |s| == 1 then None
    else
      var rest := DecodeHex(s[2..]);
      if Digit(s[0]).None? || Digit(s[1]).None? || rest.None? then None
      else Some([16 * Digit(s[0]).value + Digit(s[1]).value] + rest.value)
  }

  function EncodeHex(b: seq<Byte>): (s: string)
    ensures |s| == 2 * |b|
  {
    if b == [] then "" else [DigitChar(b[0] / 16), DigitChar(b[0] % 16)] + EncodeHex(b[1..])
  }

  /** fromHex: hex text after an optional "0x". */
  function FromHex(s: string): (r: Option<seq<Byte>>)
    ensures r.Some? ==> 2 * |r.value| <= |s|
  {
    DecodeHex(if "0x" <= s then s[2..] else s)
  }

  lemma {:induction false} DecodeEncodeHex(b: seq<Byte>)
    ensures DecodeHex(EncodeHex(b)) == Some(b)
  {
    if b != [] {
      DecodeEncodeHex(b[1..]);
      assert EncodeHex(b)[2..] == EncodeHex(b[1..]);
      assert b == [b[0]] + b[1..];
    }
  }

  /** Hex text reads back with and without the prefix; it never looks prefixed itself. */
  lemma FromHexRoundTrip(b: seq<Byte>)
    ensures FromHex(EncodeHex(b)) == Some(b)
    ensures FromHex("0x" + EncodeHex(b)) == Some(b)
  {
    DecodeEncodeHex(b);
    assert ("0x" + EncodeHex(b))[2..] == EncodeHex(b);
    if b != [] {
      assert Digit(EncodeHex(b)[1]).Some? && Digit('x').None?;
    }
  }

  function LowerChar(c: char): char {
    if 'A' <= c <= 'Z' then (c as int + 32) as char else c
  }

  /** The text with letters in lower case. */
  function Lower(s: string): (l: string)
    ensures |l| == |s| && forall i :: 0 <= i < |s| ==> l[i] == LowerChar(s[i])
  {
    seq(|s|, i requires 0 <= i < |s| => LowerChar(s[i]))
  }

  predicate IsDigit(c: char) {
    '0' <= c <= '9' || 'a' <= c <= 'f'
  }

  /** What is read: an even number of digits, of which there are sixteen, upper-case ones like
      lower-case ones; and writing the bytes gives the text back in lower case. */
  lemma {:induction false} ReadExactly(s: string)
    ensures DecodeHex(s).Some? <==> |s| % 2 == 0 && forall i :: 0 <= i < |s| ==> IsDigit(LowerChar(s[i]))
    ensures DecodeHex(s).Some? ==> EncodeHex(DecodeHex(s).value) == Lower(s)
  {
    hide Digit, DigitChar, LowerChar, IsDigit;
    if |s| >= 2 {
      ReadExactly(s[2..]);
      DigitRead(s[0]);
      DigitRead(s[1]);
      assert forall i :: 2 <= i < |s| ==> s[i] == s[2..][i - 2];
      assert forall i :: 0 <= i < |s[2..]| ==> s[2..][i] == s[i + 2];
      if DecodeHex(s).Some? {
        PairWritten(s);
      }
    }
  }

  lemma DigitRead(c: char)
    ensures Digit(c).Some? <==> IsDigit(LowerChar(c))
    ensures Digit(c).Some? ==> DigitChar(Digit(c).value) == LowerChar(c)
  {
  }

  lemma PairWritten(s: string)
    requires |s| >= 2 && DecodeHex(s).Some? && EncodeHex(DecodeHex(s[2..]).value) == Lower(s[2..])
    requires DigitChar(Digit(s[0]).value) == LowerChar(s[0]) && DigitChar(Digit(s[1]).value) == LowerChar(s[1])
    ensures EncodeHex(DecodeHex(s).value) == Lower(s)
  {
    hide Digit, DigitChar, LowerChar;
    var b := DecodeHex(s).value;
    assert b[1..] == DecodeHex(s[2..]).value;
    assert b[0] / 16 == Digit(s[0]).value && b[0] % 16 == Digit(s[1]).value;
    assert Lower(s) == [LowerChar(s[0]), LowerChar(s[1])] + Lower(s[2..]);
  }

  /** So the case of letters makes no difference. */
  lemma CasesAlike(s: string)
    ensures DecodeHex(Lower(s)) == DecodeHex(s)
  {
    ReadExactly(s);
    ReadExactly(Lower(s));
    LowerOnce(s);
    if DecodeHex(s).Some? {
      DecodeEncodeHex(DecodeHex(s).value);
    }
  }

  lemma LowerOnce(s: string)
    ensures Lower(Lower(s)) == Lower(s)
    ensures forall i :: 0 <= i < |s| ==> LowerChar(Lower(s)[i]) == LowerChar(s[i])
  {
  }
}
