/** Base64 text as encoding/base64 writes it with the standard alphabet (RFC 4648, section 4). */
module Base64 {
  import opened Words
  import opened Options

  function Sextet(c: char): (d: Option<nat>)
    ensures d.Some? ==> d.value < 64
  {
    if 'A' <= c <= 'Z' then Some((c - 'A') as nat)
    else if 'a' <= c <= 'z' then Some((c - 'a') as nat + 26)
    else if '0' <= c <= '9' then Some((c - '0') as nat + 52)
    else if c == '+' then Some(62)
    else if c == '/' then Some(63)
    else None
  }

  function Symbol(d: nat): (c: char)
    requires d < 64
    ensures Sextet(c) == Some(d)
  {
    if d < 26 then 'A' + d as char
    else if d < 52 then 'a' + (d - 26) as char
    else if d < 62 then '0' + (d - 52) as char
    else if d == 62 then '+'
    else '/'
  }

  /** Three bytes become four symbols; one or two bytes at the end are padded. */
  function EncodeBase64(b: seq<Byte>): (s: string)
    ensures s == "" <==> b == []
  {
    if b == [] then ""
    else if |b| == 1 then [Symbol(b[0] / 4), Symbol(b[0] % 4 * 16)] + "=="
    else if |b| == 2 then [Symbol(b[0] / 4), Symbol(b[0] % 4 * 16 + b[1] / 16), Symbol(b[1] % 16 * 4)] + "="
    else
      [Symbol(b[0] / 4), Symbol(b[0] % 4 * 16 + b[1] / 16), Symbol(b[1] % 16 * 4 + b[2] / 64), Symbol(b[2] % 64)]
      + EncodeBase64(b[3..])
  }

  /** The bytes that base64 text stands for. */
  function DecodeBase64(s: string): Option<seq<Byte>> {
    if s == "" then Some([])
    else if |s| < 4 || Sextet(s[0]).None? || Sextet(s[1]).None? then None
    else
      var p, q := Sextet(s[0]).value, Sextet(s[1]).value;
      var first: Byte := p * 4 + q / 16;
      if s[2..] == "==" then Some([first])
      else if Sextet(s[2]).None? then None
      else
        var r := Sextet(s[2]).value;
        var second: Byte := q % 16 * 16 + r / 4;
        if s[3..] == "=" then Some([first, second])
        else
          var rest := DecodeBase64(s[4..]);
          if Sextet(s[3]).None? || rest.None? then None
          else Some([first, second, r % 4 * 64 + Sextet(s[3]).value] + rest.value)
  }

  /** The sextets of three bytes give the bytes back. */
  lemma Sextets(a: Byte, b: Byte, c: Byte)
    ensures var p, q, r, t := a / 4, a % 4 * 16 + b / 16, b % 16 * 4 + c / 64, c % 64;
            p * 4 + q / 16 == a && q % 16 * 16 + r / 4 == b && r % 4 * 64 + t == c
  {
    var q, r := a % 4 * 16 + b / 16, b % 16 * 4 + c / 64;
    assert q / 16 == a % 4 && q % 16 == b / 16;
    assert r / 4 == b % 16 && r % 4 == c / 64;
  }

  lemma OneByte(b: seq<Byte>)
    requires |b| == 1
    ensures DecodeBase64(EncodeBase64(b)) == Some(b)
  {
    hide Symbol, Sextet;
    var s := EncodeBase64(b);
    Sextets(b[0], 0, 0);
    assert s[2..] == "==";
    assert b == [b[0]];
  }

  lemma TwoBytes(b: seq<Byte>)
    requires |b| == 2
    ensures DecodeBase64(EncodeBase64(b)) == Some(b)
  {
    PaddingIsNoSymbol();
    hide Symbol, Sextet;
    var s := EncodeBase64(b);
    Sextets(b[0], b[1], 0);
    assert s[2..][0] == s[2] && s[3..] == "=";
    assert b == [b[0], b[1]];
  }

  lemma PaddingIsNoSymbol()
    ensures Sextet('=').None?
  {
  }

  lemma {:induction false} DecodeEncodeBase64(b: seq<Byte>)
    ensures DecodeBase64(EncodeBase64(b)) == Some(b)
  {
    PaddingIsNoSymbol();
    hide Symbol, Sextet;
    if |b| == 1 {
      OneByte(b);
    } else if |b| == 2 {
      TwoBytes(b);
    } else if |b| > 2 {
      var s := EncodeBase64(b);
      DecodeEncodeBase64(b[3..]);
      Sextets(b[0], b[1], b[2]);
      assert s[2..][0] == s[2] && s[3..][0] == s[3];
      assert s[4..] == EncodeBase64(b[3..]);
      assert b == [b[0], b[1], b[2]] + b[3..];
    }
  }
}
