/** Base 64 encoding as section 4 of RFC 4648 defines it, and the browser's
    `btoa`/`atob` built on it: `btoa` reads each character of a string as one
    byte (it fails on a character above U+00FF) and `atob` turns each decoded
    byte back into the character with that code. */
module Base64 {
  import opened Basics

  type Byte = x: int | 0 <= x < 256
  type Sextet = x: int | 0 <= x < 64

  const Pad: char := '='

  /** The character that stands for a 6-bit value: Table 1 of RFC 4648,
      "A" to "Z" for 0 to 25, "a" to "z" for 26 to 51, "0" to "9" for 52 to
      61, then "+" and "/". */
  function CharOf(v: Sextet): (c: char)
    ensures c != Pad
  {
    if v < 26 then (('A' as int) + v) as char
    else if v < 52 then (('a' as int) + (v - 26)) as char
    else if v < 62 then (('0' as int) + (v - 52)) as char
    else if v == 62 then '+'
    else '/'
  }

  /** The 6-bit value a character stands for, if it is in the alphabet. */
  function IndexOf(c: char): (r: Option<Sextet>)
    ensures r.Some? ==> CharOf(r.value) == c
  {
    if 'A' <= c <= 'Z' then Some((c as int) - ('A' as int))
    else if 'a' <= c <= 'z' then Some((c as int) - ('a' as int) + 26)
    else if '0' <= c <= '9' then Some((c as int) - ('0' as int) + 52)
    else if c == '+' then Some(62)
    else if c == '/' then Some(63)
    else None
  }

  /** Encoding: each group of three bytes becomes four characters; a final
      group of one or two bytes is padded with `=` to four characters. */
  function Encode(b: seq<Byte>): (r: string)
    ensures |r| == 4 * ((|b| + 2) / 3)
  {
    if |b| == 0 then []
    else if |b| == 1 then
      [CharOf(b[0] / 4), CharOf((b[0] % 4) * 16), Pad, Pad]
    else if |b| == 2 then
      [CharOf(b[0] / 4), CharOf((b[0] % 4) * 16 + b[1] / 16), CharOf((b[1] % 16) * 4), Pad]
    else EncodeGroup(b[0], b[1], b[2]) + Encode(b[3..])
  }

  /** The four characters of a full group of three bytes. */
  function EncodeGroup(b0: Byte, b1: Byte, b2: Byte): (r: string)
    ensures |r| == 4
  {
    [CharOf(b0 / 4), CharOf((b0 % 4) * 16 + b1 / 16), CharOf((b1 % 16) * 4 + b2 / 64), CharOf(b2 % 64)]
  }

  /** Decoding of a canonical encoding: a multiple of four characters from
      the alphabet, padding only at the very end, and the unused bits before
      the padding zero. Anything else is rejected. */
  function Decode(s: string): (r: Option<seq<Byte>>)
    ensures r.Some? ==> |s| % 4 == 0 && |r.value| <= 3 * (|s| / 4)
    ensures r.Some? && |s| > 0 ==> 3 * (|s| / 4) - 2 <= |r.value|
  {
    if |s| == 0 then Some([])
    else if |s| < 4 then None
    else
      var v0, v1, v2, v3 := IndexOf(s[0]), IndexOf(s[1]), IndexOf(s[2]), IndexOf(s[3]);
      if v0.None? || v1.None? then None
      else if |s| == 4 && s[2] == Pad && s[3] == Pad then
        if v1.value % 16 == 0 then Some([v0.value * 4 + v1.value / 16]) else None
      else if v2.None? then None
      else if |s| == 4 && s[3] == Pad then
        if v2.value % 4 == 0 then Some([v0.value * 4 + v1.value / 16, (v1.value % 16) * 16 + v2.value / 4]) else None
      else if v3.None? then None
      else
        var head := [v0.value * 4 + v1.value / 16, (v1.value % 16) * 16 + v2.value / 4, (v2.value % 4) * 64 + v3.value];
        match Decode(s[4..])
        case None => None
        case Some(tail) => Some(head + tail)
  }

  /** Why `btoa` or `atob` gave up. */
  datatype Base64Error = InvalidCharacter | InvalidEncoding

  /** The bytes of a string whose characters are all at most U+00FF. */
  function Latin1(s: string): (r: Option<seq<Byte>>)
    ensures r.Some? <==> forall i :: 0 <= i < |s| ==> s[i] as int < 256
    ensures r.Some? ==> |r.value| == |s| && forall i :: 0 <= i < |s| ==> r.value[i] == s[i] as int
  {
    if |s| == 0 then Some([])
    else if s[0] as int >= 256 then None
    else match Latin1(s[1..])
      case None => None
      case Some(rest) => Some([s[0] as int as Byte] + rest)
  }

  /** The string whose character codes are the bytes. */
  function FromLatin1(b: seq<Byte>): (s: string)
    ensures |s| == |b| && forall i :: 0 <= i < |b| ==> s[i] as int == b[i]
  {
    if |b| == 0 then [] else [b[0] as char] + FromLatin1(b[1..])
  }

  /** `btoa`. */
  function Btoa(s: string): (r: Result<string, Base64Error>)
    ensures r.Ok? <==> forall i :: 0 <= i < |s| ==> s[i] as int < 256
    ensures r.Err? ==> r.error == InvalidCharacter
    ensures r.Ok? ==> |r.value| == 4 * ((|s| + 2) / 3)
  {
    match Latin1(s)
    case None => Err(InvalidCharacter)
    case Some(b) => Ok(Encode(b))
  }

  /** `atob`, on canonical input. */
  function Atob(t: string): (r: Result<string, Base64Error>)
    ensures r.Ok? <==> Decode(t).Some?
    ensures r.Err? ==> r.error == InvalidEncoding
    ensures r.Ok? ==> |t| % 4 == 0 && |r.value| <= 3 * (|t| / 4)
  {
    match Decode(t)
    case None => Err(InvalidEncoding)
    case Some(b) => Ok(FromLatin1(b))
  }

  // ---------------------------------------------------------------------
  // Lemmas

  /** The arithmetic alphabet is Table 1 of RFC 4648: its letters, digits
      and two symbols in table order. */
  lemma AlphabetTable()
    ensures CharOf(0) == 'A' && CharOf(25) == 'Z'
    ensures CharOf(26) == 'a' && CharOf(51) == 'z'
    ensures CharOf(52) == '0' && CharOf(61) == '9'
    ensures CharOf(62) == '+' && CharOf(63) == '/'
    ensures forall v: Sextet, w: Sextet :: v != w ==> CharOf(v) != CharOf(w)
  {
    forall v: Sextet, w: Sextet | v != w ensures CharOf(v) != CharOf(w) {
      IndexOfCharOf(v);
      IndexOfCharOf(w);
    }
  }

  /** Every character of the alphabet decodes to its own value. */
  lemma IndexOfCharOf(v: Sextet)
    ensures IndexOf(CharOf(v)) == Some(v)
  {
  }

  /** Encoding uses only the alphabet and the padding character. */
  lemma {:induction false} EncodeAlphabet(b: seq<Byte>)
    ensures forall i :: 0 <= i < |Encode(b)| ==> Encode(b)[i] == Pad || IndexOf(Encode(b)[i]).Some?
  {
    forall v: Sextet ensures IndexOf(CharOf(v)).Some? {
      IndexOfCharOf(v);
    }
    if |b| >= 3 {
      EncodeAlphabet(b[3..]);
    }
  }

  /** The bytes a group of four alphabet characters stands for. */
  function QuadBytes(c0: Sextet, c1: Sextet, c2: Sextet, c3: Sextet): seq<Byte>
  {
    [c0 * 4 + c1 / 16, (c1 % 16) * 16 + c2 / 4, (c2 % 4) * 64 + c3]
  }

  /** The four 6-bit values of a full group give its three bytes back. */
  lemma QuadRoundTrip(b0: Byte, b1: Byte, b2: Byte)
    ensures QuadBytes(b0 / 4, (b0 % 4) * 16 + b1 / 16, (b1 % 16) * 4 + b2 / 64, b2 % 64) == [b0, b1, b2]
  {
    var v1, v2 := (b0 % 4) * 16 + b1 / 16, (b1 % 16) * 4 + b2 / 64;
    assert v1 / 16 == b0 % 4 && v1 % 16 == b1 / 16;
    assert v2 / 4 == b1 % 16 && v2 % 4 == b2 / 64;
  }

  /** A group of four alphabet characters in front decodes to its three
      bytes in front of whatever the rest decodes to. */
  lemma DecodeFullQuad(s: string, c0: Sextet, c1: Sextet, c2: Sextet, c3: Sextet)
    requires |s| >= 4 && s[0] == CharOf(c0) && s[1] == CharOf(c1) && s[2] == CharOf(c2) && s[3] == CharOf(c3)
    requires Decode(s[4..]).Some?
    ensures Decode(s) == Some(QuadBytes(c0, c1, c2, c3) + Decode(s[4..]).value)
  {
    IndexOfCharOf(c0);
    IndexOfCharOf(c1);
    IndexOfCharOf(c2);
    IndexOfCharOf(c3);
  }

  /** A lone final byte survives the trip. */
  lemma DecodeEncodeOne(b0: Byte)
    ensures Decode(Encode([b0])) == Some([b0])
  {
    var c0, c1: Sextet := b0 / 4, (b0 % 4) * 16;
    assert Encode([b0]) == [CharOf(c0), CharOf(c1), Pad, Pad];
    IndexOfCharOf(c0);
    IndexOfCharOf(c1);
  }

  /** A final pair of bytes survives the trip. */
  lemma DecodeEncodeTwo(b0: Byte, b1: Byte)
    ensures Decode(Encode([b0, b1])) == Some([b0, b1])
  {
    var c0, c1, c2: Sextet := b0 / 4, (b0 % 4) * 16 + b1 / 16, (b1 % 16) * 4;
    assert Encode([b0, b1]) == [CharOf(c0), CharOf(c1), CharOf(c2), Pad];
    IndexOfCharOf(c0);
    IndexOfCharOf(c1);
    IndexOfCharOf(c2);
  }

  /** A full group in front of any decodable text decodes to its three
      bytes in front of what that text decodes to. */
  lemma DecodeGroup(b0: Byte, b1: Byte, b2: Byte, rest: string, tail: seq<Byte>)
    requires Decode(rest) == Some(tail)
    ensures Decode(EncodeGroup(b0, b1, b2) + rest) == Some([b0, b1, b2] + tail)
  {
    var s := EncodeGroup(b0, b1, b2) + rest;
    assert s[4..] == rest;
    QuadRoundTrip(b0, b1, b2);
    DecodeFullQuad(s, b0 / 4, (b0 % 4) * 16 + b1 / 16, (b1 % 16) * 4 + b2 / 64, b2 % 64);
  }

  /** Decoding undoes encoding. */
  lemma {:induction false} DecodeEncode(b: seq<Byte>)
    ensures Decode(Encode(b)) == Some(b)
  {
    if |b| == 0 {
    } else if |b| == 1 {
      DecodeEncodeOne(b[0]);
      assert b == [b[0]];
    } else if |b| == 2 {
      DecodeEncodeTwo(b[0], b[1]);
      assert b == [b[0], b[1]];
    } else {
      var tail := b[3..];
      assert b == [b[0], b[1], b[2]] + tail;
      assert Encode(b) == EncodeGroup(b[0], b[1], b[2]) + Encode(tail);
      DecodeEncode(tail);
      DecodeGroup(b[0], b[1], b[2], Encode(tail), tail);
    }
  }

  /** `atob` undoes `btoa`: whatever `btoa` accepts comes back unchanged. */
  lemma AtobBtoa(s: string)
    ensures Btoa(s).Ok? <==> forall i :: 0 <= i < |s| ==> s[i] as int < 256
    ensures Btoa(s).Ok? ==> Atob(Btoa(s).value) == Ok(s)
  {
    var b := Latin1(s);
    if b.Some? {
      DecodeEncode(b.value);
      var back := FromLatin1(b.value);
      assert |back| == |s|;
      assert forall i :: 0 <= i < |s| ==> back[i] == s[i];
      assert back == s;
      assert Btoa(s) == Ok(Encode(b.value));
    }
  }

  /** Two strings `btoa` accepts encode alike only if they are equal. */
  lemma BtoaInjective(s: string, t: string)
    requires Btoa(s).Ok? && Btoa(t).Ok?
    requires Btoa(s) == Btoa(t)
    ensures s == t
  {
    AtobBtoa(s);
    AtobBtoa(t);
  }
}
