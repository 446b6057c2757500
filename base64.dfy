/** Standard base64 with padding (section 4 of RFC 4648), as Go's
    base64.StdEncoding encodes and decodes it: 3 bytes become 4 characters
    of the alphabet A-Z a-z 0-9 + /, a final group of 1 or 2 bytes is padded
    with "=" to 4 characters. The decoder skips '\r' and '\n', requires
    whole 4-character groups, allows padding only at the end, and (not
    being strict) ignores the unused low bits of a padded group. */
module Base64 {
  import opened Wrappers
  import opened Bytes

  type sextet = d: int | 0 <= d < 64

  /** The character for a 6-bit value. */
  function CharOf(d: sextet): (c: char)
    ensures c != '=' && c != '\r' && c != '\n'
  {
    if d < 26 then ('A' as int + d) as char
    else if d < 52 then ('a' as int + (d - 26)) as char
    else if d < 62 then ('0' as int + (d - 52)) as char
    else if d == 62 then '+'
    else '/'
  }

  /** The 6-bit value of an alphabet character; None for any other
      character, '=' included. */
  function ValueOf(c: char): (r: Option<sextet>)
    ensures r.Some? ==> CharOf(r.value) == c
  {
    if 'A' <= c <= 'Z' then Some(c as int - 'A' as int)
    else if 'a' <= c <= 'z' then Some(c as int - 'a' as int + 26)
    else if '0' <= c <= '9' then Some(c as int - '0' as int + 52)
    else if c == '+' then Some(62)
    else if c == '/' then Some(63)
    else None
  }

  lemma ValueOfCharOf(d: sextet)
    ensures ValueOf(CharOf(d)) == Some(d)
  {
  }

  // The four 6-bit pieces of a 3-byte group x y z.

  function Piece0(x: byte): sextet { x / 4 }
  function Piece1(x: byte, y: byte): sextet { 16 * (x % 4) + y / 16 }
  function Piece2(y: byte, z: byte): sextet { 4 * (y % 16) + z / 64 }
  function Piece3(z: byte): sextet { z % 64 }

  lemma GroupCount(n: nat)
    requires n >= 3
    ensures 4 * ((n + 2) / 3) == 4 + 4 * ((n - 3 + 2) / 3)
  {
  }

  /** EncodeToString. */
  function Encode(b: Bytes): (s: string)
    ensures |s| == 4 * ((|b| + 2) / 3)
    ensures '\r' !in s && '\n' !in s
  {
    if |b| == 0 then ""
    else if |b| == 1 then
      [CharOf(Piece0(b[0])), CharOf(Piece1(b[0], 0)), '=', '=']
    else if |b| == 2 then
      [CharOf(Piece0(b[0])), CharOf(Piece1(b[0], b[1])), CharOf(Piece2(b[1], 0)), '=']
    else
      GroupCount(|b|);
      [CharOf(Piece0(b[0])), CharOf(Piece1(b[0], b[1])), CharOf(Piece2(b[1], b[2])), CharOf(Piece3(b[2]))]
      + Encode(b[3..])
  }

  /** The input without '\r' and '\n', which the decoder skips. */
  function StripNewlines(s: string): (r: string)
    ensures '\r' !in r && '\n' !in r
    ensures |r| <= |s|
    ensures '\r' !in s && '\n' !in s ==> r == s
  {
    if s == [] then []
    else (if s[0] == '\r' || s[0] == '\n' then [] else [s[0]]) + StripNewlines(s[1..])
  }

  /** DecodeString: None where Go reports a CorruptInputError. */
  function Decode(s: string): Option<Bytes> {
    DecodeGroups(StripNewlines(s))
  }

  /** One 4-character group: three bytes, or one or two for a group ending
      in padding ("xx==" or "xxx="); None when a character is outside the
      alphabet or the padding is misplaced. */
  function DecodeQuantum(c0: char, c1: char, c2: char, c3: char): (r: Option<Bytes>)
    ensures r.Some? ==> 1 <= |r.value| <= 3 && (|r.value| < 3 <==> c3 == '=')
  {
    match (ValueOf(c0), ValueOf(c1))
    case (Some(d0), Some(d1)) =>
      if c2 == '=' then
        if c3 == '=' then Some([4 * d0 + d1 / 16]) else None
      else
        (match ValueOf(c2)
         case None => None
         case Some(d2) =>
           if c3 == '=' then Some([4 * d0 + d1 / 16, 16 * (d1 % 16) + d2 / 4])
           else
             (match ValueOf(c3)
              case None => None
              case Some(d3) => Some([4 * d0 + d1 / 16, 16 * (d1 % 16) + d2 / 4, 64 * (d2 % 4) + d3])))
    case _ => None
  }

  /** Decodes whole 4-character groups; a padded group must be the last. */
  function DecodeGroups(s: string): (r: Option<Bytes>)
    ensures r.Some? ==> |s| % 4 == 0
    decreases |s|
  {
    if s == [] then Some([])
    else if |s| < 4 then None
    else
      match DecodeQuantum(s[0], s[1], s[2], s[3])
      case None => None
      case Some(g) =>
        if |g| < 3 then
          if |s| == 4 then Some(g) else None
        else
          (match DecodeGroups(s[4..])
           case None => None
           case Some(rest) => Some(g + rest))
  }

  /** Decoding what Encode produced gives the bytes back. */
  lemma {:induction false} DecodeEncode(b: Bytes)
    ensures Decode(Encode(b)) == Some(b)
  {
    GroupsRoundTrip(b);
  }

  lemma {:induction false} GroupsRoundTrip(b: Bytes)
    ensures DecodeGroups(Encode(b)) == Some(b)
  {
    if |b| == 1 {
      OneByte(b);
    } else if |b| == 2 {
      TwoBytes(b);
    } else if |b| >= 3 {
      GroupsRoundTrip(b[3..]);
      FirstGroup(b);
    }
  }

  lemma OneByte(b: Bytes)
    requires |b| == 1
    ensures DecodeGroups(Encode(b)) == Some(b)
  {
    var x := b[0];
    var q := [CharOf(Piece0(x)), CharOf(Piece1(x, 0)), '=', '='];
    EncodeOne(b);
    OneQuantum(x);
    DecodeLast(q, [x]);
  }

  lemma TwoBytes(b: Bytes)
    requires |b| == 2
    ensures DecodeGroups(Encode(b)) == Some(b)
  {
    var x, y := b[0], b[1];
    var q := [CharOf(Piece0(x)), CharOf(Piece1(x, y)), CharOf(Piece2(y, 0)), '='];
    EncodeTwo(b);
    TwoQuantum(x, y);
    DecodeLast(q, [x, y]);
  }

  lemma EncodeOne(b: Bytes)
    requires |b| == 1
    ensures b == [b[0]] && Encode(b) == [CharOf(Piece0(b[0])), CharOf(Piece1(b[0], 0)), '=', '=']
  {
  }

  lemma EncodeTwo(b: Bytes)
    requires |b| == 2
    ensures b == [b[0], b[1]] && Encode(b) == [CharOf(Piece0(b[0])), CharOf(Piece1(b[0], b[1])), CharOf(Piece2(b[1], 0)), '=']
  {
  }

  lemma OneQuantum(x: byte)
    ensures DecodeQuantum(CharOf(Piece0(x)), CharOf(Piece1(x, 0)), '=', '=') == Some([x])
  {
    ValueOfCharOf(Piece0(x));
    ValueOfCharOf(Piece1(x, 0));
    Regroup0(x, 0);
  }

  lemma TwoQuantum(x: byte, y: byte)
    ensures DecodeQuantum(CharOf(Piece0(x)), CharOf(Piece1(x, y)), CharOf(Piece2(y, 0)), '=') == Some([x, y])
  {
    ValueOfCharOf(Piece0(x));
    ValueOfCharOf(Piece1(x, y));
    ValueOfCharOf(Piece2(y, 0));
    Regroup0(x, y);
    Regroup1(x, y, 0);
  }

  /** A padded group as the whole text. */
  lemma DecodeLast(q: string, g: Bytes)
    requires |q| == 4 && DecodeQuantum(q[0], q[1], q[2], q[3]) == Some(g) && |g| < 3
    ensures DecodeGroups(q) == Some(g)
  {
  }

  /** The first three bytes come back from the first group. */
  lemma FirstGroup(b: Bytes)
    requires |b| >= 3 && DecodeGroups(Encode(b[3..])) == Some(b[3..])
    ensures DecodeGroups(Encode(b)) == Some(b)
  {
    var q := [CharOf(Piece0(b[0])), CharOf(Piece1(b[0], b[1])), CharOf(Piece2(b[1], b[2])), CharOf(Piece3(b[2]))];
    EncodeStep(b);
    FullGroup(b[0], b[1], b[2]);
    DecodeStep(q, Encode(b[3..]), [b[0], b[1], b[2]]);
    SplitThree(b);
  }

  lemma SplitThree(b: Bytes)
    requires |b| >= 3
    ensures b == [b[0], b[1], b[2]] + b[3..]
  {
  }

  lemma EncodeStep(b: Bytes)
    requires |b| >= 3
    ensures Encode(b) == [CharOf(Piece0(b[0])), CharOf(Piece1(b[0], b[1])), CharOf(Piece2(b[1], b[2])), CharOf(Piece3(b[2]))]
                         + Encode(b[3..])
  {
  }

  /** A whole unpadded group followed by more text. */
  lemma DecodeStep(q: string, rest: string, g: Bytes)
    requires |q| == 4 && DecodeQuantum(q[0], q[1], q[2], q[3]) == Some(g) && |g| == 3
    ensures DecodeGroups(q + rest) == if DecodeGroups(rest).Some? then Some(g + DecodeGroups(rest).value) else None
  {
    var s := q + rest;
    assert s[..4] == q && s[4..] == rest;
  }

  lemma FullGroup(x: byte, y: byte, z: byte)
    ensures DecodeQuantum(CharOf(Piece0(x)), CharOf(Piece1(x, y)), CharOf(Piece2(y, z)), CharOf(Piece3(z)))
            == Some([x, y, z])
  {
    SextetGroup(Piece0(x), Piece1(x, y), Piece2(y, z), Piece3(z));
    Regroup0(x, y);
    Regroup1(x, y, z);
    Regroup2(y, z);
  }

  /** Four alphabet characters decode to the three bytes their values spell. */
  lemma SextetGroup(d0: sextet, d1: sextet, d2: sextet, d3: sextet)
    ensures DecodeQuantum(CharOf(d0), CharOf(d1), CharOf(d2), CharOf(d3))
            == Some([4 * d0 + d1 / 16, 16 * (d1 % 16) + d2 / 4, 64 * (d2 % 4) + d3])
  {
    ValueOfCharOf(d0);
    ValueOfCharOf(d1);
    ValueOfCharOf(d2);
    ValueOfCharOf(d3);
  }

  lemma Div16(a: nat, b: nat)
    requires b < 16
    ensures (16 * a + b) / 16 == a && (16 * a + b) % 16 == b
  {
  }

  lemma Div4(a: nat, b: nat)
    requires b < 4
    ensures (4 * a + b) / 4 == a && (4 * a + b) % 4 == b
  {
  }

  /** The pieces of a group put back together give its bytes. */
  lemma Regroup0(x: byte, y: byte)
    ensures 4 * Piece0(x) + Piece1(x, y) / 16 == x
  {
    Div16(x % 4, y / 16);
  }

  lemma Regroup1(x: byte, y: byte, z: byte)
    ensures 16 * (Piece1(x, y) % 16) + Piece2(y, z) / 4 == y
  {
    Div16(x % 4, y / 16);
    Div4(y % 16, z / 64);
  }

  lemma Regroup2(y: byte, z: byte)
    ensures 64 * (Piece2(y, z) % 4) + Piece3(z) == z
  {
    Div4(y % 16, z / 64);
  }

  /** Only whole 4-character groups decode. */
  lemma DecodeNeedsWholeGroups(s: string)
    requires |StripNewlines(s)| % 4 != 0
    ensures Decode(s).None?
  {
  }
}
