/** MR_Pad: how the meeting-room client escapes a request parameter (a user
    name, a track name, a chat line) before putting it in a request URL.
    Every byte becomes '%' followed by two lower-case hexadecimal digits, the
    percent-encoding of section 2.1 of RFC 3986 but with lower-case digits and
    without passing any unreserved character through. Characters of a string
    are the bytes of the C string; the source reads each one as an
    unsigned char, which the model writes as the value modulo 256. */
module RoomPad {
  import opened CText

  /** A lower-case hexadecimal digit, as "%x" prints it. */
  predicate IsHexDigit(c: char)
  {
    '0' <= c <= '9' || 'a' <= c <= 'f'
  }

  function HexDigit(v: nat): (c: char)
    requires v < 16
    ensures IsHexDigit(c)
  {
    if v < 10 then ('0' as int + v) as char else ('a' as int + v - 10) as char
  }

  /** The byte an element of a C string stands for, read as unsigned char. */
  function ByteOf(c: char): (b: nat)
    ensures b < 256
  {
    (c as int) % 256
  }

  predicate IsByteString(s: string)
  {
    forall i :: 0 <= i < |s| ==> (s[i] as int) < 256
  }

  /** boost::format("%%%02x") of one byte. */
  function PadByte(c: char): (t: string)
    ensures |t| == 3 && t[0] == '%'
    ensures IsHexDigit(t[1]) && IsHexDigit(t[2])
  {
    var b := ByteOf(c);
    ['%', HexDigit(b / 16), HexDigit(b % 16)]
  }

  /** The escaped form of a whole string, one triple per character. */
  function Pad(s: string): (t: string)
    ensures |t| == 3 * |s|
  {
    if s == [] then [] else Pad(s[..|s| - 1]) + PadByte(s[|s| - 1])
  }

  /** The length of the C string: the characters before the first '\0'. */
  function CLen(s: string): (n: nat)
    ensures n <= |s| && At(s, n) == '\0'
    ensures forall i :: 0 <= i < n ==> s[i] != '\0'
  {
    if s == [] then 0
    else if s[0] == '\0' then 0
    else
      var n := 1 + CLen(s[1..]);
      assert forall i :: 1 <= i < n ==> s[i] == s[1..][i - 1];
      n
  }

  /** MR_Pad: appends the escape of each byte of the C string src, in order,
      until the terminator. */
  method MR_Pad(src: string) returns (r: string)
    ensures r == Pad(src[..CLen(src)])
    ensures |r| == 3 * CLen(src)
  {
    r := "";
    var i := 0;
    while At(src, i) != '\0'
      invariant i <= CLen(src)
      invariant r == Pad(src[..i])
      decreases |src| - i
    {
      assert src[..i + 1][..i] == src[..i];
      r := r + PadByte(src[i]);
      i := i + 1;
    }
  }

  /** Every escape triple sits where its byte sits. */
  lemma {:induction false} PadAt(s: string, i: nat)
    requires i < |s|
    ensures Pad(s)[3 * i..3 * i + 3] == PadByte(s[i])
  {
    var last := |s| - 1;
    var t := Pad(s[..last]);
    assert Pad(s) == t + PadByte(s[last]);
    if i < last {
      PadAt(s[..last], i);
      assert Pad(s)[3 * i..3 * i + 3] == t[3 * i..3 * i + 3];
    } else {
      assert Pad(s)[3 * i..3 * i + 3] == PadByte(s[last]);
    }
  }

  /** The value of a lower-case hexadecimal digit. */
  function HexValue(c: char): (v: nat)
    ensures v < 16
    ensures IsHexDigit(c) ==> HexDigit(v) == c
  {
    if '0' <= c <= '9' then (c - '0') as nat
    else if 'a' <= c <= 'f' then (c - 'a') as nat + 10
    else 0
  }

  /** Undoes Pad: None when t is not a sequence of escape triples. */
  function Unpad(t: string): (r: Option<string>)
    ensures r.Some? ==> 3 * |r.value| == |t|
    decreases |t|
  {
    if t == [] then Some([])
    else if |t| < 3 then None
    else
      var tail := t[|t| - 3..];
      if tail[0] != '%' || !IsHexDigit(tail[1]) || !IsHexDigit(tail[2]) then None
      else match Unpad(t[..|t| - 3])
        case None => None
        case Some(s) => Some(s + [(HexValue(tail[1]) * 16 + HexValue(tail[2])) as char])
  }

  lemma HexRoundTrip(c: char)
    requires (c as int) < 256
    ensures var t := PadByte(c); (HexValue(t[1]) * 16 + HexValue(t[2])) as char == c
  {
    var b := ByteOf(c);
    assert b == c as int;
    assert HexValue(HexDigit(b / 16)) == b / 16;
    assert HexValue(HexDigit(b % 16)) == b % 16;
    assert (b / 16) * 16 + b % 16 == b;
  }

  /** Decoding an escaped byte string gives back the string. */
  lemma {:induction false} UnpadPad(s: string)
    requires IsByteString(s)
    ensures Unpad(Pad(s)) == Some(s)
  {
    if s != [] {
      var init, c := s[..|s| - 1], s[|s| - 1];
      var t := Pad(s);
      var tail := t[|t| - 3..];
      assert t[..|t| - 3] == Pad(init);
      assert tail == PadByte(c);
      UnpadPad(init);
      HexRoundTrip(c);
      var back := (HexValue(tail[1]) * 16 + HexValue(tail[2])) as char;
      assert back == c;
      assert Unpad(t) == Some(init + [back]);
      assert init + [c] == s;
    }
  }

  /** Distinct byte strings have distinct escapes. */
  lemma PadInjective(a: string, b: string)
    requires IsByteString(a) && IsByteString(b)
    requires Pad(a) == Pad(b)
    ensures a == b
  {
    UnpadPad(a);
    UnpadPad(b);
  }
}
