/** JavaScript's `encodeURIComponent`, which `frontend/components/DownloadButton.tsx`
    and `frontend/app/upload/page.tsx` apply to a slug before putting it in a
    path: every character outside the unreserved set becomes the `%XY` escapes
    of its UTF-8 bytes, with upper-case hex digits. A decoder is given beside it,
    and the round trip through it shows that no two strings share an encoding. */
module UriComponent {
  import opened Common

  /** The characters `encodeURIComponent` leaves as they are. */
  predicate IsUnreserved(c: char)
  {
    IsAsciiLower(c) || IsAsciiUpper(c) || IsDigit(c)
    || c == '-' || c == '_' || c == '.' || c == '!' || c == '~' || c == '*' || c == '\'' || c == '(' || c == ')'
  }

  const HexDigits: string := "0123456789ABCDEF"

  predicate IsHex(c: char) { IsDigit(c) || 'A' <= c <= 'F' || 'a' <= c <= 'f' }

  function HexValue(c: char): (v: int)
    requires IsHex(c)
    ensures 0 <= v < 16
  {
    if IsDigit(c) then c as int - '0' as int
    else if 'A' <= c <= 'F' then c as int - 'A' as int + 10
    else c as int - 'a' as int + 10
  }

  lemma HexDigitsRoundTrip()
    ensures |HexDigits| == 16
    ensures forall d :: 0 <= d < 16 ==> IsHex(HexDigits[d]) && IsUnreserved(HexDigits[d]) && HexValue(HexDigits[d]) == d
  {
  }

  /** `%XY` for one byte. */
  function PercentByte(b: Byte): (r: string)
    ensures |r| == 3 && r[0] == '%'
  {
    ['%', HexDigits[b / 16], HexDigits[b % 16]]
  }

  function Percents(bs: seq<Byte>): (r: string)
    ensures |r| == 3 * |bs|
  {
    if bs == [] then [] else PercentByte(bs[0]) + Percents(bs[1..])
  }

  /** The UTF-8 bytes of one Unicode scalar value. */
  function Utf8(c: char): (r: seq<Byte>)
    ensures 1 <= |r| <= 4
  {
    var n := c as int;
    if n < 0x80 then [n]
    else if n < 0x800 then [0xC0 + n / 64, 0x80 + n % 64]
    else if n < 0x10000 then [0xE0 + n / 4096, 0x80 + (n / 64) % 64, 0x80 + n % 64]
    else [0xF0 + n / 262144, 0x80 + (n / 4096) % 64, 0x80 + (n / 64) % 64, 0x80 + n % 64]
  }

  function EncodeChar(c: char): (r: string)
    ensures r != []
    ensures forall i :: 0 <= i < |r| ==> IsUnreserved(r[i]) || r[i] == '%'
  {
    if IsUnreserved(c) then [c]
    else
      HexDigitsRoundTrip();
      PercentsChars(Utf8(c));
      Percents(Utf8(c))
  }

  lemma {:induction false} PercentsChars(bs: seq<Byte>)
    ensures forall i :: 0 <= i < |Percents(bs)| ==> IsUnreserved(Percents(bs)[i]) || Percents(bs)[i] == '%'
    decreases |bs|
  {
    if bs != [] {
      HexDigitsRoundTrip();
      PercentsChars(bs[1..]);
    }
  }

  /** `encodeURIComponent(s)`. */
  function Encode(s: string): (r: string)
    ensures forall i :: 0 <= i < |r| ==> IsUnreserved(r[i]) || r[i] == '%'
  {
    if s == [] then [] else EncodeChar(s[0]) + Encode(s[1..])
  }

  // ---------------------------------------------------------------- decoding

  function ReadByte(t: string): (r: Option<(Byte, string)>)
    ensures r.Some? ==> |r.value.1| == |t| - 3
  {
    if |t| >= 3 && t[0] == '%' && IsHex(t[1]) && IsHex(t[2])
    then Some((16 * HexValue(t[1]) + HexValue(t[2]), t[3..]))
    else None
  }

  function ReadBytes(t: string, count: nat): (r: Option<(seq<Byte>, string)>)
    ensures r.Some? ==> |r.value.0| == count && |r.value.1| == |t| - 3 * count
    decreases count
  {
    if count == 0 then Some(([], t))
    else
      var first := ReadByte(t);
      if first.None? then None
      else
        var more := ReadBytes(first.value.1, count - 1);
        if more.None? then None
        else Some(([first.value.0] + more.value.0, more.value.1))
  }

  /** How many bytes a UTF-8 sequence starting with `b` has, 0 if none. */
  function LeadLength(b: Byte): nat
  {
    if b < 0x80 then 1
    else if 0xC0 <= b < 0xE0 then 2
    else if 0xE0 <= b < 0xF0 then 3
    else if 0xF0 <= b < 0xF8 then 4
    else 0
  }

  function ScalarOf(bs: seq<Byte>): int
    requires 1 <= |bs| <= 4
  {
    var b: seq<int> := bs;
    if |b| == 1 then b[0]
    else if |b| == 2 then (b[0] - 0xC0) * 64 + (b[1] - 0x80)
    else if |b| == 3 then (b[0] - 0xE0) * 4096 + (b[1] - 0x80) * 64 + (b[2] - 0x80)
    else (b[0] - 0xF0) * 262144 + (b[1] - 0x80) * 4096 + (b[2] - 0x80) * 64 + (b[3] - 0x80)
  }

  predicate IsScalar(n: int) { 0 <= n < 0xD800 || 0xE000 <= n < 0x11_0000 }

  function Prepend(c: char, rest: Option<string>): Option<string>
  {
    match rest
    case None => None
    case Some(s) => Some([c] + s)
  }

  /** Undoes the escapes; any other character stands for itself. */
  function Decode(t: string): (r: Option<string>)
    decreases |t|
  {
    if t == [] then Some([])
    else if t[0] != '%' then Prepend(t[0], Decode(t[1..]))
    else match ReadByte(t)
      case None => None
      case Some((b0, _)) =>
        var n := LeadLength(b0);
        if n == 0 then None
        else match ReadBytes(t, n)
          case None => None
          case Some((bs, rest)) =>
            var v := ScalarOf(bs);
            if IsScalar(v) then Prepend(v as char, Decode(rest)) else None
  }

  // ---------------------------------------------------------------- round trip

  lemma ReadPercentByte(b: Byte, rest: string)
    ensures ReadByte(PercentByte(b) + rest) == Some((b, rest))
  {
    HexDigitsRoundTrip();
    var t := PercentByte(b) + rest;
    assert t[3..] == rest;
  }

  lemma {:induction false} ReadPercents(bs: seq<Byte>, rest: string)
    ensures ReadBytes(Percents(bs) + rest, |bs|) == Some((bs, rest))
    decreases |bs|
  {
    if bs != [] {
      var tail := Percents(bs[1..]) + rest;
      assert Percents(bs) + rest == PercentByte(bs[0]) + tail;
      ReadPercentByte(bs[0], tail);
      ReadPercents(bs[1..], rest);
      assert ReadByte(Percents(bs) + rest) == Some((bs[0], tail));
      assert ReadBytes(tail, |bs| - 1) == Some((bs[1..], rest));
      assert [bs[0]] + bs[1..] == bs;
    } else {
      assert Percents(bs) + rest == rest;
    }
  }

  lemma Utf8RoundTrip(c: char)
    ensures LeadLength(Utf8(c)[0]) == |Utf8(c)|
    ensures ScalarOf(Utf8(c)) == c as int
  {
    var n := c as int;
    if 0x800 <= n < 0x10000 {
      assert n / 64 == (n / 4096) * 64 + (n / 64) % 64;
    } else if 0x10000 <= n {
      assert n / 64 == (n / 4096) * 64 + (n / 64) % 64;
      assert n / 4096 == (n / 262144) * 64 + (n / 4096) % 64;
    }
  }

  lemma DecodeEncodeChar(c: char, rest: string)
    ensures Decode(EncodeChar(c) + rest) == Prepend(c, Decode(rest))
  {
    var t := EncodeChar(c) + rest;
    if IsUnreserved(c) {
      assert t[0] == c && t[1..] == rest;
    } else {
      var bs := Utf8(c);
      assert t == PercentByte(bs[0]) + (Percents(bs[1..]) + rest);
      ReadPercentByte(bs[0], Percents(bs[1..]) + rest);
      Utf8RoundTrip(c);
      ReadPercents(bs, rest);
    }
  }

  /** Decoding undoes `Encode`. */
  lemma {:induction false} DecodeEncode(s: string)
    ensures Decode(Encode(s)) == Some(s)
    decreases |s|
  {
    if s != [] {
      DecodeEncode(s[1..]);
      DecodeEncodeChar(s[0], Encode(s[1..]));
      assert [s[0]] + s[1..] == s;
    }
  }

  /** Distinct strings have distinct encodings. */
  lemma EncodeInjective(s1: string, s2: string)
    requires Encode(s1) == Encode(s2)
    ensures s1 == s2
  {
    DecodeEncode(s1);
    DecodeEncode(s2);
  }

  /** The encoding holds no '/', '?' or '#', so it stays one path segment
      with no query or fragment. */
  lemma EncodeIsOneSegment(s: string)
    ensures '/' !in Encode(s) && '?' !in Encode(s) && '#' !in Encode(s)
  {
  }

  /** A string of unreserved characters (a slug of [a-z0-9], say) is left as
      it is. */
  lemma {:induction false} EncodeUnreserved(s: string)
    requires forall i :: 0 <= i < |s| ==> IsUnreserved(s[i])
    ensures Encode(s) == s
    decreases |s|
  {
    if s != [] {
      EncodeUnreserved(s[1..]);
      assert [s[0]] + s[1..] == s;
    }
  }
}
