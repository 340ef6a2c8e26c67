/** Base64 as RFC 4648 defines it, with padding, over both of its alphabets:
    the standard one of section 4 and the URL- and filename-safe one of
    section 5.  Decoding follows Go's `encoding/base64` padded encodings in
    their default (non-strict) mode: carriage returns and line feeds are
    ignored wherever they appear, padding may only close the final
    four-character group, and unused trailing bits are not checked. */
module Base64 {
  import opened Wrappers

  datatype Alphabet =
    | Standard   // RFC 4648 section 4: ... '+' '/'
    | UrlSafe    // RFC 4648 section 5: ... '-' '_'

  const Pad: char := '='

  /** The character that encodes the 6-bit value `v`. */
  function CharOf(a: Alphabet, v: int): char
    requires 0 <= v < 64
  {
    if v < 26 then ('A' as int + v) as char
    else if v < 52 then ('a' as int + (v - 26)) as char
    else if v < 62 then ('0' as int + (v - 52)) as char
    else if v == 62 then (if a == Standard then '+' else '-')
    else (if a == Standard then '/' else '_')
  }

  /** The 6-bit value a character encodes, if it belongs to the alphabet;
      it is the inverse of CharOf. */
  function ValueOf(a: Alphabet, c: char): (r: Option<int>)
    ensures r.Some? ==> 0 <= r.value < 64 && CharOf(a, r.value) == c
  {
    if 'A' <= c <= 'Z' then Some(c as int - 'A' as int)
    else if 'a' <= c <= 'z' then Some(c as int - 'a' as int + 26)
    else if '0' <= c <= '9' then Some(c as int - '0' as int + 52)
    else if c == (if a == Standard then '+' else '-') then Some(62)
    else if c == (if a == Standard then '/' else '_') then Some(63)
    else None
  }

  lemma ValueOfCharOf(a: Alphabet, v: int)
    requires 0 <= v < 64
    ensures ValueOf(a, CharOf(a, v)) == Some(v)
  {
  }

  /** The characters an encoder may emit. */
  predicate IsEncodingChar(a: Alphabet, c: char) {
    ValueOf(a, c).Some? || c == Pad
  }

  /** Three bytes as four characters. */
  function EncodeGroup(a: Alphabet, b0: byte, b1: byte, b2: byte): (r: string)
    ensures |r| == 4 && forall i :: 0 <= i < 4 ==> ValueOf(a, r[i]).Some?
  {
    var r := [CharOf(a, b0 as int / 4),
              CharOf(a, (b0 as int % 4) * 16 + b1 as int / 16),
              CharOf(a, (b1 as int % 16) * 4 + b2 as int / 64),
              CharOf(a, b2 as int % 64)];
    ValueOfCharOf(a, b0 as int / 4);
    ValueOfCharOf(a, (b0 as int % 4) * 16 + b1 as int / 16);
    ValueOfCharOf(a, (b1 as int % 16) * 4 + b2 as int / 64);
    ValueOfCharOf(a, b2 as int % 64);
    r
  }

  /** The final one or two bytes, padded to four characters. */
  function EncodeTail(a: Alphabet, d: seq<byte>): (r: string)
    requires 1 <= |d| <= 2
    ensures |r| == 4 && forall i :: 0 <= i < 4 ==> IsEncodingChar(a, r[i])
    ensures ValueOf(a, r[0]).Some? && ValueOf(a, r[1]).Some? && r[3] == Pad
    ensures r[2] == Pad <==> |d| == 1
  {
    var b0 := d[0] as int;
    ValueOfCharOf(a, b0 / 4);
    if |d| == 1 then
      ValueOfCharOf(a, (b0 % 4) * 16);
      [CharOf(a, b0 / 4), CharOf(a, (b0 % 4) * 16), Pad, Pad]
    else
      var b1 := d[1] as int;
      ValueOfCharOf(a, (b0 % 4) * 16 + b1 / 16);
      ValueOfCharOf(a, (b1 % 16) * 4);
      [CharOf(a, b0 / 4), CharOf(a, (b0 % 4) * 16 + b1 / 16), CharOf(a, (b1 % 16) * 4), Pad]
  }

  /** Base64 encoding with padding (EncodeToString). */
  function Encode(a: Alphabet, d: seq<byte>): (r: string)
    ensures |r| == 4 * ((|d| + 2) / 3)
    ensures forall i :: 0 <= i < |r| ==> IsEncodingChar(a, r[i])
    decreases |d|
  {
    if |d| == 0 then []
    else if |d| < 3 then EncodeTail(a, d)
    else
      var g := EncodeGroup(a, d[0], d[1], d[2]);
      var rest := Encode(a, d[3..]);
      assert (|d| + 2) / 3 == (|d| - 3 + 2) / 3 + 1;
      EncodingCharsConcat(a, g, rest);
      g + rest
  }

  lemma EncodingCharsConcat(a: Alphabet, g: string, rest: string)
    requires forall i :: 0 <= i < |g| ==> IsEncodingChar(a, g[i])
    requires forall i :: 0 <= i < |rest| ==> IsEncodingChar(a, rest[i])
    ensures forall i :: 0 <= i < |g + rest| ==> IsEncodingChar(a, (g + rest)[i])
  {
    forall i | 0 <= i < |g + rest| ensures IsEncodingChar(a, (g + rest)[i]) {
      if i >= |g| {
        assert (g + rest)[i] == rest[i - |g|];
      }
    }
  }

  /** Four alphabet characters as three bytes. */
  function DecodeGroup(a: Alphabet, c: string): (r: Option<seq<byte>>)
    requires |c| == 4
    ensures r.Some? ==> |r.value| == 3
    ensures r.Some? <==> forall i :: 0 <= i < 4 ==> ValueOf(a, c[i]).Some?
  {
    match (ValueOf(a, c[0]), ValueOf(a, c[1]), ValueOf(a, c[2]), ValueOf(a, c[3]))
    case (Some(v0), Some(v1), Some(v2), Some(v3)) =>
      Some([(v0 * 4 + v1 / 16) as byte, ((v1 % 16) * 16 + v2 / 4) as byte, ((v2 % 4) * 64 + v3) as byte])
    case _ => None
  }

  /** The last group, which may end in one or two padding characters. */
  function DecodeFinalGroup(a: Alphabet, c: string): (r: Option<seq<byte>>)
    requires |c| == 4
  {
    if c[2] == Pad && c[3] == Pad then
      match (ValueOf(a, c[0]), ValueOf(a, c[1]))
      case (Some(v0), Some(v1)) => Some([(v0 * 4 + v1 / 16) as byte])
      case _ => None
    else if c[3] == Pad then
      match (ValueOf(a, c[0]), ValueOf(a, c[1]), ValueOf(a, c[2]))
      case (Some(v0), Some(v1), Some(v2)) =>
        Some([(v0 * 4 + v1 / 16) as byte, ((v1 % 16) * 16 + v2 / 4) as byte])
      case _ => None
    else DecodeGroup(a, c)
  }

  function DecodeGroups(a: Alphabet, s: string): Option<seq<byte>>
    decreases |s|
  {
    if |s| == 0 then Some([])
    else if |s| < 4 then None
    else if |s| == 4 then DecodeFinalGroup(a, s)
    else
      match DecodeGroup(a, s[..4])
      case None => None
      case Some(b) =>
        match DecodeGroups(a, s[4..])
        case None => None
        case Some(rest) => Some(b + rest)
  }

  /** The text with every carriage return and line feed removed. */
  function RemoveNewlines(s: string): (r: string)
    ensures |r| <= |s|
    decreases |s|
  {
    if |s| == 0 then []
    else (if s[0] == '\n' || s[0] == '\r' then [] else [s[0]]) + RemoveNewlines(s[1..])
  }

  /** Base64 decoding with padding (DecodeString); None is Go's
      CorruptInputError. */
  function Decode(a: Alphabet, s: string): Option<seq<byte>>
  {
    DecodeGroups(a, RemoveNewlines(s))
  }

  lemma {:induction false} RemoveNewlinesKeeps(s: string)
    requires forall i :: 0 <= i < |s| ==> s[i] != '\n' && s[i] != '\r'
    ensures RemoveNewlines(s) == s
    decreases |s|
  {
    if |s| > 0 {
      RemoveNewlinesKeeps(s[1..]);
      assert s == [s[0]] + s[1..];
    }
  }

  lemma GroupArithmetic(b0: int, b1: int, b2: int)
    requires 0 <= b0 < 256 && 0 <= b1 < 256 && 0 <= b2 < 256
    ensures (b0 / 4) * 4 + ((b0 % 4) * 16 + b1 / 16) / 16 == b0
    ensures (((b0 % 4) * 16 + b1 / 16) % 16) * 16 + ((b1 % 16) * 4 + b2 / 64) / 4 == b1
    ensures (((b1 % 16) * 4 + b2 / 64) % 4) * 64 + b2 % 64 == b2
  {
    var x, y := b0 % 4, b1 / 16;
    assert b0 == (b0 / 4) * 4 + x;
    assert 0 <= y < 16;
    assert (x * 16 + y) / 16 == x;
    assert (x * 16 + y) % 16 == y;
    assert b1 == y * 16 + b1 % 16;
    var u, w := b1 % 16, b2 / 64;
    assert 0 <= w < 4;
    assert (u * 4 + w) / 4 == u;
    assert (u * 4 + w) % 4 == w;
    assert b2 == w * 64 + b2 % 64;
  }

  lemma GroupRoundTrip(a: Alphabet, b0: byte, b1: byte, b2: byte)
    ensures DecodeGroup(a, EncodeGroup(a, b0, b1, b2)) == Some([b0, b1, b2])
  {
    var c := EncodeGroup(a, b0, b1, b2);
    ValueOfCharOf(a, b0 as int / 4);
    ValueOfCharOf(a, (b0 as int % 4) * 16 + b1 as int / 16);
    ValueOfCharOf(a, (b1 as int % 16) * 4 + b2 as int / 64);
    ValueOfCharOf(a, b2 as int % 64);
    GroupArithmetic(b0 as int, b1 as int, b2 as int);
  }

  /** One final byte comes back from its group of two characters and two pads. */
  lemma Tail1RoundTrip(a: Alphabet, b0: byte)
    ensures DecodeFinalGroup(a, EncodeTail(a, [b0])) == Some([b0])
  {
    var x := b0 as int;
    var v0, v1 := x / 4, (x % 4) * 16;
    ValueOfCharOf(a, v0);
    ValueOfCharOf(a, v1);
    assert EncodeTail(a, [b0]) == [CharOf(a, v0), CharOf(a, v1), Pad, Pad];
    assert v1 / 16 == x % 4;
    assert v0 * 4 + v1 / 16 == x;
  }

  /** Two final bytes come back from their group of three characters and a pad. */
  lemma Tail2RoundTrip(a: Alphabet, b0: byte, b1: byte)
    ensures DecodeFinalGroup(a, EncodeTail(a, [b0, b1])) == Some([b0, b1])
  {
    var x, y := b0 as int, b1 as int;
    var v0, v1, v2 := x / 4, (x % 4) * 16 + y / 16, (y % 16) * 4;
    ValueOfCharOf(a, v0);
    ValueOfCharOf(a, v1);
    ValueOfCharOf(a, v2);
    assert EncodeTail(a, [b0, b1]) == [CharOf(a, v0), CharOf(a, v1), CharOf(a, v2), Pad];
    GroupArithmetic(x, y, 0);
    assert v2 / 4 == y % 16;
  }

  lemma TailRoundTrip(a: Alphabet, d: seq<byte>)
    requires 1 <= |d| <= 2
    ensures DecodeFinalGroup(a, EncodeTail(a, d)) == Some(d)
  {
    if |d| == 1 {
      Tail1RoundTrip(a, d[0]);
      assert d == [d[0]];
    } else {
      Tail2RoundTrip(a, d[0], d[1]);
      assert d == [d[0], d[1]];
    }
  }

  /** A group that decodes, followed by more groups that decode. */
  lemma DecodeGroupsCons(a: Alphabet, g: string, rest: string, b: seq<byte>, r: seq<byte>)
    requires |g| == 4 && |rest| > 0
    requires DecodeGroup(a, g) == Some(b) && DecodeGroups(a, rest) == Some(r)
    ensures DecodeGroups(a, g + rest) == Some(b + r)
  {
    var s := g + rest;
    assert s[..4] == g && s[4..] == rest;
  }

  /** One or two final bytes come back from their padded group. */
  lemma TailGroupsRoundTrip(a: Alphabet, d: seq<byte>)
    requires 1 <= |d| <= 2
    ensures DecodeGroups(a, Encode(a, d)) == Some(d)
  {
    var t := EncodeTail(a, d);
    assert Encode(a, d) == t;
    TailRoundTrip(a, d);
  }

  /** Three final bytes come back from their group, which has no padding. */
  lemma FullGroupsRoundTrip(a: Alphabet, d: seq<byte>)
    requires |d| == 3
    ensures DecodeGroups(a, Encode(a, d)) == Some(d)
  {
    assert d == [d[0], d[1], d[2]];
    OneGroupRoundTrip(a, d[0], d[1], d[2]);
  }

  lemma OneGroupRoundTrip(a: Alphabet, b0: byte, b1: byte, b2: byte)
    ensures DecodeGroups(a, Encode(a, [b0, b1, b2])) == Some([b0, b1, b2])
  {
    var d := [b0, b1, b2];
    var g := EncodeGroup(a, b0, b1, b2);
    assert ValueOf(a, g[3]).Some?;
    assert DecodeFinalGroup(a, g) == DecodeGroup(a, g);
    GroupRoundTrip(a, b0, b1, b2);
    assert d[3..] == [] && Encode(a, d[3..]) == [];
    assert Encode(a, d) == g + [] == g;
    assert DecodeGroups(a, g) == DecodeFinalGroup(a, g);
  }

  /** A leading group of three bytes comes back in front of the rest. */
  lemma ConsGroupsRoundTrip(a: Alphabet, b0: byte, b1: byte, b2: byte, rest: seq<byte>)
    requires |rest| > 0
    requires DecodeGroups(a, Encode(a, rest)) == Some(rest)
    ensures DecodeGroups(a, Encode(a, [b0, b1, b2] + rest)) == Some([b0, b1, b2] + rest)
  {
    var d := [b0, b1, b2] + rest;
    assert d[0] == b0 && d[1] == b1 && d[2] == b2 && d[3..] == rest;
    var g := EncodeGroup(a, b0, b1, b2);
    assert Encode(a, d) == g + Encode(a, rest);
    GroupRoundTrip(a, b0, b1, b2);
    DecodeGroupsCons(a, g, Encode(a, rest), [b0, b1, b2], rest);
  }

  lemma {:induction false} GroupsRoundTrip(a: Alphabet, d: seq<byte>)
    ensures DecodeGroups(a, Encode(a, d)) == Some(d)
    decreases |d|
  {
    if |d| == 0 {
    } else if |d| < 3 {
      TailGroupsRoundTrip(a, d);
    } else if |d| == 3 {
      FullGroupsRoundTrip(a, d);
    } else {
      GroupsRoundTrip(a, d[3..]);
      ConsGroupsRoundTrip(a, d[0], d[1], d[2], d[3..]);
      assert d == [d[0], d[1], d[2]] + d[3..];
    }
  }

  /** Decoding an encoding gives back the bytes, in either alphabet. */
  lemma RoundTrip(a: Alphabet, d: seq<byte>)
    ensures Decode(a, Encode(a, d)) == Some(d)
  {
    var s := Encode(a, d);
    assert forall i :: 0 <= i < |s| ==> s[i] != '\n' && s[i] != '\r' by {
      forall i | 0 <= i < |s| ensures s[i] != '\n' && s[i] != '\r' {
        assert IsEncodingChar(a, s[i]);
      }
    }
    RemoveNewlinesKeeps(s);
    GroupsRoundTrip(a, d);
  }

  lemma CharsAgree(c: char)
    requires ValueOf(Standard, c).Some? && ValueOf(UrlSafe, c).Some?
    ensures ValueOf(Standard, c) == ValueOf(UrlSafe, c)
  {
  }

  /** Characters both alphabets accept have the same value in each. */
  lemma PrefixAgrees(c: string, n: nat)
    requires n <= |c|
    requires forall i :: 0 <= i < n ==> ValueOf(Standard, c[i]).Some? && ValueOf(UrlSafe, c[i]).Some?
    ensures forall i :: 0 <= i < n ==> ValueOf(Standard, c[i]) == ValueOf(UrlSafe, c[i])
  {
    forall i | 0 <= i < n ensures ValueOf(Standard, c[i]) == ValueOf(UrlSafe, c[i]) {
      CharsAgree(c[i]);
    }
  }

  lemma AgreeOnGroup(c: string)
    requires |c| == 4
    ensures DecodeGroup(Standard, c).Some? && DecodeGroup(UrlSafe, c).Some? ==>
      DecodeGroup(Standard, c) == DecodeGroup(UrlSafe, c)
  {
    if DecodeGroup(Standard, c).Some? && DecodeGroup(UrlSafe, c).Some? {
      PrefixAgrees(c, 4);
    }
  }

  lemma AgreeOnFinalGroup(c: string)
    requires |c| == 4
    ensures DecodeFinalGroup(Standard, c).Some? && DecodeFinalGroup(UrlSafe, c).Some? ==>
      DecodeFinalGroup(Standard, c) == DecodeFinalGroup(UrlSafe, c)
  {
    if DecodeFinalGroup(Standard, c).Some? && DecodeFinalGroup(UrlSafe, c).Some? {
      if c[2] == Pad && c[3] == Pad {
        PrefixAgrees(c, 2);
      } else if c[3] == Pad {
        PrefixAgrees(c, 3);
      } else {
        AgreeOnGroup(c);
      }
    }
  }

  lemma {:induction false} GroupsAgree(s: string)
    requires DecodeGroups(Standard, s).Some? && DecodeGroups(UrlSafe, s).Some?
    ensures DecodeGroups(Standard, s) == DecodeGroups(UrlSafe, s)
    decreases |s|
  {
    if |s| == 4 {
      AgreeOnFinalGroup(s);
    } else if |s| > 4 {
      AgreeOnGroup(s[..4]);
      GroupsAgree(s[4..]);
    }
  }

  /** Where both alphabets accept a text, they decode it to the same bytes:
      the two alphabets differ only in characters the other rejects. */
  lemma DecodeAgree(s: string)
    requires Decode(Standard, s).Some? && Decode(UrlSafe, s).Some?
    ensures Decode(Standard, s) == Decode(UrlSafe, s)
  {
    GroupsAgree(RemoveNewlines(s));
  }
}
