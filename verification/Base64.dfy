/**
 Base64 as the standard engine reads and writes it: the alphabet and padding of section 4 of RFC 4648,
 padding required, and pad bits required to be zero (section 3.5).
 */
module Base64 {
  import opened Common

  type Byte = x: int | 0 <= x < 256
  type Sextet = x: int | 0 <= x < 64

  function CharOf(x: Sextet): char {
    if x < 26 then (x + 65) as char
    else if x < 52 then (x + 71) as char
    else if x < 62 then (x - 4) as char
    else if x == 62 then '+'
    else '/'
  }

  function SextetOf(c: char): (r: Option<Sextet>)
    ensures r.Some? ==> CharOf(r.value) == c
  {
    if 'A' <= c <= 'Z' then Some(c as int - 65)
    else if 'a' <= c <= 'z' then Some(c as int - 71)
    else if '0' <= c <= '9' then Some(c as int + 4)
    else if c == '+' then Some(62)
    else if c == '/' then Some(63)
    else None
  }

  lemma CharsAreDistinct(x: Sextet)
    ensures SextetOf(CharOf(x)) == Some(x) && CharOf(x) != '='
  {
  }

  /** The characters are those of table 1 of RFC 4648, in its order. */
  lemma CharsAreTheAlphabet(x: Sextet)
    ensures x < 26 ==> CharOf(x) as int == 'A' as int + x
    ensures 26 <= x < 52 ==> CharOf(x) as int == 'a' as int + (x - 26)
    ensures 52 <= x < 62 ==> CharOf(x) as int == '0' as int + (x - 52)
    ensures CharOf(62) == '+' && CharOf(63) == '/'
  {
  }

  /** Three bytes as four sextets. */
  function Sextets(a: Byte, b: Byte, c: Byte): (r: seq<Sextet>)
    ensures |r| == 4
  {
    [a / 4, a % 4 * 16 + b / 16, b % 16 * 4 + c / 64, c % 64]
  }

  /** Four sextets as three bytes. */
  function Triple(i: Sextet, j: Sextet, k: Sextet, l: Sextet): (r: seq<Byte>)
    ensures |r| == 3
  {
    [i * 4 + j / 16, j % 16 * 16 + k / 4, k % 4 * 64 + l]
  }

  function Chars(x: seq<Sextet>): (s: string)
    ensures |s| == |x| && forall i :: 0 <= i < |x| ==> s[i] == CharOf(x[i])
  {
    seq(|x|, i requires 0 <= i < |x| => CharOf(x[i]))
  }

  function Encode(bytes: seq<Byte>): string {
    if |bytes| >= 3 then Chars(Sextets(bytes[0], bytes[1], bytes[2])) + Encode(bytes[3..])
    else if |bytes| == 2 then Chars(Sextets(bytes[0], bytes[1], 0)[..3]) + "="
    else if |bytes| == 1 then Chars(Sextets(bytes[0], 0, 0)[..2]) + "=="
    else ""
  }

  function Decode(s: string): Option<seq<Byte>> {
    if s == [] then Some([])
    else if |s| < 4 then None
    else
      var i, j, k, l := SextetOf(s[0]), SextetOf(s[1]), SextetOf(s[2]), SextetOf(s[3]);
      if i.None? || j.None? then None
      else if k.Some? && l.Some? then
        var rest := Decode(s[4..]);
        if rest.None? then None
        else Some(Triple(i.value, j.value, k.value, l.value) + rest.value)
      else if |s| != 4 || s[3] != '=' then None
      else if k.Some? then
        if k.value % 4 != 0 then None
        else Some(Triple(i.value, j.value, k.value, 0)[..2])
      else if s[2] != '=' || j.value % 16 != 0 then None
      else Some(Triple(i.value, j.value, 0, 0)[..1])
  }

  /** The four sextets are the digits, in base 64 and most significant first, of the number the three bytes write. */
  lemma SextetsAreDigits(a: Byte, b: Byte, c: Byte)
    ensures var x := Sextets(a, b, c);
            (a as int * 256 + b) * 256 + c == ((x[0] as int * 64 + x[1]) * 64 + x[2]) * 64 + x[3]
  {
  }

  /** Whole groups are encoded one after the other, each into four characters. */
  lemma {:induction false} EncodeConcatenates(first: seq<Byte>, rest: seq<Byte>)
    requires |first| % 3 == 0
    ensures Encode(first + rest) == Encode(first) + Encode(rest) && |Encode(first)| == |first| / 3 * 4
  {
    if first == [] {
      assert first + rest == rest;
    } else {
      assert (first + rest)[3..] == first[3..] + rest;
      EncodeConcatenates(first[3..], rest);
    }
  }

  /** A group of one or two bytes is padded to four characters. */
  lemma PaddedEncoding(bytes: seq<Byte>)
    requires 1 <= |bytes| <= 2
    ensures var full := Encode(bytes + if |bytes| == 1 then [0, 0] else [0]);
            |full| == 4 && Encode(bytes) == full[..|bytes| + 1] + if |bytes| == 1 then "==" else "="
  {
    var group := bytes + if |bytes| == 1 then [0, 0] else [0];
    assert group[3..] == [];
    var x := Sextets(group[0], group[1], group[2]);
    assert Encode(group) == Chars(x) + "" == Chars(x);
    assert Chars(x[..|bytes| + 1]) == Chars(x)[..|bytes| + 1];
  }

  lemma SextetsThenTriple(a: Byte, b: Byte, c: Byte)
    ensures var x := Sextets(a, b, c); Triple(x[0], x[1], x[2], x[3]) == [a, b, c]
  {
  }

  lemma Split(q: nat, r: nat)
    ensures r < 4 ==> (q * 4 + r) / 4 == q && (q * 4 + r) % 4 == r
    ensures r < 16 ==> (q * 16 + r) / 16 == q && (q * 16 + r) % 16 == r
    ensures r < 64 ==> (q * 64 + r) / 64 == q && (q * 64 + r) % 64 == r
  {
  }

  lemma TripleThenSextets(i: Sextet, j: Sextet, k: Sextet, l: Sextet)
    ensures var t := Triple(i, j, k, l); Sextets(t[0], t[1], t[2]) == [i, j, k, l]
  {
    Split(i, j / 16);
    Split(j % 16, k / 4);
    Split(k % 4, l);
  }

  lemma DecodeBlock(x: seq<Sextet>, rest: string)
    requires |x| == 4 && Decode(rest).Some?
    ensures Decode(Chars(x) + rest) == Some(Triple(x[0], x[1], x[2], x[3]) + Decode(rest).value)
  {
    var s := Chars(x) + rest;
    forall m | 0 <= m < 4 ensures SextetOf(s[m]) == Some(x[m]) { CharsAreDistinct(x[m]); }
    assert s[4..] == rest;
  }

  lemma DecodeTwo(i: Sextet, j: Sextet, k: Sextet)
    requires k % 4 == 0
    ensures Decode([CharOf(i), CharOf(j), CharOf(k), '=']) == Some(Triple(i, j, k, 0)[..2])
  {
    CharsAreDistinct(i);
    CharsAreDistinct(j);
    CharsAreDistinct(k);
  }

  lemma DecodeOne(i: Sextet, j: Sextet)
    requires j % 16 == 0
    ensures Decode([CharOf(i), CharOf(j), '=', '=']) == Some(Triple(i, j, 0, 0)[..1])
  {
    CharsAreDistinct(i);
    CharsAreDistinct(j);
  }

  lemma PaddingBits(a: Byte, b: Byte)
    ensures Sextets(a, b, 0)[3] == 0 && Sextets(a, b, 0)[2] % 4 == 0
    ensures Sextets(a, 0, 0)[3] == 0 && Sextets(a, 0, 0)[2] == 0 && Sextets(a, 0, 0)[1] % 16 == 0
  {
  }

  lemma DecodeThreeChars(x: seq<Sextet>)
    requires |x| == 4 && x[2] % 4 == 0
    ensures Decode(Chars(x[..3]) + "=") == Some(Triple(x[0], x[1], x[2], 0)[..2])
  {
    DecodeTwo(x[0], x[1], x[2]);
    assert Chars(x[..3]) + "=" == [CharOf(x[0]), CharOf(x[1]), CharOf(x[2]), '='];
  }

  lemma DecodeTwoChars(x: seq<Sextet>)
    requires |x| == 4 && x[1] % 16 == 0
    ensures Decode(Chars(x[..2]) + "==") == Some(Triple(x[0], x[1], 0, 0)[..1])
  {
    DecodeOne(x[0], x[1]);
    assert Chars(x[..2]) + "==" == [CharOf(x[0]), CharOf(x[1]), '=', '='];
  }

  lemma TwoBytes(bytes: seq<Byte>)
    requires |bytes| == 2
    ensures Decode(Chars(Sextets(bytes[0], bytes[1], 0)[..3]) + "=") == Some(bytes)
  {
    PaddingBits(bytes[0], bytes[1]);
    SextetsThenTriple(bytes[0], bytes[1], 0);
    DecodeThreeChars(Sextets(bytes[0], bytes[1], 0));
    assert [bytes[0], bytes[1], 0][..2] == bytes;
  }

  lemma OneByte(bytes: seq<Byte>)
    requires |bytes| == 1
    ensures Decode(Chars(Sextets(bytes[0], 0, 0)[..2]) + "==") == Some(bytes)
  {
    PaddingBits(bytes[0], 0);
    SextetsThenTriple(bytes[0], 0, 0);
    DecodeTwoChars(Sextets(bytes[0], 0, 0));
    assert [bytes[0], 0, 0][..1] == bytes;
  }

  lemma BlockThenRest(bytes: seq<Byte>, block: string, rest: string)
    requires |bytes| >= 3 && block == Chars(Sextets(bytes[0], bytes[1], bytes[2]))
    requires Decode(rest) == Some(bytes[3..])
    ensures Decode(block + rest) == Some(bytes)
  {
    SextetsThenTriple(bytes[0], bytes[1], bytes[2]);
    DecodeBlock(Sextets(bytes[0], bytes[1], bytes[2]), rest);
    assert [bytes[0], bytes[1], bytes[2]] + bytes[3..] == bytes;
  }

  /** Whatever is encoded decodes to itself. */
  lemma {:induction false} DecodeOfEncode(bytes: seq<Byte>)
    ensures Decode(Encode(bytes)) == Some(bytes)
  {
    if |bytes| >= 3 {
      DecodeOfEncode(bytes[3..]);
      BlockThenRest(bytes, Chars(Sextets(bytes[0], bytes[1], bytes[2])), Encode(bytes[3..]));
    } else if |bytes| == 2 {
      TwoBytes(bytes);
    } else if |bytes| == 1 {
      OneByte(bytes);
    }
  }

  lemma EncodeBlock(s: string, i: Sextet, j: Sextet, k: Sextet, l: Sextet, rest: seq<Byte>)
    requires |s| >= 4 && s[0] == CharOf(i) && s[1] == CharOf(j) && s[2] == CharOf(k) && s[3] == CharOf(l)
    requires Encode(rest) == s[4..]
    ensures Encode(Triple(i, j, k, l) + rest) == s
  {
    var bytes := Triple(i, j, k, l) + rest;
    TripleThenSextets(i, j, k, l);
    assert bytes[3..] == rest;
    assert Chars([i, j, k, l]) + s[4..] == s;
  }

  lemma EncodeTail(i: Sextet, j: Sextet, k: Sextet)
    ensures k % 4 == 0 ==> Encode(Triple(i, j, k, 0)[..2]) == [CharOf(i), CharOf(j), CharOf(k), '=']
    ensures j % 16 == 0 ==> Encode(Triple(i, j, 0, 0)[..1]) == [CharOf(i), CharOf(j), '=', '=']
  {
    TripleThenSextets(i, j, k, 0);
    TripleThenSextets(i, j, 0, 0);
  }

  /** Whatever decodes is the encoding of what it decodes to: there is one text per byte string. */
  lemma {:induction false} EncodeOfDecode(s: string)
    requires Decode(s).Some?
    ensures Encode(Decode(s).value) == s
  {
    if s != [] {
      var i, j, k, l := SextetOf(s[0]).value, SextetOf(s[1]).value, SextetOf(s[2]), SextetOf(s[3]);
      if k.Some? && l.Some? {
        EncodeOfDecode(s[4..]);
        EncodeBlock(s, i, j, k.value, l.value, Decode(s[4..]).value);
      } else {
        EncodeTail(i, j, if k.Some? then k.value else 0);
      }
    }
  }
}
