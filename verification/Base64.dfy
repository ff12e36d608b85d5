/** The base64 and base64url loops: what they compute, and on which inputs they are inverse to each other. */
module Base64 {
  import opened Basics

  type Byte = bv8
  type Sextet = bv6

  datatype Alphabet = Standard | UrlSafe
  datatype DecodeError = InvalidCharacters | InvalidLength

  const UPPER := "ABCDEFGHIJKLMNOPQRSTUVWXYZ"
  const LOWER := "abcdefghijklmnopqrstuvwxyz"
  const DIGITS := "0123456789"

  /** The characters of an alphabet, in the order of their values. */
  function Chars(alphabet: Alphabet): (s: string)
    ensures |s| == 64
  {
    UPPER + LOWER + DIGITS + if alphabet.Standard? then "+/" else "-_"
  }

  /** The position of a character in the alphabet. */
  function IndexOf(alphabet: Alphabet, c: char): (r: Option<nat>)
    ensures r.Some? ==> r.value < 64
  {
    if 'A' <= c <= 'Z' then Some(c as int - 'A' as int)
    else if 'a' <= c <= 'z' then Some(c as int - 'a' as int + 26)
    else if '0' <= c <= '9' then Some(c as int - '0' as int + 52)
    else if c == (if alphabet.Standard? then '+' else '-') then Some(62)
    else if c == (if alphabet.Standard? then '/' else '_') then Some(63)
    else None
  }

  lemma Letters(n: nat)
    requires n < 26
    ensures UPPER[n] == 'A' + n as char && LOWER[n] == 'a' + n as char
  {
  }

  lemma Digit(n: nat)
    requires n < 10
    ensures DIGITS[n] == '0' + n as char
  {
  }

  function Letter(alphabet: Alphabet, n: nat): char
    requires n < 64
  {
    if n < 26 then 'A' + n as char
    else if n < 52 then 'a' + (n - 26) as char
    else if n < 62 then '0' + (n - 52) as char
    else if n == 62 then (if alphabet.Standard? then '+' else '-')
    else (if alphabet.Standard? then '/' else '_')
  }

  lemma CharAt(alphabet: Alphabet, n: nat)
    requires n < 64
    ensures Chars(alphabet)[n] == Letter(alphabet, n)
  {
    var chars := Chars(alphabet);
    if n < 26 {
      Letters(n);
      assert chars[n] == UPPER[n];
    } else if n < 52 {
      Letters(n - 26);
      assert chars[n] == LOWER[n - 26];
    } else if n < 62 {
      Digit(n - 52);
      assert chars[n] == DIGITS[n - 52];
    }
  }

  lemma LetterIndex(alphabet: Alphabet, c: char, n: nat)
    requires n < 64
    ensures IndexOf(alphabet, c) == Some(n) <==> Letter(alphabet, n) == c
  {
  }

  /** `IndexOf` finds the one position of each character of the alphabet, and nothing else. */
  lemma IndexIsPosition(alphabet: Alphabet, c: char, n: nat)
    requires n < 64
    ensures IndexOf(alphabet, c) == Some(n) <==> Chars(alphabet)[n] == c
  {
    CharAt(alphabet, n);
    LetterIndex(alphabet, c, n);
  }

  lemma PaddingIsNoIndex(alphabet: Alphabet)
    ensures IndexOf(alphabet, '=').None?
  {
  }

  predicate InAlphabet(alphabet: Alphabet, s: string) {
    forall i :: 0 <= i < |s| ==> IndexOf(alphabet, s[i]).Some?
  }

  // ---------- bytes and sextets ----------

  /** Three bytes as one number of 24 bits. */
  function Chunk(x: Byte, y: Byte, z: Byte): bv32 {
    (x as bv32 << 16) | (y as bv32 << 8) | (z as bv32)
  }

  function Sextet0(chunk: bv32): Sextet { ((chunk >> 18) & 63) as bv6 }
  function Sextet1(chunk: bv32): Sextet { ((chunk >> 12) & 63) as bv6 }
  function Sextet2(chunk: bv32): Sextet { ((chunk >> 6) & 63) as bv6 }
  function Sextet3(chunk: bv32): Sextet { (chunk & 63) as bv6 }

  /** The values of the characters that encode the bytes. */
  function Sextets(bytes: seq<Byte>): seq<Sextet> {
    if |bytes| >= 3 then
      var chunk := Chunk(bytes[0], bytes[1], bytes[2]);
      [Sextet0(chunk), Sextet1(chunk), Sextet2(chunk), Sextet3(chunk)] + Sextets(bytes[3..])
    else if |bytes| == 2 then
      var chunk := Chunk(bytes[0], bytes[1], 0);
      [Sextet0(chunk), Sextet1(chunk), Sextet2(chunk)]
    else if |bytes| == 1 then
      var chunk := Chunk(bytes[0], 0, 0);
      [Sextet0(chunk), Sextet1(chunk)]
    else []
  }

  function Byte0(a: Sextet, b: Sextet): Byte { (a as bv8 << 2) | (b as bv8 >> 4) }
  function Byte1(b: Sextet, c: Sextet): Byte { ((b & 15) as bv8 << 4) | (c as bv8 >> 2) }
  function Byte2(c: Sextet, d: Sextet): Byte { ((c & 3) as bv8 << 6) | (d as bv8) }

  /** The bytes that characters with these values encode. */
  function Bytes(v: seq<Sextet>): seq<Byte> {
    if |v| >= 4 then [Byte0(v[0], v[1]), Byte1(v[1], v[2]), Byte2(v[2], v[3])] + Bytes(v[4..])
    else if |v| == 3 then [Byte0(v[0], v[1]), Byte1(v[1], v[2])]
    else if |v| == 2 then [Byte0(v[0], v[1])]
    else []
  }

  lemma ThreeBytes(x: Byte, y: Byte, z: Byte)
    ensures var chunk := Chunk(x, y, z);
            && Byte0(Sextet0(chunk), Sextet1(chunk)) == x
            && Byte1(Sextet1(chunk), Sextet2(chunk)) == y
            && Byte2(Sextet2(chunk), Sextet3(chunk)) == z
  {
  }

  lemma {:induction false} BytesOfSextets(bytes: seq<Byte>)
    ensures Bytes(Sextets(bytes)) == bytes && |Sextets(bytes)| % 4 != 1
  {
    if |bytes| >= 3 {
      var v := Sextets(bytes);
      ThreeBytes(bytes[0], bytes[1], bytes[2]);
      BytesOfSextets(bytes[3..]);
      assert v[4..] == Sextets(bytes[3..]);
      assert bytes == [bytes[0], bytes[1], bytes[2]] + bytes[3..];
    } else if |bytes| == 2 {
      ThreeBytes(bytes[0], bytes[1], 0);
    } else if |bytes| == 1 {
      ThreeBytes(bytes[0], 0, 0);
    }
  }

  lemma FourSextets(a: Sextet, b: Sextet, c: Sextet, d: Sextet)
    ensures var chunk := Chunk(Byte0(a, b), Byte1(b, c), Byte2(c, d));
            && Sextet0(chunk) == a && Sextet1(chunk) == b && Sextet2(chunk) == c && Sextet3(chunk) == d
  {
  }

  /** The bits of the last character that encode nothing are zero. */
  predicate UnusedBitsZero(v: seq<Sextet>) {
    (|v| % 4 == 2 ==> v[|v| - 1] & 15 == 0) && (|v| % 4 == 3 ==> v[|v| - 1] & 3 == 0)
  }

  lemma LastSextets(a: Sextet, b: Sextet, c: Sextet)
    ensures var chunk := Chunk(Byte0(a, b), Byte1(b, c), 0);
            && Sextet0(chunk) == a && Sextet1(chunk) == b && Sextet2(chunk) == c & 60
            && (c & 60 == c <==> c & 3 == 0)
    ensures var chunk := Chunk(Byte0(a, b), 0, 0);
            && Sextet0(chunk) == a && Sextet1(chunk) == b & 48
            && (b & 48 == b <==> b & 15 == 0)
  {
  }

  lemma {:induction false} SextetsOfBytes(v: seq<Sextet>)
    requires |v| % 4 != 1
    ensures |Sextets(Bytes(v))| == |v| && (Sextets(Bytes(v)) == v <==> UnusedBitsZero(v))
  {
    if |v| >= 4 {
      SextetsOfBytes(v[4..]);
      FourMore(v);
      UnusedBitsOfRest(v);
    } else if |v| == 3 {
      LastSextets(v[0], v[1], v[2]);
      assert v == [v[0], v[1], v[2]];
    } else if |v| == 2 {
      LastSextets(v[0], v[1], 0);
      assert v == [v[0], v[1]];
    }
  }

  lemma UnusedBitsOfRest(v: seq<Sextet>)
    requires |v| >= 4
    ensures UnusedBitsZero(v) <==> UnusedBitsZero(v[4..])
  {
    assert |v| > 4 ==> v[4..][|v| - 5] == v[|v| - 1];
  }

  lemma FourMore(v: seq<Sextet>)
    requires |v| >= 4
    ensures |Sextets(Bytes(v))| == 4 + |Sextets(Bytes(v[4..]))|
    ensures Sextets(Bytes(v)) == v <==> Sextets(Bytes(v[4..])) == v[4..]
  {
    var four := [v[0], v[1], v[2], v[3]];
    var rest := Sextets(Bytes(v[4..]));
    FourSextets(v[0], v[1], v[2], v[3]);
    assert Bytes(v)[3..] == Bytes(v[4..]);
    assert Sextets(Bytes(v)) == four + rest;
    assert v == four + v[4..];
    if four + rest == four + v[4..] {
      assert rest == (four + rest)[4..] == (four + v[4..])[4..] == v[4..];
    }
  }

  // ---------- sextets and characters ----------

  function CharOf(alphabet: Alphabet, v: Sextet): char {
    Chars(alphabet)[v as int]
  }

  function ValueOf(alphabet: Alphabet, c: char): Sextet {
    match IndexOf(alphabet, c) case None => 0 case Some(n) => n as bv6
  }

  lemma ValueOfChar(alphabet: Alphabet, v: Sextet)
    ensures IndexOf(alphabet, CharOf(alphabet, v)) == Some(v as int) && ValueOf(alphabet, CharOf(alphabet, v)) == v
  {
    IndexIsPosition(alphabet, CharOf(alphabet, v), v as int);
  }

  lemma SextetOfInt(n: nat)
    requires n < 64
    ensures n as bv6 as int == n
  {
  }

  lemma CharOfValue(alphabet: Alphabet, c: char)
    requires IndexOf(alphabet, c).Some?
    ensures CharOf(alphabet, ValueOf(alphabet, c)) == c
  {
    SextetOfInt(IndexOf(alphabet, c).value);
    IndexIsPosition(alphabet, c, IndexOf(alphabet, c).value);
  }

  function Text(alphabet: Alphabet, v: seq<Sextet>): (s: string)
    ensures |s| == |v| && forall i :: 0 <= i < |s| ==> s[i] == CharOf(alphabet, v[i])
  {
    seq(|v|, i requires 0 <= i < |v| => CharOf(alphabet, v[i]))
  }

  function Values(alphabet: Alphabet, s: string): (v: seq<Sextet>)
    ensures |v| == |s| && forall i :: 0 <= i < |s| ==> v[i] == ValueOf(alphabet, s[i])
  {
    seq(|s|, i requires 0 <= i < |s| => ValueOf(alphabet, s[i]))
  }

  lemma ValuesOfText(alphabet: Alphabet, v: seq<Sextet>)
    ensures InAlphabet(alphabet, Text(alphabet, v)) && Values(alphabet, Text(alphabet, v)) == v
  {
    forall i | 0 <= i < |v|
      ensures IndexOf(alphabet, Text(alphabet, v)[i]).Some? && ValueOf(alphabet, Text(alphabet, v)[i]) == v[i] {
      ValueOfChar(alphabet, v[i]);
    }
  }

  lemma TextOfValues(alphabet: Alphabet, s: string)
    requires InAlphabet(alphabet, s)
    ensures Text(alphabet, Values(alphabet, s)) == s
  {
    forall i | 0 <= i < |s| ensures Text(alphabet, Values(alphabet, s))[i] == s[i] {
      CharOfValue(alphabet, s[i]);
    }
  }

  // ---------- encoding ----------

  /** The `=` after the last group, if that is for `left` bytes only. */
  function Padding(left: nat, alphabet: Alphabet): string {
    if alphabet.UrlSafe? || left == 0 then "" else if left == 2 then "=" else "=="
  }

  function Encode(bytes: seq<Byte>, alphabet: Alphabet): string {
    Text(alphabet, Sextets(bytes)) + Padding(|bytes| % 3, alphabet)
  }

  lemma TextOfConcat(alphabet: Alphabet, a: seq<Sextet>, b: seq<Sextet>)
    ensures Text(alphabet, a + b) == Text(alphabet, a) + Text(alphabet, b)
  {
  }

  function FrontSextets(bytes: seq<Byte>): seq<Sextet>
    requires |bytes| >= 3
  {
    var chunk := Chunk(bytes[0], bytes[1], bytes[2]);
    [Sextet0(chunk), Sextet1(chunk), Sextet2(chunk), Sextet3(chunk)]
  }

  lemma SextetsOfFront(bytes: seq<Byte>)
    requires |bytes| >= 3
    ensures Sextets(bytes) == FrontSextets(bytes) + Sextets(bytes[3..])
  {
  }

  lemma EncodeStep(front: seq<Sextet>, back: seq<Sextet>, alphabet: Alphabet, result: string)
    ensures (result + Text(alphabet, front)) + Text(alphabet, back) == result + Text(alphabet, front + back)
  {
    TextOfConcat(alphabet, front, back);
  }

  lemma LastGroup(n: nat, i: nat, groups: nat)
    requires i == 3 * groups && i <= n < i + 3
    ensures n % 3 == n - i
  {
  }

  method EncodeBase64(bytes: seq<Byte>, alphabet: Alphabet) returns (result: string)
    ensures result == Encode(bytes, alphabet)
  {
    result := "";
    var i := 0;
    ghost var groups, all := 0, Text(alphabet, Sextets(bytes));
    assert bytes[0..] == bytes;
    while i + 2 < |bytes|
      invariant i == 3 * groups && i <= |bytes|
      invariant result + Text(alphabet, Sextets(bytes[i..])) == all
    {
      var rest := bytes[i..];
      SextetsOfFront(rest);
      EncodeStep(FrontSextets(rest), Sextets(rest[3..]), alphabet, result);
      assert rest[3..] == bytes[i + 3..];
      result := result + Text(alphabet, FrontSextets(rest));
      i := i + 3;
      groups := groups + 1;
    }
    var tail := EncodeTail(bytes[i..], alphabet);
    LastGroup(|bytes|, i, groups);
    result := result + tail;
  }

  method EncodeTail(rest: seq<Byte>, alphabet: Alphabet) returns (result: string)
    requires |rest| < 3
    ensures result == Text(alphabet, Sextets(rest)) + Padding(|rest|, alphabet)
  {
    result := "";
    var remaining := |rest|;
    if remaining > 0 {
      var chunk := Chunk(rest[0], if remaining == 2 then rest[1] else 0, 0);
      result := result + Text(alphabet, [Sextet0(chunk), Sextet1(chunk)]);
      if remaining == 2 {
        result := result + Text(alphabet, [Sextet2(chunk)]);
      }
      assert result == Text(alphabet, Sextets(rest));
      if alphabet.Standard? {
        result := result + if remaining == 2 then "=" else "==";
      }
    }
  }

  // ---------- decoding ----------

  function Unpadded(input: string): (r: string)
    ensures |r| <= |input| <= |r| + 2 && r == input[..|r|]
  {
    if |input| >= 2 && input[|input| - 2] == '=' && input[|input| - 1] == '=' then input[..|input| - 2]
    else if |input| >= 1 && input[|input| - 1] == '=' then input[..|input| - 1]
    else input
  }

  /** Only characters of the alphabet, then at most two `=` for base64 and none for base64url. */
  predicate ValidInput(input: string, alphabet: Alphabet) {
    InAlphabet(alphabet, Unpadded(input)) && (alphabet.UrlSafe? ==> Unpadded(input) == input)
  }

  function Decode(input: string, alphabet: Alphabet): Outcome<seq<Byte>, DecodeError> {
    if !ValidInput(input, alphabet) then Err(InvalidCharacters)
    else if |Unpadded(input)| % 4 == 1 then Err(InvalidLength)
    else Ok(Bytes(Values(alphabet, Unpadded(input))))
  }

  /** The bytes of the group at the front, one less than its characters. */
  lemma FrontGroup(v: seq<Sextet>)
    requires |v| >= 2
    ensures var n := if |v| >= 4 then 4 else |v|;
            Bytes(v) == Bytes(v[..n]) + Bytes(v[n..]) && |Bytes(v[..n])| == n - 1
  {
    if |v| >= 4 {
      assert v[..4][4..] == [];
    } else {
      assert v[..|v|] == v;
    }
  }

  lemma {:induction false} BytesLength(v: seq<Sextet>, groups: nat, left: nat)
    requires |v| == 4 * groups + left && left < 4 && left != 1
    ensures |Bytes(v)| == 3 * groups + (if left == 0 then 0 else left - 1)
  {
    if groups > 0 {
      FrontGroup(v);
      BytesLength(v[4..], groups - 1, left);
    }
  }

  lemma BufferFits(v: seq<Sextet>)
    requires |v| % 4 != 1
    ensures |Bytes(v)| == |v| * 3 / 4
  {
    BytesLength(v, |v| / 4, |v| % 4);
  }

  lemma DecodeStep(rest: seq<Sextet>, done: seq<Byte>)
    requires |rest| >= 2
    ensures var n := if |rest| >= 4 then 4 else |rest|;
            && (done + Bytes(rest[..n])) + Bytes(rest[n..]) == done + Bytes(rest)
            && |Bytes(rest)| == n - 1 + |Bytes(rest[n..])|
  {
    FrontGroup(rest);
  }

  /** The buffer has room for exactly the bytes that are written. */
  method DecodeBase64(input: string, alphabet: Alphabet) returns (r: Outcome<seq<Byte>, DecodeError>)
    ensures r == Decode(input, alphabet)
  {
    if !ValidInput(input, alphabet) { return Err(InvalidCharacters); }
    var unpadded := Unpadded(input);
    if |unpadded| % 4 == 1 { return Err(InvalidLength); }
    var bytes := DecodeGroups(Values(alphabet, unpadded));
    r := Ok(bytes[..]);
  }

  method DecodeGroups(v: seq<Sextet>) returns (bytes: array<Byte>)
    requires |v| % 4 != 1
    ensures fresh(bytes) && bytes[..] == Bytes(v)
  {
    BufferFits(v);
    bytes := new Byte[|v| * 3 / 4];
    var byteIndex: nat := 0;
    var i := 0;
    ghost var groups, whole := 0, |v| / 4;
    assert v[0..] == v;
    while i < |v|
      invariant i == |v| || (i == 4 * groups && groups <= whole)
      invariant byteIndex + |Bytes(v[i..])| == bytes.Length
      invariant bytes[..byteIndex] + Bytes(v[i..]) == Bytes(v)
    {
      var rest := v[i..];
      var n := if |rest| >= 4 then 4 else |rest|;
      DecodeStep(rest, bytes[..byteIndex]);
      assert rest[n..] == v[i + n..];
      WriteGroup(bytes, byteIndex, rest[..n]);
      byteIndex := byteIndex + n - 1;
      i := i + n;
      groups := groups + 1;
    }
    assert Bytes(v[i..]) == [];
    assert bytes[..] == bytes[..byteIndex];
  }

  /** One round of the decoding loop: two to four characters give one byte less. */
  method WriteGroup(bytes: array<Byte>, at: nat, v: seq<Sextet>)
    requires 2 <= |v| <= 4 && at + |v| - 1 <= bytes.Length
    modifies bytes
    ensures bytes[..at + |v| - 1] == old(bytes[..at]) + Bytes(v)
  {
    var byteIndex := at;
    bytes[byteIndex] := Byte0(v[0], v[1]);
    byteIndex := byteIndex + 1;
    if 2 < |v| {
      bytes[byteIndex] := Byte1(v[1], v[2]);
      byteIndex := byteIndex + 1;
    }
    if 3 < |v| {
      bytes[byteIndex] := Byte2(v[2], v[3]);
      byteIndex := byteIndex + 1;
    }
    assert |v| == 4 ==> v[4..] == [];
  }

  // ---------- round trips ----------

  lemma {:induction false} SextetCount(bytes: seq<Byte>)
    ensures var n := |Sextets(bytes)| % 4;
            && (|bytes| % 3 == 0 <==> n == 0) && (|bytes| % 3 == 1 <==> n == 2) && (|bytes| % 3 == 2 <==> n == 3)
  {
    if |bytes| >= 3 {
      SextetCount(bytes[3..]);
    }
  }

  lemma UnpaddedText(alphabet: Alphabet, s: string, left: nat)
    requires InAlphabet(alphabet, s)
    ensures Unpadded(s + Padding(left, alphabet)) == s && ValidInput(s + Padding(left, alphabet), alphabet)
  {
    var all := s + Padding(left, alphabet);
    PaddingIsNoIndex(alphabet);
    assert s != "" ==> s[|s| - 1] != '=';
    assert |s| >= 2 ==> s[|s| - 2] != '=';
    assert all[..|s|] == s;
  }

  /** Decoding an encoding gives the bytes back, in both alphabets. */
  lemma DecodeOfEncode(bytes: seq<Byte>, alphabet: Alphabet)
    ensures Decode(Encode(bytes, alphabet), alphabet) == Ok(bytes)
  {
    BytesOfSextets(bytes);
    ValuesOfText(alphabet, Sextets(bytes));
    UnpaddedText(alphabet, Text(alphabet, Sextets(bytes)), |bytes| % 3);
  }

  /**
   * An accepted text is the encoding of what it decodes to if and only if the unused bits of its last character are
   * zero and, in base64, its padding is exact.
   */
  lemma EncodeOfDecode(input: string, alphabet: Alphabet)
    requires Decode(input, alphabet).Ok?
    ensures Encode(Decode(input, alphabet).value, alphabet) == input <==>
            UnusedBitsZero(Values(alphabet, Unpadded(input))) && (alphabet.Standard? ==> |input| % 4 == 0)
  {
    var u := Unpadded(input);
    var v := Values(alphabet, u);
    var text := Text(alphabet, Sextets(Bytes(v)));
    var left := |Bytes(v)| % 3;
    SextetsOfBytes(v);
    SextetCount(Bytes(v));
    TextOfValues(alphabet, u);
    ValuesOfText(alphabet, Sextets(Bytes(v)));
    assert Sextets(Bytes(v)) == v <==> text == u;
    PaddingIsExact(input, alphabet, left);
    UnpaddedText(alphabet, text, left);
  }

  lemma PaddingIsExact(input: string, alphabet: Alphabet, left: nat)
    requires ValidInput(input, alphabet) && left < 3
    requires |Unpadded(input)| % 4 == if left == 0 then 0 else left + 1
    ensures Unpadded(input) + Padding(left, alphabet) == input <==> (alphabet.Standard? ==> |input| % 4 == 0)
  {
    var u := Unpadded(input);
    var padding := input[|u|..];
    assert input == u + padding;
    assert padding == "" || padding == "=" || padding == "==";
    assert u + Padding(left, alphabet) == u + padding <==> Padding(left, alphabet) == padding by {
      assert (u + Padding(left, alphabet))[|u|..] == Padding(left, alphabet);
    }
    assert alphabet.Standard? ==> (Padding(left, alphabet) == padding <==> (|u| + |padding|) % 4 == 0);
  }
}
