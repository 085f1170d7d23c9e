/**
  Base64 as in section 4 of RFC 4648: the table-driven encoder and decoder, and the
  smaller decoder that must agree with it.
 */
module Base64 {
  import opened Bits

  newtype Byte = b: int | 0 <= b < 256
  type Sextet = s: int | 0 <= s < 64

  // ---------------------------------------------------------------------------
  // Alphabet and tables

  /** The alphabet of table 1 of RFC 4648. */
  function CharOf(i: Sextet): (c: char)
    ensures IsAlphabet(c) && IndexOf(c) == i
  {
    if i < 26 then ('A' as int + i) as char
    else if i < 52 then ('a' as int + i - 26) as char
    else if i < 62 then ('0' as int + i - 52) as char
    else if i == 62 then '+' else '/'
  }

  predicate IsAlphabet(c: char) {
    'A' <= c <= 'Z' || 'a' <= c <= 'z' || '0' <= c <= '9' || c == '+' || c == '/'
  }

  function IndexOf(c: char): Sextet
    requires IsAlphabet(c)
  {
    if 'A' <= c <= 'Z' then c as int - 'A' as int
    else if 'a' <= c <= 'z' then c as int - 'a' as int + 26
    else if '0' <= c <= '9' then c as int - '0' as int + 52
    else if c == '+' then 62 else 63
  }

  lemma CharOfIndex(c: char)
    requires IsAlphabet(c)
    ensures CharOf(IndexOf(c)) == c
  {
  }

  const UPPER: string := "ABCDEFGHIJKLMNOPQRSTUVWXYZ"
  const LOWER: string := "abcdefghijklmnopqrstuvwxyz"
  const NUMERALS: string := "0123456789"

  /** The 64 characters of table 1 of RFC 4648, in order. */
  const ALPHABET: string := UPPER + LOWER + NUMERALS + "+/"

  lemma UpperAt(i: nat)
    requires i < 26
    ensures |UPPER| == 26 && UPPER[i] == ('A' as int + i) as char
  {
  }

  lemma LowerAt(i: nat)
    requires i < 26
    ensures |LOWER| == 26 && LOWER[i] == ('a' as int + i) as char
  {
  }

  lemma NumeralAt(i: nat)
    requires i < 10
    ensures |NUMERALS| == 10 && NUMERALS[i] == ('0' as int + i) as char
  {
  }

  /** The character of index i stands at place i of the alphabet. */
  lemma CharOfIs(i: Sextet)
    ensures |ALPHABET| == 64 && CharOf(i) == ALPHABET[i]
  {
    UpperAt(0);
    LowerAt(0);
    NumeralAt(0);
    if i < 26 {
      UpperAt(i);
      assert ALPHABET[i] == UPPER[i];
    } else if i < 52 {
      LowerAt(i - 26);
      assert ALPHABET[i] == LOWER[i - 26];
    } else if i < 62 {
      NumeralAt(i - 52);
      assert ALPHABET[i] == NUMERALS[i - 52];
    }
  }

  /** The characters accepted are those of the alphabet, each read as its place. */
  lemma AlphabetIff(c: char)
    ensures IsAlphabet(c) <==> c in ALPHABET
    ensures IsAlphabet(c) ==> |ALPHABET| == 64 && ALPHABET[IndexOf(c)] == c
  {
    hide ALPHABET, UPPER, LOWER, NUMERALS;
    CharOfIs(0);
    if IsAlphabet(c) {
      CharOfIndex(c);
      CharOfIs(IndexOf(c));
      assert ALPHABET[IndexOf(c)] == c;
    }
    if c in ALPHABET {
      var i :| 0 <= i < |ALPHABET| && ALPHABET[i] == c;
      CharOfIs(i);
    }
  }

  const PADDING: char := '='
  const BAD_CHAR: nat := 0x01ff_ffff

  function EncodeTable0(t: Byte): char { CharOf(t as int / 4) }
  function EncodeTable1(t: int): char
    requires 0 <= t < 256
  {
    CharOf(t % 64)
  }

  /** The little-endian decode tables: where each sextet's bits go in the 32-bit word. */
  function DecodeTable0(c: char): nat { if IsAlphabet(c) then IndexOf(c) * 4 else BAD_CHAR }
  function DecodeTable1(c: char): nat {
    if IsAlphabet(c) then IndexOf(c) / 16 + IndexOf(c) % 16 * 0x1000 else BAD_CHAR
  }
  function DecodeTable2(c: char): nat {
    if IsAlphabet(c) then IndexOf(c) / 4 * 0x100 + IndexOf(c) % 4 * 0x40_0000 else BAD_CHAR
  }
  function DecodeTable3(c: char): nat { if IsAlphabet(c) then IndexOf(c) * 0x1_0000 else BAD_CHAR }

  // ---------------------------------------------------------------------------
  // Blocks

  /** The three bytes of four sextets, most significant bits first. */
  function Byte0(a: Sextet, b: Sextet): Byte { (a * 4 + b / 16) as Byte }
  function Byte1(b: Sextet, c: Sextet): Byte { (b % 16 * 16 + c / 4) as Byte }
  function Byte2(c: Sextet, d: Sextet): Byte { (c % 4 * 64 + d) as Byte }

  /** The four sextets of three bytes. */
  function Sextet0(x: Byte): Sextet { x as int / 4 }
  function Sextet1(x: Byte, y: Byte): Sextet { x as int % 4 * 16 + y as int / 16 }
  function Sextet2(y: Byte, z: Byte): Sextet { y as int % 16 * 4 + z as int / 64 }
  function Sextet3(z: Byte): Sextet { z as int % 64 }

  /** The 32-bit word that the decoder assembles. */
  function Word(d1: nat, d2: nat, d3: nat, d4: nat): nat { Or(Or(Or(d1, d2), d3), d4) }

  function WordByte0(w: nat): Byte { (w % 256) as Byte }
  function WordByte1(w: nat): Byte { (w / 256 % 256) as Byte }
  function WordByte2(w: nat): Byte { (w / 65536 % 256) as Byte }

  lemma OrOfBytes(x0: nat, x1: nat, x2: nat, y0: nat, y1: nat, y2: nat)
    requires x0 < 256 && x1 < 256 && y0 < 256 && y1 < 256
    ensures Or(x0 + 256 * x1 + 65536 * x2, y0 + 256 * y1 + 65536 * y2) == Or(x0, y0) + 256 * Or(x1, y1) + 65536 * Or(x2, y2)
  {
    hide Or;
    PowersOfTwo();
    OrSplits(x0, x1 + 256 * x2, y0, y1 + 256 * y2, 8);
    OrSplits(x1, x2, y1, y2, 8);
  }

  /** The word of sextets a, 16 * bh + bl, 4 * ch + cl and d. */
  lemma WordOfParts(a: Sextet, bh: nat, bl: nat, ch: nat, cl: nat, d: Sextet)
    requires bh < 4 && bl < 16 && ch < 16 && cl < 4
    ensures Word(a * 4, bh + bl * 0x1000, ch * 0x100 + cl * 0x40_0000, d * 0x1_0000)
         == (a * 4 + bh) + 256 * (bl * 16 + ch) + 65536 * (cl * 64 + d)
  {
    hide Or, Pow2;
    PowersOfTwo();
    var b0, b1 := a * 4 + bh, bl * 16 + ch;
    OrAdds(a, bh, 4, 2);
    OrZero(bl * 16);
    OrZero(0);
    OrOfBytes(a * 4, 0, 0, bh, bl * 16, 0);
    assert Or(a * 4, bh + bl * 0x1000) == b0 + 256 * (bl * 16);
    OrZero(b0);
    OrAdds(bl, ch, 16, 4);
    OrZero(cl * 64);
    OrOfBytes(b0, bl * 16, 0, 0, ch, cl * 64);
    assert Or(b0 + 256 * (bl * 16), ch * 0x100 + cl * 0x40_0000) == b0 + 256 * b1 + 65536 * (cl * 64);
    OrZero(b1);
    OrAdds(cl, d, 64, 6);
    OrOfBytes(b0, b1, cl * 64, 0, 0, d);
  }

  lemma WordOfSextets(a: Sextet, b: Sextet, c: Sextet, d: Sextet)
    ensures Word(a * 4, b / 16 + b % 16 * 0x1000, c / 4 * 0x100 + c % 4 * 0x40_0000, d * 0x1_0000)
         == Byte0(a, b) as int + 256 * Byte1(b, c) as int + 65536 * Byte2(c, d) as int
  {
    hide Word;
    WordOfParts(a, b / 16, b % 16, c / 4, c % 4, d);
  }

  lemma BytesOfWord(x: Byte, y: Byte, z: Byte, w: nat)
    requires w == x as int + 256 * y as int + 65536 * z as int
    ensures w < BAD_CHAR && WordByte0(w) == x && WordByte1(w) == y && WordByte2(w) == z
  {
  }

  lemma WordAtLeast(d1: nat, d2: nat, d3: nat, d4: nat)
    ensures var w := Word(d1, d2, d3, d4); w >= d1 && w >= d2 && w >= d3 && w >= d4
  {
    hide Or;
    OrAtLeast(d1, d2);
    OrAtLeast(Or(d1, d2), d3);
    OrAtLeast(Or(Or(d1, d2), d3), d4);
  }

  /** The word is below the bad-character mark exactly when every character is in the alphabet. */
  lemma WordOfChars(c1: char, c2: char, c3: char, c4: char)
    ensures var w := Word(DecodeTable0(c1), DecodeTable1(c2), DecodeTable2(c3), DecodeTable3(c4));
      if IsAlphabet(c1) && IsAlphabet(c2) && IsAlphabet(c3) && IsAlphabet(c4) then
        var a, b, c, d := IndexOf(c1), IndexOf(c2), IndexOf(c3), IndexOf(c4);
        w < BAD_CHAR && WordByte0(w) == Byte0(a, b) && WordByte1(w) == Byte1(b, c) && WordByte2(w) == Byte2(c, d)
      else w >= BAD_CHAR
  {
    hide Word, IndexOf, IsAlphabet, WordByte0, WordByte1, WordByte2, Byte0, Byte1, Byte2;
    var d1, d2, d3, d4 := DecodeTable0(c1), DecodeTable1(c2), DecodeTable2(c3), DecodeTable3(c4);
    if IsAlphabet(c1) && IsAlphabet(c2) && IsAlphabet(c3) && IsAlphabet(c4) {
      var a, b, c, d := IndexOf(c1), IndexOf(c2), IndexOf(c3), IndexOf(c4);
      WordOfSextets(a, b, c, d);
      BytesOfWord(Byte0(a, b), Byte1(b, c), Byte2(c, d), Word(d1, d2, d3, d4));
    } else {
      WordAtLeast(d1, d2, d3, d4);
    }
  }

  /** Decoding a block of sextets undoes encoding three bytes, and the other way round. */
  lemma BlockRoundTrip(x: Byte, y: Byte, z: Byte)
    ensures Byte0(Sextet0(x), Sextet1(x, y)) == x
    ensures Byte1(Sextet1(x, y), Sextet2(y, z)) == y
    ensures Byte2(Sextet2(y, z), Sextet3(z)) == z
  {
  }

  lemma SextetRoundTrip(a: Sextet, b: Sextet, c: Sextet, d: Sextet)
    ensures Sextet0(Byte0(a, b)) == a && Sextet1(Byte0(a, b), Byte1(b, c)) == b
    ensures Sextet2(Byte1(b, c), Byte2(c, d)) == c && Sextet3(Byte2(c, d)) == d
  {
  }
}
