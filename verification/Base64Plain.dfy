/**
  The smaller decoder: a 256-entry table filled on first use, four sextets summed into a
  24-bit triple, and two loops that emit its bytes.
 */
module Base64Plain {
  import opened Base64
  import opened Base64Codec
  import opened Base64Standard

  /** What the table holds once built on memory that held `garbage`. */
  function Table(garbage: seq<int>): (t: seq<int>)
    requires |garbage| == 256
    ensures |t| == 256
  {
    seq(256, k requires 0 <= k < 256 => if IsAlphabet(k as char) then IndexOf(k as char) else garbage[k])
  }

  method BuildDecodingTable(garbage: seq<int>) returns (table: array<int>)
    requires |garbage| == 256
    ensures fresh(table) && table[..] == Table(garbage)
  {
    table := new int[256](k requires 0 <= k < 256 => garbage[k]);
    for i := 0 to 64
      invariant forall k :: 0 <= k < 256 ==>
        table[k] == if IsAlphabet(k as char) && IndexOf(k as char) < i then IndexOf(k as char) else garbage[k]
    {
      AlphabetIsAscii(i);
      table[CharOf(i) as int] := i;
    }
    assert table[..] == Table(garbage);
  }

  lemma AlphabetIsAscii(i: Sextet)
    ensures CharOf(i) as int < 128
  {
  }

  // ---------------------------------------------------------------------------
  // What the loops emit, for every text

  predicate Ascii(s: string) { forall i :: 0 <= i < |s| ==> s[i] as int < 128 }

  function SextetOf(c: char, table: seq<int>): int
    requires |table| == 256 && c as int < 128
  {
    if c == PADDING then 0 else table[c as int]
  }

  /** The sum of the four shifted sextets, in 32-bit arithmetic. */
  function Triple(a: int, b: int, c: int, d: int): nat {
    (a * 0x4_0000 + b * 0x1000 + c * 0x40 + d) % 0x1_0000_0000
  }

  function TripleBytes(t: nat): (b: seq<Byte>)
    ensures |b| == 3
  {
    [WordByte2(t), WordByte1(t), WordByte0(t)]
  }

  function PlainBlock(s: string, table: seq<int>): (b: seq<Byte>)
    requires |s| == 4 && Ascii(s) && |table| == 256
    ensures |b| == 3
  {
    TripleBytes(Triple(SextetOf(s[0], table), SextetOf(s[1], table), SextetOf(s[2], table), SextetOf(s[3], table)))
  }

  function PlainBlocks(s: string, table: seq<int>): (b: seq<Byte>)
    requires |s| % 4 == 0 && Ascii(s) && |table| == 256
    ensures |b| == |s| / 4 * 3
  {
    if s == "" then [] else PlainBlock(s[..4], table) + PlainBlocks(s[4..], table)
  }

  /** Each of the last two characters that is a `=` takes one byte off the output. */
  function OutputLength(s: string): (n: nat)
    requires |s| % 4 == 0 && s != ""
    ensures |s| / 4 * 3 - 3 < n <= |s| / 4 * 3
  {
    |s| / 4 * 3 - (if s[|s| - 1] == PADDING then 1 else 0) - (if s[|s| - 2] == PADDING then 1 else 0)
  }

  ghost function Plain(s: string, garbage: seq<int>): seq<Byte>
    requires s != "" && Ascii(s) && |garbage| == 256
  {
    if |s| % 4 != 0 then [] else PlainBlocks(s, Table(garbage))[..OutputLength(s)]
  }

  // ---------------------------------------------------------------------------
  // On accepted text they emit its value

  lemma SumOfParts(a: Sextet, bh: nat, bl: nat, ch: nat, cl: nat, d: Sextet)
    requires bh < 4 && bl < 16 && ch < 16 && cl < 4
    ensures TripleBytes(Triple(a, bh * 16 + bl, ch * 4 + cl, d))
         == [(a * 4 + bh) as Byte, (bl * 16 + ch) as Byte, (cl * 64 + d) as Byte]
  {
    hide TripleBytes;
    var x, y, z := a * 4 + bh, bl * 16 + ch, cl * 64 + d;
    var t := z + 256 * y + 65536 * x;
    assert t < 0x1_0000_0000;
    Emits(z as Byte, y as Byte, x as Byte, t);
  }

  lemma Emits(z: Byte, y: Byte, x: Byte, t: nat)
    requires t == z as int + 256 * y as int + 65536 * x as int
    ensures TripleBytes(t) == [x, y, z]
  {
    hide WordByte0, WordByte1, WordByte2;
    BytesOfWord(z, y, x, t);
  }

  lemma SumOfSextets(a: Sextet, b: Sextet, c: Sextet, d: Sextet)
    ensures TripleBytes(Triple(a, b, c, d)) == [Byte0(a, b), Byte1(b, c), Byte2(c, d)]
  {
    hide TripleBytes, Triple;
    assert b == b / 16 * 16 + b % 16 && c == c / 4 * 4 + c % 4;
    SumOfParts(a, b / 16, b % 16, c / 4, c % 4, d);
  }

  lemma BlockAgrees(s: string, garbage: seq<int>)
    requires |s| == 4 && Ascii(s) && |garbage| == 256 && forall i :: 0 <= i < 4 ==> IsAlphabet(s[i]) || s[i] == PADDING
    ensures PlainBlock(s, Table(garbage)) == Block(s)
  {
    hide Triple, TripleBytes, Byte0, Byte1, Byte2, IndexOf;
    PaddingIsNotInAlphabet();
    forall i | 0 <= i < 4 ensures SextetOf(s[i], Table(garbage)) == Val(s[i]) {
      assert s[i] as int as char == s[i];
    }
    SumOfSextets(Val(s[0]), Val(s[1]), Val(s[2]), Val(s[3]));
  }

  lemma AcceptedChars(s: string)
    requires Accepted(s)
    ensures forall i :: 0 <= i < |s| ==> IsAlphabet(s[i]) || s[i] == PADDING
    ensures s != "" ==> OutputLength(s) == |s| / 4 * 3 - Padding(s)
  {
    hide IsAlphabet;
    PaddingIsNotInAlphabet();
    var n := |s| - Padding(s);
    forall i | 0 <= i < |s| ensures IsAlphabet(s[i]) || s[i] == PADDING {
      if i < n { assert IsAlphabet(s[..n][i]); }
    }
    if s != "" && s[|s| - 1] != PADDING { assert IsAlphabet(s[..n][|s| - 2]); }
  }

  lemma {:induction false} PlainIsValue(s: string, garbage: seq<int>)
    requires s != "" && Accepted(s) && Ascii(s) && |garbage| == 256
    ensures Plain(s, garbage) == Value(s)
  {
    hide Block, PlainBlock, IsAlphabet, Table;
    AcceptedChars(s);
    var t := s[4..];
    BlockAgrees(s[..4], garbage);
    if |s| == 4 {
      assert s[..4] == s && t == "";
    } else {
      AcceptedTail(s);
      PlainIsValue(t, garbage);
      AcceptedChars(t);
      PaddingOfTail(s);
    }
  }

  // ---------------------------------------------------------------------------
  // On any text they emit the bytes of the 32-bit sums

  /** What a character counts for: its place, nothing for `=`, and whatever the memory held for any other. */
  ghost function Entry(c: char, garbage: seq<int>): int
    requires |garbage| == 256 && c as int < 128
  {
    if c == '=' then 0 else if c in ALPHABET then PlaceOf(c) else garbage[c as int]
  }

  ghost function Sum32(s: string, garbage: seq<int>, i: nat): nat
    requires Ascii(s) && |garbage| == 256 && 4 * i + 4 <= |s|
  {
    (Entry(s[4 * i], garbage) * 0x4_0000 + Entry(s[4 * i + 1], garbage) * 0x1000
     + Entry(s[4 * i + 2], garbage) * 0x40 + Entry(s[4 * i + 3], garbage)) % 0x1_0000_0000
  }

  lemma EntryIs(c: char, garbage: seq<int>)
    requires |garbage| == 256 && c as int < 128
    ensures SextetOf(c, Table(garbage)) == Entry(c, garbage)
  {
    hide ALPHABET, IndexOf, IsAlphabet, PlaceOf;
    AlphabetIff(c);
    ValIs(c);
    assert c as int as char == c;
  }

  lemma PlainAt(s: string, garbage: seq<int>, i: nat, j: nat)
    requires s != "" && |s| % 4 == 0 && Ascii(s) && |garbage| == 256 && 4 * i + 4 <= |s| && j < 3
    ensures |Plain(s, garbage)| == 3 * (|s| / 4) - (if s[|s| - 1] == '=' then 1 else 0) - (if s[|s| - 2] == '=' then 1 else 0)
    ensures 3 * i + j < |Plain(s, garbage)| ==> Plain(s, garbage)[3 * i + j] as int == EightBits(Sum32(s, garbage, i), j)
  {
    hide PlainBlocks, Table, Entry, SextetOf, Triple;
    var table, t := Table(garbage), s[4 * i..4 * i + 4];
    BlockAt(s, table, i);
    EntryIs(s[4 * i], garbage);
    EntryIs(s[4 * i + 1], garbage);
    EntryIs(s[4 * i + 2], garbage);
    EntryIs(s[4 * i + 3], garbage);
    assert t[0] == s[4 * i] && t[1] == s[4 * i + 1] && t[2] == s[4 * i + 2] && t[3] == s[4 * i + 3];
    TripleIs(Entry(t[0], garbage), Entry(t[1], garbage), Entry(t[2], garbage), Entry(t[3], garbage));
  }

  lemma TripleIs(a: int, b: int, c: int, d: int)
    ensures Triple(a, b, c, d) == (a * 0x4_0000 + b * 0x1000 + c * 0x40 + d) % 0x1_0000_0000
  {
  }

  // ---------------------------------------------------------------------------
  // The two loops

  lemma BlocksUnfold(s: string, table: seq<int>)
    requires |s| >= 4 && |s| % 4 == 0 && Ascii(s) && |table| == 256
    ensures |s[4..]| % 4 == 0 && Ascii(s[..4]) && Ascii(s[4..])
    ensures PlainBlocks(s, table) == PlainBlock(s[..4], table) + PlainBlocks(s[4..], table)
  {
    hide PlainBlock;
  }

  /** The three bytes of the block at `4 * m`, where the whole output has them. */
  lemma {:induction false} BlockAt(s: string, table: seq<int>, m: nat)
    requires |s| % 4 == 0 && 4 * m + 4 <= |s| && Ascii(s) && |table| == 256
    ensures var out := PlainBlocks(s, table); var block := PlainBlock(s[4 * m..4 * m + 4], table);
      |out| >= 3 * m + 3 && out[3 * m] == block[0] && out[3 * m + 1] == block[1] && out[3 * m + 2] == block[2]
    decreases m
  {
    hide PlainBlock, PlainBlocks;
    BlocksUnfold(s, table);
    if m == 0 {
      assert s[0..4] == s[..4];
    } else {
      var t := s[4..];
      BlockAt(t, table, m - 1);
      assert t[4 * (m - 1)..4 * (m - 1) + 4] == s[4 * m..4 * m + 4];
    }
  }

  /** The bytes that the loops read off one block's triple. */
  method ReadBlock(s: string, table: array<int>, m: nat) returns (x: Byte, y: Byte, z: Byte)
    requires |s| % 4 == 0 && 4 * m + 4 <= |s| && Ascii(s) && table.Length == 256
    ensures var out := PlainBlocks(s, table[..]);
      |out| >= 3 * m + 3 && out[3 * m] == x && out[3 * m + 1] == y && out[3 * m + 2] == z
  {
    hide PlainBlocks, WordByte0, WordByte1, WordByte2, Triple;
    BlockAt(s, table[..], m);
    var i := 4 * m;
    var triple := Triple(if s[i] == PADDING then 0 else table[s[i] as int],
                         if s[i + 1] == PADDING then 0 else table[s[i + 1] as int],
                         if s[i + 2] == PADDING then 0 else table[s[i + 2] as int],
                         if s[i + 3] == PADDING then 0 else table[s[i + 3] as int]);
    x, y, z := WordByte2(triple), WordByte1(triple), WordByte0(triple);
  }

  lemma WholeBlocks(s: string)
    requires Accepted(s)
    ensures |s| % 4 == 0
  {
  }

  method DecodeToString(s: string, garbage: seq<int>) returns (r: seq<Byte>)
    requires s != "" && Ascii(s) && |garbage| == 256
    ensures r == Plain(s, garbage)
    ensures Accepted(s) ==> r == Value(s) && IsDecoding(s, r)
  {
    hide Value, PlainBlocks, Table, Accepted, OutputLength, IsDecoding;
    var table := BuildDecodingTable(garbage);
    if Accepted(s) { PlainIsValue(s, garbage); }
    if |s| % 4 == 0 { ValueIs(s); }
    if Accepted(s) { WholeBlocks(s); }
    if |s| % 4 != 0 {
      return [];
    }
    var outputLength := OutputLength(s);
    ghost var out := PlainBlocks(s, table[..]);
    r := [];
    var i, j, m := 0, 0, 0;
    while i < |s|
      invariant i == 4 * m && i <= |s| && j == 3 * m && |r| == (if j < outputLength then j else outputLength)
      invariant table[..] == Table(garbage) && forall k :: 0 <= k < |r| ==> r[k] == out[k]
    {
      var x, y, z := ReadBlock(s, table, m);
      if j < outputLength { r := r + [x]; }
      if j + 1 < outputLength { r := r + [y]; }
      if j + 2 < outputLength { r := r + [z]; }
      i, j, m := i + 4, j + 3, m + 1;
    }
  }

  method DecodeToBytes(s: string, garbage: seq<int>) returns (r: seq<Byte>)
    requires s != "" && Ascii(s) && |garbage| == 256
    ensures r == Plain(s, garbage)
    ensures Accepted(s) ==> r == Value(s) && IsDecoding(s, r)
  {
    hide Value, PlainBlocks, Table, Accepted, OutputLength, IsDecoding;
    var table := BuildDecodingTable(garbage);
    if Accepted(s) { PlainIsValue(s, garbage); }
    if |s| % 4 == 0 { ValueIs(s); }
    if Accepted(s) { WholeBlocks(s); }
    if |s| % 4 != 0 {
      return [];
    }
    var outputLength := OutputLength(s);
    ghost var out := PlainBlocks(s, table[..]);
    var decoded := new Byte[outputLength](_ => 0);
    var i, j, m := 0, 0, 0;
    while i < |s|
      invariant i == 4 * m && i <= |s| && j == (if 3 * m < outputLength then 3 * m else outputLength)
      invariant table[..] == Table(garbage) && forall k :: 0 <= k < j ==> decoded[k] == out[k]
    {
      var x, y, z := ReadBlock(s, table, m);
      if j < outputLength {
        decoded[j] := x;
        j := j + 1;
      }
      if j < outputLength {
        decoded[j] := y;
        j := j + 1;
      }
      if j < outputLength {
        decoded[j] := z;
        j := j + 1;
      }
      i, m := i + 4, m + 1;
    }
    r := decoded[..];
  }
}
