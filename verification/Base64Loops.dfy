/** The encoding and decoding loops, proved against the reading of Base64 text. */
module Base64Loops {
  import opened Base64
  import opened Bits
  import opened Base64Codec
  import opened Base64Standard

  // ---------------------------------------------------------------------------
  // The encoder

  /** The table indices for the second and third character of a block. */
  function Index1(t1: Byte, t2: Byte): nat { Or(t1 as int % 4 * 16, t2 as int / 16 % 16) }
  function Index2(t2: Byte, t3: Byte): nat { Or(t2 as int % 16 * 4, t3 as int / 64 % 4) }

  lemma IndicesAreSextets(t1: Byte, t2: Byte, t3: Byte)
    ensures Index1(t1, t2) == Sextet1(t1, t2) && Index2(t2, t3) == Sextet2(t2, t3)
  {
    hide Or, Pow2;
    PowersOfTwo();
    OrAdds(t1 as int % 4, t2 as int / 16 % 16, 16, 4);
    OrAdds(t2 as int % 16, t3 as int / 64 % 4, 4, 2);
  }

  /** What the tables hold for the three bytes of a block, and for one or two bytes left over. */
  lemma TablesAre(t1: Byte, t2: Byte, t3: Byte)
    ensures EncodeTable0(t1) == CharOf(Sextet0(t1)) && EncodeTable1(t3 as int) == CharOf(Sextet3(t3))
    ensures Index1(t1, t2) < 64 && EncodeTable1(Index1(t1, t2)) == CharOf(Sextet1(t1, t2))
    ensures Index2(t2, t3) < 64 && EncodeTable1(Index2(t2, t3)) == CharOf(Sextet2(t2, t3))
  {
    hide CharOf, Index1, Index2;
    IndicesAreSextets(t1, t2, t3);
    SmallIndex(Sextet1(t1, t2));
    SmallIndex(Sextet2(t2, t3));
  }

  lemma SmallIndex(i: Sextet)
    ensures EncodeTable1(i) == CharOf(i)
  {
    hide CharOf;
  }

  lemma LastIndices(t1: Byte, t2: Byte)
    ensures t1 as int % 4 * 16 == Sextet1(t1, 0) && t2 as int % 16 * 4 == Sextet2(t2, 0)
  {
  }

  lemma EncodeStep(bytes: seq<Byte>, b: nat)
    requires b + 3 <= |bytes|
    ensures Encode(bytes[b..]) == Block3(bytes[b], bytes[b + 1], bytes[b + 2]) + Encode(bytes[b + 3..])
  {
    hide Block3, Block2, Block1;
    assert bytes[b..][3..] == bytes[b + 3..];
  }

  /** The characters that three bytes are written as. */
  method PutBlock(encoded: array<char>, cur: nat, t1: Byte, t2: Byte, t3: Byte)
    requires cur + 4 <= encoded.Length
    modifies encoded
    ensures encoded[..cur + 4] == old(encoded[..cur]) + Block3(t1, t2, t3)
    ensures encoded[cur + 4..] == old(encoded[cur + 4..])
  {
    hide CharOf, Index1, Index2, Sextet0, Sextet1, Sextet2, Sextet3, EncodeTable0, EncodeTable1;
    TablesAre(t1, t2, t3);
    encoded[cur] := EncodeTable0(t1);
    encoded[cur + 1] := EncodeTable1(Index1(t1, t2));
    encoded[cur + 2] := EncodeTable1(Index2(t2, t3));
    encoded[cur + 3] := EncodeTable1(t3 as int);
  }

  /** The `switch` for one or two bytes left over; the buffer already holds padding. */
  method PutRest(encoded: array<char>, cur: nat, rest: seq<Byte>)
    requires 0 < |rest| < 3 && cur + 4 == encoded.Length && forall k :: cur <= k < encoded.Length ==> encoded[k] == PADDING
    modifies encoded
    ensures encoded[..] == old(encoded[..cur]) + Encode(rest)
  {
    hide CharOf, Index1, Index2, Sextet0, Sextet1, Sextet2, Sextet3, EncodeTable0, EncodeTable1;
    var t1 := rest[0];
    encoded[cur] := EncodeTable0(t1);
    if |rest| == 1 {
      TablesAre(t1, 0, 0);
      LastIndices(t1, 0);
      SmallIndex(Sextet1(t1, 0));
      encoded[cur + 1] := EncodeTable1(t1 as int % 4 * 16);
    } else {
      var t2 := rest[1];
      TablesAre(t1, t2, 0);
      LastIndices(t1, t2);
      SmallIndex(Sextet2(t2, 0));
      encoded[cur + 1] := EncodeTable1(Index1(t1, t2));
      encoded[cur + 2] := EncodeTable1(t2 as int % 16 * 4);
    }
  }

  method EncodeInto(bytes: seq<Byte>) returns (r: string)
    ensures r == Encode(bytes) && IsEncoding(bytes, r)
  {
    hide Encode, Block3, IsEncoding;
    var size := |bytes|;
    var blocks := size / 3;
    var encodedSize := (blocks + if size % 3 > 0 then 1 else 0) * 4;
    var encoded := new char[encodedSize](_ => PADDING);
    var b, cur := 0, 0;
    assert encoded[..0] + Encode(bytes[0..]) == Encode(bytes);
    var i := blocks;
    while i > 0
      invariant 0 <= i <= blocks && b == 3 * (blocks - i) && cur == 4 * (blocks - i)
      invariant encoded[..cur] + Encode(bytes[b..]) == Encode(bytes)
      invariant forall k :: cur <= k < encodedSize ==> encoded[k] == PADDING
    {
      EncodeStep(bytes, b);
      ghost var tail := encoded[cur + 4..];
      PutBlock(encoded, cur, bytes[b], bytes[b + 1], bytes[b + 2]);
      assert forall k :: cur + 4 <= k < encodedSize ==> encoded[k] == tail[k - cur - 4];
      b, cur, i := b + 3, cur + 4, i - 1;
    }
    if size % 3 > 0 {
      PutRest(encoded, cur, bytes[b..]);
    } else {
      EncodeEnd(bytes[b..]);
    }
    r := encoded[..];
    EncodeIs(bytes);
  }

  lemma EncodeEnd(rest: seq<Byte>)
    requires |rest| == 0
    ensures Encode(rest) == ""
  {
  }

  // ---------------------------------------------------------------------------
  // The table-driven decoder

  function CountPadding(s: string): nat {
    if s == "" then 0 else CountPadding(s[..|s| - 1]) + if s[|s| - 1] == PADDING then 1 else 0
  }

  lemma CountOfFour(s: string)
    requires |s| == 4
    ensures CountPadding(s) == (if s[0] == PADDING then 1 else 0) + (if s[1] == PADDING then 1 else 0)
                             + (if s[2] == PADDING then 1 else 0) + (if s[3] == PADDING then 1 else 0)
  {
    assert s[..3][..2] == s[..2] && s[..2][..1] == s[..1] && s[..1][..0] == "";
    assert CountPadding(s[..1]) == if s[0] == PADDING then 1 else 0;
    assert CountPadding(s[..2]) == CountPadding(s[..1]) + if s[1] == PADDING then 1 else 0;
    assert CountPadding(s[..3]) == CountPadding(s[..2]) + if s[2] == PADDING then 1 else 0;
  }

  /** One full block; None when a character is not in the alphabet. */
  function DecodeBlock(s: string): (r: Result<seq<Byte>>)
    requires |s| == 4
  {
    var w := Word(DecodeTable0(s[0]), DecodeTable1(s[1]), DecodeTable2(s[2]), DecodeTable3(s[3]));
    if w >= BAD_CHAR then Err(InvalidCharacter) else Ok([WordByte0(w), WordByte1(w), WordByte2(w)])
  }

  lemma DecodeBlockReads(s: string)
    requires |s| == 4
    ensures DecodeBlock(s) == if AllAlphabet(s) then Ok(Block(s)) else Err(InvalidCharacter)
  {
    hide Word, DecodeTable0, DecodeTable1, DecodeTable2, DecodeTable3, IndexOf, IsAlphabet, WordByte0, WordByte1, WordByte2, Byte0, Byte1, Byte2;
    WordOfChars(s[0], s[1], s[2], s[3]);
    assert AllAlphabet(s) <==> IsAlphabet(s[0]) && IsAlphabet(s[1]) && IsAlphabet(s[2]) && IsAlphabet(s[3]);
  }

  /** The last block when it ends in one padding character: two bytes from three characters. */
  function DecodeThree(s: string): (r: Result<seq<Byte>>)
    requires |s| == 4
  {
    var w := Or(Or(DecodeTable0(s[0]), DecodeTable1(s[1])), DecodeTable2(s[2]));
    if w >= BAD_CHAR then Err(InvalidCharacter) else Ok([WordByte0(w), WordByte1(w)])
  }

  /** ... in two padding characters: one byte from two characters. */
  function DecodeTwo(s: string): (r: Result<seq<Byte>>)
    requires |s| == 4
  {
    var w := Or(DecodeTable0(s[0]), DecodeTable1(s[1]));
    if w >= BAD_CHAR then Err(InvalidCharacter) else Ok([WordByte0(w)])
  }

  /** Leaving a table out is the same as looking up `A`, the character of the zero sextet. */
  lemma MissingIsA(d1: nat, d2: nat, d3: nat)
    ensures Word(d1, d2, d3, DecodeTable3('A')) == Or(Or(d1, d2), d3)
    ensures Word(d1, d2, DecodeTable2('A'), DecodeTable3('A')) == Or(d1, d2)
  {
    hide Or;
    OrZero(Or(Or(d1, d2), d3));
    OrZero(Or(d1, d2));
  }

  lemma DecodeThreeReads(s: string)
    requires |s| == 4
    ensures DecodeThree(s).Ok? <==> AllAlphabet(s[..3])
    ensures DecodeThree(s).Ok? && s[3] == PADDING ==> DecodeThree(s).value == Block(s)[..2]
  {
    hide Word, Or, DecodeTable0, DecodeTable1, DecodeTable2, DecodeTable3, IndexOf, IsAlphabet, WordByte0, WordByte1, WordByte2, Byte0, Byte1, Byte2;
    MissingIsA(DecodeTable0(s[0]), DecodeTable1(s[1]), DecodeTable2(s[2]));
    WordOfChars(s[0], s[1], s[2], 'A');
    LetterA();
    assert AllAlphabet(s[..3]) <==> IsAlphabet(s[0]) && IsAlphabet(s[1]) && IsAlphabet(s[2]) by {
      assert s[..3][0] == s[0] && s[..3][1] == s[1] && s[..3][2] == s[2];
    }
  }

  lemma DecodeTwoReads(s: string)
    requires |s| == 4
    ensures DecodeTwo(s).Ok? <==> AllAlphabet(s[..2])
    ensures DecodeTwo(s).Ok? && s[2] == s[3] == PADDING ==> DecodeTwo(s).value == Block(s)[..1]
  {
    hide Word, Or, DecodeTable0, DecodeTable1, DecodeTable2, DecodeTable3, IndexOf, IsAlphabet, WordByte0, WordByte1, WordByte2, Byte0, Byte1, Byte2;
    MissingIsA(DecodeTable0(s[0]), DecodeTable1(s[1]), 0);
    WordOfChars(s[0], s[1], 'A', 'A');
    LetterA();
    assert AllAlphabet(s[..2]) <==> IsAlphabet(s[0]) && IsAlphabet(s[1]) by {
      assert s[..2][0] == s[0] && s[..2][1] == s[1];
    }
  }

  lemma LetterA()
    ensures IsAlphabet('A') && IndexOf('A') == 0 && !IsAlphabet(PADDING)
  {
  }

  lemma ValueStep(s: string, b: nat)
    requires b + 4 <= |s| && (b + 4 == |s| ==> Padding(s) == 0)
    ensures Value(s[b..]) == Block(s[b..b + 4]) + Value(s[b + 4..])
  {
    hide Block;
    var t := s[b..];
    if b + 4 == |s| {
      assert t == s[b..b + 4] && Padding(t) == 0;
      assert Value(s[b + 4..]) == [];
    } else {
      assert t[..4] == s[b..b + 4] && t[4..] == s[b + 4..];
    }
  }

  /** How the padding count of the last four characters relates to what is accepted. */
  lemma AcceptedByLastBlock(s: string)
    requires |s| >= 4 && |s| % 4 == 0
    ensures var n := |s| - 4; var last := s[n..]; var pads := CountPadding(last);
      && (pads == 0 ==> Padding(s) == 0 && (Accepted(s) <==> AllAlphabet(s)))
      && (pads == 1 ==> (Accepted(s) <==> AllAlphabet(s[..n]) && AllAlphabet(last[..3])))
      && (pads == 2 ==> (Accepted(s) <==> AllAlphabet(s[..n]) && AllAlphabet(last[..2])))
      && (pads > 2 ==> !Accepted(s))
      && (pads == 1 && AllAlphabet(last[..3]) ==> last[3] == PADDING && Padding(s) == 1)
      && (pads == 2 && AllAlphabet(last[..2]) ==> last[2] == last[3] == PADDING && Padding(s) == 2)
  {
    hide IsAlphabet, CountPadding;
    var n := |s| - 4;
    var last := s[n..];
    CountOfFour(last);
    LetterA();
    assert last[0] == s[n] && last[1] == s[n + 1] && last[2] == s[n + 2] && last[3] == s[n + 3];
    AlphabetParts(s, n, |s| - Padding(s));
    assert s[..|s|] == s;
    assert AllAlphabet(last[..2]) <==> IsAlphabet(s[n]) && IsAlphabet(s[n + 1]);
    assert AllAlphabet(last[..3]) <==> IsAlphabet(s[n]) && IsAlphabet(s[n + 1]) && IsAlphabet(s[n + 2]);
  }

  lemma AlphabetParts(s: string, n: nat, m: nat)
    requires n <= m <= |s|
    ensures AllAlphabet(s[..m]) <==> AllAlphabet(s[..n]) && forall i :: n <= i < m ==> IsAlphabet(s[i])
  {
    hide IsAlphabet;
    assert forall i :: 0 <= i < m ==> s[..m][i] == s[i];
    assert forall i :: 0 <= i < n ==> s[..n][i] == s[i];
    if AllAlphabet(s[..m]) {
      forall i | 0 <= i < n ensures IsAlphabet(s[..n][i]) { assert IsAlphabet(s[..m][i]); }
      forall i | n <= i < m ensures IsAlphabet(s[i]) { assert IsAlphabet(s[..m][i]); }
    }
    if AllAlphabet(s[..n]) && forall i :: n <= i < m ==> IsAlphabet(s[i]) {
      forall i | 0 <= i < m ensures IsAlphabet(s[..m][i]) { if i < n { assert IsAlphabet(s[..n][i]); } }
    }
  }

  /** The decoder's loop over full blocks: the bytes written, or None at the first bad character. */
  method DecodeBlocks(s: string, decoded: array<Byte>, blocks: nat) returns (ok: bool)
    requires 4 * blocks <= |s| && 3 * blocks <= decoded.Length && (4 * blocks == |s| ==> Padding(s) == 0)
    modifies decoded
    ensures ok <==> AllAlphabet(s[..4 * blocks])
    ensures ok ==> decoded[..3 * blocks] + Value(s[4 * blocks..]) == Value(s)
  {
    hide Value, Block, DecodeBlock, Padding, IsAlphabet;
    var b, cur, i := 0, 0, blocks;
    assert decoded[..0] + Value(s[0..]) == Value(s);
    while i > 0
      invariant 0 <= i <= blocks && b == 4 * (blocks - i) && cur == 3 * (blocks - i)
      invariant AllAlphabet(s[..b]) && decoded[..cur] + Value(s[b..]) == Value(s)
    {
      var block := DecodeBlock(s[b..b + 4]);
      DecodeBlockReads(s[b..b + 4]);
      AlphabetParts(s, b, b + 4);
      if block.Err? {
        AlphabetParts(s, b + 4, 4 * blocks);
        return false;
      }
      ValueStep(s, b);
      ghost var before := decoded[..cur];
      decoded[cur], decoded[cur + 1], decoded[cur + 2] := block.value[0], block.value[1], block.value[2];
      assert decoded[..cur + 3] == before + block.value;
      b, cur, i := b + 4, cur + 3, i - 1;
    }
    return true;
  }

  method DecodeInto(s: string) returns (r: Result<seq<Byte>>)
    ensures (r.Ok? <==> Accepted(s)) && (Accepted(s) <==> IsText(s))
    ensures r.Ok? ==> r.value == Value(s) && IsDecoding(s, r.value)
    ensures r.Err? ==> r.error == (if |s| % 4 != 0 then SizeNotDivisibleBy4
                                   else if CountPadding(s[|s| - 4..]) > 2 then TooMuchPadding else InvalidCharacter)
  {
    hide Value, Block, Padding, AllAlphabet, CountPadding, DecodeThree, DecodeTwo, IsText, IsDecoding;
    AcceptedIs(s);
    if |s| % 4 == 0 { ValueIs(s); }
    if s == "" {
      NothingAccepted();
      return Ok([]);
    }
    if |s| % 4 != 0 {
      return Err(SizeNotDivisibleBy4);
    }
    var n := |s| - 4;
    var last := s[n..];
    var numPadding := CountPadding(last);
    AcceptedByLastBlock(s);
    if numPadding > 2 {
      return Err(TooMuchPadding);
    }
    var decodedSize := |s| * 3 / 4 - numPadding;
    var decoded := new Byte[decodedSize](_ => 46);
    var blocks := |s| / 4 - if numPadding != 0 then 1 else 0;
    var ok := DecodeBlocks(s, decoded, blocks);
    assert s[..|s|] == s && 4 * (|s| / 4) == |s|;
    if !ok {
      return Err(InvalidCharacter);
    }
    if numPadding == 0 {
      EmptyTail(s);
      assert decoded[..3 * blocks] == decoded[..];
    } else if numPadding == 1 {
      var two := DecodeThree(last);
      DecodeThreeReads(last);
      if two.Err? {
        return Err(InvalidCharacter);
      }
      LastValue(s);
      ghost var before := decoded[..3 * blocks];
      decoded[3 * blocks], decoded[3 * blocks + 1] := two.value[0], two.value[1];
      assert decoded[..] == before + two.value;
    } else {
      var one := DecodeTwo(last);
      DecodeTwoReads(last);
      if one.Err? {
        return Err(InvalidCharacter);
      }
      LastValue(s);
      ghost var before := decoded[..3 * blocks];
      decoded[3 * blocks] := one.value[0];
      assert decoded[..] == before + one.value;
    }
    r := Ok(decoded[..]);
  }

  lemma NothingAccepted()
    ensures Accepted("") && Value("") == []
  {
  }

  lemma EmptyTail(s: string)
    ensures Value(s[|s|..]) == []
  {
  }

  lemma LastValue(s: string)
    requires |s| >= 4
    ensures Value(s[|s| - 4..]) == Block(s[|s| - 4..])[..3 - Padding(s)]
  {
    hide Block;
    assert Padding(s[|s| - 4..]) == Padding(s);
  }
}
