/**
  Whole strings: the encoder and the two decoders, against one reading of Base64 text.
 */
module Base64Codec {
  import opened Base64

  datatype DecodeError = SizeNotDivisibleBy4 | TooMuchPadding | InvalidCharacter
  datatype Result<+T> = Ok(value: T) | Err(error: DecodeError)

  // ---------------------------------------------------------------------------
  // What the text means

  function Block3(x: Byte, y: Byte, z: Byte): (s: string)
    ensures |s| == 4
  {
    [CharOf(Sextet0(x)), CharOf(Sextet1(x, y)), CharOf(Sextet2(y, z)), CharOf(Sextet3(z))]
  }

  function Block2(x: Byte, y: Byte): (s: string)
    ensures |s| == 4
  {
    [CharOf(Sextet0(x)), CharOf(Sextet1(x, y)), CharOf(Sextet2(y, 0)), PADDING]
  }

  function Block1(x: Byte): (s: string)
    ensures |s| == 4
  {
    [CharOf(Sextet0(x)), CharOf(Sextet1(x, 0)), PADDING, PADDING]
  }

  function Encode(b: seq<Byte>): string {
    if |b| == 0 then ""
    else if |b| == 1 then Block1(b[0])
    else if |b| == 2 then Block2(b[0], b[1])
    else Block3(b[0], b[1], b[2]) + Encode(b[3..])
  }

  /** The number of padding characters at the end, at most two. */
  function Padding(s: string): (p: nat)
    ensures p <= 2 && p <= |s|
  {
    if |s| > 0 && s[|s| - 1] == PADDING then (if |s| > 1 && s[|s| - 2] == PADDING then 2 else 1) else 0
  }

  ghost predicate AllAlphabet(s: string) {
    forall i :: 0 <= i < |s| ==> IsAlphabet(s[i])
  }

  /** A multiple of four characters, all in the alphabet but for one or two `=` at the end. */
  ghost predicate Accepted(s: string) {
    |s| % 4 == 0 && AllAlphabet(s[..|s| - Padding(s)])
  }

  function Val(c: char): Sextet { if IsAlphabet(c) then IndexOf(c) else 0 }

  function Block(s: string): (b: seq<Byte>)
    requires |s| == 4
    ensures |b| == 3
  {
    [Byte0(Val(s[0]), Val(s[1])), Byte1(Val(s[1]), Val(s[2])), Byte2(Val(s[2]), Val(s[3]))]
  }

  /** The bytes that a text stands for. */
  function Value(s: string): seq<Byte> {
    if |s| < 4 then []
    else if |s| == 4 then Block(s)[..3 - Padding(s)]
    else Block(s[..4]) + Value(s[4..])
  }

  /** The bits that padding leaves over are zero, as section 3.5 of RFC 4648 asks. */
  ghost predicate Canonical(s: string)
    requires Accepted(s)
  {
    var n := |s|;
    && (Padding(s) == 1 ==> Val(s[n - 2]) % 4 == 0)
    && (Padding(s) == 2 ==> n > 2 && Val(s[n - 3]) % 16 == 0)
  }

  lemma PaddingOfTail(s: string)
    requires |s| > 5
    ensures Padding(s[4..]) == Padding(s)
  {
  }

  lemma AcceptedTail(s: string)
    requires |s| > 4 && |s| % 4 == 0
    ensures Accepted(s) <==> AllAlphabet(s[..4]) && Accepted(s[4..])
  {
    PaddingOfTail(s);
    var p, t := Padding(s), s[4..];
    var n := |s| - p;
    assert t[..|t| - p] == s[4..n];
    if AllAlphabet(s[..4]) && AllAlphabet(s[4..n]) {
      forall i | 0 <= i < n ensures IsAlphabet(s[..n][i]) {
        if i < 4 { assert s[..4][i] == s[i]; } else { assert s[4..n][i - 4] == s[i]; }
      }
    }
    if AllAlphabet(s[..n]) {
      forall i | 0 <= i < 4 ensures IsAlphabet(s[..4][i]) { assert s[..n][i] == s[i]; }
      forall i | 0 <= i < n - 4 ensures IsAlphabet(s[4..n][i]) { assert s[..n][i + 4] == s[i + 4]; }
    }
  }

  lemma FullBlock(x: Byte, y: Byte, z: Byte)
    ensures var s := Block3(x, y, z); AllAlphabet(s) && Padding(s) == 0 && Accepted(s) && Block(s) == [x, y, z]
  {
    hide CharOf, IndexOf, IsAlphabet, Byte0, Byte1, Byte2, Sextet0, Sextet1, Sextet2, Sextet3;
    BlockRoundTrip(x, y, z);
    PaddingIsNotInAlphabet();
    var s := Block3(x, y, z);
    assert AllAlphabet(s) && s[..4] == s;
  }

  lemma PaddingIsNotInAlphabet()
    ensures !IsAlphabet(PADDING)
  {
  }

  lemma ShortBlock2(x: Byte, y: Byte)
    ensures var s := Block2(x, y); Padding(s) == 1 && Accepted(s) && Value(s) == [x, y]
  {
    hide CharOf, IndexOf, IsAlphabet, Byte0, Byte1, Byte2, Sextet0, Sextet1, Sextet2, Sextet3;
    BlockRoundTrip(x, y, 0);
    PaddingIsNotInAlphabet();
    assert Block(Block2(x, y))[..2] == [x, y];
  }

  lemma ShortBlock1(x: Byte)
    ensures var s := Block1(x); Padding(s) == 2 && Accepted(s) && Value(s) == [x]
  {
    hide CharOf, IndexOf, IsAlphabet, Byte0, Byte1, Byte2, Sextet0, Sextet1, Sextet2, Sextet3;
    BlockRoundTrip(x, 0, 0);
    PaddingIsNotInAlphabet();
    assert Block(Block1(x))[..1] == [x];
  }

  lemma {:induction false} EncodeLength(b: seq<Byte>)
    ensures |Encode(b)| == 4 * ((|b| + 2) / 3)
    ensures Padding(Encode(b)) == (3 - |b| % 3) % 3
  {
    hide Padding, Encode;
    EncodeBlocks(b);
    MissingIs(|b|);
  }

  /** The number of blocks that n bytes take, and the bytes missing in the last. */
  function Blocks(n: nat): nat { (n + 2) / 3 }

  function Missing(n: nat): nat { 3 * Blocks(n) - n }

  lemma BlocksAre(n: nat)
    ensures n < 3 ==> Blocks(n) == if n == 0 then 0 else 1
    ensures n >= 3 ==> Blocks(n) == Blocks(n - 3) + 1
    ensures n > 0 ==> Blocks(n) > 0
  {
  }

  lemma MissingIs(n: nat)
    ensures Missing(n) == (3 - n % 3) % 3
  {
    var r := n % 3;
    assert r == 0 || r == 1 || r == 2;
  }

  lemma {:induction false} EncodeBlocks(b: seq<Byte>)
    ensures |Encode(b)| == 4 * Blocks(|b|) && Padding(Encode(b)) == Missing(|b|)
  {
    hide Block3, Block2, Block1, Padding, Encode, Blocks, Accepted, Value;
    EncodeUnfolds(b);
    BlocksAre(|b|);
    if |b| > 3 { BlocksAre(|b| - 3); }
    if |b| == 0 {
      NoPadding();
    } else if |b| == 1 {
      ShortBlock1(b[0]);
    } else if |b| == 2 {
      ShortBlock2(b[0], b[1]);
    } else {
      var head, tail := Block3(b[0], b[1], b[2]), Encode(b[3..]);
      EncodeBlocks(b[3..]);
      if |b| == 3 {
        FullBlock(b[0], b[1], b[2]);
        assert head + tail == head;
      } else {
        assert (head + tail)[4..] == tail;
        PaddingOfTail(head + tail);
      }
    }
  }

  lemma EncodeUnfolds(b: seq<Byte>)
    ensures Encode(b) ==
      if |b| == 0 then "" else if |b| == 1 then Block1(b[0]) else if |b| == 2 then Block2(b[0], b[1])
      else Block3(b[0], b[1], b[2]) + Encode(b[3..])
  {
  }

  lemma NoPadding()
    ensures Padding("") == 0
  {
  }

  /** Encoding then decoding gives the bytes back, for every byte sequence. */
  lemma {:induction false} RoundTrip(b: seq<Byte>)
    ensures Accepted(Encode(b)) && Value(Encode(b)) == b
  {
    hide Block3, Block2, Block1, Padding, Block, AllAlphabet, Encode, Blocks;
    EncodeUnfolds(b);
    if |b| == 0 {
      NoPadding();
      assert AllAlphabet("") by { NothingToRead(); }
    } else if |b| == 1 {
      ShortBlock1(b[0]);
    } else if |b| == 2 {
      ShortBlock2(b[0], b[1]);
    } else {
      var head, tail := Block3(b[0], b[1], b[2]), Encode(b[3..]);
      FullBlock(b[0], b[1], b[2]);
      RoundTrip(b[3..]);
      EncodeBlocks(b[3..]);
      BlocksAre(|b| - 3);
      assert b == [b[0], b[1], b[2]] + b[3..];
      if |b| == 3 {
        assert head + tail == head && Value(head) == Block(head)[..3];
      } else {
        Prepended(head, tail);
      }
    }
  }

  /** A full block before an accepted text. */
  lemma Prepended(head: string, tail: string)
    requires |head| == 4 && AllAlphabet(head) && |tail| > 0 && Accepted(tail)
    ensures Accepted(head + tail) && Value(head + tail) == Block(head) + Value(tail)
  {
    hide Block, AllAlphabet, Padding;
    var s := head + tail;
    assert s[..4] == head && s[4..] == tail;
    AcceptedTail(s);
  }

  lemma NothingToRead()
    ensures AllAlphabet("")
  {
  }

  // ---------------------------------------------------------------------------
  // Canonical text

  lemma TrailingBits(a: Sextet, b: Sextet, c: Sextet)
    ensures Sextet2(Byte1(b, c), 0) == c - c % 4 && Sextet1(Byte0(a, b), 0) == b - b % 16
  {
    LowFour(b % 16, c / 4);
    LowTwo(a, b / 16);
  }

  lemma LowFour(hi: nat, lo: nat)
    requires lo < 16
    ensures (hi * 16 + lo) % 16 == lo
  {
  }

  lemma LowTwo(hi: nat, lo: nat)
    requires lo < 4
    ensures (hi * 4 + lo) % 4 == lo
  {
  }

  lemma LastFull(s: string)
    requires |s| == 4 && AllAlphabet(s) && Padding(s) == 0
    ensures Encode(Value(s)) == s
  {
    hide CharOf, IndexOf, IsAlphabet, Byte0, Byte1, Byte2, Sextet0, Sextet1, Sextet2, Sextet3;
    CharsBack(s, 4);
    SextetRoundTrip(Val(s[0]), Val(s[1]), Val(s[2]), Val(s[3]));
    var v := Value(s);
    assert v == Block(s) && Encode(v[3..]) == "";
    assert Encode(v) == Block3(v[0], v[1], v[2]);
  }

  lemma LastOne(s: string)
    requires |s| == 4 && AllAlphabet(s[..3]) && s[3] == PADDING && s[2] != PADDING
    ensures Encode(Value(s)) == s <==> Val(s[2]) % 4 == 0
  {
    hide CharOf, IndexOf, IsAlphabet, Byte0, Byte1, Byte2, Sextet0, Sextet1, Sextet2, Sextet3;
    var a, b, c := Val(s[0]), Val(s[1]), Val(s[2]);
    CharsBack(s[..3], 3);
    assert s[..3][0] == s[0] && s[..3][1] == s[1] && s[..3][2] == s[2];
    SextetRoundTrip(a, b, c, 0);
    TrailingBits(a, b, c);
    CharsDiffer(c - c % 4, c);
    var v := Value(s);
    assert Padding(s) == 1 && v == [Byte0(a, b), Byte1(b, c)];
    assert Encode(v) == [s[0], s[1], CharOf(c - c % 4), PADDING];
    assert s == [s[0], s[1], s[2], s[3]];
  }

  lemma LastTwo(s: string)
    requires |s| == 4 && AllAlphabet(s[..2]) && s[3] == PADDING && s[2] == PADDING
    ensures Encode(Value(s)) == s <==> Val(s[1]) % 16 == 0
  {
    hide CharOf, IndexOf, IsAlphabet, Byte0, Byte1, Byte2, Sextet0, Sextet1, Sextet2, Sextet3;
    var a, b := Val(s[0]), Val(s[1]);
    CharsBack(s[..2], 2);
    assert s[..2][0] == s[0] && s[..2][1] == s[1];
    SextetRoundTrip(a, b, 0, 0);
    TrailingBits(a, b, 0);
    CharsDiffer(b - b % 16, b);
    var v := Value(s);
    assert Padding(s) == 2 && v == [Byte0(a, b)];
    assert Encode(v) == [s[0], CharOf(b - b % 16), PADDING, PADDING];
    assert s == [s[0], s[1], s[2], s[3]];
  }

  lemma LastBlock(s: string)
    requires |s| == 4 && Accepted(s)
    ensures Encode(Value(s)) == s <==> Canonical(s)
  {
    hide Value, Encode, Val;
    if Padding(s) == 0 {
      assert s[..4] == s;
      LastFull(s);
    } else if Padding(s) == 1 {
      LastOne(s);
    } else {
      LastTwo(s);
    }
  }

  lemma CharsBack(s: string, n: nat)
    requires n <= |s| && forall i :: 0 <= i < n ==> IsAlphabet(s[i])
    ensures forall i :: 0 <= i < n ==> CharOf(Val(s[i])) == s[i]
  {
    forall i | 0 <= i < n ensures CharOf(Val(s[i])) == s[i] { CharOfIndex(s[i]); }
  }

  lemma CharsDiffer(a: Sextet, b: Sextet)
    ensures CharOf(a) == CharOf(b) <==> a == b
  {
  }

  /** Decoding then encoding gives the text back exactly when the text is canonical. */
  lemma {:induction false} ReencodeIffCanonical(s: string)
    requires Accepted(s)
    ensures Encode(Value(s)) == s <==> Canonical(s)
  {
    hide Block, Padding, AllAlphabet;
    if |s| == 0 {
      NoPadding();
    } else if |s| == 4 {
      LastBlock(s);
    } else {
      AcceptedTail(s);
      PaddingOfTail(s);
      ReencodeIffCanonical(s[4..]);
      HeadBlock(s);
    }
  }

  /** "QR==" stands for the byte of "QQ==", which is what it is re-encoded as. */
  lemma SpareBitsAreLost() returns (s: string)
    ensures s == "QR==" && Accepted(s) && !Canonical(s) && Encode(Value(s)) == "QQ=="
  {
    s := "QR==";
    assert Padding(s) == 2 && s[..2] == ['Q', 'R'] && AllAlphabet(s[..2]);
    assert Val('Q') == 16 && Val('R') == 17 && Val(PADDING) == 0;
    assert Value(s) == [65];
    assert Encode([65]) == Block1(65);
  }

  lemma HeadBlock(s: string)
    requires |s| > 4 && AllAlphabet(s[..4])
    ensures Encode(Value(s)) == s[..4] + Encode(Value(s[4..]))
  {
    hide CharOf, IndexOf, IsAlphabet, Byte0, Byte1, Byte2, Sextet0, Sextet1, Sextet2, Sextet3;
    var h := s[..4];
    var a, b, c, d := Val(h[0]), Val(h[1]), Val(h[2]), Val(h[3]);
    CharsBack(h, 4);
    SextetRoundTrip(a, b, c, d);
    var v := Value(s);
    assert v[..3] == Block(h) && v[3..] == Value(s[4..]);
    assert Block3(v[0], v[1], v[2]) == h;
  }
}
