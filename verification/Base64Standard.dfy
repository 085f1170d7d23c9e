/**
  Encoding and decoding as section 4 of RFC 4648 puts them: a group of three bytes is a number of
  24 bits, read off as four places of the alphabet, with missing bytes zero and missing places `=`.
 */
module Base64Standard {
  import opened Base64
  import opened Base64Codec

  // ---------------------------------------------------------------------------
  // What the standard says

  ghost function ByteAt(b: seq<Byte>, k: nat): nat { if k < |b| then b[k] as int else 0 }

  /** The 24 bits of group i. */
  ghost function Group(b: seq<Byte>, i: nat): nat {
    65536 * ByteAt(b, 3 * i) + 256 * ByteAt(b, 3 * i + 1) + ByteAt(b, 3 * i + 2)
  }

  /** Its j-th six bits, from the top. */
  ghost function SixBits(group: nat, j: nat): (s: nat)
    ensures s < 64
  {
    (if j == 0 then group / 262144 else if j == 1 then group / 4096 else if j == 2 then group / 64 else group) % 64
  }

  /** The j-th character of group i: a place of the alphabet while there are bytes for it, then `=`. */
  ghost function Letter(b: seq<Byte>, i: nat, j: nat): char
    requires |ALPHABET| == 64
  {
    if 3 * i + j <= |b| then ALPHABET[SixBits(Group(b, i), j)] else '='
  }

  ghost predicate IsEncoding(b: seq<Byte>, s: string) {
    && |ALPHABET| == 64 && |s| == 4 * ((|b| + 2) / 3)
    && forall i: nat, j: nat :: j < 4 && 4 * i + j < |s| ==> Letter(b, i, j) == s[4 * i + j]
  }

  /** The place of a character in the alphabet; `=` counts as zero. */
  ghost function PlaceOf(c: char): nat {
    if c in ALPHABET then (var i: nat :| i < |ALPHABET| && ALPHABET[i] == c; i) else 0
  }

  ghost function Quad(s: string, i: nat): nat
    requires 4 * i + 4 <= |s|
  {
    262144 * PlaceOf(s[4 * i]) + 4096 * PlaceOf(s[4 * i + 1]) + 64 * PlaceOf(s[4 * i + 2]) + PlaceOf(s[4 * i + 3])
  }

  ghost function EightBits(quad: nat, j: nat): nat {
    (if j == 0 then quad / 65536 else if j == 1 then quad / 256 else quad) % 256
  }

  ghost function TrailingPads(s: string): nat {
    if s == "" || s[|s| - 1] != '=' then 0 else if |s| == 1 || s[|s| - 2] != '=' then 1 else 2
  }

  ghost predicate IsDecoding(s: string, v: seq<Byte>) {
    && |s| % 4 == 0 && |v| == 3 * (|s| / 4) - TrailingPads(s)
    && forall i: nat, j: nat :: j < 3 && 3 * i + j < |v| && 4 * i + 4 <= |s| ==> EightBits(Quad(s, i), j) == v[3 * i + j] as int
  }

  /** Four characters to a block, all of the alphabet but for one or two `=` at the very end. */
  ghost predicate IsText(s: string) {
    |s| % 4 == 0 && exists p: nat :: PaddedBy(s, p)
  }

  ghost predicate PaddedBy(s: string, p: nat) {
    && p <= 2 && p <= |s| && (forall i :: 0 <= i < |s| - p ==> s[i] in ALPHABET)
    && forall i :: |s| - p <= i < |s| ==> s[i] == '='
  }

  // ---------------------------------------------------------------------------
  // The encoding

  lemma BitsOf(a: Sextet, b: Sextet, c: Sextet, d: Sextet, g: nat)
    requires g == a * 262144 + b * 4096 + c * 64 + d
    ensures SixBits(g, 0) == a && SixBits(g, 1) == b && SixBits(g, 2) == c && SixBits(g, 3) == d
  {
    assert g / 64 == a * 4096 + b * 64 + c;
    assert g / 4096 == a * 64 + b;
    assert g / 262144 == a;
  }

  lemma GroupIs(x: Byte, y: Byte, z: Byte, g: nat)
    requires g == 65536 * x as int + 256 * y as int + z as int
    ensures SixBits(g, 0) == Sextet0(x) && SixBits(g, 1) == Sextet1(x, y) && SixBits(g, 2) == Sextet2(y, z) && SixBits(g, 3) == Sextet3(z)
  {
    hide SixBits;
    assert g == Sextet0(x) * 262144 + Sextet1(x, y) * 4096 + Sextet2(y, z) * 64 + Sextet3(z);
    BitsOf(Sextet0(x), Sextet1(x, y), Sextet2(y, z), Sextet3(z), g);
  }

  /** The letters of the first group are the block written for it. */
  lemma FirstLetters(b: seq<Byte>)
    requires b != []
    ensures |ALPHABET| == 64 && |Encode(b)| >= 4 && forall j: nat :: j < 4 ==> Letter(b, 0, j) == Encode(b)[j]
  {
    hide CharOf, SixBits, Sextet0, Sextet1, Sextet2, Sextet3, ALPHABET;
    var x, y, z := b[0], if |b| > 1 then b[1] else 0, if |b| > 2 then b[2] else 0;
    var g := Group(b, 0);
    GroupIs(x, y, z, g);
    CharOfIs(Sextet0(x));
    CharOfIs(Sextet1(x, y));
    CharOfIs(Sextet2(y, z));
    CharOfIs(Sextet3(z));
  }

  lemma LaterLetter(b: seq<Byte>, i: nat, j: nat)
    requires |b| >= 3 && i > 0 && |ALPHABET| == 64
    ensures Letter(b, i, j) == Letter(b[3..], i - 1, j)
  {
    hide ALPHABET, SixBits;
    assert 3 * i == 3 * (i - 1) + 3;
    assert forall k: nat :: ByteAt(b, k + 3) == ByteAt(b[3..], k);
    assert Group(b, i) == Group(b[3..], i - 1);
  }

  lemma {:induction false} EncodeIs(b: seq<Byte>)
    ensures IsEncoding(b, Encode(b))
  {
    hide Letter, Encode, ALPHABET;
    EncodeLength(b);
    CharOfIs(0);
    EncodeUnfolds(b);
    var s := Encode(b);
    if |b| >= 3 { EncodeIs(b[3..]); }
    forall i: nat, j: nat | j < 4 && 4 * i + j < |s| ensures Letter(b, i, j) == s[4 * i + j] {
      if i == 0 {
        FirstLetters(b);
      } else {
        LaterLetter(b, i, j);
        assert s[4 * i + j] == Encode(b[3..])[4 * (i - 1) + j];
      }
    }
  }

  // ---------------------------------------------------------------------------
  // The decoding

  lemma ValIs(c: char)
    ensures Val(c) == PlaceOf(c)
  {
    hide ALPHABET, CharOf, IndexOf;
    AlphabetIff(c);
    if c in ALPHABET {
      var i := PlaceOf(c);
      CharOfIs(0);
      CharOfIs(i);
      CharOfIs(IndexOf(c));
    }
  }

  lemma QuadBytes(x: nat, y: nat, z: nat, q: nat)
    requires x < 256 && y < 256 && z < 256 && q == 65536 * x + 256 * y + z
    ensures EightBits(q, 0) == x && EightBits(q, 1) == y && EightBits(q, 2) == z
  {
    assert q / 256 == 256 * x + y && q / 65536 == x;
  }

  lemma FirstBytes(s: string)
    requires |s| >= 4
    ensures forall j: nat :: j < 3 ==> EightBits(Quad(s, 0), j) == Block(s[..4])[j] as int
  {
    hide PlaceOf, EightBits, ALPHABET, Val, Byte0, Byte1, Byte2;
    ValIs(s[0]);
    ValIs(s[1]);
    ValIs(s[2]);
    ValIs(s[3]);
    var t := s[..4];
    assert t[0] == s[0] && t[1] == s[1] && t[2] == s[2] && t[3] == s[3];
    var b := Block(t);
    BytesOfQuad(Val(s[0]), Val(s[1]), Val(s[2]), Val(s[3]), Quad(s, 0));
  }

  lemma BytesOfQuad(a: Sextet, b: Sextet, c: Sextet, d: Sextet, q: nat)
    requires q == 262144 * a + 4096 * b + 64 * c + d
    ensures EightBits(q, 0) == Byte0(a, b) as int && EightBits(q, 1) == Byte1(b, c) as int && EightBits(q, 2) == Byte2(c, d) as int
  {
    hide EightBits;
    var x, y, z := Byte0(a, b) as int, Byte1(b, c) as int, Byte2(c, d) as int;
    assert q == 65536 * x + 256 * y + z;
    QuadBytes(x, y, z, q);
  }

  lemma PadsAre(s: string)
    ensures Padding(s) == TrailingPads(s)
  {
  }

  lemma {:induction false} ValueIs(s: string)
    requires |s| % 4 == 0
    ensures IsDecoding(s, Value(s))
  {
    hide EightBits, PlaceOf, Block, Padding, TrailingPads;
    PadsAre(s);
    var v := Value(s);
    if |s| >= 4 { FirstBytes(s); }
    if |s| == 4 { assert s[..4] == s; }
    if |s| > 4 {
      ValueIs(s[4..]);
      PadsAre(s[4..]);
      PaddingOfTail(s);
    }
    if |s| == 0 { NoPads(s); }
    forall i: nat, j: nat | j < 3 && 3 * i + j < |v| && 4 * i + 4 <= |s| ensures EightBits(Quad(s, i), j) == v[3 * i + j] as int {
      if i > 0 {
        assert 4 * i == 4 * (i - 1) + 4 && Quad(s, i) == Quad(s[4..], i - 1);
        assert v[3 * i + j] == Value(s[4..])[3 * (i - 1) + j];
      }
    }
  }

  lemma NoPads(s: string)
    requires s == ""
    ensures TrailingPads(s) == 0
  {
  }

  lemma AcceptedIs(s: string)
    ensures Accepted(s) <==> IsText(s)
  {
    hide IsAlphabet, ALPHABET;
    forall c ensures IsAlphabet(c) <==> c in ALPHABET { AlphabetIff(c); }
    NoEquals();
    var n := |s| - Padding(s);
    if Accepted(s) {
      forall i | 0 <= i < n ensures s[i] in ALPHABET { assert IsAlphabet(s[..n][i]); }
      assert PaddedBy(s, Padding(s));
    }
    if IsText(s) {
      var p: nat :| PaddedBy(s, p);
      assert p == Padding(s);
    }
  }

  lemma NoEquals()
    ensures '=' !in ALPHABET
  {
    AlphabetIff('=');
  }
}
