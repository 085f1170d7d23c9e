/**
  The text format that the map-reduce programs exchange: one vertex per line, as
  `id <TAB> distance <TAB> {n1,n2,...}`, with the distance `INF` for INT_MAX.
 */
module VertexLine {
  import opened Options

  const INT_MAX: int := 0x7fff_ffff
  const INF: int := INT_MAX
  const TWO_TO_64: int := 0x1_0000_0000_0000_0000

  /** `struct vertex_info`. */
  datatype VertexInfo = VertexInfo(id: nat, dist: int, adj: seq<string>)

  // ---------------------------------------------------------------------------
  // Numbers

  predicate IsDigit(c: char) { '0' <= c <= '9' }

  predicate IsSpace(c: char) {
    c == ' ' || c == '\t' || c == '\n' || c == '\r' || c as int == 11 || c as int == 12
  }

  /** How a non-negative number is printed. */
  function Digits(n: nat): (s: string)
    ensures s != [] && forall c <- s :: IsDigit(c)
  {
    if n < 10 then [('0' as int + n) as char]
    else Digits(n / 10) + [('0' as int + n % 10) as char]
  }

  function Value(s: string): (n: nat)
    requires forall c <- s :: IsDigit(c)
  {
    if s == [] then 0
    else
      assert IsDigit(s[|s| - 1]);
      Value(s[..|s| - 1]) * 10 + (s[|s| - 1] as int - '0' as int)
  }

  function DigitPrefix(s: string): (r: string)
    ensures r <= s && forall c <- r :: IsDigit(c)
    ensures |r| < |s| ==> !IsDigit(s[|r|])
  {
    if s != [] && IsDigit(s[0]) then [s[0]] + DigitPrefix(s[1..]) else []
  }

  function SkipSpaces(s: string): string {
    if s != [] && IsSpace(s[0]) then SkipSpaces(s[1..]) else s
  }

  /** `std::stoi`: spaces, a sign, then the longest run of digits.  None when it throws. */
  function StoI(s: string): Option<int> {
    var t := SkipSpaces(s);
    var signed := t != [] && (t[0] == '-' || t[0] == '+');
    var digits := DigitPrefix(if signed then t[1..] else t);
    var v := Value(digits) * (if signed && t[0] == '-' then -1 else 1);
    if digits == [] || v < -INT_MAX - 1 || v > INT_MAX then None else Some(v)
  }

  lemma {:induction false} ValueOfDigits(n: nat)
    ensures Value(Digits(n)) == n
  {
    if n >= 10 {
      ValueOfDigits(n / 10);
      assert Digits(n)[..|Digits(n)| - 1] == Digits(n / 10);
    }
  }

  lemma {:induction false} DigitPrefixOfDigits(s: string)
    requires forall c <- s :: IsDigit(c)
    ensures DigitPrefix(s) == s
  {
    if s != [] { DigitPrefixOfDigits(s[1..]); }
  }

  lemma StoIReadsDigits(n: nat)
    requires n <= INT_MAX
    ensures StoI(Digits(n)) == Some(n)
  {
    var s := Digits(n);
    assert s[0] in s && IsDigit(s[0]);
    DigitPrefixOfDigits(s);
    ValueOfDigits(n);
    hide Digits, DigitPrefix, Value;
    assert SkipSpaces(s) == s;
  }

  // ---------------------------------------------------------------------------
  // Decimal notation

  const DECIMALS: string := "0123456789"
  const SPACES: string := " \t\n\r\U{0B}\U{0C}"

  lemma DecimalsAre(d: nat)
    requires d < 10
    ensures DECIMALS[d] == ('0' as int + d) as char
  {
  }

  lemma DecimalIffDigit(c: char)
    ensures IsDigit(c) <==> c in DECIMALS
  {
    if IsDigit(c) {
      var d := c as int - '0' as int;
      DecimalsAre(d);
      assert DECIMALS[d] == c;
    } else if c in DECIMALS {
      var d :| 0 <= d < |DECIMALS| && DECIMALS[d] == c;
      DecimalsAre(d);
    }
  }

  lemma SpaceIff(c: char)
    ensures IsSpace(c) <==> c in SPACES
  {
  }

  /** A number below ten is its digit, and a further digit is written after those before it. */
  lemma DigitsAreDecimal(n: nat, d: nat)
    requires d < 10
    ensures Digits(d) == [DECIMALS[d]]
    ensures n > 0 ==> Digits(10 * n + d) == Digits(n) + Digits(d)
  {
    DecimalsAre(d);
    if n > 0 { assert (10 * n + d) / 10 == n && (10 * n + d) % 10 == d; }
  }

  ghost function Pow10(k: nat): nat { if k == 0 then 1 else 10 * Pow10(k - 1) }

  /** What a decimal digit counts for. */
  ghost function Decimal(c: char): (d: nat)
    requires c in DECIMALS
    ensures d < 10 && DECIMALS[d] == c
  {
    var d: nat :| d < |DECIMALS| && DECIMALS[d] == c;
    d
  }

  ghost predicate AllDecimal(s: string) { forall c <- s :: c in DECIMALS }

  /** The digits from position i on, each times the power of ten of its place. */
  ghost function PlaceSum(s: string, i: nat): nat
    requires AllDecimal(s) && i <= |s|
    decreases |s| - i
  {
    if i == |s| then 0 else Decimal(s[i]) * Pow10(|s| - 1 - i) + PlaceSum(s, i + 1)
  }

  /** The number that a string of digits stands for. */
  ghost function Number(s: string): nat
    requires AllDecimal(s)
  {
    PlaceSum(s, 0)
  }

  lemma {:induction false} PlaceSumStep(s: string, c: char, i: nat)
    requires AllDecimal(s) && c in DECIMALS && i <= |s|
    ensures AllDecimal(s + [c]) && PlaceSum(s + [c], i) == 10 * PlaceSum(s, i) + Decimal(c)
    decreases |s| - i
  {
    var t := s + [c];
    if i == |s| {
      assert PlaceSum(t, i) == Decimal(t[i]) * Pow10(0) + PlaceSum(t, i + 1);
    } else {
      PlaceSumStep(s, c, i + 1);
      assert t[i] == s[i] && |t| - 1 - i == (|s| - 1 - i) + 1;
      TenTimes(Decimal(s[i]), Pow10(|s| - 1 - i));
    }
  }

  lemma TenTimes(a: nat, b: nat)
    ensures a * (10 * b) == 10 * (a * b)
  {
  }

  lemma DigitIs(c: char)
    requires IsDigit(c)
    ensures c in DECIMALS && Decimal(c) == c as int - '0' as int
  {
    DecimalIffDigit(c);
    DecimalsAre(Decimal(c));
  }

  lemma {:induction false} ValueIsNumber(s: string)
    requires forall c <- s :: IsDigit(c)
    ensures AllDecimal(s) && Value(s) == Number(s)
  {
    forall c <- s ensures c in DECIMALS { DecimalIffDigit(c); }
    if s != [] {
      var n := |s| - 1;
      ValueIsNumber(s[..n]);
      DigitIs(s[n]);
      PlaceSumStep(s[..n], s[n], 0);
      assert s == s[..n] + [s[n]];
    }
  }

  lemma {:induction false} SkipsSpaces(spaces: string, t: string)
    requires (forall c <- spaces :: c in SPACES) && (t != [] ==> t[0] !in SPACES)
    ensures SkipSpaces(spaces + t) == t
  {
    hide IsSpace;
    if spaces == [] {
      assert spaces + t == t;
      if t != [] { SpaceIff(t[0]); }
    } else {
      SpaceIff(spaces[0]);
      assert (spaces + t)[1..] == spaces[1..] + t;
      SkipsSpaces(spaces[1..], t);
    }
  }

  lemma {:induction false} PrefixIs(digits: string, rest: string)
    requires AllDecimal(digits) && (rest != [] ==> rest[0] !in DECIMALS)
    ensures DigitPrefix(digits + rest) == digits
  {
    hide IsDigit;
    if digits == [] {
      assert digits + rest == rest;
      if rest != [] { DecimalIffDigit(rest[0]); }
    } else {
      DecimalIffDigit(digits[0]);
      assert (digits + rest)[1..] == digits[1..] + rest;
      PrefixIs(digits[1..], rest);
    }
  }

  /**
    `stoi` of any text, taken apart into leading spaces, a sign or none, digits and what follows them:
    the decimal number with its sign, if there is a digit and the number fits.
   */
  lemma StoIReads(spaces: string, sign: string, digits: string, rest: string)
    requires (forall c <- spaces :: c in SPACES) && (sign == "" || sign == "-" || sign == "+") && AllDecimal(digits)
    requires rest != "" ==> rest[0] !in DECIMALS
    requires sign == "" && digits == "" && rest != "" ==> rest[0] !in SPACES && rest[0] != '-' && rest[0] != '+'
    ensures var v: int := if sign == "-" then 0 - Number(digits) else Number(digits);
      StoI(spaces + (sign + (digits + rest))) == if digits == "" || v < -0x8000_0000 || v > 0x7fff_ffff then None else Some(v)
  {
    hide SkipSpaces, DigitPrefix, Value, Number, IsDigit, AllDecimal, StoI;
    var t := sign + (digits + rest);
    SignedText(sign, digits, rest, t);
    SkipsSpaces(spaces, t);
    PrefixIs(digits, rest);
    DigitsRead(digits);
    StoIOf(spaces + t, t, sign, digits, rest, Number(digits));
  }

  lemma DigitsRead(digits: string)
    requires AllDecimal(digits)
    ensures (forall c <- digits :: IsDigit(c)) && Value(digits) == Number(digits)
  {
    forall c <- digits ensures IsDigit(c) { DecimalIffDigit(c); }
    ValueIsNumber(digits);
  }

  lemma SignedText(sign: string, digits: string, rest: string, t: string)
    requires (sign == "" || sign == "-" || sign == "+") && AllDecimal(digits) && t == sign + (digits + rest)
    requires sign == "" && digits == "" && rest != "" ==> rest[0] !in SPACES && rest[0] != '-' && rest[0] != '+'
    ensures t != "" ==> t[0] !in SPACES && (sign == "" <==> t[0] != '-' && t[0] != '+') && (sign == "-" <==> t[0] == '-')
    ensures if sign == "" then t == digits + rest else t != "" && t[1..] == digits + rest
  {
    if sign == "" && digits != "" {
      assert t[0] == digits[0] && digits[0] in digits;
      NoSpace(t[0]);
    }
  }

  lemma StoIOf(s: string, t: string, sign: string, digits: string, rest: string, n: nat)
    requires SkipSpaces(s) == t && DigitPrefix(digits + rest) == digits && Value(digits) == n
    requires t != "" ==> (sign == "" <==> t[0] != '-' && t[0] != '+') && (sign == "-" <==> t[0] == '-')
    requires if sign == "" then t == digits + rest else t != "" && t[1..] == digits + rest
    ensures var v: int := if sign == "-" then 0 - n else n;
      StoI(s) == if digits == "" || v < -0x8000_0000 || v > 0x7fff_ffff then None else Some(v)
  {
    hide SkipSpaces, DigitPrefix, Value;
  }

  lemma NoSpace(c: char)
    requires c in DECIMALS
    ensures c !in SPACES && c != '-' && c != '+'
  {
  }

  /** Every number that an `int` holds reads back from its text. */
  lemma StoIReadsInt(n: int)
    requires -INT_MAX - 1 <= n <= INT_MAX
    ensures StoI(IntText(n)) == Some(n)
  {
    var sign, digits := if n < 0 then "-" else "", Digits(if n < 0 then -n else n);
    assert IntText(n) == "" + (sign + (digits + ""));
    forall c <- digits ensures c in DECIMALS { DecimalIffDigit(c); }
    ValueOfDigits(if n < 0 then -n else n);
    ValueIsNumber(digits);
    hide Digits, StoI, Number, Value;
    StoIReads("", sign, digits, "");
  }

  // ---------------------------------------------------------------------------
  // Searching and splitting

  /** Position of the first `c` at or after `from`, or the length when there is none. */
  function Find(s: string, c: char, from: nat): (i: nat)
    requires from <= |s|
    ensures from <= i <= |s|
    ensures i < |s| ==> s[i] == c
    ensures c !in s[from..i]
    decreases |s| - from
  {
    if from == |s| || s[from] == c then from
    else
      var i := Find(s, c, from + 1);
      assert s[from..i] == [s[from]] + s[from + 1..i];
      i
  }

  /** The text just after the first `c`; from the start when there is no `c`. */
  function After(s: string, c: char): (i: nat)
    ensures i <= |s|
  {
    if Find(s, c, 0) == |s| then 0 else Find(s, c, 0) + 1
  }

  /** The non-empty pieces between separators; `val` is the piece read so far. */
  function Split(line: string, sep: char, val: string): seq<string> {
    if line == [] then (if val != "" then [val] else [])
    else if line[0] == sep then (if val != "" then [val] else []) + Split(line[1..], sep, "")
    else Split(line[1..], sep, val + [line[0]])
  }

  method SplitLine(line: string, sep: char) returns (res: seq<string>)
    ensures res == Split(line, sep, "")
  {
    res := [];
    var val := "";
    var i := 0;
    while i < |line|
      invariant 0 <= i <= |line|
      invariant Split(line, sep, "") == res + Split(line[i..], sep, val)
    {
      assert line[i..][1..] == line[i + 1..];
      if line[i] != sep {
        val := val + [line[i]];
      } else {
        if val != "" { res := res + [val]; }
        val := "";
      }
      i := i + 1;
    }
    if val != "" { res := res + [val]; }
  }

  function Join(parts: seq<string>, sep: char): string {
    if parts == [] then ""
    else if |parts| == 1 then parts[0]
    else parts[0] + [sep] + Join(parts[1..], sep)
  }

  lemma {:induction false} SplitSkipsPiece(p: string, rest: string, sep: char, val: string)
    requires sep !in p
    ensures Split(p + rest, sep, val) == Split(rest, sep, val + p)
  {
    if p == "" {
      assert p + rest == rest && val + p == val;
    } else {
      assert (p + rest)[1..] == p[1..] + rest;
      SplitSkipsPiece(p[1..], rest, sep, val + [p[0]]);
      assert val + [p[0]] + p[1..] == val + p;
    }
  }

  lemma {:induction false} SplitUndoesJoin(parts: seq<string>, sep: char)
    requires forall p <- parts :: p != "" && sep !in p
    ensures Split(Join(parts, sep), sep, "") == parts
  {
    if |parts| == 1 {
      SplitSkipsPiece(parts[0], "", sep, "");
      assert parts[0] + "" == parts[0] && "" + parts[0] == parts[0];
    } else if |parts| > 1 {
      var tail := Join(parts[1..], sep);
      assert Join(parts, sep) == parts[0] + ([sep] + tail);
      SplitSkipsPiece(parts[0], [sep] + tail, sep, "");
      assert "" + parts[0] == parts[0] && ([sep] + tail)[1..] == tail;
      SplitUndoesJoin(parts[1..], sep);
    }
  }

  /** A separator parts two texts that are split on their own, and a piece without one is itself unless empty. */
  lemma {:induction false} SplitAtSeparator(a: string, b: string, sep: char, val: string)
    ensures Split(a + [sep] + b, sep, val) == Split(a, sep, val) + Split(b, sep, "")
    ensures sep !in a ==> Split(a, sep, "") == if a == "" then [] else [a]
  {
    var line := a + [sep] + b;
    if a == "" {
      assert line[0] == sep && line[1..] == b;
    } else {
      assert line[0] == a[0] && line[1..] == a[1..] + [sep] + b;
      SplitAtSeparator(a[1..], b, sep, if a[0] == sep then "" else val + [a[0]]);
    }
    if sep !in a {
      SplitSkipsPiece(a, "", sep, "");
      assert a + "" == a && "" + a == a;
    }
  }

  // ---------------------------------------------------------------------------
  // Lines

  /** `get_vertex_id`. */
  function ParseId(line: string): Option<int> {
    StoI(line[..Find(line, '\t', 0)])
  }

  /** `get_distance_value`. */
  function ParseDist(line: string): Option<int> {
    var start := After(line, '\t');
    var text := line[start..Find(line, '\t', start)];
    ReadDist(text)
  }

  function ReadDist(text: string): Option<int> {
    if text == "INF" then Some(INF) else StoI(text)
  }

  /** `get_adj_list`: the pieces between the braces. */
  function AdjOf(line: string): seq<string> {
    var start, end := After(line, '{'), Find(line, '}', 0);
    Split(line[start..if end < start then |line| else end], ',', "")
  }

  /** `parse_line`; None when a number does not parse and the C++ reads garbage. */
  function ParseLine(line: string): Option<VertexInfo> {
    var id, dist := ParseId(line), ParseDist(line);
    if id.None? || dist.None? then None
    else Some(VertexInfo(if id.value < 0 then id.value + TWO_TO_64 else id.value, dist.value, AdjOf(line)))
  }

  /** How a number is printed. */
  function IntText(n: int): string {
    if n < 0 then "-" + Digits(-n) else Digits(n)
  }

  function DistText(dist: int): (s: string) {
    if dist == INF then "INF" else IntText(dist)
  }

  /** `print_data`. */
  function PrintLine(v: VertexInfo): (line: string) {
    Digits(v.id) + "\t" + DistText(v.dist) + "\t{" + Join(v.adj, ',') + "}"
  }

  /** The vertex that a neighbour string names. */
  function IdOf(el: string): nat {
    var n := StoI(el);
    if n.None? then 0 else if n.value < 0 then n.value + TWO_TO_64 else n.value
  }

  /** The string is what printing the vertex id gives. */
  predicate Canonical(el: string) {
    IdOf(el) <= INT_MAX && el == Digits(IdOf(el))
  }

  /** Numbers in range, and neighbours written the way ids are printed. */
  predicate WellFormed(v: VertexInfo) {
    v.id <= INT_MAX && 0 <= v.dist <= INT_MAX && forall el <- v.adj :: Canonical(el)
  }

  lemma {:induction false} FindIs(s: string, c: char, from: nat, i: nat)
    requires from <= i <= |s| && forall k :: from <= k < i ==> s[k] != c
    requires i < |s| ==> s[i] == c
    ensures Find(s, c, from) == i
    decreases i - from
  {
    if from < i { FindIs(s, c, from + 1, i); }
  }

  lemma {:induction false} JoinAvoids(parts: seq<string>, c: char)
    requires forall p <- parts :: c !in p
    requires c != ','
    ensures c !in Join(parts, ',')
  {
    if |parts| > 1 { JoinAvoids(parts[1..], c); }
  }

  /** Searching from the end of `pre` stops at the `c` that ends the field `a`. */
  lemma FindFieldEnd(pre: string, a: string, c: char, post: string)
    requires c !in a
    ensures Find(pre + a + [c] + post, c, |pre|) == |pre| + |a|
    ensures (pre + a + [c] + post)[|pre|..|pre| + |a|] == a
  {
    var line := pre + a + [c] + post;
    forall k | |pre| <= k < |pre| + |a| ensures line[k] != c {
      assert line[k] == a[k - |pre|] && a[k - |pre|] in a;
    }
    FindIs(line, c, |pre|, |pre| + |a|);
  }

  lemma IdField(id: string, rest: string)
    requires '\t' !in id
    ensures var line := id + "\t" + rest;
      Find(line, '\t', 0) == |id| && line[..|id|] == id && After(line, '\t') == |id| + 1
  {
    FindFieldEnd("", id, '\t', rest);
    assert "" + id + ['\t'] + rest == id + "\t" + rest;
  }

  lemma DistField(id: string, dist: string, rest: string)
    requires '\t' !in dist
    ensures var line, start := id + "\t" + (dist + "\t" + rest), |id| + 1;
      Find(line, '\t', start) == start + |dist| && line[start..start + |dist|] == dist
  {
    FindFieldEnd(id + "\t", dist, '\t', rest);
    assert (id + "\t") + dist + ['\t'] + rest == id + "\t" + (dist + "\t" + rest);
  }

  lemma AdjField(pre: string, list: string)
    requires '{' !in pre && '}' !in pre && '}' !in list
    ensures var line := pre + "{" + list + "}"; After(line, '{') == |pre| + 1
    ensures var line := pre + "{" + list + "}"; Find(line, '}', 0) == |pre| + 1 + |list|
    ensures (pre + "{" + list + "}")[|pre| + 1..|pre| + 1 + |list|] == list
  {
    FindFieldEnd("", pre, '{', list + "}");
    assert "" + pre + ['{'] + (list + "}") == pre + "{" + list + "}";
    FindFieldEnd("", pre + "{" + list, '}', "");
    assert "" + (pre + "{" + list) + ['}'] + "" == pre + "{" + list + "}";
  }

  lemma NeighboursAreDigits(v: VertexInfo)
    requires WellFormed(v)
    ensures forall el <- v.adj :: el != "" && forall c <- el :: IsDigit(c)
  {
    forall el <- v.adj ensures el != "" && forall c <- el :: IsDigit(c) {
      assert Canonical(el);
    }
  }

  lemma AdjOfPrint(v: VertexInfo)
    requires WellFormed(v)
    ensures AdjOf(PrintLine(v)) == v.adj
  {
    NeighboursAreDigits(v);
    var list := Join(v.adj, ',');
    JoinAvoids(v.adj, '}');
    var pre := Digits(v.id) + "\t" + DistText(v.dist) + "\t";
    AdjField(pre, list);
    assert PrintLine(v) == pre + "{" + list + "}";
    SplitUndoesJoin(v.adj, ',');
  }

  lemma DistReads(dist: nat)
    requires dist <= INT_MAX
    ensures ReadDist(DistText(dist)) == Some(dist)
  {
    if dist != INF {
      StoIReadsDigits(dist);
      assert IsDigit(DistText(dist)[0]);
    }
  }

  /** The text before the first tab, which the jobs group by. */
  function Key(line: string): string {
    line[..Find(line, '\t', 0)]
  }

  lemma NumbersOfLine(id: string, dist: string, rest: string, line: string)
    requires '\t' !in id && '\t' !in dist && line == id + "\t" + (dist + "\t" + rest)
    ensures Key(line) == id && ParseId(line) == StoI(id) && ParseDist(line) == ReadDist(dist)
  {
    hide StoI, ReadDist, Find;
    IdField(id, dist + "\t" + rest);
    DistField(id, dist, rest);
  }

  /** A line of three fields: two numbers, the second perhaps INF, and a list in braces. */
  lemma LineReads(id: string, dist: string, adj: seq<string>)
    requires id != "" && AllDecimal(id) && Number(id) <= 0x7fff_ffff
    requires dist == "INF" || (dist != "" && AllDecimal(dist) && Number(dist) <= 0x7fff_ffff)
    requires forall el <- adj :: el != "" && ',' !in el && '}' !in el
    ensures ParseLine(id + "\t" + dist + "\t{" + Join(adj, ',') + "}")
         == Some(VertexInfo(Number(id), if dist == "INF" then 0x7fff_ffff else Number(dist), adj))
  {
    hide StoI, Number, Split, Join, AdjOf, ParseId, ParseDist, ReadDist;
    var list := "{" + Join(adj, ',') + "}";
    var line := id + "\t" + dist + "\t{" + Join(adj, ',') + "}";
    PlainNumber(id);
    DistanceReads(dist);
    assert line == id + "\t" + (dist + "\t" + list);
    NumbersOfLine(id, dist, list, line);
    ListReads(id + "\t" + dist + "\t", adj);
    assert line == id + "\t" + dist + "\t" + "{" + Join(adj, ',') + "}";
  }

  lemma DistanceReads(dist: string)
    requires dist == "INF" || (dist != "" && AllDecimal(dist) && Number(dist) <= 0x7fff_ffff)
    ensures ReadDist(dist) == Some(if dist == "INF" then 0x7fff_ffff else Number(dist))
    ensures '\t' !in dist && '{' !in dist && '}' !in dist
  {
    hide StoI, Number;
    if dist != "INF" { PlainNumber(dist); }
  }

  lemma ListReads(pre: string, adj: seq<string>)
    requires '{' !in pre && '}' !in pre && forall el <- adj :: el != "" && ',' !in el && '}' !in el
    ensures AdjOf(pre + "{" + Join(adj, ',') + "}") == adj
  {
    JoinAvoids(adj, '}');
    AdjField(pre, Join(adj, ','));
    SplitUndoesJoin(adj, ',');
  }

  lemma PlainNumber(s: string)
    requires s != "" && AllDecimal(s) && Number(s) <= 0x7fff_ffff
    ensures StoI(s) == Some(Number(s)) && s != "INF" && '\t' !in s && '{' !in s && '}' !in s
  {
    hide StoI, Number;
    StoIReads("", "", s, "");
    assert "" + ("" + (s + "")) == s;
    assert s[0] in DECIMALS;
    NoSpace(s[0]);
    forall c <- s ensures c != '\t' && c != '{' && c != '}' {
      assert c in DECIMALS;
    }
  }

  /** Fields that are not there: without a tab the whole line is read twice, with one the rest is the distance. */
  lemma ShortLines(a: string, b: string)
    requires '\t' !in a && '\t' !in b
    ensures ParseId(a) == StoI(a) && ParseDist(a) == ReadDist(a)
    ensures ParseId(a + "\t" + b) == StoI(a) && ParseDist(a + "\t" + b) == ReadDist(b)
  {
    hide StoI, ReadDist;
    FindIs(a, '\t', 0, |a|);
    assert a[..|a|] == a && a[0..|a|] == a;
    var line := a + "\t" + b;
    IdField(a, b);
    FindIs(line, '\t', |a| + 1, |line|);
    assert line[|a| + 1..|line|] == b;
  }

  lemma NumbersOfPrint(v: VertexInfo)
    requires WellFormed(v)
    ensures ParseId(PrintLine(v)) == Some(v.id) && ParseDist(PrintLine(v)) == Some(v.dist)
    ensures Key(PrintLine(v)) == Digits(v.id)
  {
    var id, dist, list := Digits(v.id), DistText(v.dist), "{" + Join(v.adj, ',') + "}";
    assert PrintLine(v) == id + "\t" + (dist + "\t" + list);
    NumbersOfLine(id, dist, list, PrintLine(v));
    StoIReadsDigits(v.id);
    DistReads(v.dist);
  }

  /** A printed line reads back as the record it was printed from. */
  lemma ParseUndoesPrint(v: VertexInfo)
    requires WellFormed(v)
    ensures ParseLine(PrintLine(v)) == Some(v) && Key(PrintLine(v)) == Digits(v.id)
  {
    NumbersOfPrint(v);
    AdjOfPrint(v);
  }

  /** The line that offers a distance to a neighbour; see `print_adj_vertex_info`. */
  function UpdateLine(el: string, dist: int): string {
    el + "\t" + (if dist == INF then "INF" else IntText(dist + 1)) + "\t{}"
  }

  lemma UpdateLineAdj(el: string, text: string, line: string)
    requires (forall c <- el :: IsDigit(c)) && '{' !in text && '}' !in text
    requires line == el + "\t" + text + "\t{}"
    ensures AdjOf(line) == []
  {
    var pre := el + "\t" + text + "\t";
    AdjField(pre, "");
    assert line == pre + "{" + "" + "}";
  }

  lemma OfferReads(dist: int)
    requires 0 <= dist <= INF
    ensures ReadDist(if dist == INF then "INF" else IntText(dist + 1)) == Some(if dist == INF then INF else dist + 1)
  {
    if dist != INF {
      StoIReadsDigits(dist + 1);
      assert IsDigit(Digits(dist + 1)[0]);
    }
  }

  lemma UpdateLineNumbers(el: string, dist: int, text: string)
    requires Canonical(el) && 0 <= dist <= INF
    requires text == if dist == INF then "INF" else IntText(dist + 1)
    ensures var line := UpdateLine(el, dist);
      Key(line) == el && ParseId(line) == Some(IdOf(el)) && ParseDist(line) == ReadDist(text)
  {
    assert UpdateLine(el, dist) == el + "\t" + (text + "\t" + "{}");
    NumbersOfLine(el, text, "{}", UpdateLine(el, dist));
    StoIReadsDigits(IdOf(el));
  }

  lemma UpdateLineReads(el: string, dist: int)
    requires Canonical(el) && 0 <= dist <= INF
    ensures ParseLine(UpdateLine(el, dist)) == Some(VertexInfo(IdOf(el), if dist == INF then INF else dist + 1, []))
    ensures Key(UpdateLine(el, dist)) == el
  {
    var text := if dist == INF then "INF" else IntText(dist + 1);
    UpdateLineNumbers(el, dist, text);
    OfferReads(dist);
    UpdateLineAdj(el, text, UpdateLine(el, dist));
  }
}
