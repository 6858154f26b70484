/**
 * The pure helpers of the BattleBoats PC tool (battleBoats/BattleBoatsPC.py):
 * the commitment hash, the 16-bit parity, the XOR checksum, the frame
 * encoder and the loopback test the receiver uses to drop its own echoed
 * messages. Python integers are unbounded and its `>>` and `&` act on
 * two's complement, which Dafny's `/` and `%` by a positive divisor match.
 */
module PcTool {
  import opened Bits
  import opened Text
  import N = Negotiation
  import M = Message

  // ---------------------------------------------------------------------
  // beefHash

  /** beefHash: the square of n modulo 0xBEEF, never negative. */
  function BeefHash(n: int): (h: int)
    ensures 0 <= h < 0xBEEF
  {
    (n * n) % 0xBEEF
  }

  /** On the board's 16-bit secrets the PC hash is the board's commitment. */
  lemma BeefHashMatchesBoard(n: u16)
    ensures BeefHash(n) == N.Hash(n)
    ensures N.Verify(n, BeefHash(n))
  {
  }

  // ---------------------------------------------------------------------
  // parity

  /** n >> i, Python's arithmetic shift: one floor halving per position. */
  function Shr(n: int, i: nat): int
  {
    if i == 0 then n else Shr(n, i - 1) / 2
  }

  /** The number of positions j with i <= j < k whose bit (n >> j) & 1 is set. */
  function OnesFrom(n: int, i: nat, k: nat): nat
    decreases k - i
  {
    if i >= k then 0 else (if Shr(n, i) % 2 == 1 then 1 else 0) + OnesFrom(n, i + 1, k)
  }

  /** parity: the count of one bits among bits 0 to 15, masked to its low bit. */
  function Parity(n: int): (p: nat)
    ensures p < 2
  {
    OnesFrom(n, 0, 16) % 2
  }

  /** Euclidean division is unique. */
  lemma DivModUnique(m: int, d: int, q: int, r: int)
    requires d > 0 && m == d * q + r && 0 <= r < d
    ensures m / d == q && m % d == r
  {
    var q' := m / d;
    var r' := m % d;
    assert d * q' + r' == d * q + r;
    if q' > q {
      MulAtLeast(d, q' - q);
    } else if q > q' {
      MulAtLeast(d, q - q');
    }
  }

  lemma {:induction false} MulAtLeast(d: nat, k: nat)
    requires k >= 1
    ensures d * k >= d
  {
    if k > 1 {
      MulAtLeast(d, k - 1);
      assert d * k == d * (k - 1) + d;
    }
  }

  /** The residue modulo 2P is the low bit plus twice the residue of the rest modulo P. */
  lemma ModSplit(m: int, p: nat)
    requires p >= 1
    ensures m % (2 * p) == m % 2 + 2 * ((m / 2) % p)
  {
    var q := m / 2;
    var t := q / p;
    var s := q % p;
    assert m == 2 * p * t + (2 * s + m % 2);
    DivModUnique(m, 2 * p, t, 2 * s + m % 2);
  }

  /** A low bit b followed by the bits of y has b plus y's ones. */
  lemma PopcountCons(b: nat, y: nat)
    requires b < 2
    ensures Popcount(b + 2 * y) == b + Popcount(y)
  {
    var x := b + 2 * y;
    assert x % 2 == b && x / 2 == y;
  }

  lemma Pow2Sixteen()
    ensures Pow2(16) == 0x1_0000
  {
    assert Pow2(4) == 16;
    assert Pow2(8) == 256;
    assert Pow2(12) == 4096;
  }

  /** The count over bits i..k-1 is the number of ones in the k - i bits of n >> i. */
  lemma {:induction false} OnesFromIsPopcount(n: int, i: nat, k: nat)
    requires i <= k
    ensures OnesFrom(n, i, k) == Popcount(Shr(n, i) % Pow2(k - i))
    decreases k - i
  {
    if i < k {
      OnesFromIsPopcount(n, i + 1, k);
      var m := Shr(n, i);
      var p := Pow2(k - i - 1);
      assert Pow2(k - i) == 2 * p;
      assert Shr(n, i + 1) == m / 2;
      var y := (m / 2) % p;
      ModSplit(m, p);
      PopcountCons(m % 2, y);
      assert OnesFrom(n, i, k) == m % 2 + OnesFrom(n, i + 1, k);
    }
  }

  /** parity(n) is the parity of the ones in the low 16 bits of n's two's complement. */
  lemma ParityIsPopcountLow16(n: int)
    ensures Parity(n) == Popcount(n % 0x1_0000) % 2
  {
    OnesFromIsPopcount(n, 0, 16);
    Pow2Sixteen();
  }

  /** The PC's parity of A ^ B decides the same coin the board's coin flip does. */
  lemma ParityMatchesFlip(a: u16, b: u16)
    ensures Parity(Xor(a, b)) == 1 <==> N.Flip(a, b) == N.Heads
  {
    XorOfU16(a, b);
    ParityOfU16(Xor(a, b));
  }

  /** The Xor of two 16-bit values is a 16-bit value. */
  lemma XorOfU16(a: u16, b: u16)
    ensures Xor(a, b) < 0x1_0000
  {
    Pow2Sixteen();
    XorBound(a, b, 16);
  }

  /** On 16-bit values parity is the parity of all the ones. */
  lemma ParityOfU16(x: nat)
    requires x < 0x1_0000
    ensures Parity(x) == Popcount(x) % 2
  {
    assert x % 0x1_0000 == x;
    ParityIsPopcountLow16(x);
  }

  // ---------------------------------------------------------------------
  // checksum

  /** XOR of the character codes of s, accumulated from the first to the last. */
  function XorAll(s: string): nat
  {
    if s == [] then 0 else Xor(XorAll(s[..|s| - 1]), s[|s| - 1] as int)
  }

  /** Message.checksum: the loop over the characters. */
  method Checksum(s: string) returns (c: nat)
    ensures c == XorAll(s)
  {
    c := 0;
    var i := 0;
    while i < |s|
      invariant 0 <= i <= |s|
      invariant c == XorAll(s[..i])
    {
      assert s[..i + 1][..i] == s[..i];
      c := Xor(c, s[i] as int);
      i := i + 1;
    }
    assert s[..|s|] == s;
  }

  /** The checksum of a concatenation is the XOR of the two checksums. */
  lemma {:induction false} XorAllAppend(s: string, t: string)
    ensures XorAll(s + t) == Xor(XorAll(s), XorAll(t))
    decreases |t|
  {
    if t == [] {
      assert s + t == s;
      XorZero(XorAll(s));
    } else {
      var t' := t[..|t| - 1];
      XorAllAppend(s, t');
      assert (s + t)[..|s + t| - 1] == s + t';
      XorAssoc(XorAll(s), XorAll(t'), t[|t| - 1] as int);
    }
  }

  /** On characters below 256 the PC checksum equals the board's byte checksum. */
  lemma {:induction false} XorAllMatchesBoard(s: string)
    requires forall i :: 0 <= i < |s| ==> s[i] as int < 256
    ensures XorAll(s) == M.Checksum(s)
  {
    if s != [] {
      XorAllMatchesBoard(s[..|s| - 1]);
    }
  }

  // ---------------------------------------------------------------------
  // encode_message

  /** "{:X}": upper-case hexadecimal digits without leading zeros. */
  function HexUpper(n: nat): (s: string)
    ensures |s| >= 1 && forall i :: 0 <= i < |s| ==> s[i] in HexDigits
  {
    if n < 16 then [HexDigits[n]] else HexUpper(n / 16) + [HexDigits[n % 16]]
  }

  /** "{:02X}": the same, padded with a leading zero to at least two digits. */
  function Hex02(n: nat): (s: string)
    ensures |s| >= 2 && forall i :: 0 <= i < |s| ==> s[i] in HexDigits
  {
    if n < 16 then "0" + HexUpper(n) else HexUpper(n)
  }

  /** For a byte, "{:02X}" prints the same two digits as the board's "%02X". */
  lemma Hex02Byte(n: nat)
    requires n < 256
    ensures Hex02(n) == Hex2(n)
  {
    if n >= 16 {
      assert HexUpper(n / 16) == [HexDigits[n / 16]];
    }
  }

  /** A field of a PC message: a message type, printed by name, or an integer. */
  datatype PcField = Name(name: string) | Num(value: int)

  /** str() of a field. */
  function Str(f: PcField): string
  {
    match f
    case Name(n) => n
    case Num(v) => SignedDec(v)
  }

  function StrAll(fs: seq<PcField>): (ss: seq<string>)
    ensures |ss| == |fs| && forall i :: 0 <= i < |fs| ==> ss[i] == Str(fs[i])
  {
    seq(|fs|, i requires 0 <= i < |fs| => Str(fs[i]))
  }

  /** The comma-joined payload. */
  function PcPayload(fs: seq<PcField>): string
  {
    Join(StrAll(fs), ",")
  }

  /** encode_message: '$', the payload, '*', its checksum in hex, and a bare '\n'. */
  function EncodeMessage(fs: seq<PcField>): (r: string)
    ensures |r| >= 5 && r[0] == '$' && r[|r| - 1] == '\n' && r[|r| - 2] != '\r'
  {
    var p := PcPayload(fs);
    var h := Hex02(XorAll(p));
    assert h[|h| - 1] in HexDigits;
    "$" + p + "*" + h + "\n"
  }

  // ---------------------------------------------------------------------
  // _check_for_loopback

  /** str.split with a one-character separator: the pieces between separators, at least one. */
  function Split(s: string, c: char): (parts: seq<string>)
    ensures |parts| >= 1
    decreases |s|
  {
    match FirstIndex(s, c)
    case None => [s]
    case Some(k) => [s[..k]] + Split(s[k + 1..], c)
  }

  function StripLeading(s: string, c: char): string
    decreases |s|
  {
    if s != [] && s[0] == c then StripLeading(s[1..], c) else s
  }

  function StripTrailing(s: string, c: char): string
    decreases |s|
  {
    if s != [] && s[|s| - 1] == c then StripTrailing(s[..|s| - 1], c) else s
  }

  /** str.strip(c): every leading and trailing c removed. */
  function Strip(s: string, c: char): string
  {
    StripTrailing(StripLeading(s, c), c)
  }

  /** part.split("*")[0]: the text before the first '*'. */
  function BeforeStar(s: string): string
  {
    Split(s, '*')[0]
  }

  /** The previous message as the loopback test reads it: per comma-separated part, '$' stripped and the '*' suffix cut. */
  function PrevFields(prev: string): (ps: seq<string>)
    ensures |ps| == |Split(prev, ',')|
  {
    var parts := Split(prev, ',');
    seq(|parts|, i requires 0 <= i < |parts| => BeforeStar(Strip(parts[i], '$')))
  }

  /**
   * A loopback: a previous message exists and the two field lists agree
   * on every position both have.
   */
  predicate IsLoopback(cur: seq<string>, prev: Option<string>)
  {
    prev.Some? &&
    var ps := PrevFields(prev.value);
    forall i :: 0 <= i < |cur| && i < |ps| ==> cur[i] == ps[i]
  }

  /** _check_for_loopback: False without a previous message, else the pairwise comparison with early exit. */
  method CheckForLoopback(current: seq<PcField>, previous: Option<string>) returns (r: bool)
    ensures r == IsLoopback(StrAll(current), previous)
    ensures previous.None? ==> !r
  {
    var cur := StrAll(current);
    if previous.None? {
      return false;
    }
    var prev := PrevFields(previous.value);
    var i := 0;
    while i < |cur| && i < |prev|
      invariant 0 <= i <= |cur| && i <= |prev|
      invariant forall j :: 0 <= j < i ==> cur[j] == prev[j]
    {
      if cur[i] != prev[i] {
        return false;
      }
      i := i + 1;
    }
    return true;
  }

  /** A field text that survives the round trip: no ',', '$' or '*'. */
  predicate PlainField(s: string)
  {
    ',' !in s && '$' !in s && '*' !in s
  }

  /** A piece without the separator is not split. */
  lemma SplitNone(s: string, c: char)
    requires c !in s
    ensures Split(s, c) == [s]
  {
  }

  /** The first separator ends the first piece. */
  lemma SplitAt(a: string, c: char, b: string)
    requires c !in a
    ensures Split(a + [c] + b, c) == [a] + Split(b, c)
  {
    var s := a + [c] + b;
    FirstIndexAfter(a, c, b);
    assert s[..|a|] == a;
    assert s[|a| + 1..] == b;
  }

  /** The one-part case of SplitJoin. */
  lemma SplitJoinOne(parts: seq<string>, t: string, c: char)
    requires |parts| == 1 && c !in t && c !in parts[0]
    ensures Split(Join(parts, [c]) + t, c) == [parts[0] + t]
  {
    assert Join(parts, [c]) + t == parts[0] + t;
    assert c !in parts[0] + t;
    SplitNone(parts[0] + t, c);
  }

  /** The step of SplitJoin: the first part, then the split of the rest. */
  lemma SplitJoinCons(parts: seq<string>, t: string, c: char)
    requires |parts| >= 2 && c !in parts[0]
    requires Split(Join(parts[1..], [c]) + t, c) == parts[1..|parts| - 1] + [parts[|parts| - 1] + t]
    ensures Split(Join(parts, [c]) + t, c) == parts[..|parts| - 1] + [parts[|parts| - 1] + t]
  {
    var n := |parts|;
    var rest := Join(parts[1..], [c]) + t;
    var s := Join(parts, [c]) + t;
    assert s == parts[0] + [c] + rest by {
      assert Join(parts, [c]) == parts[0] + ([c] + Join(parts[1..], [c]));
    }
    assert Split(s, c) == [parts[0]] + Split(rest, c) by {
      SplitAt(parts[0], c, rest);
    }
    var last := [parts[n - 1] + t];
    assert parts[..n - 1] + last == [parts[0]] + (parts[1..n - 1] + last) by {
      assert parts[..n - 1] == [parts[0]] + parts[1..n - 1];
    }
  }

  /** Splitting a join of separator-free parts, with a separator-free tail, gives the parts back. */
  lemma {:induction false} SplitJoin(parts: seq<string>, t: string, c: char)
    requires |parts| >= 1 && c !in t
    requires forall i :: 0 <= i < |parts| ==> c !in parts[i]
    ensures Split(Join(parts, [c]) + t, c) == parts[..|parts| - 1] + [parts[|parts| - 1] + t]
    decreases |parts|
  {
    if |parts| == 1 {
      SplitJoinOne(parts, t, c);
    } else {
      var q := parts[1..];
      assert forall i :: 0 <= i < |q| ==> c !in q[i] by {
        forall i | 0 <= i < |q|
          ensures c !in q[i]
        {
          assert q[i] == parts[i + 1];
        }
      }
      SplitJoin(q, t, c);
      assert q[..|q| - 1] == parts[1..|parts| - 1] && q[|q| - 1] == parts[|parts| - 1];
      assert c !in parts[0];
      SplitJoinCons(parts, t, c);
    }
  }

  /** A prefix glued to the first part of a join is a prefix of the join. */
  lemma JoinPrefix(parts: seq<string>, a: string, sep: string)
    requires |parts| >= 1
    ensures Join([a + parts[0]] + parts[1..], sep) == a + Join(parts, sep)
  {
    var q := [a + parts[0]] + parts[1..];
    if |parts| > 1 {
      assert q[1..] == parts[1..];
    }
  }

  /** A field followed by an optional checksum tail neither starts nor ends with '$'. */
  lemma FieldEnds(x: string, tail: string)
    requires PlainField(x)
    requires tail == [] || (tail[0] == '*' && tail[|tail| - 1] == '\n')
    ensures var y := x + tail; y == [] || (y[0] != '$' && y[|y| - 1] != '$')
  {
    var y := x + tail;
    if x != [] {
      assert y[0] == x[0] && x[0] in x;
    }
    if tail != [] {
      assert y[|y| - 1] == tail[|tail| - 1];
    } else if x != [] {
      assert y[|y| - 1] == x[|x| - 1] && x[|x| - 1] in x;
    }
  }

  /** Stripping '$' from an optional '$', a field and an optional checksum tail leaves the field and the tail. */
  lemma StripField(a: string, x: string, tail: string)
    requires a == "" || a == "$"
    requires PlainField(x)
    requires tail == [] || (tail[0] == '*' && tail[|tail| - 1] == '\n')
    ensures Strip(a + x + tail, '$') == x + tail
  {
    var y := x + tail;
    FieldEnds(x, tail);
    assert a + x + tail == a + y;
    assert StripLeading(y, '$') == y;
    assert StripLeading(a + y, '$') == y by {
      if a == "$" {
        assert (a + y)[1..] == y;
      } else {
        assert a + y == y;
      }
    }
    assert StripTrailing(y, '$') == y;
  }

  /** Cutting a field and an optional checksum tail at the first '*' leaves the field. */
  lemma BeforeStarField(x: string, tail: string)
    requires PlainField(x)
    requires tail == [] || tail[0] == '*'
    ensures BeforeStar(x + tail) == x
  {
    if tail == [] {
      assert x + tail == x;
      SplitNone(x, '*');
    } else {
      assert x + tail == x + ['*'] + tail[1..];
      SplitAt(x, '*', tail[1..]);
    }
  }

  /** One part of an encoded frame, read back: an optional '$', the field, and an optional '*...\n' tail. */
  lemma FieldReadBack(a: string, x: string, tail: string)
    requires a == "" || a == "$"
    requires PlainField(x)
    requires tail == [] || (tail[0] == '*' && tail[|tail| - 1] == '\n')
    ensures BeforeStar(Strip(a + x + tail, '$')) == x
  {
    StripField(a, x, tail);
    BeforeStarField(x, tail);
  }

  /** A tail '*', hexadecimal digits, '\n' holds no ','. */
  lemma HexTailShape(h: string)
    requires forall i :: 0 <= i < |h| ==> h[i] in HexDigits
    ensures var t := "*" + h + "\n";
      ',' !in t && t[0] == '*' && t[|t| - 1] == '\n'
  {
    var t := "*" + h + "\n";
    assert ',' !in HexDigits;
    forall i | 0 <= i < |t|
      ensures t[i] != ','
    {
      if 1 <= i <= |h| {
        assert t[i] == h[i - 1];
      }
    }
  }

  /** The checksum tail of a frame holds no ',', so splitting at commas leaves it attached to the last field. */
  lemma TailShape(p: string)
    ensures var t := "*" + Hex02(XorAll(p)) + "\n";
      ',' !in t && t[0] == '*' && t[|t| - 1] == '\n'
  {
    HexTailShape(Hex02(XorAll(p)));
  }

  /**
   * Read back by the loopback test, a message the tool encoded gives its
   * own fields, when no field holds ',', '$' or '*'.
   */
  lemma PrevFieldsOfEncoding(fs: seq<PcField>)
    requires |fs| >= 1
    requires forall i :: 0 <= i < |fs| ==> PlainField(Str(fs[i]))
    ensures PrevFields(EncodeMessage(fs)) == StrAll(fs)
  {
    var ss := StrAll(fs);
    var n := |ss|;
    var t := "*" + Hex02(XorAll(PcPayload(fs))) + "\n";
    var e := EncodeMessage(fs);
    SplitOfEncoding(fs);
    var ps := PrevFields(e);
    assert |ps| == n;
    TailShape(PcPayload(fs));
    forall i | 0 <= i < n
      ensures ps[i] == ss[i]
    {
      var a := if i == 0 then "$" else "";
      var tail := if i == n - 1 then t else [];
      FieldReadBack(a, ss[i], tail);
      PartOfEncoding(ss, t, i);
    }
  }

  /** An encoded frame split at its commas: the fields, the first after '$', the last before the checksum tail. */
  lemma SplitOfEncoding(fs: seq<PcField>)
    requires |fs| >= 1
    requires forall i :: 0 <= i < |fs| ==> PlainField(Str(fs[i]))
    ensures var ss := StrAll(fs);
      var n := |ss|;
      var parts := ["$" + ss[0]] + ss[1..];
      Split(EncodeMessage(fs), ',') ==
        parts[..n - 1] + [parts[n - 1] + ("*" + Hex02(XorAll(PcPayload(fs))) + "\n")]
  {
    EncodeAsJoin(fs);
    TailShape(PcPayload(fs));
    SplitOfFrame(StrAll(fs), "*" + Hex02(XorAll(PcPayload(fs))) + "\n");
  }

  /** A frame of plain fields and a comma-free tail splits at its commas into the fields, '$' and tail attached. */
  lemma SplitOfFrame(ss: seq<string>, t: string)
    requires |ss| >= 1 && forall i :: 0 <= i < |ss| ==> PlainField(ss[i])
    requires ',' !in t
    ensures var n := |ss|;
      var parts := ["$" + ss[0]] + ss[1..];
      Split(Join(parts, [',']) + t, ',') == parts[..n - 1] + [parts[n - 1] + t]
  {
    DollarPartsPlain(ss);
    SplitJoin(["$" + ss[0]] + ss[1..], t, ',');
  }

  /** An encoded frame is the comma-join of its parts, '$' glued to the first, followed by the checksum tail. */
  lemma EncodeAsJoin(fs: seq<PcField>)
    requires |fs| >= 1
    ensures var ss := StrAll(fs);
      EncodeMessage(fs) == Join(["$" + ss[0]] + ss[1..], [',']) + ("*" + Hex02(XorAll(PcPayload(fs))) + "\n")
  {
    var ss := StrAll(fs);
    var p := PcPayload(fs);
    var h := Hex02(XorAll(p));
    JoinPrefix(ss, "$", ",");
    assert "$" + p + "*" + h + "\n" == ("$" + p) + ("*" + h + "\n");
  }

  /** The parts of a frame before its tail: '$' glued to the first field, then the rest, none holding ','. */
  lemma DollarPartsPlain(ss: seq<string>)
    requires |ss| >= 1 && forall i :: 0 <= i < |ss| ==> PlainField(ss[i])
    ensures var parts := ["$" + ss[0]] + ss[1..];
      forall i :: 0 <= i < |parts| ==> ',' !in parts[i]
  {
    var parts := ["$" + ss[0]] + ss[1..];
    forall i | 0 <= i < |parts|
      ensures ',' !in parts[i]
    {
      if i == 0 {
        assert ',' !in "$" + ss[0];
      } else {
        assert parts[i] == ss[i];
      }
    }
  }

  /** Part i of the split frame: the '$' on the first, the checksum tail on the last. */
  lemma PartOfEncoding(ss: seq<string>, t: string, i: nat)
    requires i < |ss|
    ensures var n := |ss|;
      var parts := ["$" + ss[0]] + ss[1..];
      (parts[..n - 1] + [parts[n - 1] + t])[i] ==
        (if i == 0 then "$" else "") + ss[i] + (if i == n - 1 then t else [])
  {
    var n := |ss|;
    var parts := ["$" + ss[0]] + ss[1..];
    var sp := parts[..n - 1] + [parts[n - 1] + t];
    if i > 0 {
      assert parts[i] == ss[i];
    }
    if i < n - 1 {
      assert sp[i] == parts[i];
    } else {
      assert sp[i] == parts[i] + t;
    }
  }

  /** The tool's own message, echoed back, is recognised as a loopback. */
  lemma OwnMessageIsLoopback(fs: seq<PcField>)
    requires |fs| >= 1
    requires forall i :: 0 <= i < |fs| ==> PlainField(Str(fs[i]))
    ensures IsLoopback(StrAll(fs), Some(EncodeMessage(fs)))
  {
    PrevFieldsOfEncoding(fs);
  }

  /** A message differing from the last one sent in a field both have is not a loopback. */
  lemma DifferentMessageIsNotLoopback(fs: seq<PcField>, cur: seq<PcField>, i: nat)
    requires |fs| >= 1
    requires forall j :: 0 <= j < |fs| ==> PlainField(Str(fs[j]))
    requires i < |fs| && i < |cur| && Str(cur[i]) != Str(fs[i])
    ensures !IsLoopback(StrAll(cur), Some(EncodeMessage(fs)))
  {
    PrevFieldsOfEncoding(fs);
  }

  // ---------------------------------------------------------------------
  // The PC tool's frames as the board receives them

  /** The fields the tool sends for a board message: the type's name, then the template's values. */
  function PcFields(m: M.Message): (fs: seq<PcField>)
    requires M.Sendable(m.kind)
    ensures |fs| >= 2
  {
    var vs := M.Values(m);
    [Name(M.Tag(m.kind))] + seq(|vs|, i requires 0 <= i < |vs| => Num(vs[i]))
  }

  /** The tool's payload for a board message is the board's own payload, checksum included. */
  lemma PcPayloadIsBoardPayload(m: M.Message)
    requires M.Sendable(m.kind)
    ensures PcPayload(PcFields(m)) == M.Payload(m)
    ensures Hex02(XorAll(M.Payload(m))) == Hex2(M.Checksum(M.Payload(m)))
  {
    var fs := PcFields(m);
    var vs := M.Values(m);
    var ss := StrAll(fs);
    var ds := DecAll(vs);
    var tag := M.Tag(m.kind);
    assert ss == [tag] + ds by {
      forall i | 0 <= i < |ss|
        ensures ss[i] == ([tag] + ds)[i]
      {
        if i > 0 {
          assert fs[i] == Num(vs[i - 1]);
        }
      }
    }
    assert PcPayload(fs) == M.Payload(m) by {
      assert ss[1..] == ds;
    }
    var p := M.Payload(m);
    assert XorAll(p) == M.Checksum(p) by {
      M.PayloadShape(m);
      XorAllMatchesBoard(p);
    }
    Hex02Byte(M.Checksum(p));
  }

  /**
   * As written: a frame the tool encodes for any board message never
   * completes in the board's decoder, which ends a frame only at "\r\n".
   * Every byte yields NO_EVENT and the decoder is left recording.
   */
  lemma PcFrameNeverCompletes(m: M.Message, st: M.DecoderState, ev: M.Event)
    requires M.Sendable(m.kind)
    ensures var f := EncodeMessage(PcFields(m));
      var r := M.Feed(st, f, ev);
      r.state == M.DecoderState(f, true) && r.kinds == seq(|f|, _ => M.NoEvent)
  {
    var x := PcFrameBody(m);
    FeedUnterminated(st, x, ev);
  }

  /** The tool's frame for a board message: '$', a body free of '$' and '\n' ending in a hex digit, and '\n'. */
  lemma PcFrameBody(m: M.Message) returns (x: string)
    requires M.Sendable(m.kind)
    ensures EncodeMessage(PcFields(m)) == "$" + x + "\n"
    ensures '$' !in x && '\n' !in x && 1 <= |x| <= 43 && x[|x| - 1] != '\r'
  {
    var p := M.Payload(m);
    var h := Hex2(M.Checksum(p));
    PcPayloadIsBoardPayload(m);
    M.PayloadShape(m);
    StarBody(p, h);
    x := p + "*" + h;
    EncodeOfPayload(PcFields(m), p, h);
  }

  /** encode_message in terms of its payload and the payload's checksum digits. */
  lemma EncodeOfPayload(fs: seq<PcField>, p: string, h: string)
    requires PcPayload(fs) == p && Hex02(XorAll(p)) == h
    ensures EncodeMessage(fs) == "$" + (p + "*" + h) + "\n"
  {
    assert "$" + p + "*" + h + "\n" == "$" + (p + "*" + h) + "\n";
  }

  /** A plain payload, '*' and two hexadecimal digits: no '$' or '\n', at most 43 bytes, not ending in '\r'. */
  lemma StarBody(p: string, h: string)
    requires M.PlainText(p) && |p| <= 40
    requires |h| == 2 && IsHexChar(h[0]) && IsHexChar(h[1])
    ensures var x := p + "*" + h;
      '$' !in x && '\n' !in x && 1 <= |x| <= 43 && x[|x| - 1] != '\r'
  {
    M.PlainHasNoMarkers(p);
    var x := p + "*" + h;
    assert x == p + ['*', h[0], h[1]];
  }

  /**
   * A frame whose body does not end in '\r' is only recorded: every byte,
   * the final '\n' included, yields NO_EVENT and the decoder keeps recording.
   */
  lemma FeedUnterminated(st: M.DecoderState, x: string, ev: M.Event)
    requires '$' !in x && '\n' !in x && 1 <= |x| <= M.MaxLen - 3 && x[|x| - 1] != '\r'
    ensures var f := "$" + x + "\n";
      M.Feed(st, f, ev) == M.Run(M.DecoderState(f, true), ev.(kind := M.NoEvent), seq(|f|, _ => M.NoEvent))
  {
    var ev1 := ev.(kind := M.NoEvent);
    var g := "$" + x + "\n";
    assert M.Feed(st, "$", ev) == M.Run(M.DecoderState("$", true), ev1, [M.NoEvent]);
    M.NoNewlineNoTerminator(x);
    M.FeedRecords("$", x, ev1);
    assert M.Feed(M.DecoderState("$" + x, true), "\n", ev1) == M.Run(M.DecoderState(g, true), ev1, [M.NoEvent]) by {
      assert g[|g| - 2] == x[|x| - 1];
    }
    M.FeedAppend(st, "$", x, ev);
    M.FeedAppend(st, "$" + x, "\n", ev);
    assert [M.NoEvent] + seq(|x|, _ => M.NoEvent) + [M.NoEvent] == seq(|g|, _ => M.NoEvent);
  }

  /** encode_message with the "\r\n" terminator the board's frame format requires. */
  function EncodeMessageCrlf(fs: seq<PcField>): string
  {
    var p := PcPayload(fs);
    "$" + p + "*" + Hex02(XorAll(p)) + "\r\n"
  }

  /** Corrected: with "\r\n" the tool's frame is exactly the board's encoding of the message. */
  lemma CrlfFrameIsBoardFrame(m: M.Message)
    requires M.Sendable(m.kind)
    ensures EncodeMessageCrlf(PcFields(m)) == M.Encode(m)
  {
    PcPayloadIsBoardPayload(m);
  }

  /** Corrected: the board decodes the tool's frame to the message's received event. */
  lemma CrlfFrameIsReceived(m: M.Message, st: M.DecoderState, ev: M.Event)
    requires M.Sendable(m.kind)
    ensures M.Feed(st, EncodeMessageCrlf(PcFields(m)), ev).event == M.Received(m, ev)
  {
    CrlfFrameIsBoardFrame(m);
    M.DecodeEncoding(m, st, ev);
  }
}
