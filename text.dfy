/**
 * Character-level helpers shared by the message codec and the PC tool:
 * decimal and hexadecimal rendering as printf does it, C-string
 * truncation at the first NUL, and the subset of sscanf the parser uses
 * ("%u" and "%3s").
 */
module Text {
  import opened Bits

  datatype Option<T> = None | Some(value: T)

  predicate IsDigit(c: char) { '0' <= c <= '9' }

  /** isspace in the C locale. */
  predicate IsSpace(c: char)
  {
    c == ' ' || c == '\t' || c == '\n' || c == '\U{0B}' || c == '\U{0C}' || c == '\r'
  }

  /** Accepted by the decoder's checksum validation: 0-9, A-F, a-f. */
  predicate IsHexChar(c: char)
  {
    ('0' <= c <= '9') || ('A' <= c <= 'F') || ('a' <= c <= 'f')
  }

  predicate AllDigits(s: string)
  {
    forall i :: 0 <= i < |s| ==> IsDigit(s[i])
  }

  function DigitChar(d: nat): (c: char)
    requires d < 10
    ensures IsDigit(c)
  {
    ('0' as int + d) as char
  }

  function DigitValue(c: char): nat
    requires IsDigit(c)
  {
    c as int - '0' as int
  }

  function Pow10(k: nat): (r: nat)
    ensures r >= 1
  {
    if k == 0 then 1 else 10 * Pow10(k - 1)
  }

  /** printf "%u": the decimal digits of n, without leading zeros. */
  function Dec(n: nat): (s: string)
    ensures |s| >= 1 && AllDigits(s)
  {
    if n < 10 then [DigitChar(n)] else Dec(n / 10) + [DigitChar(n % 10)]
  }

  /** printf "%d" (and Python's str) of an integer. */
  function SignedDec(v: int): (s: string)
    ensures |s| >= 1
  {
    if v < 0 then "-" + Dec(-v) else Dec(v)
  }

  /** The number a run of decimal digits denotes. */
  function DigitsValue(s: string): nat
    requires AllDigits(s)
  {
    if s == [] then 0 else DigitsValue(s[..|s| - 1]) * 10 + DigitValue(s[|s| - 1])
  }

  /** Reading back the digits printf wrote gives the number printed. */
  lemma {:induction false} DecValue(n: nat)
    ensures DigitsValue(Dec(n)) == n
  {
    if n >= 10 {
      DecValue(n / 10);
      var s := Dec(n / 10) + [DigitChar(n % 10)];
      assert s[..|s| - 1] == Dec(n / 10);
    }
  }

  /** A number below 10^k prints in at most k digits. */
  lemma {:induction false} DecLength(n: nat, k: nat)
    requires 1 <= k && n < Pow10(k)
    ensures |Dec(n)| <= k
  {
    if n >= 10 {
      DecLength(n / 10, k - 1);
    }
  }

  const HexDigits: string := "0123456789ABCDEF"

  /** printf "%02X" of a byte: exactly two upper-case hexadecimal digits. */
  function Hex2(b: nat): (s: string)
    requires b < 256
    ensures |s| == 2 && IsHexChar(s[0]) && IsHexChar(s[1])
  {
    [HexDigits[b / 16], HexDigits[b % 16]]
  }

  /** Distinct bytes print as distinct pairs of digits. */
  lemma Hex2Injective(a: nat, b: nat)
    requires a < 256 && b < 256 && Hex2(a) == Hex2(b)
    ensures a == b
  {
    assert forall i, j :: 0 <= i < 16 && 0 <= j < 16 && HexDigits[i] == HexDigits[j] ==> i == j;
    assert a / 16 == b / 16 && a % 16 == b % 16;
  }

  /** Index of the first NUL of s, or |s| when there is none. */
  function NulIndex(s: string): (k: nat)
    ensures k <= |s|
    ensures forall i :: 0 <= i < k ==> s[i] != '\0'
    ensures k < |s| ==> s[k] == '\0'
  {
    if s == [] || s[0] == '\0' then 0 else 1 + NulIndex(s[1..])
  }

  /** The C string stored at the start of s: everything before the first NUL. */
  function CStr(s: string): (r: string)
    ensures '\0' !in r
    ensures r <= s
  {
    s[..NulIndex(s)]
  }

  lemma CStrNoNul(s: string)
    requires '\0' !in s
    ensures CStr(s) == s
  {
    assert forall i | 0 <= i < |s| :: s[i] in s;
  }

  /** A C string that does not start with NUL is its first byte followed by the C string after it. */
  lemma CStrStep(s: string)
    requires s != [] && s[0] != '\0'
    ensures CStr(s) == [s[0]] + CStr(s[1..])
  {
    assert s[1..][..NulIndex(s[1..])] == s[1..1 + NulIndex(s[1..])];
  }

  /** Writing a NUL after a NUL-free string a makes a the C string stored there. */
  lemma CStrTerminated(a: string, b: string)
    requires '\0' !in a
    ensures CStr(a + ['\0'] + b) == a
  {
    var s := a + ['\0'] + b;
    assert s[|a|] == '\0';
    assert forall i | 0 <= i < |a| :: s[i] == a[i] && a[i] in a;
    assert s[..|a|] == a;
  }

  /** strchr: the index of the first occurrence of c. */
  function FirstIndex(s: string, c: char): (r: Option<nat>)
    ensures r.None? <==> c !in s
    ensures r.Some? ==> r.value < |s| && s[r.value] == c && c !in s[..r.value]
  {
    if s == [] then None
    else if s[0] == c then Some(0)
    else match FirstIndex(s[1..], c)
      case None => None
      case Some(k) => assert s[1..][..k] == s[1..k + 1]; Some(k + 1)
  }

  lemma FirstIndexAfter(a: string, c: char, b: string)
    requires c !in a
    ensures FirstIndex(a + [c] + b, c) == Some(|a|)
  {
    var s := a + [c] + b;
    assert s[|a|] == c;
    assert s[..|a|] == a;
    assert forall k :: |a| < k <= |s| ==> s[..k][|a|] == c;
  }

  // ---------------------------------------------------------------------
  // sscanf

  function SkipSpace(s: string): (r: string)
    ensures |r| <= |s|
    ensures r != [] ==> !IsSpace(r[0])
  {
    if s != [] && IsSpace(s[0]) then SkipSpace(s[1..]) else s
  }

  /** Length of the run of digits at the start of s. */
  function DigitRun(s: string): (n: nat)
    ensures n <= |s| && AllDigits(s[..n])
    ensures n < |s| ==> !IsDigit(s[n])
  {
    if s != [] && IsDigit(s[0]) then
      var n := 1 + DigitRun(s[1..]);
      assert s[..n] == [s[0]] + s[1..][..n - 1];
      n
    else 0
  }

  datatype Scanned = Scanned(value: int, rest: string)

  /**
   * One "%u" conversion: leading white space, an optional sign and a
   * non-empty run of digits. A minus sign negates the value, which the
   * caller reduces to the width of the destination.
   */
  function ScanU(s: string): (r: Option<Scanned>)
    ensures r.Some? ==> |r.value.rest| < |s|
  {
    ScanSigned(SkipSpace(s))
  }

  /** The optional sign of a "%u" conversion, then its digits. */
  function ScanSigned(t: string): (r: Option<Scanned>)
    ensures r.Some? ==> |r.value.rest| < |t|
  {
    if t != [] && t[0] == '-' then
      match ScanRun(t[1..])
      case None => None
      case Some(sc) => Some(Scanned(-sc.value, sc.rest))
    else if t != [] && t[0] == '+' then ScanRun(t[1..])
    else ScanRun(t)
  }

  /** The non-empty run of digits at the start of u and the text after it. */
  function ScanRun(u: string): (r: Option<Scanned>)
    ensures r.Some? ==> |r.value.rest| < |u|
  {
    var n := DigitRun(u);
    if n == 0 then None else Some(Scanned(DigitsValue(u[..n]), u[n..]))
  }

  /**
   * The values "%u,%u,...,%u" (count conversions) reads from s, in order,
   * stopping at the first conversion that fails.
   */
  function ScanList(s: string, count: nat): (vs: seq<int>)
    ensures |vs| <= count
    decreases count
  {
    if count == 0 then []
    else match ScanU(s)
      case None => []
      case Some(sc) =>
        [sc.value] +
        (if count > 1 && sc.rest != [] && sc.rest[0] == ',' then ScanList(sc.rest[1..], count - 1) else [])
  }

  /** "%3s": after white space, up to three non-space characters; None at end of input. */
  function Scan3s(s: string): (r: Option<string>)
    ensures r.Some? ==> 1 <= |r.value| <= 3
  {
    var t := SkipSpace(s);
    if t == [] then None else Some(TakeWord(t, 3))
  }

  function TakeWord(t: string, k: nat): (w: string)
    ensures |w| <= k && w <= t
    ensures k > 0 && t != [] && !IsSpace(t[0]) ==> |w| >= 1
  {
    if k == 0 || t == [] || IsSpace(t[0]) then [] else [t[0]] + TakeWord(t[1..], k - 1)
  }

  // ---------------------------------------------------------------------
  // Reading back what printf wrote

  lemma {:induction false} DigitRunOfDigits(d: string, rest: string)
    requires AllDigits(d)
    requires rest == [] || !IsDigit(rest[0])
    ensures DigitRun(d + rest) == |d|
  {
    if d != [] {
      assert (d + rest)[1..] == d[1..] + rest;
      DigitRunOfDigits(d[1..], rest);
    } else {
      assert d + rest == rest;
    }
  }

  /** The run of digits d, followed by a non-digit, reads as its value. */
  lemma ScanRunDigits(d: string, rest: string)
    requires |d| >= 1 && AllDigits(d)
    requires rest == [] || !IsDigit(rest[0])
    ensures ScanRun(d + rest) == Some(Scanned(DigitsValue(d), rest))
  {
    var u := d + rest;
    DigitRunOfDigits(d, rest);
    assert u[..|d|] == d;
    assert u[|d|..] == rest;
  }

  /** "%u" on a run of digits followed by a non-digit reads exactly that run. */
  lemma ScanDigits(d: string, rest: string)
    requires |d| >= 1 && AllDigits(d)
    requires rest == [] || !IsDigit(rest[0])
    ensures ScanU(d + rest) == Some(Scanned(DigitsValue(d), rest))
  {
    var u := d + rest;
    assert u[0] == d[0];
    assert SkipSpace(u) == u;
    ScanRunDigits(d, rest);
  }

  /** A minus sign in front of a run that reads as k reads as -k. */
  lemma ScanMinusRun(u: string, k: int, rest: string)
    requires ScanRun(u) == Some(Scanned(k, rest))
    ensures ScanU(['-'] + u) == Some(Scanned(-k, rest))
  {
    var s := ['-'] + u;
    assert s[1..] == u;
    assert SkipSpace(s) == s;
  }

  /** "%u" reads back a number printed by "%u". */
  lemma ScanDec(n: nat, rest: string)
    requires rest == [] || !IsDigit(rest[0])
    ensures ScanU(Dec(n) + rest) == Some(Scanned(n, rest))
  {
    ScanDigits(Dec(n), rest);
    DecValue(n);
  }

  /** "%u" reads back a number printed by "%d", sign included. */
  lemma ScanSignedDec(v: int, rest: string)
    requires rest == [] || !IsDigit(rest[0])
    ensures ScanU(SignedDec(v) + rest) == Some(Scanned(v, rest))
  {
    if v >= 0 {
      ScanDec(v, rest);
    } else {
      var n: nat := -v;
      var u := Dec(n) + rest;
      assert ScanRun(u) == Some(Scanned(n, rest)) by {
        ScanRunDigits(Dec(n), rest);
        DecValue(n);
      }
      ScanMinusRun(u, n, rest);
      assert SignedDec(v) + rest == ['-'] + u;
    }
  }

  /** Python's sep.join and the comma-separated printf templates. */
  function Join(parts: seq<string>, sep: string): string
  {
    if |parts| == 0 then []
    else if |parts| == 1 then parts[0]
    else parts[0] + (sep + Join(parts[1..], sep))
  }

  /** The decimal text of every value, in order. */
  function DecAll(vs: seq<int>): (ds: seq<string>)
    ensures |ds| == |vs|
    ensures forall i :: 0 <= i < |vs| ==> ds[i] == SignedDec(vs[i])
  {
    if vs == [] then [] else [SignedDec(vs[0])] + DecAll(vs[1..])
  }

  /** A list read whose first conversion succeeds and is followed by a comma goes on after the comma. */
  lemma ScanListStep(s: string, count: nat, v: int, rest: string)
    requires count >= 2 && ScanU(s) == Some(Scanned(v, rest))
    requires rest != [] && rest[0] == ','
    ensures ScanList(s, count) == [v] + ScanList(rest[1..], count - 1)
  {
  }

  /** The last conversion of a list read. */
  lemma ScanListLast(s: string, v: int, rest: string)
    requires ScanU(s) == Some(Scanned(v, rest))
    ensures ScanList(s, 1) == [v]
  {
  }

  /** The comma-joined decimals of two or more values: the first one, a comma, the rest. */
  lemma JoinDecCons(vs: seq<int>)
    requires |vs| >= 2
    ensures Join(DecAll(vs), ",") == SignedDec(vs[0]) + ("," + Join(DecAll(vs[1..]), ","))
  {
    var ds := DecAll(vs);
    assert ds[1..] == DecAll(vs[1..]);
  }

  /** "%u,%u,...,%u" reads back every value a comma-separated "%d" list printed. */
  lemma {:induction false} ScanJoin(vs: seq<int>)
    requires |vs| >= 1
    ensures ScanList(Join(DecAll(vs), ","), |vs|) == vs
  {
    var j := Join(DecAll(vs), ",");
    if |vs| == 1 {
      assert j == SignedDec(vs[0]) + [];
      ScanSignedDec(vs[0], []);
      ScanListLast(j, vs[0], []);
      assert vs == [vs[0]];
    } else {
      var rest := Join(DecAll(vs[1..]), ",");
      var tail := "," + rest;
      assert ScanU(j) == Some(Scanned(vs[0], tail)) by {
        JoinDecCons(vs);
        ScanSignedDec(vs[0], tail);
      }
      assert tail[1..] == rest;
      ScanListStep(j, |vs|, vs[0], tail);
      ScanJoin(vs[1..]);
      assert vs == [vs[0]] + vs[1..];
    }
  }

  /** A join of parts of at most k characters has at most (k + 1) per part. */
  lemma {:induction false} JoinLength(parts: seq<string>, sep: string, k: nat)
    requires |sep| == 1
    requires forall i :: 0 <= i < |parts| ==> |parts[i]| <= k
    ensures |Join(parts, sep)| <= |parts| * (k + 1)
  {
    if |parts| > 1 {
      JoinLength(parts[1..], sep, k);
    }
  }

  /** "%3s" of a payload that starts with a three-letter tag and a comma. */
  lemma Scan3sTag(tag: string, rest: string)
    requires |tag| == 3 && forall i :: 0 <= i < 3 ==> 'A' <= tag[i] <= 'Z'
    requires rest == [] || rest[0] == ','
    ensures Scan3s(tag + rest) == Some(tag)
  {
    var s := tag + rest;
    assert SkipSpace(s) == s;
    assert s[1..][1..][1..] == rest;
    assert TakeWord(rest, 0) == [];
    assert TakeWord(s[1..][1..], 1) == [tag[2]];
    assert TakeWord(s[1..], 2) == [tag[1], tag[2]];
    assert TakeWord(s, 3) == [tag[0], tag[1], tag[2]] == tag;
  }
}
