/** Text as the Go standard library treats it: letter case, trimming, byte search and
    hexadecimal.  Strings are byte strings. */
module Ascii {
  import opened Wrappers
  import opened ConvertBits

  predicate IsAscii(s: string) {
    forall i :: 0 <= i < |s| ==> s[i] < 128 as char
  }

  /** Every element is a byte, as in a Go string. */
  predicate IsBytes(s: string) {
    forall i :: 0 <= i < |s| ==> s[i] < 256 as char
  }

  function LowerChar(c: char): char {
    if 'A' <= c <= 'Z' then c + 32 as char else c
  }

  function UpperChar(c: char): char {
    if 'a' <= c <= 'z' then c - 32 as char else c
  }

  function Lower(s: string): (t: string)
    ensures |t| == |s|
  {
    seq(|s|, i requires 0 <= i < |s| => LowerChar(s[i]))
  }

  function Upper(s: string): (t: string)
    ensures |t| == |s|
  {
    seq(|s|, i requires 0 <= i < |s| => UpperChar(s[i]))
  }

  predicate IsSpace(c: char) {
    c == ' ' || '\t' <= c <= '\r'
  }

  function TrimLeft(s: string): (t: string)
    ensures t == [] || !IsSpace(t[0])
  {
    if s != [] && IsSpace(s[0]) then TrimLeft(s[1..]) else s
  }

  function TrimRight(s: string): (t: string)
    ensures t == [] || !IsSpace(t[|t| - 1])
    ensures |t| <= |s| && t == s[..|t|]
  {
    if s != [] && IsSpace(s[|s| - 1]) then TrimRight(s[..|s| - 1]) else s
  }

  /** strings.TrimSpace */
  function Trim(s: string): (t: string)
    ensures t == [] || (!IsSpace(t[0]) && !IsSpace(t[|t| - 1]))
  {
    TrimRight(TrimLeft(s))
  }

  lemma TrimOfTrimmed(s: string)
    requires s == [] || (!IsSpace(s[0]) && !IsSpace(s[|s| - 1]))
    ensures Trim(s) == s
  {}

  /** strings.ToLower, strings.ToUpper and strings.TrimSpace.  Beyond ASCII they follow the
      Unicode tables, which are not spelled out: results hold for every such library. */
  datatype Library = Library(lower: string -> string, upper: string -> string, trim: string -> string)

  /** What is known of them: byte strings go to byte strings, and on ASCII text they are the
      functions above. */
  ghost predicate Sane(lib: Library) {
    && (forall s :: IsBytes(s) ==> IsBytes(lib.lower(s)))
    && (forall s :: IsBytes(s) ==> IsBytes(lib.trim(s)))
    && (forall s :: IsAscii(s) ==> lib.lower(s) == Lower(s))
    && (forall s :: IsAscii(s) ==> lib.upper(s) == Upper(s))
    && (forall s :: IsAscii(s) ==> lib.trim(s) == Trim(s))
  }

  /** strings.LastIndexByte */
  function LastIndex(s: string, c: char): (p: int)
    ensures -1 <= p < |s|
    ensures p >= 0 ==> s[p] == c
    ensures forall i :: p < i < |s| ==> s[i] != c
  {
    if s == [] then -1
    else if s[|s| - 1] == c then |s| - 1
    else LastIndex(s[..|s| - 1], c)
  }

  predicate HasPrefix(s: string, p: string) {
    |p| <= |s| && s[..|p|] == p
  }

  // ---- Hexadecimal ----

  function NibbleOf(c: char): Option<nat> {
    if '0' <= c <= '9' then Some((c - '0') as nat)
    else if 'a' <= c <= 'f' then Some((c - 'a') as nat + 10)
    else if 'A' <= c <= 'F' then Some((c - 'A') as nat + 10)
    else None
  }

  function HexDigit(n: nat): char
    requires n < 16
  {
    if n < 10 then '0' + n as char else 'a' + (n - 10) as char
  }

  /** hex.DecodeString */
  function HexDecode(s: string): Option<seq<Byte>> {
    if s == "" then Some([])
    else if |s| == 1 || NibbleOf(s[0]).None? || NibbleOf(s[1]).None? then None
    else match HexDecode(s[2..])
      case None => None
      case Some(rest) => Some([ByteOf(s[0], s[1])] + rest)
  }

  function ByteOf(hi: char, lo: char): Byte
    requires NibbleOf(hi).Some? && NibbleOf(lo).Some?
  {
    16 * NibbleOf(hi).value + NibbleOf(lo).value
  }

  /** hex.EncodeToString */
  function HexEncode(b: seq<Byte>): string {
    if b == [] then "" else [HexDigit(b[0] / 16), HexDigit(b[0] % 16)] + HexEncode(b[1..])
  }

  predicate IsHexText(s: string) {
    forall i :: 0 <= i < |s| ==> NibbleOf(s[i]).Some?
  }

  lemma HexDigits(v: Byte, hi: char, lo: char)
    requires hi == HexDigit(v / 16) && lo == HexDigit(v % 16)
    ensures NibbleOf(hi).Some? && NibbleOf(lo).Some? && ByteOf(hi, lo) == v
    ensures LowerChar(hi) == hi && LowerChar(lo) == lo
  {}

  lemma {:induction false} HexRoundTrip(b: seq<Byte>)
    ensures HexDecode(HexEncode(b)) == Some(b)
    ensures |HexEncode(b)| == 2 * |b|
    ensures IsHexText(HexEncode(b)) && Lower(HexEncode(b)) == HexEncode(b)
  {
    if b != [] {
      var h := HexEncode(b);
      HexRoundTrip(b[1..]);
      HexDigits(b[0], h[0], h[1]);
      assert h[2..] == HexEncode(b[1..]);
      assert [b[0]] + b[1..] == b;
      assert h == [h[0], h[1]] + h[2..];
      assert Lower(h) == [LowerChar(h[0]), LowerChar(h[1])] + Lower(h[2..]);
    }
  }

  /** Decoding accepts either letter case; encoding answers in lower case. */
  lemma {:induction false} HexReprint(s: string)
    requires HexDecode(s).Some?
    ensures HexEncode(HexDecode(s).value) == Lower(s)
    ensures |s| == 2 * |HexDecode(s).value| && IsHexText(s)
  {
    if s != "" {
      HexReprint(s[2..]);
      var b := ByteOf(s[0], s[1]);
      assert b / 16 == NibbleOf(s[0]).value && b % 16 == NibbleOf(s[1]).value;
      assert HexDigit(b / 16) == LowerChar(s[0]) && HexDigit(b % 16) == LowerChar(s[1]);
      var v := HexDecode(s).value;
      assert v[1..] == HexDecode(s[2..]).value;
      assert Lower(s) == [LowerChar(s[0]), LowerChar(s[1])] + Lower(s[2..]);
      forall i | 0 <= i < |s| ensures NibbleOf(s[i]).Some? {
        if i >= 2 { assert s[i] == s[2..][i - 2]; }
      }
    }
  }

  lemma HexIsAscii(s: string)
    requires HexDecode(s).Some?
    ensures IsAscii(s) && IsBytes(s)
  {
    HexReprint(s);
    forall i | 0 <= i < |s| ensures s[i] < 128 as char { assert NibbleOf(s[i]).Some?; }
  }

  /** Text of an even number of hex digits decodes, to the same bytes in either case. */
  lemma {:induction false} HexAccepts(s: string)
    requires IsHexText(s) && |s| % 2 == 0
    ensures HexDecode(s).Some? && HexDecode(Lower(s)) == HexDecode(s)
  {
    if s != "" {
      assert forall i :: 0 <= i < |s[2..]| ==> s[2..][i] == s[i + 2];
      HexAccepts(s[2..]);
      assert Lower(s)[2..] == Lower(s[2..]);
    }
  }

  // ---- Anchors ----

  /** Digits and letters of either case have the values they spell; an odd number of digits or
      any other character is refused. */
  lemma KnownHex(c: char)
    ensures HexDecode("A9") == Some([169]) && HexDecode("0f") == Some([15])
    ensures HexDecode([c]) == None && (c !in "0123456789abcdefABCDEF" ==> HexDecode(['0', c]) == None)
  {
    PairOfDigits('A', '9', "A9");
    PairOfDigits('0', 'f', "0f");
    if NibbleOf(c).Some? { NibbleChars(c); }
    var s := ['0', c];
    assert s[1] == c;
  }

  lemma PairOfDigits(hi: char, lo: char, s: string)
    requires NibbleOf(hi).Some? && NibbleOf(lo).Some? && s == [hi, lo]
    ensures HexDecode(s) == Some([ByteOf(hi, lo)])
  {
    var none: seq<Byte> := [];
    assert s[2..] == "" && HexDecode(s[2..]) == Some(none) && [ByteOf(hi, lo)] + none == [ByteOf(hi, lo)];
  }

  lemma NibbleChars(c: char)
    requires NibbleOf(c).Some?
    ensures c in "0123456789abcdefABCDEF"
  {
    var s := "0123456789abcdefABCDEF";
    var i := if c <= '9' then (c - '0') as nat else if 'a' <= c then 10 + (c - 'a') as nat else 16 + (c - 'A') as nat;
    assert s[i] == c;
  }

  lemma KnownCase()
    ensures Lower("sTaZ1") == "staz1" && Upper("sTaZ1") == "STAZ1"
  {}

  lemma KnownTrim()
    ensures Trim(" \t1 2\n") == "1 2"
  {
    var s, t, u := " \t1 2\n", "\t1 2\n", "1 2\n";
    assert s[1..] == t && t[1..] == u && u[..3] == "1 2";
    assert TrimLeft(s) == TrimLeft(t) == TrimLeft(u) == u;
    assert TrimRight(u) == TrimRight("1 2") == "1 2";
  }
}
