/** Bech32 text (BIP-173, "Bech32"): the printer of stakeaddr.go and the parser of
    rewardaddr.go. */
module Bech32 {
  import opened Wrappers
  import opened Bits
  import opened Gf2
  import opened ConvertBits
  import opened Ascii
  import opened Polymod

  const CHARSET: string := "qpzry9x8gf2tvdw0s3jn54khce6mua7l"

  /** `bech32Charset[v]` */
  function CharOf(v: Byte): char
    requires v < 32
  {
    match v
    case 0 => 'q' case 1 => 'p' case 2 => 'z' case 3 => 'r'
    case 4 => 'y' case 5 => '9' case 6 => 'x' case 7 => '8'
    case 8 => 'g' case 9 => 'f' case 10 => '2' case 11 => 't'
    case 12 => 'v' case 13 => 'd' case 14 => 'w' case 15 => '0'
    case 16 => 's' case 17 => '3' case 18 => 'j' case 19 => 'n'
    case 20 => '5' case 21 => '4' case 22 => 'k' case 23 => 'h'
    case 24 => 'c' case 25 => 'e' case 26 => '6' case 27 => 'm'
    case 28 => 'u' case 29 => 'a' case 30 => '7' case 31 => 'l'
  }

  /** `strings.IndexByte(bech32Charset, c)`, absent when the character is not there. */
  function SymbolOf(c: char): Option<Byte> {
    match c
    case 'q' => Some(0) case 'p' => Some(1) case 'z' => Some(2) case 'r' => Some(3)
    case 'y' => Some(4) case '9' => Some(5) case 'x' => Some(6) case '8' => Some(7)
    case 'g' => Some(8) case 'f' => Some(9) case '2' => Some(10) case 't' => Some(11)
    case 'v' => Some(12) case 'd' => Some(13) case 'w' => Some(14) case '0' => Some(15)
    case 's' => Some(16) case '3' => Some(17) case 'j' => Some(18) case 'n' => Some(19)
    case '5' => Some(20) case '4' => Some(21) case 'k' => Some(22) case 'h' => Some(23)
    case 'c' => Some(24) case 'e' => Some(25) case '6' => Some(26) case 'm' => Some(27)
    case 'u' => Some(28) case 'a' => Some(29) case '7' => Some(30) case 'l' => Some(31)
    case _ => None
  }

  lemma TablesInverse(v: Byte, c: char)
    requires v < 32
    ensures SymbolOf(c) == Some(v) <==> c == CharOf(v)
  {}

  lemma CharTable(v: Byte)
    requires v < 32
    ensures |CHARSET| == 32 && CharOf(v) == CHARSET[v]
  {}

  /** The two tables are the charset string and its inverse. */
  lemma TablesAreCharset(c: char)
    ensures SymbolOf(c).Some? <==> c in CHARSET
    ensures SymbolOf(c).Some? ==> SymbolOf(c).value < 32 && CHARSET[SymbolOf(c).value] == c
  {
    if SymbolOf(c).Some? {
      TablesInverse(SymbolOf(c).value, c);
      CharTable(SymbolOf(c).value);
    }
    if c in CHARSET {
      CharTable(0);
      var i :| 0 <= i < |CHARSET| && CHARSET[i] == c;
      CharTable(i);
      TablesInverse(i, c);
    }
  }

  lemma SymbolIsPlain(c: char)
    requires SymbolOf(c).Some?
    ensures c != '1' && c < 128 as char && LowerChar(c) == c
  {}

  predicate IsSymbolText(s: string) {
    forall i :: 0 <= i < |s| ==> SymbolOf(s[i]).Some?
  }

  function Spell(values: seq<Byte>): (s: string)
    requires Fits(values, 5)
    ensures |s| == |values|
  {
    seq(|values|, i requires 0 <= i < |values| => CharOf(values[i]))
  }

  function Symbols(s: string): (r: Option<seq<Byte>>)
  {
    if s == "" then Some([])
    else
      match Symbols(s[..|s| - 1])
      case None => None
      case Some(front) =>
        match SymbolOf(s[|s| - 1])
        case None => None
        case Some(v) => Some(front + [v])
  }

  lemma {:induction false} SymbolsOfSpell(values: seq<Byte>)
    requires Fits(values, 5)
    ensures Symbols(Spell(values)) == Some(values)
  {
    if values != [] {
      var n := |values| - 1;
      assert Spell(values)[..n] == Spell(values[..n]);
      SymbolsOfSpell(values[..n]);
      TablesInverse(values[n], Spell(values)[n]);
      assert values == values[..n] + [values[n]];
    }
  }

  lemma SymbolRange(c: char)
    ensures Pow2(5) == 32
    ensures SymbolOf(c).Some? ==> SymbolOf(c).value < 32 && CharOf(SymbolOf(c).value) == c
  {
    if SymbolOf(c).Some? { TablesInverse(SymbolOf(c).value, c); }
  }

  lemma {:induction false} SpellOfSymbols(s: string)
    ensures Symbols(s).Some? ==>
      && |Symbols(s).value| == |s|
      && Fits(Symbols(s).value, 5)
      && Spell(Symbols(s).value) == s
    ensures Symbols(s).Some? <==> IsSymbolText(s)
  {
    hide SymbolOf, CharOf, Pow2;
    if s != "" {
      var n := |s| - 1;
      SpellOfSymbols(s[..n]);
      SymbolRange(s[n]);
      if Symbols(s).Some? {
        var v := Symbols(s).value;
        assert v[..n] == Symbols(s[..n]).value;
        forall i | 0 <= i < |s| ensures v[i] < Pow2(5) && CharOf(v[i]) == s[i] && SymbolOf(s[i]).Some? {
          if i < n { assert v[i] == v[..n][i] && Spell(v[..n])[i] == s[..n][i]; }
        }
      }
    }
  }

  lemma {:induction false} SymbolsStop(s: string, k: nat)
    requires k <= |s| && Symbols(s[..k]).None?
    ensures Symbols(s).None?
  {
    if k == |s| {
      assert s[..k] == s;
    } else {
      assert s[..|s| - 1][..k] == s[..k];
      SymbolsStop(s[..|s| - 1], k);
    }
  }

  // ---- Checksum ----

  /** The human-readable part as the checksum sees it: high bits, a zero, low bits. */
  function HrpExpand(hrp: string): (v: seq<Byte>)
    requires IsBytes(hrp)
    ensures Fits(v, 5)
  {
    assert Pow2(5) == 32;
    seq(|hrp|, i requires 0 <= i < |hrp| => (hrp[i] as int / 32) as Byte) + [0]
    + seq(|hrp|, i requires 0 <= i < |hrp| => (hrp[i] as int % 32) as Byte)
  }

  method ExpandHrp(hrp: string) returns (out: seq<Byte>)
    requires IsBytes(hrp)
    ensures out == HrpExpand(hrp)
  {
    out := [];
    for i := 0 to |hrp|
      invariant |out| == i && forall k :: 0 <= k < i ==> out[k] == hrp[k] as int / 32
    {
      out := out + [hrp[i] as int / 32];
    }
    out := out + [0];
    for i := 0 to |hrp|
      invariant |out| == |hrp| + 1 + i && out[..|hrp| + 1] == HrpExpand(hrp)[..|hrp| + 1]
      invariant forall k :: 0 <= k < i ==> out[|hrp| + 1 + k] == hrp[k] as int % 32
    {
      out := out + [hrp[i] as int % 32];
    }
  }

  /** The expansion is a zero between the high bits of all characters and the low five of all, and
      these are the two parts of each: it determines the prefix. */
  lemma ExpandExact(hrp: string, i: nat)
    requires IsBytes(hrp) && i < |hrp|
    ensures var v, n := HrpExpand(hrp), |hrp|;
      && |v| == 2 * n + 1 && v[n] == 0
      && v[i] < 8 && v[n + 1 + i] < 32 && 32 * v[i] as int + v[n + 1 + i] as int == hrp[i] as int
  {}

  const SIX_ZEROS: seq<Byte> := [0, 0, 0, 0, 0, 0]

  /** The register that the checksum must spell. */
  function Residue(hrp: string, data: seq<Byte>): nat
    requires IsBytes(hrp)
  {
    Xor(Run(1, HrpExpand(hrp) + data + SIX_ZEROS), 1)
  }

  /** The six symbols that spell the 30 bits of the residue. */
  function Checksum(hrp: string, data: seq<Byte>): (c: seq<Byte>)
    requires IsBytes(hrp)
    ensures Fits(c, 5)
  {
    Group(Low(Residue(hrp, data), 30), 5)
  }

  /** Exactly one choice of six trailing symbols makes the register end in 1. */
  lemma ChecksumUnique(hrp: string, data: seq<Byte>, c: seq<Byte>)
    requires IsBytes(hrp) && Fits(data, 5) && |c| == 6 && Fits(c, 5)
    ensures Run(1, HrpExpand(hrp) + data + c) == 1 <==> c == Checksum(hrp, data)
  {
    var m := HrpExpand(hrp) + data;
    var s := Run(1, m);
    RunAppend(1, m, c);
    RunAppend(1, m, SIX_ZEROS);
    assert SIX_ZEROS == seq(6, _ => 0);
    TrailingSymbols(s, c);
    var z, p, r := Run(s, SIX_ZEROS), Run(0, c), Residue(hrp, data);
    SixSymbolsFit(c, 30);
    ResidueBelow(hrp, data);
    assert Xor(z, p) == 1 <==> p == r by {
      Associates(z, p, 1);
      Commutes(p, 1);
      Associates(z, 1, p);
      ZeroOnlyIfEqual(Xor(z, p), 1);
      ZeroOnlyIfEqual(r, p);
    }
    NumberOfLow(p, 30);
    NumberOfLow(r, 30);
    GroupUnique(c, 5);
    GroupSpells(Low(r, 30), 5);
  }

  lemma ResidueBelow(hrp: string, data: seq<Byte>)
    requires IsBytes(hrp) && Fits(data, 5)
    ensures Residue(hrp, data) < Pow2(30)
  {
    WordsBelow(1, HrpExpand(hrp) + data + SIX_ZEROS, BITS);
    Below(Run(1, HrpExpand(hrp) + data + SIX_ZEROS), 1, BITS);
  }

  lemma WordsBelow(chk: nat, m: seq<Byte>, k: nat)
    requires k == BITS && Fits(m, 5) && chk <= 1
    ensures Words(m, k) && chk < Pow2(k) && 1 < Pow2(k) && Run(chk, m) < Pow2(k)
  {
    Pow2Monotone(5, k);
    Pow2Monotone(1, k);
    RunBelow(chk, m, k);
  }

  method ComputeChecksum(hrp: string, data: seq<Byte>) returns (out: seq<Byte>)
    requires IsBytes(hrp) && Fits(data, 5)
    ensures out == Checksum(hrp, data)
  {
    hide Mask, Shr, Run, HrpExpand;
    var expanded := ExpandHrp(hrp);
    var register := Polymod.Polymod(expanded + data + SIX_ZEROS);
    var residue := Xor(register, 1);
    out := [];
    for i := 0 to 6
      invariant Fits(out, 5)
      invariant Low(residue, 30) == BitString(out, 5) + Low(residue, 5 * (6 - i))
    {
      var v := Mask(Shr(residue, 5 * (5 - i)), 5);
      ShiftOut(residue, 5, 5 * (6 - i), 5 * (5 - i), v);
      SpellNext(Low(residue, 30), out, Low(residue, 5 * (6 - i)), v, Low(residue, 5 * (5 - i)));
      out := out + [v];
    }
    assert BitString(out, 5) == Low(residue, 30);
    GroupUnique(out, 5);
  }

  lemma SpellNext(bs: seq<bool>, out: seq<Byte>, rest: seq<bool>, v: Byte, rest': seq<bool>)
    requires bs == BitString(out, 5) + rest && rest == Low(v, 5) + rest'
    ensures bs == BitString(out + [v], 5) + rest'
  {
    BitStringSnoc(out, v, 5);
    Assoc(BitString(out, 5), Low(v, 5), rest');
  }

  // ---- Printer and parser ----

  function Encode(hrp: string, data: seq<Byte>): string
    requires IsBytes(hrp) && Fits(data, 5)
  {
    hrp + "1" + Spell(data + Checksum(hrp, data))
  }

  method PrintBech32(hrp: string, data: seq<Byte>) returns (s: string)
    requires IsBytes(hrp) && Fits(data, 5)
    ensures s == Encode(hrp, data)
  {
    var checksum := ComputeChecksum(hrp, data);
    var combined := data + checksum;
    s := hrp + "1";
    for i := 0 to |combined|
      invariant s == hrp + "1" + Spell(combined[..i])
    {
      assert Spell(combined[..i + 1]) == Spell(combined[..i]) + [CharOf(combined[i])];
      s := s + [CharOf(combined[i])];
    }
    assert combined[..|combined|] == combined;
  }

  /** The text is its own lower-case or its own upper-case form. */
  predicate OneCase(lib: Library, s: string) {
    s == lib.lower(s) || s == lib.upper(s)
  }

  datatype DecodeError = MixedCase | NoSeparator | BadCharacter | BadChecksum

  type Decoded = Result<(string, seq<Byte>), DecodeError>

  /** The part after the separator: symbols, the last six of them the checksum. */
  function DecodeBody(hrp: string, body: string): Decoded
    requires IsBytes(hrp) && |body| >= 6
  {
    match Symbols(body)
    case None => Err(BadCharacter)
    case Some(data) =>
      SpellOfSymbols(body);
      if Run(1, HrpExpand(hrp) + data) != 1 then Err(BadChecksum)
      else Ok((hrp, data[..|data| - 6]))
  }

  function Decode(lib: Library, s: string): Decoded
    requires IsBytes(lib.lower(s))
  {
    if !OneCase(lib, s) then Err(MixedCase)
    else
      var t := lib.lower(s);
      var pos := LastIndex(t, '1');
      if pos < 1 || pos + 7 > |t| then Err(NoSeparator)
      else DecodeBody(t[..pos], t[pos + 1..])
  }

  method ParseBech32(lib: Library, s: string) returns (r: Decoded)
    requires IsBytes(lib.lower(s))
    ensures r == Decode(lib, s)
  {
    hide DecodeBody, LastIndex;
    if s != lib.lower(s) && s != lib.upper(s) {
      return Err(MixedCase);
    }
    var t := lib.lower(s);
    var pos := LastIndex(t, '1');
    if pos < 1 || pos + 7 > |t| {
      return Err(NoSeparator);
    }
    r := ParseBody(t[..pos], t[pos + 1..]);
  }

  method ParseBody(hrp: string, body: string) returns (r: Decoded)
    requires IsBytes(hrp) && |body| >= 6
    ensures r == DecodeBody(hrp, body)
  {
    var data: seq<Byte> := [];
    for i := 0 to |body|
      invariant |data| == i && Symbols(body[..i]) == Some(data)
    {
      assert body[..i + 1][..i] == body[..i];
      var idx := SymbolOf(body[i]);
      if idx == None {
        SymbolsStop(body, i + 1);
        return Err(BadCharacter);
      }
      data := data + [idx.value];
    }
    assert body[..|body|] == body;
    var expanded := ExpandHrp(hrp);
    var register := Polymod.Polymod(expanded + data);
    if register != 1 {
      return Err(BadChecksum);
    }
    return Ok((hrp, data[..|data| - 6]));
  }

  // ---- Printer and parser undo each other ----

  lemma ChecksumLength(hrp: string, data: seq<Byte>)
    requires IsBytes(hrp) && Fits(data, 5)
    ensures |Checksum(hrp, data)| == 6
  {
    GroupSpells(Low(Residue(hrp, data), 30), 5);
    GroupLength(Low(Residue(hrp, data), 30), 5, 6);
  }

  lemma {:induction false} GroupLength(bs: seq<bool>, width: nat, n: nat)
    requires 1 <= width <= 8 && |bs| == width * n && Leftover(|bs|, width) == 0
    ensures |Group(bs, width)| == n
  {
    if n != 0 {
      assert |bs| >= width;
      assert |bs| - width == width * (n - 1);
      GroupLength(bs[..|bs| - width], width, n - 1);
    }
  }

  lemma {:induction false} LastIndexAfter(front: string, rest: string, c: char)
    requires front != "" && front[|front| - 1] == c && c !in rest
    ensures LastIndex(front + rest, c) == |front| - 1
  {
    if rest == "" {
      assert front + rest == front;
    } else {
      assert (front + rest)[..|front + rest| - 1] == front + rest[..|rest| - 1];
      LastIndexAfter(front, rest[..|rest| - 1], c);
    }
  }

  lemma SeparatorFound(hrp: string, body: string)
    requires IsSymbolText(body)
    ensures LastIndex(hrp + "1" + body, '1') == |hrp|
  {
    hide SymbolOf, LastIndex;
    forall k | 0 <= k < |body| ensures body[k] != '1' { SymbolIsPlain(body[k]); }
    LastIndexAfter(hrp + "1", body, '1');
  }

  lemma SpellIsText(values: seq<Byte>)
    requires Fits(values, 5)
    ensures IsSymbolText(Spell(values))
  {
    SymbolsOfSpell(values);
    SpellOfSymbols(Spell(values));
  }

  lemma AcceptsPrintedBody(hrp: string, data: seq<Byte>)
    requires IsBytes(hrp) && Fits(data, 5)
    ensures var body := Spell(data + Checksum(hrp, data));
      |body| >= 6 && IsSymbolText(body) && DecodeBody(hrp, body) == Ok((hrp, data))
  {
    hide SymbolOf, Symbols, Checksum, HrpExpand, Run;
    var c := Checksum(hrp, data);
    ChecksumLength(hrp, data);
    SpellIsText(data + c);
    SymbolsOfSpell(data + c);
    ChecksumUnique(hrp, data, c);
    assert HrpExpand(hrp) + data + c == HrpExpand(hrp) + (data + c);
    assert (data + c)[..|data + c| - 6] == data;
  }

  lemma AcceptsOnlyPrintedBody(hrp: string, body: string)
    requires IsBytes(hrp) && |body| >= 6 && DecodeBody(hrp, body).Ok?
    ensures var (h, data) := DecodeBody(hrp, body).value;
      h == hrp && Fits(data, 5) && body == Spell(data + Checksum(hrp, data))
  {
    SpellOfSymbols(body);
    var v := Symbols(body).value;
    var data, c := v[..|v| - 6], v[|v| - 6..];
    assert v == data + c;
    assert HrpExpand(hrp) + data + c == HrpExpand(hrp) + v;
    ChecksumUnique(hrp, data, c);
  }

  lemma AcceptsPrinted(lib: Library, s: string, hrp: string, data: seq<Byte>)
    requires IsBytes(lib.lower(s)) && IsBytes(hrp) && Fits(data, 5)
    requires OneCase(lib, s) && hrp != "" && lib.lower(s) == Encode(hrp, data)
    ensures Decode(lib, s) == Ok((hrp, data))
  {
    var body := Spell(data + Checksum(hrp, data));
    AcceptsPrintedBody(hrp, data);
    SeparatorFound(hrp, body);
    assert (hrp + "1" + body)[..|hrp|] == hrp && (hrp + "1" + body)[|hrp| + 1..] == body;
  }

  lemma AcceptsOnlyPrinted(lib: Library, s: string)
    requires IsBytes(lib.lower(s)) && Decode(lib, s).Ok?
    ensures var (hrp, data) := Decode(lib, s).value;
      && OneCase(lib, s) && hrp != "" && IsBytes(hrp) && Fits(data, 5)
      && lib.lower(s) == Encode(hrp, data)
  {
    hide LastIndex, DecodeBody, Checksum;
    var t := lib.lower(s);
    var pos := LastIndex(t, '1');
    AcceptsOnlyPrintedBody(t[..pos], t[pos + 1..]);
    assert t == t[..pos] + "1" + t[pos + 1..];
  }

  /** The accepted strings are exactly the printed ones, in either letter case. */
  lemma DecodeExact(lib: Library, s: string, hrp: string, data: seq<Byte>)
    requires IsBytes(lib.lower(s)) && IsBytes(hrp) && Fits(data, 5)
    ensures Decode(lib, s) == Ok((hrp, data)) <==> OneCase(lib, s) && hrp != "" && lib.lower(s) == Encode(hrp, data)
  {
    if Decode(lib, s) == Ok((hrp, data)) { AcceptsOnlyPrinted(lib, s); }
    if OneCase(lib, s) && hrp != "" && lib.lower(s) == Encode(hrp, data) { AcceptsPrinted(lib, s, hrp, data); }
  }

  /** Printing a lower-case part and parsing it again changes nothing. */
  lemma PrintParse(lib: Library, hrp: string, data: seq<Byte>)
    requires Sane(lib) && IsAscii(hrp) && hrp == Lower(hrp) && hrp != "" && Fits(data, 5)
    ensures IsAscii(Encode(hrp, data)) && lib.lower(Encode(hrp, data)) == Lower(Encode(hrp, data)) == Encode(hrp, data)
    ensures Decode(lib, Encode(hrp, data)) == Ok((hrp, data))
  {
    hide SymbolOf, Decode, Run, HrpExpand, Checksum;
    var body := Spell(data + Checksum(hrp, data));
    var s := hrp + "1" + body;
    AcceptsPrintedBody(hrp, data);
    SymbolTextIsLower(body);
    assert Lower(s) == Lower(hrp) + "1" + Lower(body);
    assert IsAscii(s);
    AcceptsPrinted(lib, s, hrp, data);
  }

  lemma SymbolTextIsLower(s: string)
    requires IsSymbolText(s)
    ensures IsAscii(s) && Lower(s) == s
  {
    forall i | 0 <= i < |s| ensures s[i] < 128 as char && LowerChar(s[i]) == s[i] {
      SymbolIsPlain(s[i]);
    }
  }

  /** However long the string: a text whose lower-case form differs from that of an accepted
      one in a single data or checksum character, replaced by another charset character, is
      rejected. */
  lemma OneErrorRejected(lib: Library, s: string, s': string, i: nat, c: char)
    requires IsBytes(lib.lower(s)) && Decode(lib, s).Ok?
    requires LastIndex(lib.lower(s), '1') < i < |lib.lower(s)|
    requires SymbolOf(c).Some? && c != lib.lower(s)[i] && lib.lower(s') == lib.lower(s)[i := c]
    ensures IsBytes(lib.lower(s')) && Decode(lib, s').Err?
  {
    hide SymbolOf, DecodeBody, LastIndex;
    var t, pos := lib.lower(s), LastIndex(lib.lower(s), '1');
    var hrp, body, j := t[..pos], t[pos + 1..], i - pos - 1;
    SymbolIsPlain(c);
    OneErrorInBody(hrp, body, j, c);
    assert t == hrp + "1" + body;
    assert (hrp + "1" + body)[i := c] == hrp + "1" + body[j := c];
    Resplit(lib.lower(s'), hrp, body[j := c]);
  }

  /** In particular replacing one such character of an ASCII text, in either letter case. */
  lemma OneCharacterRejected(lib: Library, s: string, i: nat, c: char)
    requires Sane(lib) && IsAscii(s) && Decode(lib, s).Ok?
    requires LastIndex(Lower(s), '1') < i < |s|
    requires SymbolOf(LowerChar(c)).Some? && LowerChar(c) != LowerChar(s[i]) && c < 128 as char
    ensures IsAscii(s[i := c]) && Decode(lib, s[i := c]).Err?
  {
    hide SymbolOf, Decode, LastIndex;
    assert IsAscii(s[i := c]);
    LowerOfUpdate(s, i, c);
    OneErrorRejected(lib, s, s[i := c], i, LowerChar(c));
  }

  lemma LowerOfUpdate(s: string, i: nat, c: char)
    requires i < |s|
    ensures Lower(s[i := c]) == Lower(s)[i := LowerChar(c)]
  {}

  lemma Resplit(t: string, hrp: string, body: string)
    requires IsSymbolText(body) && t == hrp + "1" + body
    ensures LastIndex(t, '1') == |hrp| && t[..|hrp|] == hrp && t[|hrp| + 1..] == body
  {
    SeparatorFound(hrp, body);
  }

  lemma OneErrorInBody(hrp: string, body: string, j: nat, c: char)
    requires IsBytes(hrp) && |body| >= 6 && DecodeBody(hrp, body).Ok?
    requires j < |body| && SymbolOf(c).Some? && c != body[j]
    ensures IsSymbolText(body[j := c]) && DecodeBody(hrp, body[j := c]) == Err(BadChecksum)
  {
    hide SymbolOf, CharOf, Symbols, Run, HrpExpand, Pow2;
    SpellOfSymbols(body);
    SymbolRange(c);
    SymbolRange(body[j]);
    var v, w := Symbols(body).value, SymbolOf(c).value;
    SymbolsOfUpdate(body, j, c);
    var m, k := HrpExpand(hrp) + v, |HrpExpand(hrp)| + j;
    assert HrpExpand(hrp) + v[j := w] == m[k := w];
    Pow2Monotone(5, BITS);
    TablesInverse(w, c);
    TablesInverse(v[j], body[j]);
    assert Words(m, BITS);
    OneChangeShows(1, m, k, w, BITS);
  }

  lemma SymbolsOfUpdate(s: string, j: nat, c: char)
    requires Symbols(s).Some? && j < |s| && SymbolOf(c).Some?
    ensures |Symbols(s).value| == |s| && SymbolOf(c).value < 32
    ensures SymbolOf(s[j]) == Some(Symbols(s).value[j])
    ensures Symbols(s[j := c]) == Some(Symbols(s).value[j := SymbolOf(c).value])
  {
    SpellOfSymbols(s);
    var v, w := Symbols(s).value, SymbolOf(c).value;
    TablesAreCharset(c);
    TablesInverse(w, c);
    TablesInverse(v[j], Spell(v)[j]);
    assert Pow2(5) == 32;
    assert Spell(v[j := w]) == s[j := c];
    SymbolsOfSpell(v[j := w]);
  }

  // ---- Replaced stretches ----

  lemma {:induction false} SymbolsConcat(s: string, t: string)
    requires Symbols(s).Some? && Symbols(t).Some?
    ensures Symbols(s + t) == Some(Symbols(s).value + Symbols(t).value)
  {
    hide SymbolOf;
    if t == "" {
      assert s + t == s && Symbols(s).value + Symbols(t).value == Symbols(s).value;
    } else {
      var n := |t| - 1;
      assert (s + t)[..|s| + n] == s + t[..n] && (s + t)[|s| + n] == t[n];
      SymbolsConcat(s, t[..n]);
      var a, front, v := Symbols(s).value, Symbols(t[..n]).value, SymbolOf(t[n]).value;
      assert a + front + [v] == a + (front + [v]);
    }
  }

  lemma BurstInBody(hrp: string, x: string, u: string, v: string, y: string)
    requires IsBytes(hrp) && |u| == |v| <= 6 && u != v && |x + u + y| >= 6
    requires IsSymbolText(x) && IsSymbolText(u) && IsSymbolText(v) && IsSymbolText(y)
    requires DecodeBody(hrp, x + u + y).Ok?
    ensures DecodeBody(hrp, x + v + y) == Err(BadChecksum)
  {
    hide SymbolOf, Run, HrpExpand, Symbols, Spell;
    SpellOfSymbols(x);
    SpellOfSymbols(u);
    SpellOfSymbols(v);
    SpellOfSymbols(y);
    SymbolsConcat(x, u);
    SymbolsConcat(x, v);
    SymbolsConcat(x + u, y);
    SymbolsConcat(x + v, y);
    var a, b, c, d := Symbols(x).value, Symbols(u).value, Symbols(v).value, Symbols(y).value;
    var before := HrpExpand(hrp) + a;
    assert HrpExpand(hrp) + (a + b + d) == before + b + d;
    assert HrpExpand(hrp) + (a + c + d) == before + c + d;
    assert 1 < Pow2(BITS) by { StateCount(); }
    BurstShows(1, before, b, c, d, BITS);
  }

  /** However long the string: replacing a stretch of at most six data or checksum characters by
      other charset characters in any way makes an accepted text one that is rejected. */
  lemma BurstRejected(lib: Library, s: string, s': string, i: nat, v: string)
    requires IsBytes(lib.lower(s)) && Decode(lib, s).Ok? && IsSymbolText(v) && |v| <= 6
    requires LastIndex(lib.lower(s), '1') < i && i + |v| <= |lib.lower(s)| && v != lib.lower(s)[i..i + |v|]
    requires lib.lower(s') == lib.lower(s)[..i] + v + lib.lower(s)[i + |v|..]
    ensures IsBytes(lib.lower(s')) && Decode(lib, s').Err?
  {
    hide SymbolOf, DecodeBody, LastIndex, IsSymbolText;
    var t, pos := lib.lower(s), LastIndex(lib.lower(s), '1');
    var hrp, body, n := t[..pos], t[pos + 1..], |v|;
    var x, u, y := t[pos + 1..i], t[i..i + n], t[i + n..];
    assert body == x + u + y && t == hrp + "1" + body;
    AcceptedBody(hrp, body);
    PartsAreSymbols(body, x, u, y);
    JoinedSymbols(x, v, y);
    SymbolTextIsLower(v);
    assert lib.lower(s') == hrp + "1" + (x + v + y);
    BurstInBody(hrp, x, u, v, y);
    Resplit(lib.lower(s'), hrp, x + v + y);
  }

  lemma AcceptedBody(hrp: string, body: string)
    requires IsBytes(hrp) && |body| >= 6 && DecodeBody(hrp, body).Ok?
    ensures IsSymbolText(body)
  {
    SpellOfSymbols(body);
  }

  lemma PartsAreSymbols(s: string, x: string, u: string, y: string)
    requires IsSymbolText(s) && s == x + u + y
    ensures IsSymbolText(x) && IsSymbolText(u) && IsSymbolText(y)
  {
    hide SymbolOf;
    forall i | 0 <= i < |x| ensures SymbolOf(x[i]).Some? { assert s[i] == x[i]; }
    forall i | 0 <= i < |u| ensures SymbolOf(u[i]).Some? { assert s[|x| + i] == u[i]; }
    forall i | 0 <= i < |y| ensures SymbolOf(y[i]).Some? { assert s[|x| + |u| + i] == y[i]; }
  }

  lemma JoinedSymbols(x: string, u: string, y: string)
    requires IsSymbolText(x) && IsSymbolText(u) && IsSymbolText(y)
    ensures IsSymbolText(x + u + y)
  {
    hide SymbolOf;
  }

  // ---- Which texts are refused, and why ----

  /** `p` is the last separator, with a prefix before it and a checksum after it. */
  predicate Separates(t: string, p: int)
    ensures Separates(t, p) ==> 0 <= p < |t|
  {
    1 <= p && p + 7 <= |t| && t[p] == '1' && forall i :: p < i < |t| ==> t[i] != '1'
  }

  lemma SeparatorIsLast(t: string, p: int)
    ensures Separates(t, p) <==> p == LastIndex(t, '1') && 1 <= p && p + 7 <= |t|
  {}

  predicate OnlyCharset(s: string) {
    forall i :: 0 <= i < |s| ==> s[i] in CHARSET
  }

  lemma CharsetText(s: string)
    ensures OnlyCharset(s) <==> IsSymbolText(s)
  {
    hide SymbolOf;
    forall i | 0 <= i < |s| ensures s[i] in CHARSET <==> SymbolOf(s[i]).Some? { TablesAreCharset(s[i]); }
  }

  lemma BodyRefused(hrp: string, body: string)
    requires IsBytes(hrp) && |body| >= 6
    ensures DecodeBody(hrp, body) == Err(BadCharacter) <==> !OnlyCharset(body)
    ensures DecodeBody(hrp, body) !in {Err(MixedCase), Err(NoSeparator)}
  {
    hide OnlyCharset, IsSymbolText, Run, HrpExpand, SymbolOf;
    CharsetText(body);
    SpellOfSymbols(body);
  }

  /** The first three refusals, in the order in which they are found; DecodeExact says what is left
      for the fourth. */
  lemma RefusedBecause(lib: Library, s: string)
    requires IsBytes(lib.lower(s))
    ensures Decode(lib, s) == Err(MixedCase) <==> s != lib.lower(s) && s != lib.upper(s)
    ensures Decode(lib, s) == Err(NoSeparator) <==>
      (s == lib.lower(s) || s == lib.upper(s)) && forall p :: !Separates(lib.lower(s), p)
    ensures Decode(lib, s) == Err(BadCharacter) <==>
      && (s == lib.lower(s) || s == lib.upper(s))
      && exists p :: Separates(lib.lower(s), p) && !OnlyCharset(lib.lower(s)[p + 1..])
  {
    hide DecodeBody, OnlyCharset, Separates, LastIndex;
    var t := lib.lower(s);
    var pos := LastIndex(t, '1');
    forall p ensures Separates(t, p) <==> p == pos && 1 <= p && p + 7 <= |t| { SeparatorIsLast(t, p); }
    if 1 <= pos && pos + 7 <= |t| {
      assert Separates(t, pos);
      BodyRefused(t[..pos], t[pos + 1..]);
      assert OneCase(lib, s) ==> Decode(lib, s) == DecodeBody(t[..pos], t[pos + 1..]);
    } else {
      assert OneCase(lib, s) ==> Decode(lib, s) == Err(NoSeparator);
    }
  }
}
