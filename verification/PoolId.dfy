/** The canonical spelling of pool ids (poolid.go). */
module PoolId {
  import opened Wrappers
  import opened ConvertBits
  import opened Ascii
  import opened Bech32
  import StakeAddress

  const HASH_LENGTH: nat := 28

  const POOL_HRP := "pool"

  /** The bech32 text of a pool hash. */
  function PoolText(hash: seq<Byte>): string {
    Encode(POOL_HRP, ToSymbols(hash))
  }

  predicate IsHashHex(t: string) {
    HexDecode(t).Some? && |HexDecode(t).value| == HASH_LENGTH
  }

  /** CanonicalPoolID */
  function Canonical(lib: Library, s: string): string {
    var t := lib.trim(s);
    if t == "" then ""
    else if IsHashHex(t) then PoolText(HexDecode(t).value)
    else lib.lower(t)
  }

  lemma PoolTextShape(lib: Library, hash: seq<Byte>)
    requires Sane(lib)
    ensures var p := PoolText(hash);
      p != "" && p[0] == 'p' && lib.trim(p) == p && lib.lower(p) == p && IsAscii(p)
  {
    assert Lower(POOL_HRP) == POOL_HRP;
    PrintParse(lib, POOL_HRP, ToSymbols(hash));
    StakeAddress.PrintedIsTrimmed(POOL_HRP, ToSymbols(hash));
  }

  lemma {:induction false} HexByFirst(t: string)
    requires t != "" && LowerChar(t[0]) == 'p'
    ensures HexDecode(t).None?
  {}

  /** Letter case does not matter to being the hex of a hash. */
  lemma LowerKeepsHash(t: string)
    ensures IsHashHex(Lower(t)) <==> IsHashHex(t)
  {
    hide HexDecode, HexEncode;
    if HexDecode(t).Some? {
      HexReprint(t);
      HexAccepts(t);
    }
    if HexDecode(Lower(t)).Some? {
      HexReprint(Lower(t));
      forall i | 0 <= i < |t| ensures NibbleOf(t[i]).Some? {
        assert NibbleOf(Lower(t)[i]).Some?;
      }
      HexAccepts(t);
    }
  }

  lemma PoolTextDecodes(lib: Library, hash: seq<Byte>)
    requires Sane(lib)
    ensures IsBytes(lib.lower(PoolText(hash))) && Decode(lib, PoolText(hash)) == Ok((POOL_HRP, ToSymbols(hash)))
  {
    hide ToSymbols;
    assert Lower(POOL_HRP) == POOL_HRP;
    PrintParse(lib, POOL_HRP, ToSymbols(hash));
  }

  /** Distinct pool hashes have distinct texts. */
  lemma PoolTextInjective(a: seq<Byte>, b: seq<Byte>)
    requires PoolText(a) == PoolText(b)
    ensures a == b
  {
    hide Decode, PoolText, ToSymbols, FromSymbols;
    var lib := Library(s => Lower(s), s => Upper(s), s => Trim(s));
    AsciiIsSane(lib);
    PoolTextDecodes(lib, a);
    PoolTextDecodes(lib, b);
    FromToSymbols(a);
    FromToSymbols(b);
  }

  lemma AsciiIsSane(lib: Library)
    requires lib == Library(s => Lower(s), s => Upper(s), s => Trim(s))
    ensures Sane(lib)
  {
    forall s | IsBytes(s) ensures IsBytes(Trim(s)) { TrimBytes(s); }
  }

  lemma {:induction false} TrimBytes(s: string)
    requires IsBytes(s)
    ensures IsBytes(Trim(s))
  {
    if s != "" && IsSpace(s[0]) { TrimBytes(s[1..]); }
  }

  lemma CanonicalOfText(lib: Library, hash: seq<Byte>, s: string)
    requires Sane(lib) && lib.lower(lib.trim(s)) == PoolText(hash)
    ensures Canonical(lib, s) == PoolText(hash)
  {
    hide PoolText, HexDecode;
    var t := lib.trim(s);
    PoolTextShape(lib, hash);
    assert lib.lower("") == Lower("") == "";
    if HexDecode(t).Some? {
      HexIsAscii(t);
      HexByFirst(t);
    }
  }

  /** What else is needed of the library: lower-casing twice is lower-casing once, uncovers no
      blanks at the ends, and turns nothing outside ASCII into hexadecimal. */
  ghost predicate Regular(lib: Library) {
    && (forall s :: lib.lower(lib.lower(s)) == lib.lower(s))
    && (forall s :: lib.trim(lib.lower(lib.trim(s))) == lib.lower(lib.trim(s)))
    && (forall s :: IsHexText(lib.lower(s)) ==> IsAscii(s))
  }

  /** Canonicalising twice is canonicalising once. */
  lemma CanonicalIdempotent(lib: Library, s: string)
    requires Sane(lib) && Regular(lib)
    ensures Canonical(lib, Canonical(lib, s)) == Canonical(lib, s)
  {
    hide PoolText, HexDecode;
    var t := lib.trim(s);
    if t == "" {
      assert lib.trim("") == Trim("") == "";
    } else if IsHashHex(t) {
      PoolTextShape(lib, HexDecode(t).value);
      CanonicalOfText(lib, HexDecode(t).value, Canonical(lib, s));
    } else if IsHashHex(lib.lower(t)) {
      HexReprint(lib.lower(t));
      LowerKeepsHash(t);
    }
  }

  /** `s` spells the pool hash, as hex or as bech32, in any letter case, blanks allowed. */
  predicate Names(lib: Library, s: string, hash: seq<Byte>) {
    |hash| == HASH_LENGTH && (HexDecode(lib.trim(s)) == Some(hash) || lib.lower(lib.trim(s)) == PoolText(hash))
  }

  lemma CanonicalOfName(lib: Library, s: string, hash: seq<Byte>)
    requires Sane(lib) && Names(lib, s, hash)
    ensures Canonical(lib, s) == PoolText(hash)
  {
    hide PoolText;
    if HexDecode(lib.trim(s)) == Some(hash) {
      HexReprint(lib.trim(s));
    } else {
      CanonicalOfText(lib, hash, s);
    }
  }

  /** The canonical form of a pool's name is shared by exactly the names of that pool. */
  lemma NamesIff(lib: Library, s: string, t: string, hash: seq<Byte>)
    requires Sane(lib) && Names(lib, t, hash)
    ensures Canonical(lib, s) == Canonical(lib, t) <==> Names(lib, s, hash)
  {
    hide PoolText;
    CanonicalOfName(lib, t, hash);
    PoolTextShape(lib, hash);
    if Names(lib, s, hash) { CanonicalOfName(lib, s, hash); }
    if Canonical(lib, s) == PoolText(hash) && IsHashHex(lib.trim(s)) {
      PoolTextInjective(HexDecode(lib.trim(s)).value, hash);
    }
  }

  /** What the canonical form is: of the hex of 28 bytes the bech32 text with the prefix pool,
      which the parser reads back; of anything else the text in lower case. */
  lemma CanonicalForm(lib: Library, s: string)
    requires Sane(lib)
    ensures var t, c := lib.trim(s), Canonical(lib, s);
      if HexDecode(t).Some? && |HexDecode(t).value| == 28
      then IsBytes(lib.lower(c)) && Decode(lib, c) == Ok((POOL_HRP, ToSymbols(HexDecode(t).value))) && POOL_HRP == "pool"
      else c == lib.lower(t)
  {
    hide PoolText, HexDecode, Decode, ToSymbols;
    var t := lib.trim(s);
    assert lib.lower("") == Lower("") == "";
    if t != "" && IsHashHex(t) {
      PoolTextDecodes(lib, HexDecode(t).value);
    } else if t == "" {
      NoHash(t);
    }
  }

  lemma NoHash(t: string)
    requires t == ""
    ensures HexDecode(t) == Some([])
  {}

  /** Two spellings agree after canonicalisation exactly when they name one pool. */
  lemma SamePoolIff(lib: Library, s: string, a: seq<Byte>, t: string, b: seq<Byte>)
    requires Sane(lib) && Names(lib, s, a) && Names(lib, t, b)
    ensures Canonical(lib, s) == Canonical(lib, t) <==> a == b
  {
    hide PoolText, Canonical;
    CanonicalOfName(lib, s, a);
    CanonicalOfName(lib, t, b);
    if PoolText(a) == PoolText(b) { PoolTextInjective(a, b); }
  }
}
