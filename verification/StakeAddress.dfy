/** CIP-19 reward addresses: printing one from a stake credential, and recovering the
    credential from any form a wallet hands back. */
module StakeAddress {
  import opened Wrappers
  import opened Bits
  import opened ConvertBits
  import opened Ascii
  import opened Bech32

  const CREDENTIAL_LENGTH: nat := 28

  datatype AddressError =
    | NotHex | WrongLength | Empty | BadBech32(error: DecodeError) | NotRewardHrp | BadPadding | NotRewardHeader

  function HrpOf(network: string): string {
    if network == "mainnet" then "stake" else "stake_test"
  }

  /** Type 14 in the high nibble, the network in the low one. */
  function HeaderOf(network: string): Byte {
    if network == "mainnet" then 0xe1 else 0xe0
  }

  function Address(credentialHex: string, network: string): Result<string, AddressError> {
    match HexDecode(credentialHex)
    case None => Err(NotHex)
    case Some(cred) =>
      if |cred| != CREDENTIAL_LENGTH then Err(WrongLength)
      else
        Ok(Encode(HrpOf(network), ToSymbols([HeaderOf(network)] + cred)))
  }

  /** stakeAddressFromCredential */
  method StakeAddressFromCredential(credentialHex: string, network: string) returns (r: Result<string, AddressError>)
    ensures r == Address(credentialHex, network)
  {
    var decoded := HexDecode(credentialHex);
    if decoded.None? {
      return Err(NotHex);
    }
    if |decoded.value| != CREDENTIAL_LENGTH {
      return Err(WrongLength);
    }
    var payload := [HeaderOf(network)] + decoded.value;
    ghost var symbols := ToSymbols(payload);
    assert Fits(payload, 8) by { assert Pow2(8) == 256; }
    var conv := Convert(payload, 8, 5, true);
    var s := PrintBech32(HrpOf(network), conv.value);
    return Ok(s);
  }

  /** Strip one CBOR byte-string head when it announces exactly the bytes that follow. */
  function UnwrapCbor(b: seq<Byte>): seq<Byte> {
    if b == [] || b[0] / 32 != 2 then b
    else
      var info := b[0] % 32;
      if info < 24 then
        if |b| == 1 + info then b[1..] else b
      else if info == 24 then
        if |b| >= 2 && |b| == 2 + b[1] as int then b[2..] else b
      else if info == 25 then
        if |b| >= 3 && |b| == 3 + 256 * (b[1] as int) + b[2] as int then b[3..] else b
      else b
  }

  /** The bytes of an address text, before any CBOR head is stripped. */
  function AddressBytes(lib: Library, text: string): Result<seq<Byte>, AddressError>
    requires IsBytes(lib.lower(text))
  {
    if HasPrefix(lib.lower(text), "stake") then
      match Decode(lib, text)
      case Err(e) => Err(BadBech32(e))
      case Ok((hrp, data)) =>
        if hrp != "stake" && hrp != "stake_test" then Err(NotRewardHrp)
        else
          match FromSymbols(data)
          case None => Err(BadPadding)
          case Some(raw) => Ok(raw)
    else
      match HexDecode(text)
      case None => Err(NotHex)
      case Some(raw) => Ok(raw)
  }

  /** StakeHashFromRewardAddress */
  function StakeHash(lib: Library, addr: string): Result<string, AddressError>
    requires IsBytes(lib.lower(lib.trim(addr)))
  {
    var text := lib.trim(addr);
    if text == "" then Err(Empty)
    else
      match AddressBytes(lib, text)
      case Err(e) => Err(e)
      case Ok(bytes) =>
        var raw := UnwrapCbor(bytes);
        if |raw| != 1 + CREDENTIAL_LENGTH then Err(WrongLength)
        else if raw[0] / 16 != 0xe && raw[0] / 16 != 0xf then Err(NotRewardHeader)
        else Ok(HexEncode(raw[1..]))
  }

  // ---- Every form of an address names the same credential ----

  /** The shortest byte-string head of section 3.1 of RFC 8949 for `n` bytes. */
  function CborHead(n: nat): seq<Byte>
    requires n < 0x1_0000
  {
    if n < 24 then [0x40 + n]
    else if n < 256 then [0x58, n]
    else [0x59, n / 256, n % 256]
  }

  /** Stripping undoes wrapping, for every payload the three heads can announce. */
  lemma UnwrapWrapped(payload: seq<Byte>)
    requires |payload| < 0x1_0000
    ensures UnwrapCbor(CborHead(|payload|) + payload) == payload
  {}

  predicate IsRewardPayload(raw: seq<Byte>, cred: seq<Byte>) {
    |cred| == CREDENTIAL_LENGTH && |raw| == 1 + CREDENTIAL_LENGTH && raw[1..] == cred
    && (raw[0] / 16 == 0xe || raw[0] / 16 == 0xf)
  }

  /** Raw hex, in either letter case and with surrounding blanks. */
  lemma RawHexRecovered(lib: Library, addr: string, raw: seq<Byte>, cred: seq<Byte>)
    requires Sane(lib) && IsRewardPayload(raw, cred)
    requires HexDecode(lib.trim(addr)) == Some(raw)
    ensures IsBytes(lib.lower(lib.trim(addr))) && StakeHash(lib, addr) == Ok(HexEncode(cred))
  {
    HexIsNotStake(lib, lib.trim(addr));
  }

  /** Hex of the CBOR-wrapped bytes. */
  lemma WrappedHexRecovered(lib: Library, addr: string, raw: seq<Byte>, cred: seq<Byte>)
    requires Sane(lib) && IsRewardPayload(raw, cred)
    requires HexDecode(lib.trim(addr)) == Some(CborHead(|raw|) + raw)
    ensures IsBytes(lib.lower(lib.trim(addr))) && StakeHash(lib, addr) == Ok(HexEncode(cred))
  {
    HexIsNotStake(lib, lib.trim(addr));
    UnwrapWrapped(raw);
  }

  lemma HexIsNotStake(lib: Library, text: string)
    requires Sane(lib) && HexDecode(text).Some? && HexDecode(text).value != []
    ensures IsAscii(text) && IsBytes(lib.lower(text)) && text != "" && !HasPrefix(lib.lower(text), "stake")
  {
    HexIsAscii(text);
    HexReprint(text);
    assert NibbleOf(text[0]).Some?;
    assert "stake"[0] == 's' && LowerChar(text[0]) != 's';
    assert |text| >= 5 ==> Lower(text)[..5][0] == LowerChar(text[0]);
  }

  lemma StakeLeads(hrp: string, data: seq<Byte>)
    requires (hrp == "stake" || hrp == "stake_test") && Fits(data, 5)
    ensures HasPrefix(Encode(hrp, data), "stake")
  {
    assert hrp[..5] == "stake";
    assert Encode(hrp, data)[..5] == hrp[..5];
  }

  lemma PrintedBytes(lib: Library, text: string, hrp: string, payload: seq<Byte>)
    requires IsBytes(lib.lower(text)) && OneCase(lib, text) && (hrp == "stake" || hrp == "stake_test")
    requires lib.lower(text) == Encode(hrp, ToSymbols(payload))
    ensures AddressBytes(lib, text) == Ok(payload)
  {
    hide Decode, DecodeBody, ToSymbols, FromSymbols;
    StakeLeads(hrp, ToSymbols(payload));
    FromToSymbols(payload);
    assert Decode(lib, text) == Ok((hrp, ToSymbols(payload))) by {
      AcceptsPrinted(lib, text, hrp, ToSymbols(payload));
    }
  }

  /** The bech32 text of a reward address, of a key or a script credential, with either prefix,
      in either letter case and with blanks around. */
  lemma Bech32Recovered(lib: Library, addr: string, hrp: string, raw: seq<Byte>, cred: seq<Byte>)
    requires Sane(lib) && IsRewardPayload(raw, cred) && (hrp == "stake" || hrp == "stake_test")
    requires var text := lib.trim(addr); OneCase(lib, text) && lib.lower(text) == Encode(hrp, ToSymbols(raw))
    ensures IsBytes(lib.lower(lib.trim(addr))) && StakeHash(lib, addr) == Ok(HexEncode(cred))
  {
    hide AddressBytes, OneCase, Encode, ToSymbols, HexDecode;
    AddressIsText(lib, raw, hrp);
    PrintedBytes(lib, lib.trim(addr), hrp, raw);
  }

  /** In particular the form this issuer prints. */
  lemma PrintedRecovered(lib: Library, addr: string, credentialHex: string, network: string)
    requires Sane(lib) && Address(credentialHex, network).Ok?
    requires var text := lib.trim(addr); OneCase(lib, text) && lib.lower(text) == Address(credentialHex, network).value
    ensures IsBytes(lib.lower(lib.trim(addr))) && StakeHash(lib, addr) == Ok(Lower(credentialHex))
  {
    hide StakeHash, OneCase, Encode, ToSymbols, HexDecode;
    var cred := HexDecode(credentialHex).value;
    var payload := [HeaderOf(network)] + cred;
    assert payload[1..] == cred;
    Bech32Recovered(lib, addr, HrpOf(network), payload, cred);
    HexReprint(credentialHex);
  }

  lemma AddressIsText(lib: Library, payload: seq<Byte>, hrp: string)
    requires Sane(lib) && (hrp == "stake" || hrp == "stake_test")
    ensures var text := Encode(hrp, ToSymbols(payload));
      IsAscii(text) && Lower(text) == text && lib.lower(text) == text && lib.lower("") != text
  {
    hide ToSymbols, Decode;
    assert Lower(hrp) == hrp;
    PrintParse(lib, hrp, ToSymbols(payload));
    assert |Encode(hrp, ToSymbols(payload))| > 0;
  }

  lemma PrintedIsTrimmed(hrp: string, data: seq<Byte>)
    requires IsBytes(hrp) && hrp != "" && !IsSpace(hrp[0]) && Fits(data, 5)
    ensures Trim(Encode(hrp, data)) == Encode(hrp, data)
  {
    var body := Spell(data + Checksum(hrp, data));
    AcceptsPrintedBody(hrp, data);
    var s := hrp + "1" + body;
    assert s[|s| - 1] == body[|body| - 1];
    SymbolIsNotSpace(body[|body| - 1]);
    TrimOfTrimmed(s);
  }

  /** Printing an address and reading it back returns the credential on every network. */
  lemma AddressRoundTrip(lib: Library, credentialHex: string, network: string)
    requires Sane(lib) && Address(credentialHex, network).Ok?
    ensures var addr := Address(credentialHex, network).value;
      IsAscii(addr) && IsBytes(lib.lower(lib.trim(addr))) && StakeHash(lib, addr) == Ok(Lower(credentialHex))
  {
    hide StakeHash, Decode, ToSymbols, HexDecode, Encode, Trim;
    var payload := [HeaderOf(network)] + HexDecode(credentialHex).value;
    var conv := ToSymbols(payload);
    AddressIsText(lib, payload, HrpOf(network));
    PrintedIsTrimmed(HrpOf(network), conv);
    PrintedRecovered(lib, Encode(HrpOf(network), conv), credentialHex, network);
  }

  lemma SymbolIsNotSpace(c: char)
    requires SymbolOf(c).Some?
    ensures !IsSpace(c)
  {}

  // ---- What is printed, and what is refused ----

  /** The printed address says which network and what kind it is: prefix stake on mainnet and
      stake_test elsewhere, type 14, network 1 on mainnet and 0 elsewhere, then the credential;
      and only the hex of 28 bytes is printed at all. */
  lemma PrintedForm(lib: Library, credentialHex: string, network: string)
    requires Sane(lib)
    ensures Address(credentialHex, network).Ok? <==> HexDecode(credentialHex).Some? && |HexDecode(credentialHex).value| == 28
    ensures Address(credentialHex, network).Ok? ==>
      var text, mainnet := Address(credentialHex, network).value, network == "mainnet";
      && IsBytes(lib.lower(text)) && Decode(lib, text).Ok?
      && Decode(lib, text).value.0 == (if mainnet then "stake" else "stake_test")
      && FromSymbols(Decode(lib, text).value.1)
           == Some([14 * 16 + if mainnet then 1 else 0] + HexDecode(credentialHex).value)
  {
    hide Decode, ToSymbols, FromSymbols, HexDecode, Encode;
    if Address(credentialHex, network).Ok? {
      var payload := [HeaderOf(network)] + HexDecode(credentialHex).value;
      var hrp := HrpOf(network);
      assert Lower(hrp) == hrp;
      PrintParse(lib, hrp, ToSymbols(payload));
      FromToSymbols(payload);
    }
  }

  /** The three byte-string heads, by the byte they begin with: each is stripped exactly when it
      announces the bytes that follow, and nothing else is. */
  lemma UnwrapExact(b: seq<Byte>)
    ensures UnwrapCbor(b) ==
      if b != [] && 0x40 <= b[0] < 0x58 && |b| - 1 == b[0] as int - 0x40 then b[1..]
      else if |b| >= 2 && b[0] == 0x58 && |b| - 2 == b[1] as int then b[2..]
      else if |b| >= 3 && b[0] == 0x59 && |b| - 3 == 256 * b[1] as int + b[2] as int then b[3..]
      else b
  {}

  /** What is refused, and why: text that is blank, hex or bech32 of the wrong length or with
      another header, a bech32 text with another prefix, and anything else. */
  lemma Refusals(lib: Library, addr: string)
    requires IsBytes(lib.lower(lib.trim(addr)))
    ensures var text := lib.trim(addr);
      && (text == "" ==> StakeHash(lib, addr) == Err(Empty))
      && (text != "" && !HasPrefix(lib.lower(text), "stake") && HexDecode(text) == None ==> StakeHash(lib, addr) == Err(NotHex))
      && (HasPrefix(lib.lower(text), "stake") && text != "" && Decode(lib, text).Ok? ==>
            Decode(lib, text).value.0 !in {"stake", "stake_test"} ==> StakeHash(lib, addr) == Err(NotRewardHrp))
    ensures StakeHash(lib, addr).Ok? ==> HexDecode(StakeHash(lib, addr).value).Some? && |HexDecode(StakeHash(lib, addr).value).value| == 28
  {
    hide Decode, FromSymbols, HexDecode, HexEncode, UnwrapCbor;
    if StakeHash(lib, addr).Ok? {
      var raw := UnwrapCbor(AddressBytes(lib, lib.trim(addr)).value);
      HexRoundTrip(raw[1..]);
    }
  }

  /** Of the bytes of an address, without a head, exactly those of a reward address are taken: 29,
      and 14 or 15 in the high nibble of the first. */
  lemma HexTakenIff(lib: Library, addr: string, raw: seq<Byte>)
    requires Sane(lib) && raw != [] && HexDecode(lib.trim(addr)) == Some(raw) && UnwrapCbor(raw) == raw
    ensures IsBytes(lib.lower(lib.trim(addr)))
    ensures StakeHash(lib, addr) ==
      if |raw| != 29 then Err(WrongLength)
      else if raw[0] < 0xe0 then Err(NotRewardHeader)
      else Ok(HexEncode(raw[1..]))
  {
    HexIsNotStake(lib, lib.trim(addr));
  }
}
