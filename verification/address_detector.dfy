/**
 The address classifier of the bot (`AddressDetector`): two anchored
 regular-expression grammars (Base58 for Solana, `0x` + 40 hex digits for
 the EVM chains), the single-guess detectors, the ordered list of chains to
 try for an address, validity, and the address-type summary.
 */
module AddressDetector {
  import opened Wrappers
  import opened Strings

  /** A range `lo-hi` inside a regular-expression character class. */
  datatype CharRange = CharRange(lo: char, hi: char)

  /** An anchored pattern `^prefix[class]{min,max}$`. */
  datatype Pattern = Pattern(prefix: string, cls: seq<CharRange>, min: nat, max: nat)

  /** The detector's pattern table, one field per network. */
  datatype PatternTable = PatternTable(
    ethereum: Pattern, bsc: Pattern, polygon: Pattern,
    arbitrum: Pattern, base: Pattern, solana: Pattern)

  /** What `getAddressType` reports about an address. */
  datatype AddressType = AddressType(kind: string, format: string, length: nat, isValid: bool)

  predicate InRange(r: CharRange, c: char) { r.lo <= c <= r.hi }

  predicate InClass(cls: seq<CharRange>, c: char) {
    exists r | r in cls :: InRange(r, c)
  }

  /** `pattern.test(s)` for an anchored pattern: the prefix, then between
      `min` and `max` characters of the class, then the end of the input. */
  predicate Test(p: Pattern, s: string) {
    && |p.prefix| <= |s|
    && s[..|p.prefix|] == p.prefix
    && p.min <= |s| - |p.prefix| <= p.max
    && forall i | |p.prefix| <= i < |s| :: InClass(p.cls, s[i])
  }

  /** `/^0x[a-fA-F0-9]{40}$/`, written out once per EVM network as in the
      detector's constructor. */
  const Patterns := PatternTable(
    ethereum := Pattern("0x", [CharRange('a', 'f'), CharRange('A', 'F'), CharRange('0', '9')], 40, 40),
    bsc := Pattern("0x", [CharRange('a', 'f'), CharRange('A', 'F'), CharRange('0', '9')], 40, 40),
    polygon := Pattern("0x", [CharRange('a', 'f'), CharRange('A', 'F'), CharRange('0', '9')], 40, 40),
    arbitrum := Pattern("0x", [CharRange('a', 'f'), CharRange('A', 'F'), CharRange('0', '9')], 40, 40),
    base := Pattern("0x", [CharRange('a', 'f'), CharRange('A', 'F'), CharRange('0', '9')], 40, 40),
    solana := Pattern("", [CharRange('1', '9'), CharRange('A', 'H'), CharRange('J', 'N'),
                           CharRange('P', 'Z'), CharRange('a', 'k'), CharRange('m', 'z')], 32, 44))

  /** Chain names, as the detector returns them. */
  const Solana := "solana"
  const Ethereum := "ethereum"

  /** The EVM chains to try, in the detector's popularity order. */
  const EvmPriority := ["ethereum", "bsc", "base", "polygon", "arbitrum"]

  // Reference grammars, stated without the regular-expression ranges.

  /** A Base58 character: an ASCII letter or digit other than `0`, `O`, `I`
      and `l`, the four that Bitcoin's alphabet leaves out. */
  predicate IsBase58Char(c: char) {
    IsAsciiAlnum(c) && c != '0' && c != 'O' && c != 'I' && c != 'l'
  }

  /** A hexadecimal digit in either case. */
  predicate IsHexDigit(c: char) {
    IsAsciiDigit(c) || ('a' <= ToLowerChar(c) <= 'f')
  }

  /** A Solana address: 32 to 44 Base58 characters. */
  predicate IsSolanaAddress(s: string) {
    32 <= |s| <= 44 && forall i | 0 <= i < |s| :: IsBase58Char(s[i])
  }

  /** An EVM address: `0x` and 40 hex digits. */
  predicate IsEvmAddress(s: string) {
    |s| == 42 && s[0] == '0' && s[1] == 'x' && forall i | 2 <= i < 42 :: IsHexDigit(s[i])
  }

  /** The class `[1-9A-HJ-NP-Za-km-z]` is exactly the Base58 characters. */
  lemma Base58ClassIsBase58(c: char)
    ensures InClass(Patterns.solana.cls, c) <==> IsBase58Char(c)
  {
    var cls := Patterns.solana.cls;
    if IsBase58Char(c) {
      var k := if c <= '9' then 0 else if c <= 'H' then 1 else if c <= 'N' then 2
        else if c <= 'Z' then 3 else if c <= 'k' then 4 else 5;
      assert cls[k] in cls && InRange(cls[k], c);
    }
  }

  /** The class `[a-fA-F0-9]` is exactly the hex digits. */
  lemma HexClassIsHexDigits(c: char)
    ensures InClass(Patterns.ethereum.cls, c) <==> IsHexDigit(c)
  {
    var cls := Patterns.ethereum.cls;
    if IsHexDigit(c) {
      var k := if 'a' <= c then 0 else if 'A' <= c then 1 else 2;
      assert cls[k] in cls && InRange(cls[k], c);
    }
  }

  /** The five EVM patterns are the same pattern. */
  lemma EvmPatternsIdentical()
    ensures Patterns.bsc == Patterns.ethereum
    ensures Patterns.polygon == Patterns.ethereum
    ensures Patterns.arbitrum == Patterns.ethereum
    ensures Patterns.base == Patterns.ethereum
  {
  }

  /** The Solana pattern accepts exactly the Solana addresses. */
  lemma SolanaPatternAccepts(s: string)
    ensures Test(Patterns.solana, s) <==> IsSolanaAddress(s)
  {
    forall i | 0 <= i < |s| {
      Base58ClassIsBase58(s[i]);
    }
  }

  /** Every EVM pattern accepts exactly the EVM addresses. */
  lemma EvmPatternAccepts(s: string)
    ensures Test(Patterns.ethereum, s) <==> IsEvmAddress(s)
  {
    forall i | 0 <= i < |s| {
      HexClassIsHexDigits(s[i]);
    }
    if |s| >= 2 {
      assert s[..2] == "0x" <==> s[0] == '0' && s[1] == 'x';
    }
  }

  /** No string is both: an EVM address starts with `0`, which is not Base58. */
  lemma GrammarsDisjoint(s: string)
    ensures !(IsSolanaAddress(s) && IsEvmAddress(s))
  {
    if IsSolanaAddress(s) {
      assert IsBase58Char(s[0]);
    }
  }

  /** `detectNetwork`: "solana" or "ethereum" by the two patterns, Solana first. */
  function DetectNetwork(address: string): (r: Option<string>)
    ensures r == Some(Solana) <==> IsSolanaAddress(address)
    ensures r == Some(Ethereum) <==> IsEvmAddress(address)
    ensures r == None <==> !IsSolanaAddress(address) && !IsEvmAddress(address)
  {
    SolanaPatternAccepts(address);
    EvmPatternAccepts(address);
    GrammarsDisjoint(address);
    if Test(Patterns.solana, address) then Some(Solana)
    else if Test(Patterns.ethereum, address) then Some(Ethereum)
    else None
  }

  /** `detectNetworkAdvanced`: re-branches on `detectNetwork` and so always
      agrees with it. */
  function DetectNetworkAdvanced(address: string): (r: Option<string>)
    ensures r == DetectNetwork(address)
  {
    var basic := DetectNetwork(address);
    if basic == Some(Solana) then Some(Solana)
    else if basic == Some(Ethereum) then Some(Ethereum)
    else None
  }

  /** `detectBestNetwork`: the chains to try, in order. */
  function DetectBestNetwork(address: string): (r: seq<string>)
    ensures r == [Solana] <==> IsSolanaAddress(address)
    ensures r == EvmPriority <==> IsEvmAddress(address)
    ensures r == [] <==> !IsSolanaAddress(address) && !IsEvmAddress(address)
  {
    var basic := DetectNetwork(address);
    if basic == Some(Solana) then [Solana]
    else if basic == Some(Ethereum) then EvmPriority
    else []
  }

  /** `isValidAddress`: some grammar accepts the address. */
  function IsValidAddress(address: string): (r: bool)
    ensures r <==> IsSolanaAddress(address) || IsEvmAddress(address)
    ensures r <==> DetectNetwork(address) != None
    ensures r <==> |DetectBestNetwork(address)| > 0
  {
    DetectNetwork(address) != None
  }

  /** `getAddressType`: kind, format, length and validity, in step with the
      other operations. */
  function GetAddressType(address: string): (r: AddressType)
    ensures r.isValid == IsValidAddress(address)
    ensures r.length == |address|
    ensures r.kind == "solana" <==> DetectNetwork(address) == Some(Solana)
    ensures r.kind == "evm" <==> DetectNetwork(address) == Some(Ethereum)
    ensures r.kind == "unknown" <==> DetectNetwork(address) == None
    ensures r.format == "Base58" <==> IsSolanaAddress(address)
    ensures r.format == "Hexadecimal" <==> IsEvmAddress(address)
    ensures r.format == "Unknown" <==> !IsSolanaAddress(address) && !IsEvmAddress(address)
  {
    SolanaPatternAccepts(address);
    EvmPatternAccepts(address);
    GrammarsDisjoint(address);
    if Test(Patterns.solana, address) then
      AddressType("solana", "Base58", |address|, true)
    else if Test(Patterns.ethereum, address) then
      AddressType("evm", "Hexadecimal", |address|, true)
    else
      AddressType("unknown", "Unknown", |address|, false)
  }
}
