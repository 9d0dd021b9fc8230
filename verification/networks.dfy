/**
 The static network table (without the environment-supplied RPC endpoints),
 the case-insensitive alias lookup and the list of supported networks.
 */
module Networks {
  import opened Wrappers
  import opened Strings

  /** A chain identifier: Solana's is the text "solana", the EVM chains' are numbers. */
  datatype ChainId = TextId(text: string) | NumericId(number: int)

  /** One entry of the table, together with its key. `honeypotChainId` is
      absent (`None`) on the entry that does not declare it. */
  datatype Network = Network(
    key: string,
    name: string,
    chainId: ChainId,
    aliases: seq<string>,
    dexscreenerChain: string,
    honeypotSupported: bool,
    honeypotChainId: Option<int>,
    explorer: string)

  /** An element of the supported-networks list. */
  datatype NetworkSummary = NetworkSummary(key: string, name: string, aliases: seq<string>)

  /** The table, in declaration order. */
  const Table: seq<Network> := [
    Network("solana", "Solana", TextId("solana"), ["sol", "solana"],
            "solana", false, None, "https://solscan.io/token/"),
    Network("ethereum", "Ethereum", NumericId(1), ["eth", "ethereum"],
            "ethereum", true, Some(1), "https://etherscan.io/token/"),
    Network("bsc", "Binance Smart Chain", NumericId(56), ["bsc", "binance", "bnb"],
            "bsc", true, Some(56), "https://bscscan.com/token/"),
    Network("polygon", "Polygon", NumericId(137), ["polygon", "matic", "poly"],
            "polygon", true, Some(137), "https://polygonscan.com/token/"),
    Network("arbitrum", "Arbitrum", NumericId(42161), ["arbitrum", "arb"],
            "arbitrum", true, Some(42161), "https://arbiscan.io/token/"),
    Network("base", "Base", NumericId(8453), ["base"],
            "base", true, Some(8453), "https://basescan.org/token/")
  ]

  /** The keys of the table. */
  predicate IsKey(name: string) {
    exists i | 0 <= i < |Table| :: Table[i].key == name
  }

  /** No alias belongs to two entries. */
  predicate AliasesDisjoint(table: seq<Network>) {
    forall i, j, a | 0 <= i < j < |table| && a in table[i].aliases :: a !in table[j].aliases
  }

  /** The first entry, in table order, whose aliases contain `alias`. */
  function FindByAlias(table: seq<Network>, alias: string): (r: Option<Network>)
    ensures r == None <==> forall j | 0 <= j < |table| :: alias !in table[j].aliases
    ensures r != None ==>
      exists i | 0 <= i < |table| ::
        && table[i] == r.value
        && alias in table[i].aliases
        && forall j | 0 <= j < i :: alias !in table[j].aliases
  {
    if table == [] then None
    else if alias in table[0].aliases then Some(table[0])
    else
      FindByAlias(table[1..], alias)
  }

  /** With disjoint aliases, the entry that holds the alias is the one found. */
  lemma FindByAliasUnique(table: seq<Network>, alias: string, i: int)
    requires AliasesDisjoint(table)
    requires 0 <= i < |table| && alias in table[i].aliases
    ensures FindByAlias(table, alias) == Some(table[i])
  {
    var r := FindByAlias(table, alias);
    var k :| 0 <= k < |table| && table[k] == r.value && alias in table[k].aliases
      && forall j | 0 <= j < k :: alias !in table[j].aliases;
  }

  /** `getNetworkByAlias`: lower-case the alias, then take the first entry
      that lists it. */
  function NetworkByAlias(alias: string): (r: Option<Network>)
    ensures r == None <==> forall j | 0 <= j < |Table| :: ToLower(alias) !in Table[j].aliases
    ensures r != None ==> r.value in Table && ToLower(alias) in r.value.aliases
  {
    FindByAlias(Table, ToLower(alias))
  }

  /** The summaries of a table, entry by entry. */
  function Summaries(table: seq<Network>): (r: seq<NetworkSummary>)
    ensures |r| == |table|
    ensures forall i | 0 <= i < |table| ::
      r[i] == NetworkSummary(table[i].key, table[i].name, table[i].aliases)
  {
    if table == [] then []
    else [NetworkSummary(table[0].key, table[0].name, table[0].aliases)] + Summaries(table[1..])
  }

  /** `getSupportedNetworksList`: one summary per entry, in declaration order. */
  function SupportedNetworksList(): (r: seq<NetworkSummary>)
    ensures |r| == |Table|
    ensures forall i | 0 <= i < |Table| ::
      r[i].key == Table[i].key && r[i].name == Table[i].name && r[i].aliases == Table[i].aliases
  {
    Summaries(Table)
  }

  /** The alias lists of the table are pairwise disjoint. */
  lemma TableAliasesDisjoint()
    ensures AliasesDisjoint(Table)
  {
    forall i | 0 <= i < |Table|
      ensures forall j, a | i < j < |Table| && a in Table[i].aliases :: a !in Table[j].aliases
    {
      AliasesOfLaterEntries(i);
    }
  }

  /** The aliases of entry `i` appear in no later entry. */
  lemma AliasesOfLaterEntries(i: int)
    requires 0 <= i < |Table|
    ensures forall j, a | i < j < |Table| && a in Table[i].aliases :: a !in Table[j].aliases
  {
    // One case per entry: splitting on `i` keeps each proof obligation small.
    if i == 0 {
    } else if i == 1 {
    } else if i == 2 {
    } else if i == 3 {
    } else if i == 4 {
    }
  }

  /** Every key is lower case and is one of its own entry's aliases. */
  lemma KeysAreOwnAliases()
    ensures forall i | 0 <= i < |Table| :: Table[i].key in Table[i].aliases
    ensures forall i | 0 <= i < |Table| :: NoAsciiUpper(Table[i].key)
  {
  }

  /** Looking up a key returns its entry. */
  lemma LookupByKey(i: int)
    requires 0 <= i < |Table|
    ensures NetworkByAlias(Table[i].key) == Some(Table[i])
  {
    KeysAreOwnAliases();
    ToLowerOfLower(Table[i].key);
    TableAliasesDisjoint();
    FindByAliasUnique(Table, Table[i].key, i);
  }

  /** Looking up any alias returns the one entry that lists it. */
  lemma LookupByAlias(i: int, alias: string)
    requires 0 <= i < |Table| && alias in Table[i].aliases
    ensures NetworkByAlias(alias) == Some(Table[i])
  {
    assert NoAsciiUpper(alias);
    ToLowerOfLower(alias);
    TableAliasesDisjoint();
    FindByAliasUnique(Table, alias, i);
  }

  /** Lookup ignores case: every spelling with the same lower-case form
      finds the same entry. */
  lemma LookupIgnoresCase(a: string, b: string)
    requires ToLower(a) == ToLower(b)
    ensures NetworkByAlias(a) == NetworkByAlias(b)
    ensures NetworkByAlias(a) == NetworkByAlias(ToLower(a))
  {
    ToLowerIdempotent(a);
  }

  /** Only Solana lacks honeypot support; every other entry checks honeypots
      on its own numeric chain id. */
  lemma HoneypotSupport()
    ensures forall i | 0 <= i < |Table| :: !Table[i].honeypotSupported <==> Table[i].key == "solana"
    ensures forall i | 0 <= i < |Table| :: Table[i].honeypotSupported ==>
      Table[i].chainId.NumericId? && Table[i].honeypotChainId == Some(Table[i].chainId.number)
  {
  }
}
