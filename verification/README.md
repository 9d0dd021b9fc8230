# Token-scan bot: address detection, `/scan` dispatch, network table, error classifier

A Dafny model of the decision logic of a Telegram bot that scans tokens.
A user sends `/scan <address>` or `/scan <network> <address>`. The bot then:

- classifies the address as Solana (Base58) or EVM (`0x` + 40 hex digits);
- in auto-detect mode, tries the candidate chains in order until one scan returns;
- in manual mode, makes the one requested scan;
- maps whatever went wrong to one of a handful of short user-facing texts.

The modules follow the program's files:

| module | file | models |
|---|---|---|
| `Strings` | `strings.dfy` | Shared helpers: ASCII `toLowerCase`, `includes`, greedy class runs, leftmost-match search |
| `AddressDetector` | `address_detector.dfy` | The `AddressDetector` class: its pattern table and all five methods |
| `Networks` | `networks.dfy` | The `networks` table without `rpcUrl`, `getNetworkByAlias`, `getSupportedNetworksList` |
| `ErrorHandler` | `error_handler.dfy` | `ErrorHandler.getSimpleMessage` |
| `ScanCommands` | `scan_commands.dfy` | The two `/scan` regular expressions the bot registers |
| `ScanHandler` | `scan_handler.dfy` | The decision part of `handleScanCommand` |

Modelling choices:

- **Regular expressions.** Each is stated declaratively:
  - An anchored pattern is a prefix, a list of character ranges and a repetition bound.
  - Each pattern is proved equal to an independent reference grammar. Base58 is "an ASCII letter or digit other than `0`, `O`, `I`, `l`"; hex is "a digit, or a letter that lower-cases to `a`–`f`".
  - The unanchored `/scan` patterns and `Failed to scan token: (.+)` match at the leftmost position where they can.
  - Their greedy repetitions take the longest run of the class.
- **The token scanner** (`TokenScanner.scanToken`) is an oracle parameter `scan(network, address)`. It either returns or throws a message. A falsy return value (`null`) is `Returned(None)`.
- **The handler's outcome** is the reply it sends plus the list of networks passed to the scanner, in call order.
- **Manual mode with a falsy result.** The handler passes `null` straight to `MessageFormatter.formatTokenInfo` (src/bot.js:109). That function destructures its argument (src/utils/messageFormatter.js:14), which throws a `TypeError`. The model carries the V8 text of that error as `MissingDataError` and proves the classifier turns it into the generic text.

## Model

| member | source | states |
|---|---|---|
| AddressDetector.Base58ClassIsBase58 | src/utils/addressDetector.js:10 | The class `[1-9A-HJ-NP-Za-km-z]` holds exactly the ASCII letters and digits other than `0`, `O`, `I`, `l` |
| AddressDetector.HexClassIsHexDigits | src/utils/addressDetector.js:5 | The class `[a-fA-F0-9]` holds exactly the hex digits of either case |
| AddressDetector.SolanaPatternAccepts | src/utils/addressDetector.js:10 | The Solana pattern accepts a string iff it has 32 to 44 characters, all Base58 |
| AddressDetector.EvmPatternAccepts | src/utils/addressDetector.js:5 | The EVM pattern accepts a string iff it has length 42, starts with `0x`, and the other 40 characters are hex digits |
| AddressDetector.EvmPatternsIdentical | src/utils/addressDetector.js:5-9 | The bsc, polygon, arbitrum and base patterns equal the ethereum pattern |
| AddressDetector.GrammarsDisjoint | src/utils/addressDetector.js:10-25 | No string is both a Solana and an EVM address, so the order of the two tests cannot be observed |
| AddressDetector.DetectNetwork | src/utils/addressDetector.js:14-28 | `"solana"` iff Solana grammar, `"ethereum"` iff EVM grammar, null iff neither |
| AddressDetector.DetectNetworkAdvanced | src/utils/addressDetector.js:31-45 | Always agrees with `detectNetwork` |
| AddressDetector.DetectBestNetwork | src/utils/addressDetector.js:48-61 | `["solana"]` iff Solana grammar; exactly `ethereum, bsc, base, polygon, arbitrum` iff EVM grammar, whatever the digits; empty iff neither |
| AddressDetector.IsValidAddress | src/utils/addressDetector.js:63-65 | Valid iff one grammar accepts, iff `detectNetwork` is not null, iff `detectBestNetwork` is non-empty |
| AddressDetector.GetAddressType | src/utils/addressDetector.js:67-92 | `isValid` agrees with `isValidAddress`; `length` is the input length; `type` follows `detectNetwork`; `format` follows the grammars and is `Unknown` exactly when neither grammar accepts the input |
| Strings.ToLower | src/config/networks.js:65 | Same length; maps each ASCII upper-case letter to its lower case and keeps every other character; result has no upper-case letter |
| Strings.ToLowerIdempotent | src/config/networks.js:65 | Lower-casing twice equals lower-casing once |
| Networks.FindByAlias | src/config/networks.js:64-69 | Null iff no entry lists the alias; otherwise the entry at the first index that lists it |
| Networks.FindByAliasUnique | src/config/networks.js:63-70 | With pairwise-disjoint aliases, the entry that lists an alias is the one found |
| Networks.NetworkByAlias | src/config/networks.js:63-70 | Null iff no table entry lists the lower-cased alias; otherwise a table entry that lists it |
| Networks.TableAliasesDisjoint | src/config/networks.js:1-61 | No alias appears in two entries of the table |
| Networks.KeysAreOwnAliases | src/config/networks.js:1-61 | Every key is lower case and is listed among its own entry's aliases |
| Networks.LookupByKey | src/config/networks.js:63-70 | Looking up a key returns that key's entry |
| Networks.LookupByAlias | src/config/networks.js:63-70 | Looking up any alias returns the one entry that lists it |
| Networks.LookupIgnoresCase | src/config/networks.js:65 | Two spellings with the same lower-case form find the same entry, and the one their lower-case form finds |
| Networks.HoneypotSupport | src/config/networks.js:1-61 | Honeypot support is off exactly for solana; every other entry's `honeypotChainId` equals its numeric `chainId` |
| Networks.Summaries | src/config/networks.js:73-77 | One summary per entry, in order, with key, name and aliases unchanged |
| Networks.SupportedNetworksList | src/config/networks.js:72-78 | One summary per table entry, in declaration order, with key, name and aliases unchanged |
| ErrorHandler.WrappedCause | src/utils/errorHandler.js:37-42 | A non-empty capture lies strictly inside the message with no line terminator in it; it is absent iff `Failed to scan token: ` followed by a non-terminator occurs nowhere |
| ErrorHandler.SimpleMessage | src/utils/errorHandler.js:2-47 | The result is always one of the five fixed texts |
| ErrorHandler.SimpleMessageByPriority | src/utils/errorHandler.js:6-46 | Each text is produced exactly when its keyword group is the first group that occurs; the generic text exactly when none occurs |
| ErrorHandler.SliceMentionsNoKeyword | src/utils/errorHandler.js:39-41 | A slice of a message with no keyword has no keyword |
| ErrorHandler.UnwrapYieldsGeneric | src/utils/errorHandler.js:37-46 | A message that reaches the unwrap branch is classified as generic, however deeply it is wrapped: unwrapping never changes the result |
| ErrorHandler.BareWrapperIsGeneric | src/utils/errorHandler.js:37-46 | `Failed to scan token` with nothing after it is not unwrapped and gives the generic text |
| ErrorHandler.NotFoundOnAnyNetwork | src/utils/errorHandler.js:6-12 | The auto-detect terminal error is classified as "Token not found" |
| ErrorHandler.NotFoundBeatsRateLimit | src/utils/errorHandler.js:6-35 | A message with both "Token not found" and "rate limit" is classified as not found |
| ScanCommands.AutoCommand | src/bot.js:27-29 | The captured address has at least 25 letters and digits, and `/scan ` followed by it ends the message; there is no capture iff the pattern matches at no position |
| ScanCommands.ManualArgsAt | src/bot.js:36 | At a match, the word is non-empty letters and the address is at least 25 letters and digits; `/scan ` word, a space and the address are exactly the text at the match, and the address ends the message or is followed by a non-alphanumeric character |
| ScanCommands.ManualCommand | src/bot.js:35-40 | A captured word is non-empty letters and a captured address is at least 25 letters and digits; there is no capture iff the pattern matches at no position; a capture is the one taken at the leftmost matching position |
| ScanCommands.PatternsExclusiveAt | src/bot.js:27-36 | The two patterns never both match at the same position |
| ScanCommands.AutoMatchUnique | src/bot.js:27 | The auto-detect pattern matches at one position at most |
| ScanCommands.ValidAddressIsArgument | src/utils/addressDetector.js:5-10 | Every valid address has at least 25 characters, all letters or digits |
| ScanCommands.AutoCommandCarriesAddress | src/bot.js:27-31 | A valid address after `/scan ` at the end of any message is the captured address |
| ScanCommands.ManualCommandCarriesAddress | src/bot.js:35-42 | `/scan <word> <address>` with a valid address captures exactly that word and that address |
| ScanHandler.TryNetworks | src/bot.js:85-99 | Calls are a prefix of the list. Every call before the last threw. A loop that stopped returned its data on the last call. A loop that ran out called every network, all threw, it has no data, and it keeps only the last message |
| ScanHandler.HandleScan | src/bot.js:47-107 | Invalid address: no call. Auto-detect: calls are a prefix of the detected list. Manual: exactly one call, to the given network. Every failure text is one of the classifier's texts |
| ScanHandler.AutoRequest | src/bot.js:27-31 | Present exactly when the auto-detect pattern matches, in auto-detect mode with the captured address |
| ScanHandler.ManualRequest | src/bot.js:36-42 | Present exactly when the manual pattern matches; the network is the captured word lower-cased character by character; the address is the captured one |
| ScanHandler.ManualMessageScansLowerCasedWord | src/bot.js:36-42 | `/scan <word> <valid address>` makes exactly one scan call, on the lower-cased word |
| ScanHandler.AutoMessageTriesDetectedNetworks | src/bot.js:27-31 | A message ending in `/scan <valid address>` is an auto-detect request whose calls are a prefix of the detected list |
| ScanHandler.InvalidAddressIsRefused | src/bot.js:58-64 | An invalid address gets "Invalid address format" and no scan call, in both modes |
| ScanHandler.TryNetworksStopsAt | src/bot.js:85-99 | If calls before index k throw and call k returns, the loop made exactly calls 0..k and carries call k's data |
| ScanHandler.FirstReturnWins | src/bot.js:85-93 | The first detected network whose scan returns data gives the report; all earlier ones threw, and no later one is called |
| ScanHandler.FalsyResultStops | src/bot.js:88-103 | A falsy result still ends the loop: no later network is called, and the reply is "Token not found" |
| ScanHandler.AllThrowIsNotFound | src/bot.js:85-103 | If every detected network throws, each is called once in order and the reply is "Token not found", whatever the errors said |
| ScanHandler.NotFoundOnAnyNetworkIsNotFound | src/bot.js:101-103 | The error thrown after the loop is classified as "Token not found" |
| ScanHandler.ManualScansOnce | src/bot.js:104-109 | Manual mode makes one call. A thrown message is classified directly, data is reported, and a falsy result becomes the generic text |
| ScanHandler.MissingDataErrorHasNoKeyword | src/utils/messageFormatter.js:13-14 | The formatter's error on missing data contains none of the classifier's keywords |
| ScanHandler.ErrorsAreNotReported | src/bot.js:94-98 | The kept error is never reported: scanners that throw on the same networks and agree elsewhere give the same outcome, whatever their messages |
| ScanHandler.SameStartSameLoop | src/bot.js:77-98 | The loop's calls and data do not depend on the initial `lastError` |
| ScanHandler.NoNetworkScannedTwice | src/bot.js:81-99 | No network is passed to the scanner twice for one request |
| ScanHandler.DetectedNetworksAreKeys | src/config/networks.js:1-61 | Every network the auto-detect loop can try is a key of the network table |

## Left out

- Telegram transport is not modelled. This covers `sendMessage`, `deleteMessage`, the "scanning…" notice, the result keyboard, polling, the start and help texts, the DEXScreener callback and process handlers. All of it is I/O or static text. Replies carry the reason without the `❌ ` prefix.
- The model assumes every Telegram call succeeds. It therefore does not model two consequences of a failed call. If sending the "scanning…" notice fails (src/bot.js:71), no scan runs at all. If deleting that notice fails after a successful scan (src/bot.js:112-114), the report becomes a classified failure.
- `TokenScanner` is not part of this model. Its calls are the oracle parameter; `await` becomes a plain call, and console logging is dropped.
- `MessageFormatter` is not modelled, beyond the fact that it throws on `null`. It works with floating point, `Intl.NumberFormat`, `toFixed`, `Date.now` and HTML templating. An exception it might raise on truthy but malformed token data is not modelled: such data is reported as is.
- `rpcUrl` fields are left out of the network table, because they are read from the environment.
- ErrorHandler.SimpleMessage takes the message text as a string. The `error.message || error` fallback at src/utils/errorHandler.js:3 is not modelled: it is JavaScript duck typing over an `Error` object.
- ScanHandler.ManualScansOnce treats a falsy result as `null`. An `undefined` result produces the same kind of `TypeError` with "undefined" in place of "null"; that variant is not modelled.
- Strings.ToLower lower-cases ASCII letters only, while `toLowerCase` also maps other letters. The stored aliases are ASCII, and the manual command's word is restricted to `[a-zA-Z]`. Whether a non-ASCII spelling could lower-case onto an alias is therefore not stated.
- AddressDetector.GetAddressType counts `length` in characters, where JavaScript counts UTF-16 code units. The two differ only for characters outside the Basic Multilingual Plane, and no valid address contains one.
- Which handler runs for a message is not modelled. The chat library runs every `onText` handler whose pattern matches, so one message can trigger both forms. The model proves only that the two patterns never match at the same position (ScanCommands.PatternsExclusiveAt).
- `finalNetwork` is kept in the loop state but has no effect, because the code never reads it after the loop.
- The loop keeps only the most recent error in `lastError` and never uses it. There is no per-chain error trail, and the reply comes from the fixed text "Token not found on any supported network".
- All operations here are Dafny functions, so determinism and the absence of state changes hold by construction and are not stated separately.
