/**
 The decision part of the bot's `/scan` handler (`handleScanCommand`):
 validate the address, then either try the detected chains in order until
 one scan returns (auto-detect) or make the one requested scan (manual),
 and turn the result or the failure into a reply.

 The token scanner is an oracle `scan(network, address)`: it either returns
 (token data, or nothing for a falsy value) or throws with a message. The
 outcome records the reply and the networks passed to the scanner, in call
 order.
 */
module ScanHandler {
  import opened Wrappers
  import opened Strings
  import opened AddressDetector
  import opened ErrorHandler
  import Networks
  import ScanCommands

  /** What one call of the scanner does. */
  datatype ScanResult<T> = Returned(data: Option<T>) | Threw(message: string)

  /** Which command was matched: auto-detect, or a named network (already
      lower-cased by the command). */
  datatype Mode = AutoDetect | ManualNetwork(network: string)

  /** The reply sent back: the token report, or a failure text (sent after a
      cross mark). */
  datatype Reply<T> = Report(data: T) | Failure(reason: string)

  datatype Outcome<T> = Outcome(reply: Reply<T>, calls: seq<string>)

  /** The variables of the auto-detect loop when it ends. */
  datatype LoopState<T> = LoopState(
    tokenData: Option<T>,
    finalNetwork: Option<string>,
    lastError: Option<string>,
    calls: seq<string>)

  /** The reply to an address no grammar accepts. */
  const InvalidFormatReply := "Invalid address format"

  /** The error thrown when the auto-detect loop ends without data. */
  const NotFoundOnAnyNetwork := "Token not found on any supported network"

  /** The error the formatter raises when handed no token data (it
      destructures its argument). */
  const MissingDataError :=
    // Written in pieces: the verifier reasons about a few short literals
    // more cheaply than about one long one.
    "Cannot " + "destructure " + "property " + "'name' " + "of " + "'tokenData' " + "as " + "it " + "is " + "null."

  function Last<X>(s: seq<X>): X
    requires |s| > 0
  {
    s[|s| - 1]
  }

  /** The auto-detect loop: scan each network in turn; the first call that
      returns ends the loop, whatever it returned; a call that throws is
      recorded as the last error and the loop goes on. */
  function TryNetworks<T>(
    toTry: seq<string>, address: string, scan: (string, string) -> ScanResult<T>,
    lastError: Option<string>): (st: LoopState<T>)
    ensures st.calls <= toTry
    ensures forall i | 0 <= i < |st.calls| - 1 :: scan(st.calls[i], address).Threw?
    ensures st.finalNetwork != None ==>
      && |st.calls| > 0
      && st.finalNetwork == Some(Last(st.calls))
      && scan(Last(st.calls), address) == Returned(st.tokenData)
    ensures st.finalNetwork == None ==>
      && st.calls == toTry
      && st.tokenData == None
      && (forall i | 0 <= i < |toTry| :: scan(toTry[i], address).Threw?)
    ensures st.finalNetwork == None && |toTry| > 0 ==>
      st.lastError == Some(scan(Last(toTry), address).message)
    ensures st.finalNetwork == None && toTry == [] ==> st.lastError == lastError
  {
    if toTry == [] then LoopState(None, None, lastError, [])
    else
      match scan(toTry[0], address)
      case Returned(data) => LoopState(data, Some(toTry[0]), lastError, [toTry[0]])
      case Threw(e) =>
        var rest := TryNetworks(toTry[1..], address, scan, Some(e));
        assert rest.finalNetwork == None && |toTry| > 1 ==> Last(toTry[1..]) == Last(toTry);
        rest.(calls := [toTry[0]] + rest.calls)
  }

  /** `handleScanCommand`, up to what it sends: the reply and the scanner calls. */
  function HandleScan<T>(mode: Mode, address: string, scan: (string, string) -> ScanResult<T>): (o: Outcome<T>)
    ensures !IsValidAddress(address) ==> o.calls == []
    ensures mode.AutoDetect? ==> o.calls <= DetectBestNetwork(address)
    ensures mode.ManualNetwork? && IsValidAddress(address) ==> o.calls == [mode.network]
    ensures o.reply.Failure? ==> IsSimpleMessage(o.reply.reason)
  {
    if !IsValidAddress(address) then Outcome(Failure(InvalidFormatReply), [])
    else
      match mode
      case AutoDetect =>
        var st := TryNetworks(DetectBestNetwork(address), address, scan, None);
        if st.tokenData.None? then Outcome(Failure(SimpleMessage(NotFoundOnAnyNetwork)), st.calls)
        else Outcome(Report(st.tokenData.value), st.calls)
      case ManualNetwork(network) =>
        match scan(network, address)
        case Threw(e) => Outcome(Failure(SimpleMessage(e)), [network])
        case Returned(None) => Outcome(Failure(SimpleMessage(MissingDataError)), [network])
        case Returned(Some(data)) => Outcome(Report(data), [network])
  }

  /** What the auto-detect command hands to the handler. */
  function AutoRequest(t: string): (r: Option<(Mode, string)>)
    ensures r != None <==> ScanCommands.AutoCommand(t) != None
    ensures r != None ==> r.value == (AutoDetect, ScanCommands.AutoCommand(t).value)
  {
    match ScanCommands.AutoCommand(t)
    case None => None
    case Some(address) => Some((AutoDetect, address))
  }

  /** What the manual command hands to the handler: the network word is
      lower-cased before the lookup. */
  function ManualRequest(t: string): (r: Option<(Mode, string)>)
    ensures r != None <==> ScanCommands.ManualCommand(t) != None
    ensures r != None ==> r.value.0.ManualNetwork? && NoAsciiUpper(r.value.0.network)
    ensures r != None ==>
      |r.value.0.network| == |ScanCommands.ManualCommand(t).value.network|
      && r.value.1 == ScanCommands.ManualCommand(t).value.address
    ensures r != None ==>
      forall j | 0 <= j < |r.value.0.network| ::
        r.value.0.network[j] == ToLowerChar(ScanCommands.ManualCommand(t).value.network[j])
  {
    match ScanCommands.ManualCommand(t)
    case None => None
    case Some(args) => Some((ManualNetwork(ToLower(args.network)), args.address))
  }

  /** From message to scanner: `/scan <word> <address>` scans exactly the
      lower-cased word, once, whatever the case it was typed in. */
  lemma ManualMessageScansLowerCasedWord<T>(
    network: string, address: string, scan: (string, string) -> ScanResult<T>)
    requires |network| > 0 && forall j | 0 <= j < |network| :: IsAsciiLetter(network[j])
    requires IsValidAddress(address)
    ensures ManualRequest(ScanCommands.ScanPrefix + network + " " + address)
      == Some((ManualNetwork(ToLower(network)), address))
    ensures HandleScan(ManualNetwork(ToLower(network)), address, scan).calls == [ToLower(network)]
  {
    ManualRequestOfMessage(network, address);
    ManualScansOnce(ToLower(network), address, scan);
  }

  lemma ManualRequestOfMessage(network: string, address: string)
    requires |network| > 0 && forall j | 0 <= j < |network| :: IsAsciiLetter(network[j])
    requires IsValidAddress(address)
    ensures ManualRequest(ScanCommands.ScanPrefix + network + " " + address)
      == Some((ManualNetwork(ToLower(network)), address))
  {
    ScanCommands.ManualCommandCarriesAddress(network, address);
  }

  /** From message to scanner: a message ending in `/scan <address>` tries
      the detected networks in order and no other. */
  lemma AutoMessageTriesDetectedNetworks<T>(
    before: string, address: string, scan: (string, string) -> ScanResult<T>)
    requires IsValidAddress(address)
    ensures AutoRequest(before + ScanCommands.ScanPrefix + address) == Some((AutoDetect, address))
    ensures HandleScan(AutoDetect, address, scan).calls <= DetectBestNetwork(address)
  {
    ScanCommands.AutoCommandCarriesAddress(before, address);
  }

  /** An invalid address is refused before any scan, in either mode. */
  lemma InvalidAddressIsRefused<T>(mode: Mode, address: string, scan: (string, string) -> ScanResult<T>)
    requires !IsValidAddress(address)
    ensures HandleScan(mode, address, scan) == Outcome(Failure("Invalid address format"), [])
  {
  }

  /** In auto-detect mode the first network whose scan returns data gives
      the report; the networks before it all threw, and none after it is
      tried. */
  lemma {:induction false} FirstReturnWins<T>(
    address: string, scan: (string, string) -> ScanResult<T>, k: int, data: T)
    requires 0 <= k < |DetectBestNetwork(address)|
    requires forall i | 0 <= i < k :: scan(DetectBestNetwork(address)[i], address).Threw?
    requires scan(DetectBestNetwork(address)[k], address) == Returned(Some(data))
    ensures HandleScan(AutoDetect, address, scan)
      == Outcome(Report(data), DetectBestNetwork(address)[..k + 1])
  {
    var st := TryNetworks(DetectBestNetwork(address), address, scan, None);
    TryNetworksStopsAt(DetectBestNetwork(address), address, scan, None, k);
  }

  /** In auto-detect mode a scan that returns nothing still ends the loop:
      the reply is "Token not found" and no later network is tried. */
  lemma {:induction false} FalsyResultStops<T>(
    address: string, scan: (string, string) -> ScanResult<T>, k: int)
    requires 0 <= k < |DetectBestNetwork(address)|
    requires forall i | 0 <= i < k :: scan(DetectBestNetwork(address)[i], address).Threw?
    requires scan(DetectBestNetwork(address)[k], address) == Returned(None)
    ensures HandleScan(AutoDetect, address, scan)
      == Outcome(Failure(TokenNotFound), DetectBestNetwork(address)[..k + 1])
  {
    TryNetworksStopsAt(DetectBestNetwork(address), address, scan, None, k);
    NotFoundOnAnyNetworkIsNotFound();
  }

  /** In auto-detect mode, when every detected network throws, each is tried
      once in order and the reply is "Token not found", whatever the errors said. */
  lemma AllThrowIsNotFound<T>(address: string, scan: (string, string) -> ScanResult<T>)
    requires IsValidAddress(address)
    requires forall i | 0 <= i < |DetectBestNetwork(address)| ::
      scan(DetectBestNetwork(address)[i], address).Threw?
    ensures HandleScan(AutoDetect, address, scan)
      == Outcome(Failure(TokenNotFound), DetectBestNetwork(address))
  {
    var toTry := DetectBestNetwork(address);
    var st := TryNetworks(toTry, address, scan, None);
    NotFoundOnAnyNetworkIsNotFound();
  }

  /** The loop stops at the first network whose scan returns. */
  lemma {:induction false} TryNetworksStopsAt<T>(
    toTry: seq<string>, address: string, scan: (string, string) -> ScanResult<T>,
    lastError: Option<string>, k: int)
    requires 0 <= k < |toTry|
    requires forall i | 0 <= i < k :: scan(toTry[i], address).Threw?
    requires scan(toTry[k], address).Returned?
    ensures TryNetworks(toTry, address, scan, lastError).calls == toTry[..k + 1]
    ensures TryNetworks(toTry, address, scan, lastError).tokenData == scan(toTry[k], address).data
    decreases k
  {
    if k > 0 {
      assert scan(toTry[0], address).Threw?;
      var e := scan(toTry[0], address).message;
      TryNetworksStopsAt(toTry[1..], address, scan, Some(e), k - 1);
      assert [toTry[0]] + toTry[1..][..k] == toTry[..k + 1];
    }
  }

  /** Manual mode scans the named network once; its failure is classified
      directly, with no fallback to other networks. */
  lemma ManualScansOnce<T>(network: string, address: string, scan: (string, string) -> ScanResult<T>)
    requires IsValidAddress(address)
    ensures HandleScan(ManualNetwork(network), address, scan).calls == [network]
    ensures scan(network, address).Threw? ==>
      HandleScan(ManualNetwork(network), address, scan).reply
        == Failure(SimpleMessage(scan(network, address).message))
    ensures scan(network, address).Returned? && scan(network, address).data != None ==>
      HandleScan(ManualNetwork(network), address, scan).reply
        == Report(scan(network, address).data.value)
    ensures scan(network, address) == Returned(None) ==>
      HandleScan(ManualNetwork(network), address, scan).reply == Failure(SomethingWentWrong)
  {
    SimpleMessageByPriority(MissingDataError);
    MissingDataErrorHasNoKeyword();
  }

  /** The formatter's failure on missing data mentions no keyword: each
      keyword has a character the error never uses, or two neighbours that
      never meet in it. */
  lemma MissingDataErrorHasNoKeyword()
    ensures MentionsNoKeyword(MissingDataError)
  {
    MissingDataErrorNotFoundFree();
    MissingDataErrorInvalidFree();
    MissingDataErrorNetworkFree();
    MissingDataErrorRateLimitFree();
  }

  /** The characters the formatter's error is written in. */
  const MissingDataAlphabet := " '.CDacdefhiklmnoprstuy"

  lemma MissingDataErrorAlphabet()
    ensures Within(MissingDataError, MissingDataAlphabet)
  {
  }

  /** A key with a character outside that alphabet is not in the error. */
  lemma MissingDataErrorAvoids(key: string, d: int)
    requires 0 <= d < |key| && key[d] !in MissingDataAlphabet
    ensures !Contains(MissingDataError, key)
  {
    AbsentCharNotContained(MissingDataError, MissingDataAlphabet, key, d);
  }

  // "timeout" and "rate limit" are written in that alphabet too: for them
  // a pair of neighbours that never meets in the error is the witness.

  lemma MissingDataErrorHasNoTi()
    ensures NoPair(MissingDataError, 't', 'i')
  {
  }

  lemma MissingDataErrorHasNoRa()
    ensures NoPair(MissingDataError, 'r', 'a')
  {
  }

  lemma MissingDataErrorHasNoTimeout()
    ensures !Contains(MissingDataError, "timeout")
  {
    MissingDataErrorHasNoTi();
    AbsentPairNotContained(MissingDataError, "timeout", 0);
  }

  lemma MissingDataErrorHasNoRateLimit()
    ensures !Contains(MissingDataError, "rate limit")
  {
    MissingDataErrorHasNoRa();
    AbsentPairNotContained(MissingDataError, "rate limit", 0);
  }

  lemma MissingDataErrorNotFoundFree()
    ensures !MentionsNotFound(MissingDataError)
  {
    MissingDataErrorAvoids("Token not found on DEX", 0);
    MissingDataErrorAvoids("Token not found", 0);
    MissingDataErrorAvoids("not found on any supported network", 30);
  }

  lemma MissingDataErrorInvalidFree()
    ensures !MentionsInvalidAddress(MissingDataError)
  {
    MissingDataErrorAvoids("Invalid token address", 0);
    MissingDataErrorAvoids("invalid address", 2);
  }

  lemma MissingDataErrorNetworkFree()
    ensures !MentionsNetworkFailure(MissingDataError)
  {
    MissingDataErrorHasNoTimeout();
    MissingDataErrorAvoids("API error", 0);
    MissingDataErrorAvoids("Network error", 0);
    MissingDataErrorAvoids("ECONNREFUSED", 0);
  }

  lemma MissingDataErrorRateLimitFree()
    ensures !MentionsRateLimit(MissingDataError)
  {
    MissingDataErrorHasNoRateLimit();
    MissingDataErrorAvoids("too many requests", 11);
  }

  /** The terminal auto-detect error is reported as "Token not found". */
  lemma NotFoundOnAnyNetworkIsNotFound()
    ensures SimpleMessage(NotFoundOnAnyNetwork) == TokenNotFound
  {
    ErrorHandler.NotFoundOnAnyNetwork();
  }

  /** The last error is kept but never reported: two scanners that throw on
      the same networks and return the same data elsewhere produce the same
      outcome in auto-detect mode, whatever their error messages. */
  lemma ErrorsAreNotReported<T>(
    address: string, scan1: (string, string) -> ScanResult<T>, scan2: (string, string) -> ScanResult<T>)
    requires forall n :: scan1(n, address).Threw? == scan2(n, address).Threw?
    requires forall n :: scan1(n, address).Returned? ==> scan1(n, address) == scan2(n, address)
    ensures HandleScan(AutoDetect, address, scan1) == HandleScan(AutoDetect, address, scan2)
  {
    if IsValidAddress(address) {
      SameThrowsSameLoop(DetectBestNetwork(address), address, scan1, scan2, None);
    }
  }

  lemma {:induction false} SameThrowsSameLoop<T>(
    toTry: seq<string>, address: string,
    scan1: (string, string) -> ScanResult<T>, scan2: (string, string) -> ScanResult<T>,
    lastError: Option<string>)
    requires forall n :: scan1(n, address).Threw? == scan2(n, address).Threw?
    requires forall n :: scan1(n, address).Returned? ==> scan1(n, address) == scan2(n, address)
    ensures TryNetworks(toTry, address, scan1, lastError).calls
      == TryNetworks(toTry, address, scan2, lastError).calls
    ensures TryNetworks(toTry, address, scan1, lastError).tokenData
      == TryNetworks(toTry, address, scan2, lastError).tokenData
    decreases |toTry|
  {
    if toTry != [] && scan1(toTry[0], address).Threw? {
      SameThrowsSameLoop(toTry[1..], address, scan1, scan2, Some(scan1(toTry[0], address).message));
      SameStartSameLoop(toTry[1..], address, scan2,
        Some(scan1(toTry[0], address).message), Some(scan2(toTry[0], address).message));
    }
  }

  /** The loop's calls and data do not depend on the error it starts from. */
  lemma {:induction false} SameStartSameLoop<T>(
    toTry: seq<string>, address: string, scan: (string, string) -> ScanResult<T>,
    e1: Option<string>, e2: Option<string>)
    ensures TryNetworks(toTry, address, scan, e1).calls == TryNetworks(toTry, address, scan, e2).calls
    ensures TryNetworks(toTry, address, scan, e1).tokenData == TryNetworks(toTry, address, scan, e2).tokenData
    decreases |toTry|
  {
    if toTry != [] && scan(toTry[0], address).Threw? {
      var e := Some(scan(toTry[0], address).message);
      SameStartSameLoop(toTry[1..], address, scan, e, e);
    }
  }

  /** No network is scanned twice for one request. */
  lemma NoNetworkScannedTwice<T>(mode: Mode, address: string, scan: (string, string) -> ScanResult<T>)
    ensures var calls := HandleScan(mode, address, scan).calls;
      forall i, j | 0 <= i < j < |calls| :: calls[i] != calls[j]
  {
    var toTry := DetectBestNetwork(address);
    assert forall i, j | 0 <= i < j < |toTry| :: toTry[i] != toTry[j];
  }

  /** Every network the auto-detect loop can try is a key of the network table. */
  lemma DetectedNetworksAreKeys(address: string)
    ensures forall n | n in DetectBestNetwork(address) :: Networks.IsKey(n)
  {
    assert Networks.Table[0].key == Solana;
    assert Networks.Table[1].key == "ethereum";
    assert Networks.Table[2].key == "bsc";
    assert Networks.Table[3].key == "polygon";
    assert Networks.Table[4].key == "arbitrum";
    assert Networks.Table[5].key == "base";
  }
}
