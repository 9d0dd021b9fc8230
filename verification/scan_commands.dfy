/**
 The two `/scan` command patterns the bot registers: the auto-detect form
 `/\/scan ([a-zA-Z0-9]{25,})$/` and the manual form
 `/\/scan ([a-zA-Z]+) ([a-zA-Z0-9]{25,})/`. Neither is anchored at the
 start, so each matches at the leftmost position where it can.
 */
module ScanCommands {
  import opened Wrappers
  import opened Strings
  import AddressDetector

  const ScanPrefix := "/scan "

  /** The `{25,}` lower bound on the address argument. */
  const MinArgumentLength := 25

  /** The arguments of the manual form, before lower-casing the network. */
  datatype ManualArgs = ManualArgs(network: string, address: string)

  /** The shape of the manual captures: a non-empty word of letters, and an
      argument of at least 25 letters and digits. */
  predicate WellFormedArgs(a: ManualArgs) {
    && |a.network| > 0
    && (forall j | 0 <= j < |a.network| :: IsAsciiLetter(a.network[j]))
    && |a.address| >= MinArgumentLength
    && (forall j | 0 <= j < |a.address| :: IsAsciiAlnum(a.address[j]))
  }

  /** The auto-detect pattern matches at `i`: `/scan `, then at least 25
      letters and digits running to the end of the text. */
  predicate AutoMatchesAt(t: string, i: int) {
    && OccursAt(t, ScanPrefix, i)
    && |t| - (i + |ScanPrefix|) >= MinArgumentLength
    && forall j | i + |ScanPrefix| <= j < |t| :: IsAsciiAlnum(t[j])
  }

  /** Length of the greedy `[a-zA-Z]+` word after `/scan ` at `i`. */
  function WordLength(t: string, i: int): nat
    requires OccursAt(t, ScanPrefix, i)
  {
    Run(t, i + |ScanPrefix|, IsAsciiLetter)
  }

  /** Length of the greedy `[a-zA-Z0-9]{25,}` argument after the word and its space. */
  function ArgumentLength(t: string, i: int): nat
    requires OccursAt(t, ScanPrefix, i)
    requires i + |ScanPrefix| + WordLength(t, i) < |t|
  {
    Run(t, i + |ScanPrefix| + WordLength(t, i) + 1, IsAsciiAlnum)
  }

  /** The manual pattern matches at `i`: `/scan `, a non-empty word of
      letters, one space, then at least 25 letters and digits. */
  predicate ManualMatchesAt(t: string, i: int) {
    && OccursAt(t, ScanPrefix, i)
    && WordLength(t, i) > 0
    && i + |ScanPrefix| + WordLength(t, i) < |t|
    && t[i + |ScanPrefix| + WordLength(t, i)] == ' '
    && ArgumentLength(t, i) >= MinArgumentLength
  }

  function AutoAt(t: string): nat -> bool {
    i => AutoMatchesAt(t, i)
  }

  function ManualAt(t: string): nat -> bool {
    i => ManualMatchesAt(t, i)
  }

  /** The auto-detect command: the captured address, if the pattern matches. */
  function AutoCommand(t: string): (r: Option<string>)
    ensures r != None ==> |r.value| >= MinArgumentLength
    ensures r != None ==> forall j | 0 <= j < |r.value| :: IsAsciiAlnum(r.value[j])
    ensures r != None ==>
      |ScanPrefix + r.value| <= |t| && t[|t| - |ScanPrefix + r.value|..] == ScanPrefix + r.value
    ensures r == None <==> forall i | 0 <= i < |t| :: !AutoMatchesAt(t, i)
  {
    match FindFirst(|t|, 0, AutoAt(t))
    case None =>
      NoAutoMatch(t);
      None
    case Some(i) =>
      assert AutoAt(t)(i);
      var a := t[i + |ScanPrefix|..];
      assert t[i..] == ScanPrefix + a by {
        assert t[i..] == t[i..i + |ScanPrefix|] + a;
      }
      Some(a)
  }

  lemma NoAutoMatch(t: string)
    requires FindFirst(|t|, 0, AutoAt(t)) == None
    ensures forall i | 0 <= i < |t| :: !AutoMatchesAt(t, i)
  {
    forall i | 0 <= i < |t|
      ensures !AutoMatchesAt(t, i)
    {
      assert !AutoAt(t)(i);
    }
  }

  /** The word and the argument the manual pattern captures at `i`: the text
      from `i` on reads `/scan `, the word, a space and the argument, and the
      argument runs as far as letters and digits go. */
  function ManualArgsAt(t: string, i: int): (r: ManualArgs)
    requires ManualMatchesAt(t, i)
    ensures WellFormedArgs(r)
    ensures var e := i + |ScanPrefix| + |r.network| + 1 + |r.address|;
      && e <= |t|
      && t[i..e] == ScanPrefix + r.network + " " + r.address
      && (e == |t| || !IsAsciiAlnum(t[e]))
  {
    var k := i + |ScanPrefix|;
    var w := WordLength(t, i);
    var e := k + w + 1 + ArgumentLength(t, i);
    SplitAtMatch(t, i, k, w, e);
    ManualArgs(t[k..k + w], t[k + w + 1..e])
  }

  /** The text of a manual match, cut at the word and at the space. */
  lemma SplitAtMatch(t: string, i: int, k: int, w: int, e: int)
    requires OccursAt(t, ScanPrefix, i) && k == i + |ScanPrefix|
    requires 0 <= w && k + w < e <= |t| && t[k + w] == ' '
    ensures t[i..e] == ScanPrefix + t[k..k + w] + " " + t[k + w + 1..e]
  {
    assert t[i..k] == ScanPrefix;
    assert t[k + w..k + w + 1] == " ";
    assert t[i..e] == t[i..k] + t[k..k + w] + t[k + w..k + w + 1] + t[k + w + 1..e];
  }

  /** The manual command: the captured network word and address. */
  function ManualCommand(t: string): (r: Option<ManualArgs>)
    ensures r != None ==> WellFormedArgs(r.value)
    ensures r == None <==> forall i | 0 <= i < |t| :: !ManualMatchesAt(t, i)
    ensures r != None ==>
      exists i | IsLeftmostManualMatch(t, i) :: r.value == ManualArgsAt(t, i)
  {
    match FindFirst(|t|, 0, ManualAt(t))
    case None =>
      NoManualMatch(t);
      None
    case Some(i) =>
      LeftmostManualMatch(t, i);
      Some(ManualArgsAt(t, i))
  }

  /** The manual pattern matches at `i` and at no earlier position. */
  predicate IsLeftmostManualMatch(t: string, i: int) {
    && 0 <= i < |t|
    && ManualMatchesAt(t, i)
    && forall j | 0 <= j < i :: !ManualMatchesAt(t, j)
  }

  /** The position the leftmost search returns is the leftmost match. */
  lemma LeftmostManualMatch(t: string, i: nat)
    ensures FindFirst(|t|, 0, ManualAt(t)) == Some(i) ==> IsLeftmostManualMatch(t, i)
  {
    if FindFirst(|t|, 0, ManualAt(t)) == Some(i) {
      assert ManualAt(t)(i);
      forall j | 0 <= j < i
        ensures !ManualMatchesAt(t, j)
      {
        assert !ManualAt(t)(j);
      }
    }
  }

  lemma NoManualMatch(t: string)
    requires FindFirst(|t|, 0, ManualAt(t)) == None
    ensures forall i | 0 <= i < |t| :: !ManualMatchesAt(t, i)
  {
    forall i | 0 <= i < |t|
      ensures !ManualMatchesAt(t, i)
    {
      assert !ManualAt(t)(i);
    }
  }

  /** At one position at most one of the two patterns matches: the manual
      form needs a space where the auto-detect form needs letters and digits. */
  lemma PatternsExclusiveAt(t: string, i: int)
    ensures !(AutoMatchesAt(t, i) && ManualMatchesAt(t, i))
  {
    if AutoMatchesAt(t, i) && OccursAt(t, ScanPrefix, i) && i + |ScanPrefix| + WordLength(t, i) < |t| {
      assert IsAsciiAlnum(t[i + |ScanPrefix| + WordLength(t, i)]);
    }
  }

  /** The auto-detect pattern matches at one position at most: `/scan `
      cannot overlap itself, and its `/` and space are not letters or digits. */
  lemma AutoMatchUnique(t: string, i: int, j: int)
    requires AutoMatchesAt(t, i) && AutoMatchesAt(t, j)
    ensures i == j
  {
    assert forall d | 1 <= d < |ScanPrefix| :: ScanPrefix[d] != '/';
    assert t[i] == t[i..i + |ScanPrefix|][0] == '/';
    assert t[j] == t[j..j + |ScanPrefix|][0] == '/';
  }

  /** Every valid address is a well-formed auto-detect argument: sent after
      `/scan ` at the end of any message, it is the argument captured. */
  lemma AutoCommandCarriesAddress(before: string, address: string)
    requires AddressDetector.IsValidAddress(address)
    ensures AutoCommand(before + ScanPrefix + address) == Some(address)
  {
    var t := before + ScanPrefix + address;
    var i := |before|;
    ValidAddressIsArgument(address);
    assert t[i..i + |ScanPrefix|] == ScanPrefix;
    forall j | i + |ScanPrefix| <= j < |t|
      ensures IsAsciiAlnum(t[j])
    {
      assert t[j] == address[j - i - |ScanPrefix|];
    }
    assert AutoMatchesAt(t, i);
    assert AutoAt(t)(i);
    var k := FindFirst(|t|, 0, AutoAt(t)).value;
    assert AutoAt(t)(k);
    AutoMatchUnique(t, i, k);
    assert t[i + |ScanPrefix|..] == address;
  }

  /** Every valid address is a well-formed manual argument: after `/scan `,
      a network word and a space, it is the address captured, and the word
      is the network captured. */
  lemma ManualCommandCarriesAddress(network: string, address: string)
    requires |network| > 0 && forall j | 0 <= j < |network| :: IsAsciiLetter(network[j])
    requires AddressDetector.IsValidAddress(address)
    ensures ManualCommand(ScanPrefix + network + " " + address) == Some(ManualArgs(network, address))
  {
    var t := ScanPrefix + network + " " + address;
    ManualMatchesAtStart(network, address);
    ManualArgsAtStart(network, address);
    assert ManualAt(t)(0);
    assert FindFirst(|t|, 0, ManualAt(t)) == Some(0);
  }

  /** What the manual pattern captures at the start of such a message. */
  lemma ManualArgsAtStart(network: string, address: string)
    requires ManualMatchesAt(ScanPrefix + network + " " + address, 0)
    requires WordLength(ScanPrefix + network + " " + address, 0) == |network|
    requires ArgumentLength(ScanPrefix + network + " " + address, 0) == |address|
    ensures ManualArgsAt(ScanPrefix + network + " " + address, 0) == ManualArgs(network, address)
  {
    var t := ScanPrefix + network + " " + address;
    var k := |ScanPrefix|;
    var w := |network|;
    assert t[k..k + w] == network;
    assert t[k + w + 1..k + w + 1 + |address|] == address;
  }

  /** The manual pattern matches such a message at its start, with the word
      and the argument running exactly over `network` and `address`. */
  lemma ManualMatchesAtStart(network: string, address: string)
    requires |network| > 0 && forall j | 0 <= j < |network| :: IsAsciiLetter(network[j])
    requires AddressDetector.IsValidAddress(address)
    ensures ManualMatchesAt(ScanPrefix + network + " " + address, 0)
    ensures WordLength(ScanPrefix + network + " " + address, 0) == |network|
    ensures ArgumentLength(ScanPrefix + network + " " + address, 0) == |address|
  {
    var t := ScanPrefix + network + " " + address;
    var k := |ScanPrefix|;
    var w := |network|;
    ValidAddressIsArgument(address);
    assert t[..k] == ScanPrefix;
    assert OccursAt(t, ScanPrefix, 0);
    forall j | k <= j < k + w
      ensures IsAsciiLetter(t[j])
    {
      assert t[j] == network[j - k];
    }
    assert t[k + w] == ' ';
    RunIsMaximal(t, k, IsAsciiLetter, w);
    forall j | k + w + 1 <= j < |t|
      ensures IsAsciiAlnum(t[j])
    {
      assert t[j] == address[j - k - w - 1];
    }
    RunIsMaximal(t, k + w + 1, IsAsciiAlnum, |address|);
  }

  /** A valid address is at least 25 letters and digits long. */
  lemma ValidAddressIsArgument(address: string)
    requires AddressDetector.IsValidAddress(address)
    ensures |address| >= MinArgumentLength
    ensures forall j | 0 <= j < |address| :: IsAsciiAlnum(address[j])
  {
    if AddressDetector.IsEvmAddress(address) {
      forall j | 0 <= j < |address|
        ensures IsAsciiAlnum(address[j])
      {
        if j >= 2 {
          assert AddressDetector.IsHexDigit(address[j]);
        }
      }
    }
  }
}
