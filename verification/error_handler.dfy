/**
 The user-facing error classifier (`ErrorHandler.getSimpleMessage`): an
 ordered list of case-sensitive keyword tests, a recursive unwrap of
 "Failed to scan token: <cause>", and a generic fallback.
 */
module ErrorHandler {
  import opened Wrappers
  import opened Strings

  // The five texts the classifier can produce.
  const TokenNotFound := "Token not found"
  const InvalidAddressFormat := "Invalid address format"
  const NetworkConnectionError := "Network connection error"
  const RateLimitExceeded := "Rate limit exceeded - try again later"
  const SomethingWentWrong := "Something went wrong - try again"

  /** The classifier's closed set of results. */
  predicate IsSimpleMessage(r: string) {
    r == TokenNotFound || r == InvalidAddressFormat || r == NetworkConnectionError
    || r == RateLimitExceeded || r == SomethingWentWrong
  }

  // The four keyword groups, tested in this order.

  predicate MentionsNotFound(m: string) {
    Contains(m, "Token not found on DEX") || Contains(m, "Token not found")
    || Contains(m, "not found on any supported network")
  }

  predicate MentionsInvalidAddress(m: string) {
    Contains(m, "Invalid token address") || Contains(m, "invalid address")
  }

  predicate MentionsNetworkFailure(m: string) {
    Contains(m, "API error") || Contains(m, "Network error")
    || Contains(m, "timeout") || Contains(m, "ECONNREFUSED")
  }

  predicate MentionsRateLimit(m: string) {
    Contains(m, "rate limit") || Contains(m, "too many requests")
  }

  /** No keyword of any group occurs in `m`. */
  predicate MentionsNoKeyword(m: string) {
    !MentionsNotFound(m) && !MentionsInvalidAddress(m)
    && !MentionsNetworkFailure(m) && !MentionsRateLimit(m)
  }

  /** The wrapper the scanner puts around a failure cause. */
  const Wrapper := "Failed to scan token"
  const WrapperPrefix := "Failed to scan token: "

  /** The characters a regular-expression `.` does not match. */
  predicate IsLineTerminator(c: char) {
    c == '\n' || c == '\r' || c == '\U{2028}' || c == '\U{2029}'
  }

  predicate IsNotLineTerminator(c: char) { !IsLineTerminator(c) }

  /** `/Failed to scan token: (.+)/` can start matching at index `i`: the
      prefix occurs there and is followed by at least one `.` character. */
  predicate WrapperMatchesAt(m: string, i: int) {
    OccursAt(m, WrapperPrefix, i) && i + |WrapperPrefix| < |m|
    && IsNotLineTerminator(m[i + |WrapperPrefix|])
  }

  function WrapperAt(m: string): nat -> bool {
    i => WrapperMatchesAt(m, i)
  }

  lemma NoWrapperMatch(m: string)
    requires FindFirst(|m|, 0, WrapperAt(m)) == None
    ensures forall j | 0 <= j < |m| :: !WrapperMatchesAt(m, j)
  {
    forall j | 0 <= j < |m|
      ensures !WrapperMatchesAt(m, j)
    {
      assert !WrapperAt(m)(j);
    }
  }

  /** Where the capture group `(.+)` lies: it starts right after the leftmost
      prefix and runs greedily up to the next line terminator or the end. */
  datatype Span = Span(start: nat, end: nat)

  function WrappedCause(m: string): (r: Option<Span>)
    ensures r != None ==> 0 < r.value.start < r.value.end <= |m|
    ensures r != None ==> Contains(m, Wrapper)
    ensures r != None ==> forall j | r.value.start <= j < r.value.end :: IsNotLineTerminator(m[j])
    ensures r == None <==> forall j | 0 <= j < |m| :: !WrapperMatchesAt(m, j)
  {
    match FindFirst(|m|, 0, WrapperAt(m))
    case None =>
      NoWrapperMatch(m);
      None
    case Some(i) =>
      var k := i + |WrapperPrefix|;
      assert m[i..i + |Wrapper|] == m[i..k][..|Wrapper|];
      assert OccursAt(m, Wrapper, i);
      Some(Span(k, k + Run(m, k, IsNotLineTerminator)))
  }

  /** `getSimpleMessage`: the first keyword group that occurs decides; a
      wrapped cause is classified on its own; anything else is generic. */
  function SimpleMessage(m: string): (r: string)
    ensures IsSimpleMessage(r)
    decreases |m|
  {
    if MentionsNotFound(m) then TokenNotFound
    else if MentionsInvalidAddress(m) then InvalidAddressFormat
    else if MentionsNetworkFailure(m) then NetworkConnectionError
    else if MentionsRateLimit(m) then RateLimitExceeded
    else if Contains(m, Wrapper) && WrappedCause(m) != None then
      var span := WrappedCause(m).value;
      SimpleMessage(m[span.start..span.end])
    else SomethingWentWrong
  }

  /** A slice of a message mentions a keyword only if the message does. */
  lemma SliceMentionsNoKeyword(m: string, a: int, b: int)
    requires 0 <= a <= b <= |m|
    requires MentionsNoKeyword(m)
    ensures MentionsNoKeyword(m[a..b])
  {
    SliceKeyword(m, a, b, "Token not found on DEX");
    SliceKeyword(m, a, b, "Token not found");
    SliceKeyword(m, a, b, "not found on any supported network");
    SliceKeyword(m, a, b, "Invalid token address");
    SliceKeyword(m, a, b, "invalid address");
    SliceKeyword(m, a, b, "API error");
    SliceKeyword(m, a, b, "Network error");
    SliceKeyword(m, a, b, "timeout");
    SliceKeyword(m, a, b, "ECONNREFUSED");
    SliceKeyword(m, a, b, "rate limit");
    SliceKeyword(m, a, b, "too many requests");
  }

  lemma SliceKeyword(m: string, a: int, b: int, key: string)
    requires 0 <= a <= b <= |m|
    ensures Contains(m[a..b], key) ==> Contains(m, key)
  {
    if Contains(m[a..b], key) {
      ContainsInSlice(m, a, b, key);
    }
  }

  /** Unwrapping never changes the result: a message that reaches the unwrap
      branch has no keyword, so neither has its cause, and the cause is
      classified as generic, however deeply it is wrapped. */
  lemma {:induction false} UnwrapYieldsGeneric(m: string)
    requires MentionsNoKeyword(m)
    ensures SimpleMessage(m) == SomethingWentWrong
    decreases |m|
  {
    if Contains(m, Wrapper) && WrappedCause(m) != None {
      var span := WrappedCause(m).value;
      SliceMentionsNoKeyword(m, span.start, span.end);
      UnwrapYieldsGeneric(m[span.start..span.end]);
    }
  }

  /** The classifier is the ordered keyword test alone: each text is produced
      exactly when its group is the first group that occurs, and the generic
      text exactly when no group occurs. */
  lemma {:induction false} SimpleMessageByPriority(m: string)
    ensures SimpleMessage(m) == TokenNotFound <==> MentionsNotFound(m)
    ensures SimpleMessage(m) == InvalidAddressFormat <==>
      !MentionsNotFound(m) && MentionsInvalidAddress(m)
    ensures SimpleMessage(m) == NetworkConnectionError <==>
      !MentionsNotFound(m) && !MentionsInvalidAddress(m) && MentionsNetworkFailure(m)
    ensures SimpleMessage(m) == RateLimitExceeded <==>
      !MentionsNotFound(m) && !MentionsInvalidAddress(m) && !MentionsNetworkFailure(m)
      && MentionsRateLimit(m)
    ensures SimpleMessage(m) == SomethingWentWrong <==> MentionsNoKeyword(m)
  {
    if MentionsNoKeyword(m) {
      UnwrapYieldsGeneric(m);
    }
  }

  /** The wrapper alone, with no `: ` and cause after it, is not unwrapped
      and falls through to the generic text. */
  lemma BareWrapperIsGeneric()
    ensures WrappedCause(Wrapper) == None
    ensures SimpleMessage(Wrapper) == SomethingWentWrong
  {
    WrapperMentionsNoKeyword();
    UnwrapYieldsGeneric(Wrapper);
  }

  lemma WrapperMentionsNoKeyword()
    ensures MentionsNoKeyword(Wrapper)
  {
    WrapperMentionsNoNotFoundOrInvalid();
    WrapperMentionsNoNetworkOrRateLimit();
  }

  lemma WrapperMentionsNoNotFoundOrInvalid()
    ensures !MentionsNotFound(Wrapper) && !MentionsInvalidAddress(Wrapper)
  {
    WrapperAvoids("Token not found on DEX", 0);
    WrapperAvoids("Token not found", 0);
    WrapperAvoids("not found on any supported network", 6);
    WrapperAvoids("Invalid token address", 0);
    WrapperAvoids("invalid address", 2);
  }

  lemma WrapperMentionsNoNetworkOrRateLimit()
    ensures !MentionsNetworkFailure(Wrapper) && !MentionsRateLimit(Wrapper)
  {
    WrapperAvoids("API error", 0);
    WrapperAvoids("Network error", 0);
    WrapperAvoids("timeout", 2);
    WrapperAvoids("ECONNREFUSED", 0);
    WrapperAvoids("rate limit", 0);
    WrapperAvoids("too many requests", 4);
  }

  /** The characters the wrapper is written in. */
  const WrapperAlphabet := "Faidlnotsc ke"

  /** A key with a character outside that alphabet is not in the wrapper. */
  lemma WrapperAvoids(key: string, d: int)
    requires 0 <= d < |key| && key[d] !in WrapperAlphabet
    ensures !Contains(Wrapper, key)
  {
    assert Within(Wrapper, WrapperAlphabet);
    AbsentCharNotContained(Wrapper, WrapperAlphabet, key, d);
  }

  /** The terminal auto-detect failure reads as "Token not found". */
  lemma NotFoundOnAnyNetwork()
    ensures SimpleMessage("Token not found on any supported network") == TokenNotFound
  {
    var m := "Token not found on any supported network";
    assert m[0..|TokenNotFound|] == TokenNotFound;
    assert OccursAt(m, "Token not found", 0);
  }

  /** Priority, by example: a not-found message that also mentions a rate
      limit is reported as not found. */
  lemma NotFoundBeatsRateLimit()
    ensures SimpleMessage("Token not found (rate limit)") == TokenNotFound
  {
    var m := "Token not found (rate limit)";
    assert m[0..|TokenNotFound|] == TokenNotFound;
    assert OccursAt(m, "Token not found", 0);
  }
}
