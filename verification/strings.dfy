/**
 Character classes and string helpers shared by the address grammar, the
 network table, the error classifier and the `/scan` command patterns:
 ASCII case mapping (`String.prototype.toLowerCase` on ASCII text),
 substring containment (`String.prototype.includes`) and maximal runs of a
 character class (a greedy regular-expression repetition).
 */
module Strings {
  import opened Wrappers

  predicate IsAsciiUpper(c: char) { 'A' <= c <= 'Z' }

  predicate IsAsciiLower(c: char) { 'a' <= c <= 'z' }

  /** The regular-expression class `[a-zA-Z]`. */
  predicate IsAsciiLetter(c: char) { IsAsciiUpper(c) || IsAsciiLower(c) }

  predicate IsAsciiDigit(c: char) { '0' <= c <= '9' }

  /** The regular-expression class `[a-zA-Z0-9]`. */
  predicate IsAsciiAlnum(c: char) { IsAsciiLetter(c) || IsAsciiDigit(c) }

  /** A string with no upper-case ASCII letter. */
  predicate NoAsciiUpper(s: string) {
    forall i | 0 <= i < |s| :: !IsAsciiUpper(s[i])
  }

  /** Lower-casing of one character, on the ASCII range. */
  function ToLowerChar(c: char): (d: char)
    ensures IsAsciiUpper(c) ==> IsAsciiLower(d) && d as int == c as int + 32
    ensures !IsAsciiUpper(c) ==> d == c
    ensures !IsAsciiUpper(d)
  {
    if IsAsciiUpper(c) then (c as int + 32) as char else c
  }

  /** Lower-casing of a string, character by character. */
  function ToLower(s: string): (r: string)
    ensures |r| == |s|
    ensures forall i | 0 <= i < |s| :: r[i] == ToLowerChar(s[i])
    ensures NoAsciiUpper(r)
  {
    if s == [] then [] else [ToLowerChar(s[0])] + ToLower(s[1..])
  }

  /** Text that has no upper-case letter is its own lower-case form. */
  lemma ToLowerOfLower(s: string)
    requires NoAsciiUpper(s)
    ensures ToLower(s) == s
  {
  }

  /** Lower-casing twice is lower-casing once. */
  lemma ToLowerIdempotent(s: string)
    ensures ToLower(ToLower(s)) == ToLower(s)
  {
    ToLowerOfLower(ToLower(s));
  }

  /** `key` occurs in `s` starting at index `i`. */
  predicate OccursAt(s: string, key: string, i: int) {
    0 <= i && i + |key| <= |s| && s[i..i + |key|] == key
  }

  /** Substring containment, as `s.includes(key)`. */
  predicate Contains(s: string, key: string) {
    exists i | 0 <= i <= |s| - |key| :: OccursAt(s, key, i)
  }

  /** An occurrence inside a slice is an occurrence in the whole string. */
  lemma ContainsInSlice(s: string, a: int, b: int, key: string)
    requires 0 <= a <= b <= |s|
    requires Contains(s[a..b], key)
    ensures Contains(s, key)
  {
    var i :| 0 <= i <= (b - a) - |key| && OccursAt(s[a..b], key, i);
    var t := s[a..b];
    forall j | 0 <= j < |key|
      ensures s[a + i..a + i + |key|][j] == key[j]
    {
      assert key[j] == t[i..i + |key|][j] == t[i + j] == s[a + i + j];
    }
    assert s[a + i..a + i + |key|] == key;
    assert OccursAt(s, key, a + i);
  }

  /** The characters `x` and `y` never stand side by side in `s`. */
  predicate NoPair(s: string, x: char, y: char) {
    forall i | 0 <= i < |s| - 1 :: !(s[i] == x && s[i + 1] == y)
  }

  /** A string in which two adjacent characters of `key` never appear side
      by side does not contain `key`. */
  lemma AbsentPairNotContained(s: string, key: string, d: int)
    requires 0 <= d < |key| - 1
    requires NoPair(s, key[d], key[d + 1])
    ensures !Contains(s, key)
  {
    forall i | 0 <= i <= |s| - |key| && OccursAt(s, key, i)
      ensures s[i + d] == key[d] && s[i + d + 1] == key[d + 1]
    {
      assert s[i..i + |key|][d] == key[d];
      assert s[i..i + |key|][d + 1] == key[d + 1];
    }
  }

  /** Every character of `s` is one of `alphabet`. */
  predicate Within(s: string, alphabet: string) {
    forall i | 0 <= i < |s| :: s[i] in alphabet
  }

  /** A string written in an alphabet that lacks one of `key`'s characters
      does not contain `key`. */
  lemma AbsentCharNotContained(s: string, alphabet: string, key: string, d: int)
    requires 0 <= d < |key|
    requires Within(s, alphabet) && key[d] !in alphabet
    ensures !Contains(s, key)
  {
    forall i | 0 <= i <= |s| - |key|
      ensures OccursAt(s, key, i) ==> s[i + d] == key[d]
    {
      assert s[i..i + |key|][d] == s[i + d];
    }
  }

  /** Length of the longest run of characters satisfying `p` that starts at
      index `k`: what a greedy repetition `[class]*` consumes there. */
  function Run(s: string, k: nat, p: char -> bool): (n: nat)
    requires k <= |s|
    ensures k + n <= |s|
    ensures forall j | k <= j < k + n :: p(s[j])
    ensures k + n == |s| || !p(s[k + n])
    decreases |s| - k
  {
    if k == |s| || !p(s[k]) then 0 else 1 + Run(s, k + 1, p)
  }

  /** The run is determined by its contract: any stretch of `p` characters
      that ends the string or is followed by a non-`p` character is the run. */
  lemma RunIsMaximal(s: string, k: nat, p: char -> bool, n: nat)
    requires k + n <= |s|
    requires forall j | k <= j < k + n :: p(s[j])
    requires k + n == |s| || !p(s[k + n])
    ensures Run(s, k, p) == n
  {
    var m := Run(s, k, p);
    assert k + m < |s| ==> !p(s[k + m]);
    assert k + n < |s| ==> !p(s[k + n]);
  }

  /** The leftmost index in `[from, n)` that satisfies `p`: how an unanchored
      regular expression picks the first position where it can match. */
  function FindFirst(n: nat, from: nat, p: nat -> bool): (r: Option<nat>)
    requires from <= n
    ensures r != None ==> from <= r.value < n && p(r.value)
    ensures r != None ==> forall j | from <= j < r.value :: !p(j)
    ensures r == None <==> forall j | from <= j < n :: !p(j)
    decreases n - from
  {
    if from == n then None
    else if p(from) then Some(from)
    else FindFirst(n, from + 1, p)
  }
}
