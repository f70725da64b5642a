/**
 * The string operations the handlers use: `String.prototype.split` with a
 * fixed separator, the character classes of the password rules, and the
 * decimal rendering of a millisecond timestamp (`Date.now().toString()`).
 */
module Text {
  import opened Base

  /** The separator the registration handler splits validation messages at. */
  const At: string := " at "

  predicate IsUpper(c: char) { 'A' <= c <= 'Z' }

  predicate IsDigit(c: char) { '0' <= c <= '9' }

  /** `/[A-Z]/.test(s)` */
  predicate HasUpper(s: string) { exists i :: 0 <= i < |s| && IsUpper(s[i]) }

  /** `/[0-9]/.test(s)` */
  predicate HasDigit(s: string) { exists i :: 0 <= i < |s| && IsDigit(s[i]) }

  /**
   * The number of UTF-16 code units in `s`, which is what JavaScript's
   * `.length` counts: a character beyond U+FFFF takes a surrogate pair.
   */
  function Utf16Length(s: string): (n: nat)
    ensures |s| <= n <= 2 * |s|
  {
    if s == [] then 0
    else Utf16Length(s[..|s| - 1]) + (if s[|s| - 1] as int > 0xFFFF then 2 else 1)
  }

  /** On the Basic Multilingual Plane the two counts agree; beyond it they differ. */
  lemma {:induction false} Utf16LengthBmp(s: string)
    ensures Utf16Length(s) == |s| <==> forall i :: 0 <= i < |s| ==> s[i] as int <= 0xFFFF
  {
    if s != [] {
      var init := s[..|s| - 1];
      Utf16LengthBmp(init);
      if forall i :: 0 <= i < |init| ==> init[i] as int <= 0xFFFF {
        if s[|s| - 1] as int <= 0xFFFF {
          forall i | 0 <= i < |s| ensures s[i] as int <= 0xFFFF {
            if i < |init| { assert s[i] == init[i]; }
          }
        }
      } else {
        var i :| 0 <= i < |init| && init[i] as int > 0xFFFF;
        assert s[i] == init[i];
      }
    }
  }

  /** `sep` occurs in `s` starting at index `i`. */
  predicate OccursAt(s: string, sep: string, i: nat) {
    i + |sep| <= |s| && s[i..i + |sep|] == sep
  }

  predicate Contains(s: string, sep: string) {
    exists i: nat | i <= |s| :: OccursAt(s, sep, i)
  }

  /** The first index at or after `from` where `sep` occurs, if any. */
  function IndexOf(s: string, sep: string, from: nat): (r: Option<nat>)
    requires from <= |s|
    decreases |s| - from
    ensures r.Some? ==> from <= r.value && OccursAt(s, sep, r.value)
    ensures r.Some? ==> forall j: nat :: from <= j < r.value ==> !OccursAt(s, sep, j)
    ensures r.None? ==> forall j: nat :: from <= j ==> !OccursAt(s, sep, j)
  {
    if OccursAt(s, sep, from) then Some(from)
    else if from == |s| then None
    else IndexOf(s, sep, from + 1)
  }

  /**
   * `s.split(sep)` for a non-empty separator: the pieces between successive
   * non-overlapping occurrences of `sep`, scanning from the left.
   */
  function Split(s: string, sep: string): (parts: seq<string>)
    requires sep != []
    decreases |s|
    ensures |parts| >= 1
    ensures |parts[0]| <= |s| && s[..|parts[0]|] == parts[0]
  {
    match IndexOf(s, sep, 0)
    case None => [s]
    case Some(i) => [s[..i]] + Split(s[i + |sep|..], sep)
  }

  /** `parts.join(sep)` */
  function Join(parts: seq<string>, sep: string): string {
    if |parts| <= 1 then (if parts == [] then [] else parts[0])
    else parts[0] + sep + Join(parts[1..], sep)
  }

  /** Splitting loses nothing: joining the pieces again gives back the message. */
  lemma {:induction false} JoinSplit(s: string, sep: string)
    requires sep != []
    ensures Join(Split(s, sep), sep) == s
    decreases |s|
  {
    match IndexOf(s, sep, 0)
    case None =>
    case Some(i) =>
      var rest := s[i + |sep|..];
      JoinSplit(rest, sep);
      assert Split(s, sep) == [s[..i]] + Split(rest, sep);
      calc {
        Join(Split(s, sep), sep);
        s[..i] + sep + Join(Split(rest, sep), sep);
        s[..i] + sep + rest;
        { assert s[i..i + |sep|] == sep; }
        s;
      }
  }

  /** No piece of a split contains the separator. */
  lemma {:induction false} SplitPiecesFree(s: string, sep: string, k: nat)
    requires sep != []
    requires k < |Split(s, sep)|
    ensures !Contains(Split(s, sep)[k], sep)
    decreases |s|
  {
    match IndexOf(s, sep, 0)
    case None =>
      assert Split(s, sep)[k] == s;
    case Some(i) =>
      if k == 0 {
        PrefixFree(s, sep, i);
      } else {
        SplitPiecesFree(s[i + |sep|..], sep, k - 1);
      }
  }

  /** `sep` does not start at `j` when the first two characters already differ. */
  lemma NotOccursAt(s: string, sep: string, j: nat)
    requires |sep| >= 2
    requires j + |sep| > |s| || s[j] != sep[0] || s[j + 1] != sep[1]
    ensures !OccursAt(s, sep, j)
  {
  }

  /** The split of a string whose first occurrence of `sep` is at `i`. */
  lemma SplitAtFirst(s: string, sep: string, i: nat)
    requires sep != [] && i <= |s| && OccursAt(s, sep, i)
    requires forall j: nat :: j < i ==> !OccursAt(s, sep, j)
    ensures Split(s, sep) == [s[..i]] + Split(s[i + |sep|..], sep)
  {
    assert IndexOf(s, sep, 0) == Some(i);
  }

  /** A string without `sep` splits into itself. */
  lemma SplitWithout(s: string, sep: string)
    requires sep != []
    requires forall j: nat :: j < |s| ==> !OccursAt(s, sep, j)
    ensures Split(s, sep) == [s]
  {
    assert IndexOf(s, sep, 0).None?;
  }

  /** When `sep` first occurs in `s` at `i`, it does not occur in `s[..i]`. */
  lemma PrefixFree(s: string, sep: string, i: nat)
    requires sep != [] && i <= |s|
    requires forall j: nat :: j < i ==> !OccursAt(s, sep, j)
    ensures !Contains(s[..i], sep)
  {
    forall j: nat | OccursAt(s[..i], sep, j)
      ensures false
    {
      assert s[..i][j..j + |sep|] == s[j..j + |sep|];
      assert OccursAt(s, sep, j);
    }
  }

  /** The decimal digit for `d`. */
  function DigitChar(d: nat): (c: char)
    requires d < 10
    ensures IsDigit(c)
  {
    "0123456789"[d]
  }

  function DigitValue(c: char): nat
    requires IsDigit(c)
  {
    (c - '0') as nat
  }

  /** `n.toString()` for a non-negative integer: its decimal digits, most significant first. */
  function DecimalString(n: nat): (s: string)
    ensures s != []
    ensures forall i :: 0 <= i < |s| ==> IsDigit(s[i])
    ensures |s| > 1 ==> s[0] != '0'
  {
    if n < 10 then [DigitChar(n)] else DecimalString(n / 10) + [DigitChar(n % 10)]
  }

  /** The number a string of decimal digits denotes. */
  function DecimalValue(s: string): nat
    requires forall i :: 0 <= i < |s| ==> IsDigit(s[i])
  {
    if s == [] then 0 else DecimalValue(s[..|s| - 1]) * 10 + DigitValue(s[|s| - 1])
  }

  /** The timestamp's decimal form reads back as the timestamp. */
  lemma {:induction false} DecimalRoundTrip(n: nat)
    ensures DecimalValue(DecimalString(n)) == n
  {
    var s := DecimalString(n);
    if n < 10 {
      assert s[..0] == [];
    } else {
      DecimalRoundTrip(n / 10);
      assert s[..|s| - 1] == DecimalString(n / 10);
    }
  }

  /** Distinct timestamps render as distinct strings. */
  lemma DecimalStringInjective(m: nat, n: nat)
    requires DecimalString(m) == DecimalString(n)
    ensures m == n
  {
    DecimalRoundTrip(m);
    DecimalRoundTrip(n);
  }
}
