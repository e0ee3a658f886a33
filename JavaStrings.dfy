/**
 * The handful of java.lang.String operations the services rely on, restricted to ASCII:
 * `toLowerCase`, `toUpperCase`, `trim` (which strips every character at or below U+0020),
 * `isEmpty` after `trim`, `startsWith`, `replace`, `String.join`, `equalsIgnoreCase`,
 * `Boolean.parseBoolean` and the way string concatenation prints a null reference.
 */
module JavaStrings {
  import opened Options

  /** Characters `String.trim` removes. */
  predicate IsTrimmed(c: char) {
    c <= ' '
  }

  function ToLowerChar(c: char): char {
    if 'A' <= c <= 'Z' then (c as int + 32) as char else c
  }

  function ToUpperChar(c: char): char {
    if 'a' <= c <= 'z' then (c as int - 32) as char else c
  }

  function ToLower(s: string): string {
    seq(|s|, i requires 0 <= i < |s| => ToLowerChar(s[i]))
  }

  function ToUpper(s: string): string {
    seq(|s|, i requires 0 <= i < |s| => ToUpperChar(s[i]))
  }

  predicate IsLower(s: string) {
    forall i :: 0 <= i < |s| ==> ToLowerChar(s[i]) == s[i]
  }

  lemma ToLowerIsLower(s: string)
    ensures IsLower(ToLower(s))
  {
  }

  lemma LowerIsFixed(s: string)
    requires IsLower(s)
    ensures ToLower(s) == s
  {
  }

  lemma UpperIsIdempotent(s: string)
    ensures ToUpper(ToUpper(s)) == ToUpper(s)
  {
  }

  /** Case mapping never moves a character across the `trim` boundary. */
  lemma CaseKeepsTrimClass(c: char)
    ensures IsTrimmed(ToLowerChar(c)) == IsTrimmed(c)
    ensures IsTrimmed(ToUpperChar(c)) == IsTrimmed(c)
  {
  }

  function TrimStart(s: string): (r: string)
    ensures |r| <= |s| && r == s[|s| - |r|..]
    ensures r == [] || !IsTrimmed(r[0])
    ensures forall i :: 0 <= i < |s| - |r| ==> IsTrimmed(s[i])
  {
    if s != [] && IsTrimmed(s[0]) then TrimStart(s[1..]) else s
  }

  function TrimEnd(s: string): (r: string)
    ensures |r| <= |s| && r == s[..|r|]
    ensures r == [] || !IsTrimmed(r[|r| - 1])
    ensures forall i :: |r| <= i < |s| ==> IsTrimmed(s[i])
  {
    if s != [] && IsTrimmed(s[|s| - 1]) then TrimEnd(s[..|s| - 1]) else s
  }

  /**
   * Java's `String.trim`: the longest slice of `s` that starts and ends with a visible
   * character, everything cut on either side being blank.
   */
  function Trim(s: string): (r: string)
    ensures |r| <= |s|
    ensures r == [] || (!IsTrimmed(r[0]) && !IsTrimmed(r[|r| - 1]))
    ensures exists i :: 0 <= i <= |s| - |r| && r == s[i..i + |r|] && IsBlank(s[..i]) && IsBlank(s[i + |r|..])
  {
    var t := TrimStart(s);
    var i := |s| - |t|;
    var r := TrimEnd(t);
    assert r == s[i..i + |r|] && IsBlank(s[..i]) && IsBlank(s[i + |r|..]);
    r
  }

  /**
   * `s.trim().isEmpty()`: the string holds nothing but characters at or below U+0020
   * (BlankIffTrimsToEmpty shows the two readings agree).
   */
  predicate IsBlank(s: string) {
    forall i :: 0 <= i < |s| ==> IsTrimmed(s[i])
  }

  lemma {:induction false} TrimStartOfBlank(s: string)
    requires IsBlank(s)
    ensures TrimStart(s) == []
  {
    if s != [] {
      TrimStartOfBlank(s[1..]);
    }
  }

  lemma {:induction false} TrimStartKeepsVisible(s: string)
    requires exists i :: 0 <= i < |s| && !IsTrimmed(s[i])
    ensures TrimStart(s) != []
  {
    if IsTrimmed(s[0]) {
      var i :| 0 <= i < |s| && !IsTrimmed(s[i]);
      assert s[1..][i - 1] == s[i];
      TrimStartKeepsVisible(s[1..]);
    }
  }

  /** Blank exactly when `trim` leaves nothing. */
  lemma BlankIffTrimsToEmpty(s: string)
    ensures IsBlank(s) <==> Trim(s) == []
  {
    if IsBlank(s) {
      TrimStartOfBlank(s);
    } else {
      TrimStartKeepsVisible(s);
      var t := TrimStart(s);
      assert !IsTrimmed(t[0]);
    }
  }

  /** Trimming a string that starts and ends with visible characters changes nothing. */
  lemma TrimOfTrimmed(s: string)
    requires s == [] || (!IsTrimmed(s[0]) && !IsTrimmed(s[|s| - 1]))
    ensures Trim(s) == s
  {
  }

  lemma TrimIsIdempotent(s: string)
    ensures Trim(Trim(s)) == Trim(s)
  {
    TrimOfTrimmed(Trim(s));
  }

  /** Lower-casing a trimmed string leaves it trimmed. */
  lemma LowerOfTrimmedIsTrimmed(s: string)
    requires s == [] || (!IsTrimmed(s[0]) && !IsTrimmed(s[|s| - 1]))
    ensures Trim(ToLower(s)) == ToLower(s)
  {
    if s != [] {
      CaseKeepsTrimClass(s[0]);
      CaseKeepsTrimClass(s[|s| - 1]);
    }
    TrimOfTrimmed(ToLower(s));
  }

  /** Upper-casing a trimmed string leaves it trimmed. */
  lemma UpperOfTrimmedIsTrimmed(s: string)
    requires s == [] || (!IsTrimmed(s[0]) && !IsTrimmed(s[|s| - 1]))
    ensures Trim(ToUpper(s)) == ToUpper(s)
  {
    if s != [] {
      CaseKeepsTrimClass(s[0]);
      CaseKeepsTrimClass(s[|s| - 1]);
    }
    TrimOfTrimmed(ToUpper(s));
  }

  predicate StartsWith(s: string, prefix: string) {
    |prefix| <= |s| && s[..|prefix|] == prefix
  }

  /** `s.contains(part)`: `part` starts at some position of `s`. */
  predicate Contains(s: string, part: string)
    decreases |s|
  {
    StartsWith(s, part) || (s != [] && Contains(s[1..], part))
  }

  /**
   * Java's `s.replace(target, "")`: one left-to-right scan that deletes every
   * non-overlapping occurrence of `target` it meets.
   */
  function RemoveAll(s: string, target: string): (r: string)
    requires target != []
    ensures |r| <= |s|
    ensures !Contains(s, target) ==> r == s
    decreases |s|
  {
    if |s| < |target| then s
    else if s[..|target|] == target then RemoveAll(s[|target|..], target)
    else
      var rest := RemoveAll(s[1..], target);
      assert !Contains(s, target) ==> !Contains(s[1..], target) && [s[0]] + s[1..] == s;
      [s[0]] + rest
  }

  /** The concatenation of `parts` in order, as a chain of `+` builds it. */
  function Concat(parts: seq<string>): (r: string)
    ensures |r| >= (if parts == [] then 0 else |parts[0]|)
  {
    if parts == [] then "" else parts[0] + Concat(parts[1..])
  }

  /** A concatenation begins with its first part. */
  lemma ConcatStartsWithFirst(parts: seq<string>)
    requires parts != []
    ensures StartsWith(Concat(parts), parts[0])
  {
    assert Concat(parts)[..|parts[0]|] == parts[0];
  }

  /** `String.join(separator, parts)`. */
  function Join(separator: string, parts: seq<string>): string {
    if parts == [] then ""
    else if |parts| == 1 then parts[0]
    else parts[0] + separator + Join(separator, parts[1..])
  }

  /** `a.equalsIgnoreCase(b)` over ASCII. */
  predicate EqualsIgnoreCase(a: string, b: string) {
    ToLower(a) == ToLower(b)
  }

  /** `Boolean.parseBoolean(s)`: true exactly for a non-null "true" in any letter case. */
  predicate ParseBoolean(s: Option<string>) {
    s.Some? && EqualsIgnoreCase(s.value, "true")
  }

  /** How `String.format("%s")` and `+` render a possibly-null string. */
  function Show(s: Option<string>): string {
    s.GetOr("null")
  }

  /** Decimal digits of a natural number, as `Long.toString` prints them. */
  function NatToString(n: nat): (r: string)
    ensures r != []
    decreases n
  {
    if n < 10 then [DigitChar(n)] else NatToString(n / 10) + [DigitChar(n % 10)]
  }

  function DigitChar(d: nat): char
    requires d < 10
  {
    ('0' as int + d) as char
  }

  /** The value of a decimal digit character (0 for any other character). */
  function DigitValue(c: char): (d: nat)
    ensures d < 10
  {
    if '0' <= c <= '9' then (c as int - '0' as int) else 0
  }

  /** `Integer.parseInt` on a string of decimal digits, most significant first. */
  function ParseNat(s: string): nat
    decreases |s|
  {
    if s == [] then 0 else ParseNat(s[..|s| - 1]) * 10 + DigitValue(s[|s| - 1])
  }

  /** Reading back the decimal text of a number gives the number. */
  lemma {:induction false} ParseNatRoundTrip(n: nat)
    ensures ParseNat(NatToString(n)) == n
    decreases n
  {
    var r := NatToString(n);
    if n < 10 {
      assert r[..|r| - 1] == [];
    } else {
      ParseNatRoundTrip(n / 10);
      assert r[..|r| - 1] == NatToString(n / 10);
    }
  }
}
