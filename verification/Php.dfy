/**
 * The few PHP runtime notions the backup script relies on: loosely typed
 * configuration values, `empty`, `is_bool`, `is_numeric` and `substr`.
 */
module Php {

  /** A PHP scalar as it may be written in the configuration block. */
  datatype Value = Null | Bool(b: bool) | Int(i: int) | Str(s: string)

  /** `empty($s)` for a string: the empty string and "0" count as empty. */
  predicate EmptyString(s: string) {
    s == "" || s == "0"
  }

  /** `empty($v)`: false, 0, "", "0" and null. */
  predicate Empty(v: Value) {
    match v
    case Null => true
    case Bool(b) => !b
    case Int(i) => i == 0
    case Str(s) => EmptyString(s)
  }

  /** `if ($v)`: PHP truthiness, the negation of `empty`. */
  predicate Truthy(v: Value) {
    !Empty(v)
  }

  /** `is_bool($v)`. */
  predicate IsBool(v: Value) {
    v.Bool?
  }

  predicate IsDigit(c: char) {
    '0' <= c <= '9'
  }

  /** The whitespace PHP 8 allows around a numeric string: space, \t, \n, \r, \v, \f. */
  predicate IsSpace(c: char) {
    c == ' ' || c == '\t' || c == '\n' || c == '\r' || c as int == 11 || c as int == 12
  }

  /** The index just past the run of digits that starts at `i`. */
  function DigitsEnd(s: string, i: nat): (r: nat)
    requires i <= |s|
    ensures i <= r <= |s|
    ensures forall k :: i <= k < r ==> IsDigit(s[k])
    ensures r < |s| ==> !IsDigit(s[r])
    decreases |s| - i
  {
    if i < |s| && IsDigit(s[i]) then DigitsEnd(s, i + 1) else i
  }

  /** The index of the first non-space character at or after `i`. */
  function SpacesEnd(s: string, i: nat): (r: nat)
    requires i <= |s|
    ensures i <= r <= |s|
    ensures forall k :: i <= k < r ==> IsSpace(s[k])
    ensures r < |s| ==> !IsSpace(s[r])
    decreases |s| - i
  {
    if i < |s| && IsSpace(s[i]) then SpacesEnd(s, i + 1) else i
  }

  /** The index just past the last non-space character before `j`. */
  function SpacesStart(s: string, j: nat): (r: nat)
    requires j <= |s|
    ensures r <= j
    ensures forall k :: r <= k < j ==> IsSpace(s[k])
    ensures 0 < r ==> !IsSpace(s[r - 1])
  {
    if 0 < j && IsSpace(s[j - 1]) then SpacesStart(s, j - 1) else j
  }

  /** An optional `e`/`E` exponent tail from index `j`: optional sign, then at least one digit, then the end. */
  predicate ExponentDigits(t: string, j: nat)
    requires j <= |t|
  {
    var j1 := if j < |t| && (t[j] == '+' || t[j] == '-') then j + 1 else j;
    var k := DigitsEnd(t, j1);
    j1 < k && k == |t|
  }

  /**
   * A PHP 8 number without surrounding whitespace: an optional sign, digits
   * with at most one '.', at least one digit in all, and an optional exponent.
   */
  predicate NumberBody(t: string) {
    var i0 := if 0 < |t| && (t[0] == '+' || t[0] == '-') then 1 else 0;
    var i1 := DigitsEnd(t, i0);
    var i2 := if i1 < |t| && t[i1] == '.' then DigitsEnd(t, i1 + 1) else i1;
    var fraction := if i1 < i2 then i2 - i1 - 1 else 0;
    && 0 < (i1 - i0) + fraction
    && (i2 == |t| || ((t[i2] == 'e' || t[i2] == 'E') && ExponentDigits(t, i2 + 1)))
  }

  /** A numeric string in the sense of PHP 8: a number, with optional leading and trailing whitespace. */
  predicate IsNumericString(s: string) {
    var a := SpacesEnd(s, 0);
    var b := SpacesStart(s, |s|);
    a < b && NumberBody(s[a..b])
  }

  /** `is_numeric($v)` (floats are not part of this model). */
  predicate IsNumeric(v: Value) {
    match v
    case Int(_) => true
    case Str(s) => IsNumericString(s)
    case _ => false
  }

  /** The default retention limit and a padded integer are numeric strings. */
  lemma NumericStringExamples()
    ensures IsNumeric(Int(30)) && IsNumeric(Str("30")) && IsNumeric(Str(" 7\n"))
  {
    assert SpacesEnd(" 7\n", 0) == 1;
    assert SpacesStart(" 7\n", 3) == 2;
    assert " 7\n"[1..2] == "7";
  }

  /** A number with an exponent is numeric. */
  lemma ExponentStringExample()
    ensures IsNumeric(Str("1.5e3"))
  {
    var s := "1.5e3";
    assert SpacesEnd(s, 0) == 0 && SpacesStart(s, 5) == 5;
    assert s[0..5] == s;
    assert DigitsEnd(s, 0) == 1 && DigitsEnd(s, 2) == 3 && DigitsEnd(s, 4) == 5;
  }

  /** A fraction without integer digits is numeric. */
  lemma FractionStringExample()
    ensures IsNumeric(Str(".5"))
  {
    var s := ".5";
    assert SpacesEnd(s, 0) == 0 && SpacesStart(s, 2) == 2;
    assert s[0..2] == s;
    assert DigitsEnd(s, 0) == 0 && DigitsEnd(s, 1) == 2;
  }

  /** Words, the empty string and booleans are not numeric. */
  lemma NonNumericExamples()
    ensures !IsNumeric(Str("")) && !IsNumeric(Str(".")) && !IsNumeric(Str("30 days")) && !IsNumeric(Bool(true))
  {
    assert SpacesStart("30 days", 7) == 7;
    assert "30 days"[0..7] == "30 days";
    assert DigitsEnd("30 days", 0) == 2;
  }

  function Min(a: int, b: int): int {
    if a <= b then a else b
  }

  /**
   * `substr($s, $start, $len)` as PHP 8 defines it for a non-negative length:
   * a negative start counts from the end (and is clamped to 0), a start past
   * the end gives the empty string, and the length is cut at the end.
   */
  function Substr(s: string, start: int, len: nat): (r: string)
    ensures |r| <= |s| && |r| <= len
    ensures 0 <= start && start + len <= |s| ==> r == s[start..start + len]
    ensures 0 <= start <= |s| && |s| <= start + len ==> r == s[start..]
    ensures |s| <= start ==> r == []
    ensures start < 0 && 0 <= |s| + start ==> r == s[|s| + start..Min(|s| + start + len, |s|)]
    ensures start < 0 && |s| + start < 0 ==> r == s[..Min(len, |s|)]
  {
    var from := if 0 <= start then start else if -start > |s| then 0 else |s| + start;
    if |s| <= from then [] else s[from..Min(from + len, |s|)]
  }

  /** `substr($s, -1)`: the last character, or "" for the empty string. */
  function LastChar(s: string): (r: string)
    ensures s == [] ==> r == []
    ensures s != [] ==> r == [s[|s| - 1]]
  {
    Substr(s, -1, |s|)
  }

  /** The number of bytes UTF-8 spends on one character. */
  function Utf8Width(c: char): (n: nat)
    ensures 1 <= n <= 4
    ensures n == 1 <==> c as int < 0x80
  {
    if c as int < 0x80 then 1
    else if c as int < 0x800 then 2
    else if c as int < 0x1_0000 then 3
    else 4
  }

  /** `strlen($s)`: the length in bytes of the UTF-8 encoding, not in characters. */
  function Strlen(s: string): (n: nat)
    ensures |s| <= n <= 4 * |s|
  {
    if s == [] then 0 else Utf8Width(s[0]) + Strlen(s[1..])
  }

  /** On ASCII text bytes and characters agree. */
  lemma {:induction false} StrlenAscii(s: string)
    requires forall k :: 0 <= k < |s| ==> s[k] as int < 0x80
    ensures Strlen(s) == |s|
  {
    if s != [] {
      StrlenAscii(s[1..]);
    }
  }

  /** Three accented letters are three characters but six bytes. */
  lemma StrlenExample()
    ensures Strlen("\U{e4}\U{f6}\U{fc}") == 6
  {
    var s := "\U{e4}\U{f6}\U{fc}";
    assert s[1..][1..][1..] == [];
  }

  /** Any non-empty run of decimal digits is numeric. */
  lemma DigitsAreNumeric(s: string)
    requires 0 < |s| && forall k :: 0 <= k < |s| ==> IsDigit(s[k])
    ensures IsNumericString(s)
  {
    assert SpacesEnd(s, 0) == 0;
    assert SpacesStart(s, |s|) == |s|;
    assert s[0..|s|] == s;
    DigitsRunToEnd(s, 0);
  }

  lemma {:induction false} DigitsRunToEnd(s: string, i: nat)
    requires i <= |s| && forall k :: 0 <= k < |s| ==> IsDigit(s[k])
    ensures DigitsEnd(s, i) == |s|
    decreases |s| - i
  {
    if i < |s| {
      DigitsRunToEnd(s, i + 1);
    }
  }

  /** A numeric string contains a digit: at least one digit is what makes it a number. */
  lemma NumericHasDigit(s: string)
    requires IsNumericString(s)
    ensures exists k :: 0 <= k < |s| && IsDigit(s[k])
  {
    var a, b := SpacesEnd(s, 0), SpacesStart(s, |s|);
    var t := s[a..b];
    var i0 := if 0 < |t| && (t[0] == '+' || t[0] == '-') then 1 else 0;
    var i1 := DigitsEnd(t, i0);
    if i0 < i1 {
      assert IsDigit(s[a + i0]);
    } else {
      assert t[i1] == '.';
      assert IsDigit(t[i1 + 1]);
      assert IsDigit(s[a + i1 + 1]);
    }
  }
}
