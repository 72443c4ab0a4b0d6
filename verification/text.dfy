/**
 String helpers both launchers rely on: the suffix test `endsWith`, the single-character
 search of `std::string::find`, and decimal digits.
 */
module Text {
  import opened Maybe

  /** The reference meaning of a suffix: `ending` is the last `|ending|` characters of `value`. */
  predicate HasSuffix(value: string, ending: string)
  {
    |ending| <= |value| && value[|value| - |ending|..] == ending
  }

  /** `start` is the first `|start|` characters of `value`. */
  predicate HasPrefix(value: string, start: string)
  {
    |start| <= |value| && value[..|start|] == start
  }

  /** `endsWith`: false when the ending is longer than the value, otherwise a comparison
      of the two strings character by character from their last characters backwards. */
  function EndsWith(value: string, ending: string): (b: bool)
    ensures b <==> HasSuffix(value, ending)
    decreases |ending|
  {
    if |ending| > |value| then false
    else if |ending| == 0 then true
    else
      var v, e := value[..|value| - 1], ending[..|ending| - 1];
      var same := value[|value| - 1] == ending[|ending| - 1] && EndsWith(v, e);
      assert value[|value| - |ending|..] == v[|v| - |e|..] + [value[|value| - 1]];
      assert ending == e + [ending[|ending| - 1]];
      same
  }

  /** `s.find(c, from)`: the first position at or after `from` holding `c`, or `None`
      (the `npos` of the source) when there is none, including when `from` is past the end. */
  function Find(s: string, c: char, from: nat): (r: Option<nat>)
    ensures r.Some? ==> from <= r.value < |s| && s[r.value] == c
    ensures r.Some? ==> forall j :: from <= j < r.value ==> s[j] != c
    ensures r.None? <==> forall j :: from <= j < |s| ==> s[j] != c
    decreases |s| - from
  {
    if from >= |s| then None
    else if s[from] == c then Some(from)
    else Find(s, c, from + 1)
  }

  predicate IsDigit(c: char)
  {
    '0' <= c <= '9'
  }

  predicate AllDigits(s: string)
  {
    forall i :: 0 <= i < |s| ==> IsDigit(s[i])
  }

  function DigitValue(c: char): (d: nat)
    requires IsDigit(c)
    ensures d < 10
  {
    c as int - '0' as int
  }

  function DigitChar(d: nat): (c: char)
    requires d < 10
    ensures IsDigit(c) && DigitValue(c) == d
  {
    ('0' as int + d) as char
  }

  /** The number a string of decimal digits denotes, most significant digit first. */
  function DecimalValue(s: string): nat
    requires AllDigits(s)
  {
    if |s| == 0 then 0
    else DecimalValue(s[..|s| - 1]) * 10 + DigitValue(s[|s| - 1])
  }

  /** The shortest decimal spelling of a natural number. */
  function DecimalString(n: nat): (s: string)
    ensures 0 < |s| && AllDigits(s)
  {
    if n < 10 then [DigitChar(n)]
    else DecimalString(n / 10) + [DigitChar(n % 10)]
  }

  /** Reading back the decimal spelling of a number gives the number. */
  lemma {:induction false} DecimalRoundTrip(n: nat)
    ensures DecimalValue(DecimalString(n)) == n
  {
    var s := DecimalString(n);
    if n >= 10 {
      DecimalRoundTrip(n / 10);
      assert s[..|s| - 1] == DecimalString(n / 10);
    }
  }
}
