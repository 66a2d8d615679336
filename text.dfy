/** String helpers the picker relies on: `std::string::find` and the
    `"%02lu"` rank label written with `snprintf`. */
module Text {

  datatype Option<T> = None | Some(value: T)

  /** `q` occurs in `s` starting at position `i`. */
  predicate OccursAt(q: string, s: string, i: nat) {
    i + |q| <= |s| && s[i..i + |q|] == q
  }

  /** `p` is a prefix of `s`. */
  predicate IsPrefix(p: string, s: string) {
    |p| <= |s| && s[..|p|] == p
  }

  /** `q` is a contiguous substring of `s` (case-sensitive, character by character). */
  ghost predicate IsSubstring(q: string, s: string) {
    exists i: nat :: OccursAt(q, s, i)
  }

  /** First position at or after `i` where `q` occurs in `s`; None plays `npos`. */
  function FindFrom(s: string, q: string, i: nat): (r: Option<nat>)
    requires i <= |s|
    ensures r.Some? ==> i <= r.value && OccursAt(q, s, r.value)
    ensures r.Some? ==> forall j: nat :: i <= j < r.value ==> !OccursAt(q, s, j)
    ensures r.None? ==> forall j: nat :: i <= j ==> !OccursAt(q, s, j)
    decreases |s| - i
  {
    if OccursAt(q, s, i) then Some(i)
    else if i == |s| then None
    else FindFrom(s, q, i + 1)
  }

  /** `s.find(q)`: the least position where `q` occurs, or `npos`. */
  function Find(s: string, q: string): (r: Option<nat>)
    ensures r.Some? ==> OccursAt(q, s, r.value)
    ensures r.Some? ==> forall j: nat :: j < r.value ==> !OccursAt(q, s, j)
    ensures r.None? ==> forall j: nat :: !OccursAt(q, s, j)
  {
    FindFrom(s, q, 0)
  }

  /** `find` reports a position exactly when the needle is a substring. */
  lemma FindFoundIffSubstring(s: string, q: string)
    ensures Find(s, q).Some? <==> IsSubstring(q, s)
  {
    if Find(s, q).Some? {
      assert OccursAt(q, s, Find(s, q).value);
    }
  }

  /** `find` returns 0 exactly when the needle is a prefix. */
  lemma FindZeroIffPrefix(s: string, q: string)
    ensures Find(s, q) == Some(0) <==> IsPrefix(q, s)
  {
    if IsPrefix(q, s) {
      assert OccursAt(q, s, 0);
    }
  }

  /** The empty needle is found at position 0 of every string. */
  lemma FindEmpty(s: string)
    ensures Find(s, "") == Some(0)
  {
    assert OccursAt("", s, 0);
  }

  // ----- decimal numerals -----

  predicate IsDigit(c: char) {
    '0' <= c <= '9'
  }

  predicate AllDigits(s: string) {
    forall k :: 0 <= k < |s| ==> IsDigit(s[k])
  }

  function DigitChar(d: nat): (c: char)
    requires d < 10
    ensures IsDigit(c) && c as int - '0' as int == d
  {
    ('0' as int + d) as char
  }

  /** Shortest decimal numeral of `n` (what `%lu` prints). */
  function Decimal(n: nat): (r: string)
    ensures 1 <= |r| && AllDigits(r)
    ensures n < 10 <==> |r| == 1
    ensures n >= 10 ==> r[0] != '0'
    decreases n
  {
    if n < 10 then [DigitChar(n)] else Decimal(n / 10) + [DigitChar(n % 10)]
  }

  /** The number a string of digits denotes (leading zeros allowed). */
  function DecimalValue(s: string): nat
    requires AllDigits(s)
  {
    if s == [] then 0
    else DecimalValue(s[..|s| - 1]) * 10 + (s[|s| - 1] as int - '0' as int)
  }

  /** Reading back the numeral gives the number. */
  lemma {:induction false} DecimalRoundTrip(n: nat)
    ensures DecimalValue(Decimal(n)) == n
    decreases n
  {
    if n >= 10 {
      DecimalRoundTrip(n / 10);
      var r := Decimal(n);
      assert r[..|r| - 1] == Decimal(n / 10);
    }
  }

  /** A leading zero does not change the value of a numeral. */
  lemma {:induction false} LeadingZero(s: string)
    requires AllDigits(s)
    ensures AllDigits("0" + s) && DecimalValue("0" + s) == DecimalValue(s)
    decreases |s|
  {
    if s != [] {
      LeadingZero(s[..|s| - 1]);
      assert ("0" + s)[..|s|] == "0" + s[..|s| - 1];
    }
  }

  /** `snprintf(buf, 20, "%02lu", n)`: the numeral of `n`, zero-padded to two places. */
  function Rank(n: nat): (r: string)
    ensures AllDigits(r)
    ensures n < 100 ==> |r| == 2
    ensures n >= 10 ==> r == Decimal(n)
  {
    if n < 10 then "0" + Decimal(n) else Decimal(n)
  }

  /** The rank label reads back as the number it was made from. */
  lemma RankRoundTrip(n: nat)
    ensures DecimalValue(Rank(n)) == n
  {
    DecimalRoundTrip(n);
    if n < 10 {
      LeadingZero(Decimal(n));
    }
  }
}
