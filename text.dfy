/** Character classes, Python's str.strip() and decimal conversion, restricted to ASCII. */
module Text {

  /** ASCII characters for which Python's str.isspace() holds; these are also what
      the regular-expression class \s matches in a str pattern. */
  predicate IsSpace(c: char) {
    c == ' ' || '\t' <= c <= '\r' || '\U{1C}' <= c <= '\U{1F}'
  }

  /** ASCII decimal digits, the characters \d matches here. */
  predicate IsDigit(c: char) {
    '0' <= c <= '9'
  }

  predicate AllSpaces(s: string) {
    forall k :: 0 <= k < |s| ==> IsSpace(s[k])
  }

  predicate AllDigits(s: string) {
    forall k :: 0 <= k < |s| ==> IsDigit(s[k])
  }

  // ---------------------------------------------------------------------------
  // str.strip()
  // ---------------------------------------------------------------------------

  /** End of the run of whitespace that starts at i. */
  function SpacesFrom(s: string, i: nat): (j: nat)
    requires i <= |s|
    ensures i <= j <= |s|
    ensures forall k :: i <= k < j ==> IsSpace(s[k])
    ensures j == |s| || !IsSpace(s[j])
    decreases |s| - i
  {
    if i < |s| && IsSpace(s[i]) then SpacesFrom(s, i + 1) else i
  }

  /** A run of whitespace from i that stops at j ends at j. */
  lemma {:induction false} SpacesFromExact(s: string, i: nat, j: nat)
    requires i <= j <= |s|
    requires forall k :: i <= k < j ==> IsSpace(s[k])
    requires j == |s| || !IsSpace(s[j])
    ensures SpacesFrom(s, i) == j
    decreases j - i
  {
    if i < j {
      SpacesFromExact(s, i + 1, j);
    }
  }

  /** Start of the run of whitespace that ends at j. */
  function SpacesUntil(s: string, j: nat): (i: nat)
    requires j <= |s|
    ensures i <= j
    ensures forall k :: i <= k < j ==> IsSpace(s[k])
    ensures i == 0 || !IsSpace(s[i - 1])
  {
    if j > 0 && IsSpace(s[j - 1]) then SpacesUntil(s, j - 1) else j
  }

  /** s[lo..hi] is what remains of s once its surrounding whitespace is removed:
      everything outside [lo, hi) is whitespace and the kept part neither starts nor
      ends with whitespace. */
  ghost predicate StripBounds(s: string, lo: nat, hi: nat) {
    && lo <= hi <= |s|
    && (forall k :: 0 <= k < lo ==> IsSpace(s[k]))
    && (forall k :: hi <= k < |s| ==> IsSpace(s[k]))
    && (lo < hi ==> !IsSpace(s[lo]) && !IsSpace(s[hi - 1]))
  }

  /** Where s.strip() starts: after the leading whitespace. */
  function StripStart(s: string): (lo: nat)
    ensures lo <= |s|
  {
    SpacesFrom(s, 0)
  }

  /** Where s.strip() ends: before the trailing whitespace (at the end when s is all whitespace). */
  function StripEnd(s: string): (hi: nat)
    ensures StripStart(s) <= hi <= |s|
  {
    if StripStart(s) == |s| then |s| else SpacesUntil(s, |s|)
  }

  /** Python's s.strip(): surrounding whitespace removed on both sides. */
  function Strip(s: string): (r: string)
    ensures |r| <= |s|
    ensures r == [] || (!IsSpace(r[0]) && !IsSpace(r[|r| - 1]))
  {
    s[StripStart(s)..StripEnd(s)]
  }

  lemma StripBoundsHold(s: string)
    ensures StripBounds(s, StripStart(s), StripEnd(s))
  {
  }

  /** Any bounds that satisfy StripBounds cut out exactly Strip(s). */
  lemma StripUnique(s: string, lo: nat, hi: nat)
    requires StripBounds(s, lo, hi)
    ensures Strip(s) == s[lo..hi]
  {
    if lo < hi {
      assert StripStart(s) == lo;
      assert StripEnd(s) == hi;
    } else {
      assert StripStart(s) == |s|;
    }
  }

  lemma BoundsExtend(s: string, w: string, lo: nat, hi: nat)
    requires AllSpaces(w) && StripBounds(s, lo, hi)
    ensures StripBounds(s + w, lo, hi) && (s + w)[lo..hi] == s[lo..hi]
  {
    var t := s + w;
    forall k | hi <= k < |t| ensures IsSpace(t[k]) {
      if k >= |s| {
        assert t[k] == w[k - |s|];
      }
    }
  }

  /** Whitespace appended after s does not change s.strip(). */
  lemma StripIgnoresTrailingSpaces(s: string, w: string)
    requires AllSpaces(w)
    ensures Strip(s + w) == Strip(s)
  {
    StripBoundsHold(s);
    BoundsExtend(s, w, StripStart(s), StripEnd(s));
    StripUnique(s + w, StripStart(s), StripEnd(s));
  }

  /** A string that neither starts nor ends with whitespace is its own strip(). */
  lemma StripOfTrimmed(s: string)
    requires s == [] || (!IsSpace(s[0]) && !IsSpace(s[|s| - 1]))
    ensures Strip(s) == s
  {
    StripUnique(s, 0, |s|);
  }

  /** Stripping keeps every prefix that starts and ends with non-whitespace. */
  lemma StripKeepsPrefix(s: string, k: nat)
    requires 0 < k <= |s| && !IsSpace(s[0]) && !IsSpace(s[k - 1])
    ensures k <= |Strip(s)| && Strip(s)[..k] == s[..k]
  {
    var hi := SpacesUntil(s, |s|);
    StripUnique(s, 0, hi);
  }

  // ---------------------------------------------------------------------------
  // Decimal numerals: int(digits) and f"{n}"
  // ---------------------------------------------------------------------------

  function DigitValue(c: char): (d: nat)
    requires IsDigit(c)
    ensures d < 10
  {
    (c as int - '0' as int) as nat
  }

  function DigitChar(d: nat): (c: char)
    requires d < 10
    ensures IsDigit(c) && DigitValue(c) == d
  {
    ('0' as int + d) as char
  }

  /** Python's int(s) on a string of ASCII digits (leading zeros allowed). */
  function DecimalValue(s: string): nat
    requires AllDigits(s)
  {
    if s == [] then 0 else DecimalValue(s[..|s| - 1]) * 10 + DigitValue(s[|s| - 1])
  }

  /** Python's str(n) / f"{n}" for a non-negative integer. */
  function NatToString(n: nat): (r: string)
    ensures |r| > 0 && AllDigits(r)
    ensures DecimalValue(r) == n
    ensures r[0] == '0' ==> r == "0"
  {
    if n < 10 then [DigitChar(n)]
    else
      var p := NatToString(n / 10);
      var r := p + [DigitChar(n % 10)];
      assert r[..|r| - 1] == p;
      r
  }
}
