/** The rule marker `Rule_ID:\s*(\d+)` and Python's re.finditer over it.

    `Matches` is the reference reading of the pattern (what counts as one match);
    `MatchAt` is the matcher tried at one position and `FindAll` the left-to-right
    scan that re.finditer performs, resuming after each match. */
module Markers {
  import opened Wrappers
  import opened Text

  /** The literal part of the pattern. */
  const Marker: string := "Rule_ID:"

  /** One match: [start, end) is the whole matched text, [digitsStart, end) the captured
      group, and id the value int() gives that group. */
  datatype Match = Match(start: nat, digitsStart: nat, end: nat, id: nat)

  /** m is a match of `Rule_ID:\s*(\d+)` in text: the marker, a maximal whitespace run
      and a non-empty maximal digit run. */
  ghost predicate Matches(text: string, m: Match) {
    && m.start + |Marker| <= m.digitsStart < m.end <= |text|
    && text[m.start..m.start + |Marker|] == Marker
    && (forall k :: m.start + |Marker| <= k < m.digitsStart ==> IsSpace(text[k]))
    && (forall k :: m.digitsStart <= k < m.end ==> IsDigit(text[k]))
    && (m.end == |text| || !IsDigit(text[m.end]))
    && m.id == DecimalValue(text[m.digitsStart..m.end])
  }

  /** Matches appear in text order and never overlap. */
  ghost predicate InTextOrder(ms: seq<Match>) {
    forall i, j :: 0 <= i < j < |ms| ==> ms[i].end <= ms[j].start
  }

  /** End of the longest run of digits starting at i (the greedy `\d+`). */
  function DigitsFrom(text: string, i: nat): (r: nat)
    requires i <= |text|
    ensures i <= r <= |text|
    ensures forall k :: i <= k < r ==> IsDigit(text[k])
    ensures r == |text| || !IsDigit(text[r])
    decreases |text| - i
  {
    if i < |text| && IsDigit(text[i]) then DigitsFrom(text, i + 1) else i
  }

  /** The pattern tried at position p. */
  function MatchAt(text: string, p: nat): (r: Option<Match>)
    requires p <= |text|
    ensures r.Some? ==> r.value.start == p < r.value.end <= |text|
  {
    if p + |Marker| <= |text| && text[p..p + |Marker|] == Marker then
      var d := SpacesFrom(text, p + |Marker|);
      var e := DigitsFrom(text, d);
      if d < e then
        Some(Match(p, d, e, DecimalValue(text[d..e])))
      else
        None
    else
      None
  }

  /** Whatever the matcher returns is a match of the pattern. */
  lemma MatchAtSound(text: string, p: nat)
    requires p <= |text| && MatchAt(text, p).Some?
    ensures MatchAt(text, p).value.start == p && Matches(text, MatchAt(text, p).value)
  {
    var d := SpacesFrom(text, p + |Marker|);
    var e := DigitsFrom(text, d);
    assert MatchAt(text, p).value == Match(p, d, e, DecimalValue(text[d..e]));
  }

  /** The matcher finds every match that starts where it is tried. */
  lemma MatchAtFinds(text: string, m: Match)
    requires Matches(text, m)
    ensures MatchAt(text, m.start) == Some(m)
  {
    SpacesFromExact(text, m.start + |Marker|, m.digitsStart);
    DigitsFromExact(text, m.digitsStart, m.end);
  }

  lemma {:induction false} DigitsFromExact(text: string, i: nat, j: nat)
    requires i <= j <= |text|
    requires forall k :: i <= k < j ==> IsDigit(text[k])
    requires j == |text| || !IsDigit(text[j])
    ensures DigitsFrom(text, i) == j
    decreases j - i
  {
    if i < j {
      DigitsFromExact(text, i + 1, j);
    }
  }

  /** A match starts with the letter R. */
  lemma MatchStartsWithR(text: string, p: nat)
    requires p <= |text| && MatchAt(text, p).Some?
    ensures p < |text| && text[p] == 'R'
  {
    assert text[p..p + |Marker|][0] == text[p];
  }

  lemma SliceAt(t: string, i: nat, j: nat, k: nat)
    ensures i <= k < j <= |t| ==> t[i..j][k - i] == t[k]
  {
  }

  /** No match can start strictly inside another one. */
  lemma NoMatchInsideMatch(text: string, m: Match, q: nat)
    requires Matches(text, m) && m.start < q < m.end
    ensures MatchAt(text, q).None?
  {
    if MatchAt(text, q).Some? {
      MatchStartsWithR(text, q);
      SliceAt(text, m.start, m.start + |Marker|, q);
      assert false;
    }
  }

  // ---------------------------------------------------------------------------
  // The scan of re.finditer
  // ---------------------------------------------------------------------------

  /** re.finditer from position pos: try the pattern at each position, resuming
      after the end of each match. */
  function Scan(text: string, pos: nat): seq<Match>
    requires pos <= |text|
    decreases |text| - pos
  {
    if pos == |text| then []
    else
      match MatchAt(text, pos)
      case Some(m) => [m] + Scan(text, m.end)
      case None => Scan(text, pos + 1)
  }

  /** One step of the scan, at a position where the pattern matches. */
  lemma ScanStepMatch(text: string, pos: nat, m: Match)
    requires pos < |text| && MatchAt(text, pos) == Some(m)
    ensures m.end <= |text| && Scan(text, pos) == [m] + Scan(text, m.end)
  {
  }

  /** One step of the scan, at a position where the pattern does not match. */
  lemma ScanStepSkip(text: string, pos: nat)
    requires pos < |text| && MatchAt(text, pos).None?
    ensures Scan(text, pos) == Scan(text, pos + 1)
  {
  }

  /** Every item the scan yields is a match of the pattern. */
  lemma {:induction false} ScanSound(text: string, pos: nat)
    requires pos <= |text|
    ensures forall m :: m in Scan(text, pos) ==> Matches(text, m)
    decreases |text| - pos
  {
    if pos == |text| {
      assert Scan(text, pos) == [];
    } else {
      match MatchAt(text, pos)
      case Some(m) =>
        MatchAtSound(text, pos);
        ScanStepMatch(text, pos, m);
        ScanSound(text, m.end);
      case None =>
        ScanStepSkip(text, pos);
        ScanSound(text, pos + 1);
    }
  }

  /** The scan yields matches inside the text, in text order. */
  lemma {:induction false} ScanOrdered(text: string, pos: nat)
    requires pos <= |text|
    ensures forall i :: 0 <= i < |Scan(text, pos)| ==> pos <= Scan(text, pos)[i].start < Scan(text, pos)[i].end <= |text|
    ensures InTextOrder(Scan(text, pos))
    decreases |text| - pos
  {
    if pos == |text| {
      assert Scan(text, pos) == [];
    } else {
      match MatchAt(text, pos)
      case Some(m) =>
        ScanStepMatch(text, pos, m);
        ScanOrdered(text, m.end);
      case None =>
        ScanStepSkip(text, pos);
        ScanOrdered(text, pos + 1);
    }
  }

  /** re.finditer(r"Rule_ID:\s*(\d+)", text). */
  function FindAll(text: string): (r: seq<Match>)
    ensures forall i :: 0 <= i < |r| ==> r[i].start < r[i].end <= |text|
    ensures InTextOrder(r)
  {
    ScanOrdered(text, 0);
    Scan(text, 0)
  }

  lemma {:induction false} ScanComplete(text: string, pos: nat, m: Match)
    requires pos <= |text| && Matches(text, m) && pos <= m.start
    ensures m in Scan(text, pos)
    decreases |text| - pos
  {
    MatchAtFinds(text, m);
    match MatchAt(text, pos)
    case Some(m0) =>
      ScanStepMatch(text, pos, m0);
      if m.start != pos {
        if m.start < m0.end {
          MatchAtSound(text, pos);
          NoMatchInsideMatch(text, m0, m.start);
        }
        ScanComplete(text, m0.end, m);
      }
    case None =>
      ScanStepSkip(text, pos);
      ScanComplete(text, pos + 1, m);
  }

  /** FindAll yields exactly the matches of the pattern, each once, in text order. */
  lemma FindAllExact(text: string)
    ensures forall m :: m in FindAll(text) <==> Matches(text, m)
    ensures InTextOrder(FindAll(text))
  {
    ScanSound(text, 0);
    forall m | Matches(text, m) ensures m in FindAll(text) {
      ScanComplete(text, 0, m);
    }
  }

  /** Where the pattern matches nowhere from pos on, the scan from pos is empty. */
  lemma {:induction false} ScanNone(text: string, pos: nat)
    requires pos <= |text|
    requires forall p :: pos <= p < |text| ==> MatchAt(text, p).None?
    ensures Scan(text, pos) == []
    decreases |text| - pos
  {
    if pos < |text| {
      ScanStepSkip(text, pos);
      ScanNone(text, pos + 1);
    }
  }

  // ---------------------------------------------------------------------------
  // Scanning a concatenation
  // ---------------------------------------------------------------------------

  function Shift(m: Match, n: nat): Match {
    Match(m.start + n, m.digitsStart + n, m.end + n, m.id)
  }

  /** A match of b is a match of a + b, shifted by |a|. */
  lemma MatchesShiftUp(a: string, b: string, m: Match)
    requires Matches(b, m)
    ensures Matches(a + b, Shift(m, |a|))
  {
    var t := a + b;
    var n := |a|;
    assert t[m.start + n..m.start + n + |Marker|] == b[m.start..m.start + |Marker|];
    assert t[m.digitsStart + n..m.end + n] == b[m.digitsStart..m.end];
    if m.end < |b| {
      assert t[m.end + n] == b[m.end];
    }
  }

  /** The pattern cannot match where the text has no R. */
  lemma NoMatchWithoutR(text: string, p: nat)
    ensures p < |text| && text[p] != 'R' ==> MatchAt(text, p).None?
  {
    if p < |text| && MatchAt(text, p).Some? {
      MatchStartsWithR(text, p);
    }
  }

  /** A match inside the b part of a + b is a match of b. */
  lemma MatchesUnshift(a: string, b: string, m: Match)
    requires Matches(a + b, Shift(m, |a|))
    ensures Matches(b, m)
  {
    var t := a + b;
    var n := |a|;
    assert t[m.start + n..m.start + n + |Marker|] == b[m.start..m.start + |Marker|];
    assert t[m.digitsStart + n..m.end + n] == b[m.digitsStart..m.end];
    if m.end < |b| {
      assert t[m.end + n] == b[m.end];
    }
    forall k | m.start + |Marker| <= k < m.digitsStart ensures IsSpace(b[k]) {
      assert t[k + n] == b[k];
    }
    forall k | m.digitsStart <= k < m.end ensures IsDigit(b[k]) {
      assert t[k + n] == b[k];
    }
  }

  /** A match of a + b that starts at |a| + q is found by the matcher on b at q. */
  lemma MatchInSecond(a: string, b: string, m': Match, q: nat)
    requires Matches(a + b, m') && m'.start == |a| + q
    ensures q <= |b| && MatchAt(b, q).Some?
  {
    var m := Match(q, m'.digitsStart - |a|, m'.end - |a|, m'.id);
    assert Shift(m, |a|) == m';
    MatchesUnshift(a, b, m);
    MatchAtFinds(b, m);
  }

  /** Where the pattern does not match in b, it does not match in a + b either. */
  lemma MatchAtUnshift(a: string, b: string, q: nat)
    requires q <= |b| && MatchAt(b, q).None?
    ensures MatchAt(a + b, |a| + q).None?
  {
    var p := |a| + q;
    if MatchAt(a + b, p).Some? {
      MatchAtSound(a + b, p);
      MatchInSecond(a, b, MatchAt(a + b, p).value, q);
      assert false;
    }
  }

  /** b's first non-whitespace character, if any, is not a digit, and b begins with
      whitespace: b neither completes nor extends a match that starts before it. */
  ghost predicate SafeContinuation(b: string) {
    && |b| > 0
    && IsSpace(b[0])
    && (SpacesFrom(b, 0) == |b| || !IsDigit(b[SpacesFrom(b, 0)]))
  }

  /** A match in a is still a match in a + b. */
  lemma MatchesExtend(a: string, b: string, m: Match)
    requires SafeContinuation(b) && Matches(a, m)
    ensures Matches(a + b, m)
  {
    var t := a + b;
    assert t[m.start..m.start + |Marker|] == a[m.start..m.start + |Marker|];
    assert t[m.digitsStart..m.end] == a[m.digitsStart..m.end];
    assert m.end < |a| ==> t[m.end] == a[m.end];
    assert m.end == |a| ==> t[m.end] == b[0];
  }

  lemma FirstOfSecond(a: string, b: string)
    ensures |b| > 0 ==> (a + b)[|a|] == b[0]
  {
  }

  lemma SpacesThenDigit(a: string, b: string, lo: nat, j: nat)
    ensures
      (lo <= |a| && j < |b|
       && (forall k :: lo <= k < |a| + j ==> IsSpace((a + b)[k]))
       && IsDigit((a + b)[|a| + j]))
      ==> SpacesFrom(b, 0) == j && IsDigit(b[j])
  {
    var t := a + b;
    if lo <= |a| && j < |b| && (forall k :: lo <= k < |a| + j ==> IsSpace(t[k])) && IsDigit(t[|a| + j]) {
      forall k | 0 <= k < j ensures IsSpace(b[k]) {
        assert b[k] == t[|a| + k];
      }
      assert b[j] == t[|a| + j];
      SpacesFromExact(b, 0, j);
    }
  }

  /** A match of a + b that starts in a cannot reach into b. */
  lemma MatchStaysInside(a: string, b: string, m: Match)
    requires SafeContinuation(b) && Matches(a + b, m) && m.start < |a|
    ensures m.end <= |a|
  {
    var t := a + b;
    if m.start + |Marker| > |a| {
      SliceAt(t, m.start, m.start + |Marker|, |a|);
      assert false;
    } else if m.digitsStart >= |a| {
      SpacesThenDigit(a, b, m.start + |Marker|, m.digitsStart - |a|);
      assert false;
    } else if m.end > |a| {
      FirstOfSecond(a, b);
      assert false;
    }
  }

  /** A match of a + b that starts in a is a match of a. */
  lemma MatchesRestrict(a: string, b: string, m: Match)
    requires SafeContinuation(b) && Matches(a + b, m) && m.start < |a|
    ensures Matches(a, m)
  {
    MatchStaysInside(a, b, m);
    var t := a + b;
    assert t[m.start..m.start + |Marker|] == a[m.start..m.start + |Marker|];
    assert t[m.digitsStart..m.end] == a[m.digitsStart..m.end];
    assert m.end < |a| ==> t[m.end] == a[m.end];
    forall k | m.start + |Marker| <= k < m.digitsStart ensures IsSpace(a[k]) {
      assert t[k] == a[k];
    }
    forall k | m.digitsStart <= k < m.end ensures IsDigit(a[k]) {
      assert t[k] == a[k];
    }
  }

  /** Before the end of a, a safe continuation changes no answer of the matcher. */
  lemma MatchAtAppend(a: string, b: string, p: nat)
    requires SafeContinuation(b) && p < |a|
    ensures MatchAt(a + b, p) == MatchAt(a, p)
  {
    if MatchAt(a, p).Some? {
      MatchAtSound(a, p);
      MatchesExtend(a, b, MatchAt(a, p).value);
      MatchAtFinds(a + b, MatchAt(a, p).value);
    } else if MatchAt(a + b, p).Some? {
      MatchAtSound(a + b, p);
      MatchesRestrict(a, b, MatchAt(a + b, p).value);
      MatchAtFinds(a, MatchAt(a + b, p).value);
    }
  }

  lemma ConsAppend(m: Match, x: seq<Match>, y: seq<Match>)
    ensures [m] + (x + y) == ([m] + x) + y
  {
  }

  /** Before |a|, t has exactly a's matches. */
  ghost predicate AgreesBefore(t: string, a: string) {
    && |a| <= |t|
    && forall p {:trigger MatchAt(t, p)} :: 0 <= p < |a| ==> MatchAt(t, p) == MatchAt(a, p)
  }

  lemma {:induction false} ScanAgreeing(t: string, a: string, pos: nat)
    requires AgreesBefore(t, a) && pos <= |a|
    ensures Scan(t, pos) == Scan(a, pos) + Scan(t, |a|)
    decreases |a| - pos
  {
    if pos < |a| {
      assert MatchAt(t, pos) == MatchAt(a, pos);
      match MatchAt(a, pos)
      case Some(m) =>
        ScanStepMatch(a, pos, m);
        ScanStepMatch(t, pos, m);
        ScanAgreeing(t, a, m.end);
        ConsAppend(m, Scan(a, m.end), Scan(t, |a|));
      case None =>
        ScanStepSkip(a, pos);
        ScanStepSkip(t, pos);
        ScanAgreeing(t, a, pos + 1);
    }
  }

  /** Appending a safe continuation keeps every earlier match; the scan then goes on in b. */
  lemma FindAllAppend(a: string, b: string)
    requires SafeContinuation(b)
    ensures FindAll(a + b) == FindAll(a) + Scan(a + b, |a|)
  {
    forall p | 0 <= p < |a| ensures MatchAt(a + b, p) == MatchAt(a, p) {
      MatchAtAppend(a, b, p);
    }
    ScanAgreeing(a + b, a, 0);
  }
}
