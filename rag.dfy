/** The retrieval pipeline of backend/rag.py: the rule text file, the vector-store
    collection, and the operations that parse, ingest, add and retrieve rules. */
module Rag {
  import opened Wrappers
  import opened Text
  import opened Markers
  import opened Json

  /** A parsed rule ({"rule_id": ..., "content": ...}) and equally a row of the
      collection (its embedding column is not modelled). */
  datatype Rule = Rule(ruleId: nat, content: string)

  // ---------------------------------------------------------------------------
  // parse_rules
  // ---------------------------------------------------------------------------

  /** Where the raw span of record i ends: at the next marker, or at the end of the text. */
  function SpanEnd(ms: seq<Match>, i: nat, n: nat): nat
    requires i < |ms|
  {
    if i + 1 < |ms| then ms[i + 1].start else n
  }

  /** The raw span of record i: from the start of its marker to where the span ends. */
  function RawSpan(text: string, i: nat): string
    requires i < |FindAll(text)|
  {
    var ms := FindAll(text);
    text[ms[i].start..SpanEnd(ms, i, |text|)]
  }

  /** Record i of parse_rules: the marker's number, and the stripped raw span. */
  function RuleAt(text: string, i: nat): Rule
    requires i < |FindAll(text)|
  {
    Rule(FindAll(text)[i].id, Strip(RawSpan(text, i)))
  }

  /** The records parse_rules returns for a corpus: one per marker, in text order. */
  function ParsedRules(text: string): (r: seq<Rule>)
    ensures |r| == |FindAll(text)|
    ensures forall i :: 0 <= i < |r| ==> r[i] == RuleAt(text, i)
  {
    seq(|FindAll(text)|, i requires 0 <= i < |FindAll(text)| => RuleAt(text, i))
  }

  /** parse_rules on the file's contents. */
  method ParseRules(text: string) returns (rules: seq<Rule>)
    ensures rules == ParsedRules(text)
  {
    var matches := FindAll(text);
    rules := [];
    for i := 0 to |matches|
      invariant |rules| == i
      invariant forall k :: 0 <= k < i ==> rules[k] == RuleAt(text, k)
    {
      var start := matches[i].start;
      var ruleId := matches[i].id;
      var end := if i + 1 < |matches| then matches[i + 1].start else |text|;
      var ruleText := Strip(text[start..end]);
      assert text[start..end] == RawSpan(text, i);
      rules := rules + [Rule(ruleId, ruleText)];
    }
    assert |rules| == |ParsedRules(text)|;
  }

  /** One record per occurrence of the pattern, in text order, numbered by its digits;
      a text without an occurrence gives no record. */
  lemma RecordPerMarker(text: string)
    ensures var ms := FindAll(text); var rs := ParsedRules(text);
      && |rs| == |ms|
      && (forall m :: m in ms <==> Matches(text, m))
      && InTextOrder(ms)
      && (forall i :: 0 <= i < |rs| ==> Matches(text, ms[i]) && rs[i].ruleId == ms[i].id)
      && (ms == [] ==> rs == [])
  {
    var ms := FindAll(text);
    FindAllExact(text);
    forall i | 0 <= i < |ms| ensures Matches(text, ms[i]) {
      FoundMatches(text, i);
    }
  }

  lemma PrefixOfSlice(t: string, a: nat, b: nat, e: nat)
    requires a <= b <= e <= |t|
    ensures t[a..e][..b - a] == t[a..b]
  {
    forall k | 0 <= k < b - a ensures t[a..e][..b - a][k] == t[a..b][k] {
      assert t[a..e][k] == t[a + k];
    }
  }

  /** Each match found is an occurrence of the pattern. */
  lemma FoundMatches(text: string, i: nat)
    requires i < |FindAll(text)|
    ensures Matches(text, FindAll(text)[i])
  {
    FindAllExact(text);
    assert FindAll(text)[i] in FindAll(text);
  }

  /** The raw span of record i holds its whole marker. */
  lemma SpanHoldsMarker(text: string, i: nat)
    requires i < |FindAll(text)|
    ensures var m := FindAll(text)[i];
      && m.end <= SpanEnd(FindAll(text), i, |text|) <= |text|
      && RawSpan(text, i)[..m.end - m.start] == text[m.start..m.end]
  {
    var ms := FindAll(text);
    var m := ms[i];
    var e := SpanEnd(ms, i, |text|);
    if i + 1 < |ms| {
      assert m.end <= ms[i + 1].start;
    }
    assert RawSpan(text, i) == text[m.start..e];
    PrefixOfSlice(text, m.start, m.end, e);
  }

  /** Stripping a span that starts with a whole marker keeps that marker in front. */
  lemma StripKeepsMarker(text: string, m: Match, raw: string)
    requires Matches(text, m)
    requires m.end - m.start <= |raw| && raw[..m.end - m.start] == text[m.start..m.end]
    ensures m.end - m.start <= |Strip(raw)|
    ensures Strip(raw)[..m.end - m.start] == text[m.start..m.end]
    ensures Strip(raw)[..|Marker|] == Marker
    ensures !IsSpace(Strip(raw)[0]) && !IsSpace(Strip(raw)[|Strip(raw)| - 1])
  {
    var head := text[m.start..m.end];
    var k := |head|;
    assert head[..|Marker|] == text[m.start..m.start + |Marker|] == Marker;
    assert raw[0] == head[0] == Marker[0];
    assert raw[k - 1] == head[k - 1] == text[m.end - 1];
    StripKeepsPrefix(raw, k);
    assert Strip(raw)[..|Marker|] == Strip(raw)[..k][..|Marker|] == head[..|Marker|];
  }

  /** Record i's content starts with the marker itself, "Rule_ID:" and the number
      included, and has no surrounding whitespace. */
  lemma ContentStartsWithMarker(text: string, i: nat)
    requires i < |FindAll(text)|
    ensures var m := FindAll(text)[i]; var content := ParsedRules(text)[i].content;
      && |Marker| < m.end - m.start <= |content|
      && content[..m.end - m.start] == text[m.start..m.end]
      && content[..|Marker|] == Marker
      && !IsSpace(content[0]) && !IsSpace(content[|content| - 1])
  {
    var m := FindAll(text)[i];
    var raw := RawSpan(text, i);
    var content := Strip(raw);
    assert ParsedRules(text)[i] == RuleAt(text, i);
    assert ParsedRules(text)[i].content == content;
    FoundMatches(text, i);
    assert |Marker| < m.end - m.start;
    SpanHoldsMarker(text, i);
    StripKeepsMarker(text, m, raw);
  }

  /** The raw spans of records i, i + 1, ... laid end to end. */
  ghost function JoinedSpans(text: string, i: nat): string
    requires i <= |FindAll(text)|
    decreases |FindAll(text)| - i
  {
    if i == |FindAll(text)| then "" else RawSpan(text, i) + JoinedSpans(text, i + 1)
  }

  /** The raw spans follow one another without gap or overlap and together cover
      the text from the first marker to the end. */
  lemma {:induction false} SpansTile(text: string, i: nat)
    requires i < |FindAll(text)|
    ensures JoinedSpans(text, i) == text[FindAll(text)[i].start..]
    decreases |FindAll(text)| - i
  {
    var ms := FindAll(text);
    if i + 1 == |ms| {
      assert JoinedSpans(text, i) == RawSpan(text, i) + "";
    } else {
      SpansTile(text, i + 1);
      assert ms[i].end <= ms[i + 1].start;
      assert text[ms[i].start..] == text[ms[i].start..ms[i + 1].start] + text[ms[i + 1].start..];
    }
  }

  // ---------------------------------------------------------------------------
  // get_next_rule_id
  // ---------------------------------------------------------------------------

  /** max(ids) over a non-empty list of matches. */
  function MaxId(ms: seq<Match>): (r: nat)
    requires |ms| > 0
    ensures forall i :: 0 <= i < |ms| ==> ms[i].id <= r
    ensures exists i :: 0 <= i < |ms| && ms[i].id == r
  {
    if |ms| == 1 then ms[0].id
    else
      var m := MaxId(ms[..|ms| - 1]);
      assert forall i :: 0 <= i < |ms| - 1 ==> ms[..|ms| - 1][i] == ms[i];
      if ms[|ms| - 1].id > m then ms[|ms| - 1].id else m
  }

  /** get_next_rule_id: one more than the largest marker number in the file, or 1 when
      the file is missing or holds no marker. */
  function NextRuleId(corpus: Option<string>): (r: nat)
    ensures r >= 1
    ensures corpus.Some? ==> forall i :: 0 <= i < |FindAll(corpus.value)| ==> FindAll(corpus.value)[i].id < r
    ensures corpus.None? || FindAll(corpus.value) == [] ==> r == 1
    ensures corpus.Some? && FindAll(corpus.value) != [] ==>
      exists i :: 0 <= i < |FindAll(corpus.value)| && FindAll(corpus.value)[i].id == r - 1
  {
    match corpus
    case None => 1
    case Some(text) =>
      var ms := FindAll(text);
      if ms == [] then 1 else MaxId(ms) + 1
  }

  // ---------------------------------------------------------------------------
  // add_rule and get_tax_calculation: formats
  // ---------------------------------------------------------------------------

  /** The block add_rule appends: a blank line, the marker line, the stripped text. */
  function FormatRule(id: nat, text: string): (f: string)
    ensures |f| == 12 + |NatToString(id)| + |Strip(text)|
    ensures f[..2] == "\n\n"
    ensures f[|f| - |Strip(text)|..] == Strip(text)
  {
    "\n\nRule_ID: " + NatToString(id) + "\n" + Strip(text)
  }

  /** What parse_rules yields for an appended block: the marker line, then the stripped
      text on the next line when there is any. */
  function BlockContent(id: nat, text: string): (c: string)
    ensures |c| >= 9 + |NatToString(id)| + |Strip(text)|
    ensures c[..9 + |NatToString(id)|] == "Rule_ID: " + NatToString(id)
    ensures Strip(text) != [] ==> c[|c| - |Strip(text)|..] == Strip(text)
  {
    "Rule_ID: " + NatToString(id) + (if Strip(text) == [] then "" else "\n" + Strip(text))
  }

  /** f is laid out as add_rule's block: two newlines, the marker, a space, the decimal
      numeral ds, a newline, then s. */
  ghost predicate IsBlock(f: string, ds: string, s: string) {
    && |f| == 12 + |ds| + |s|
    && f[0] == '\n' && f[1] == '\n'
    && f[2..10] == Marker && f[10] == ' '
    && f[11..11 + |ds|] == ds && f[11 + |ds|] == '\n'
    && f[12 + |ds|..] == s
  }

  /** Any opening laid out like add_rule's gives a block. */
  lemma BlockOf(pre: string, ds: string, st: string)
    requires |pre| == 11 && pre[0] == '\n' && pre[1] == '\n' && pre[2..10] == Marker && pre[10] == ' '
    ensures IsBlock(pre + ds + "\n" + st, ds, st)
    ensures (pre + ds + "\n" + st)[2..] == pre[2..] + ds + "\n" + st
  {
    var a := pre + ds;
    var f := a + "\n" + st;
    assert f[..|a|] == a;
    assert a[..11] == pre && a[11..] == ds;
    assert f[2..10] == a[2..10] == pre[2..10];
    assert f[11..11 + |ds|] == a[11..];
    assert f[12 + |ds|..] == st;
  }

  /** The block, cut where parse_rules cuts it. */
  lemma BlockLayout(id: nat, text: string)
    ensures IsBlock(FormatRule(id, text), NatToString(id), Strip(text))
    ensures FormatRule(id, text)[2..] == "Rule_ID: " + NatToString(id) + "\n" + Strip(text)
  {
    var pre := "\n\nRule_ID: ";
    assert pre[2..10] == Marker && pre[2..] == "Rule_ID: ";
    BlockOf(pre, NatToString(id), Strip(text));
  }

  /** The block's marker, where the pattern finds it inside the block. */
  function BlockMatch(ds: string, id: nat): Match {
    Match(2, 11, 11 + |ds|, id)
  }

  lemma BlockMatches(f: string, ds: string, s: string, id: nat)
    requires IsBlock(f, ds, s) && |ds| > 0 && AllDigits(ds) && DecimalValue(ds) == id
    ensures Matches(f, BlockMatch(ds, id))
  {
    var m := BlockMatch(ds, id);
    assert m.start + |Marker| == 10 && m.digitsStart == 11 && m.end == 11 + |ds|;
    assert f[m.start..m.start + |Marker|] == Marker;
    assert forall k :: 10 <= k < 11 ==> IsSpace(f[k]);
    forall k | 11 <= k < 11 + |ds| ensures IsDigit(f[k]) {
      assert f[k] == f[11..11 + |ds|][k - 11];
    }
    assert !IsDigit(f[m.end]);
    assert f[m.digitsStart..m.end] == ds;
  }

  lemma NoMatchInMarkerless(s: string, q: nat)
    requires FindAll(s) == [] && q <= |s|
    ensures MatchAt(s, q).None?
  {
    if MatchAt(s, q).Some? {
      MatchAtSound(s, q);
      FindAllExact(s);
      assert false;
    }
  }

  /** Within the block, the pattern matches at the marker and nowhere else. */
  lemma BlockMatchesOnlyAtMarker(f: string, ds: string, s: string, id: nat, q: nat)
    requires IsBlock(f, ds, s) && |ds| > 0 && AllDigits(ds) && DecimalValue(ds) == id
    requires FindAll(s) == [] && q <= |f|
    ensures MatchAt(f, q) == if q == 2 then Some(BlockMatch(ds, id)) else None
  {
    if q == 2 {
      BlockMatches(f, ds, s, id);
      MatchAtFinds(f, BlockMatch(ds, id));
    } else if q < 2 || q == 11 + |ds| || q == |f| {
      NoMatchWithoutR(f, q);
    } else if q < 11 + |ds| {
      BlockMatches(f, ds, s, id);
      NoMatchInsideMatch(f, BlockMatch(ds, id), q);
    } else {
      NoMatchInBlockText(f, ds, s, q);
    }
  }

  /** The pattern finds nothing that starts inside the block's text. */
  lemma NoMatchInBlockText(f: string, ds: string, s: string, q: nat)
    requires IsBlock(f, ds, s) && FindAll(s) == [] && 12 + |ds| <= q <= |f|
    ensures MatchAt(f, q).None?
  {
    var head := f[..12 + |ds|];
    assert f[12 + |ds|..] == s;
    assert f == head + s;
    var q' := q - |head|;
    NoMatchInMarkerless(s, q');
    MatchAtUnshift(head, s, q');
    assert |head| + q' == q;
  }

  lemma BlockTailNoMatch(c: string, f: string, ds: string, s: string, id: nat, p: nat)
    requires IsBlock(f, ds, s) && |ds| > 0 && AllDigits(ds) && DecimalValue(ds) == id
    requires FindAll(s) == [] && |c| + 11 + |ds| <= p <= |c| + |f|
    ensures MatchAt(c + f, p).None?
  {
    var q := p - |c|;
    BlockMatchesOnlyAtMarker(f, ds, s, id, q);
    MatchAtUnshift(c, f, q);
    assert |c| + q == p;
  }

  /** After the block's marker, the scan of c + f finds nothing more. */
  lemma BlockTailScan(c: string, f: string, ds: string, s: string, id: nat)
    requires IsBlock(f, ds, s) && |ds| > 0 && AllDigits(ds) && DecimalValue(ds) == id
    requires FindAll(s) == []
    ensures Shift(BlockMatch(ds, id), |c|).end <= |c + f|
    ensures Scan(c + f, Shift(BlockMatch(ds, id), |c|).end) == []
  {
    var t := c + f;
    var m := Shift(BlockMatch(ds, id), |c|);
    forall p | m.end <= p < |t| ensures MatchAt(t, p).None? {
      BlockTailNoMatch(c, f, ds, s, id, p);
    }
    ScanNone(t, m.end);
  }

  /** From the end of c, the scan of c + f finds the block's marker and then nothing. */
  lemma BlockScan(c: string, f: string, ds: string, s: string, id: nat)
    requires IsBlock(f, ds, s) && |ds| > 0 && AllDigits(ds) && DecimalValue(ds) == id
    requires FindAll(s) == []
    ensures Scan(c + f, |c|) == [Shift(BlockMatch(ds, id), |c|)]
  {
    var t := c + f;
    var m := Shift(BlockMatch(ds, id), |c|);
    BlockMatchesOnlyAtMarker(f, ds, s, id, 0);
    MatchAtUnshift(c, f, 0);
    BlockMatchesOnlyAtMarker(f, ds, s, id, 1);
    MatchAtUnshift(c, f, 1);
    ScanStepSkip(t, |c|);
    ScanStepSkip(t, |c| + 1);
    BlockMatches(f, ds, s, id);
    MatchesShiftUp(c, f, BlockMatch(ds, id));
    MatchAtFinds(t, m);
    ScanStepMatch(t, |c| + 2, m);
    BlockTailScan(c, f, ds, s, id);
  }

  /** Appending the block to a corpus c leaves c's matches and adds the block's one. */
  lemma FindAllAfterAdd(c: string, id: nat, text: string)
    requires FindAll(Strip(text)) == []
    ensures FindAll(c + FormatRule(id, text)) == FindAll(c) + [Shift(BlockMatch(NatToString(id), id), |c|)]
  {
    var f := FormatRule(id, text);
    BlockLayout(id, text);
    SpacesFromExact(f, 0, 2);
    assert SafeContinuation(f);
    FindAllAppend(c, f);
    BlockScan(c, f, NatToString(id), Strip(text), id);
  }

  /** A marker line followed by an optional second line is its own strip() when both
      lines are trimmed; a trailing newline alone is dropped. */
  lemma StripOfLines(head: string, st: string)
    requires |head| > 0 && !IsSpace(head[0]) && !IsSpace(head[|head| - 1])
    requires st == [] || (!IsSpace(st[0]) && !IsSpace(st[|st| - 1]))
    ensures Strip(head + "\n" + st) == head + (if st == [] then "" else "\n" + st)
  {
    var x := head + "\n" + st;
    if st == [] {
      assert x == head + "\n";
      StripIgnoresTrailingSpaces(head, "\n");
      StripOfTrimmed(head);
      assert head + "" == head;
    } else {
      assert x == head + ("\n" + st);
      assert x[0] == head[0] && x[|x| - 1] == st[|st| - 1];
      StripOfTrimmed(x);
    }
  }

  /** What parse_rules makes of the block once it is in the file. */
  lemma BlockContentIsStrip(id: nat, text: string)
    ensures Strip(FormatRule(id, text)[2..]) == BlockContent(id, text)
  {
    BlockLayout(id, text);
    var ds := NatToString(id);
    var head := "Rule_ID: " + ds;
    assert head[0] == 'R' && head[|head| - 1] == ds[|ds| - 1];
    StripOfLines(head, Strip(text));
  }

  lemma PrefixSlice(c: string, t: string, i: nat, j: nat)
    requires |c| <= |t| && t[..|c|] == c && i <= j <= |c|
    ensures t[i..j] == c[i..j]
  {
    forall k | i <= k < j ensures t[k] == c[k] {
      assert t[..|c|][k] == t[k];
    }
  }

  /** Appending the block leaves the raw span of an inner record of c as it was... */
  lemma InnerSpanKept(c: string, t: string, m: Match, i: nat)
    requires |c| + 2 <= |t| && t[..|c|] == c
    requires FindAll(t) == FindAll(c) + [m]
    requires i + 1 < |FindAll(c)|
    ensures RawSpan(t, i) == RawSpan(c, i)
  {
    var ms := FindAll(c);
    var ms' := FindAll(t);
    assert ms'[i] == ms[i] && ms'[i + 1] == ms[i + 1];
    PrefixSlice(c, t, ms[i].start, ms[i + 1].start);
  }

  /** ... and gives the last record of c the block's two leading newlines. */
  lemma LastSpanExtended(c: string, t: string, m: Match, i: nat)
    requires |c| + 2 <= |t| && t[..|c|] == c && t[|c|] == '\n' && t[|c| + 1] == '\n'
    requires FindAll(t) == FindAll(c) + [m] && m.start == |c| + 2
    requires i + 1 == |FindAll(c)|
    ensures RawSpan(t, i) == RawSpan(c, i) + "\n\n"
  {
    var ms := FindAll(c);
    var ms' := FindAll(t);
    assert ms'[i] == ms[i] && ms'[i + 1] == m;
    var start := ms[i].start;
    PrefixSlice(c, t, start, |c|);
    assert t[start..|c| + 2] == t[start..|c|] + [t[|c|], t[|c| + 1]];
  }

  /** A record of c keeps its id and content once the block is appended. */
  lemma RuleKept(c: string, t: string, m: Match, i: nat)
    requires |c| + 2 <= |t| && t[..|c|] == c && t[|c|] == '\n' && t[|c| + 1] == '\n'
    requires FindAll(t) == FindAll(c) + [m] && m.start == |c| + 2
    requires i < |FindAll(c)|
    ensures RuleAt(t, i) == RuleAt(c, i)
  {
    assert FindAll(t)[i] == FindAll(c)[i];
    if i + 1 < |FindAll(c)| {
      InnerSpanKept(c, t, m, i);
    } else {
      LastSpanExtended(c, t, m, i);
      StripIgnoresTrailingSpaces(RawSpan(c, i), "\n\n");
    }
  }

  /** The record for the appended block. */
  lemma RuleAdded(c: string, id: nat, text: string)
    requires FindAll(Strip(text)) == []
    ensures |FindAll(c + FormatRule(id, text))| == |FindAll(c)| + 1
    ensures RuleAt(c + FormatRule(id, text), |FindAll(c)|) == Rule(id, BlockContent(id, text))
  {
    var f := FormatRule(id, text);
    var t := c + f;
    FindAllAfterAdd(c, id, text);
    var k := |FindAll(c)|;
    assert FindAll(t)[k] == Shift(BlockMatch(NatToString(id), id), |c|);
    assert RawSpan(t, k) == t[|c| + 2..];
    assert t[|c| + 2..] == f[2..];
    BlockContentIsStrip(id, text);
  }

  /** Appending a rule with add_rule and parsing the file again gives the old records
      followed by one record for the new rule. */
  lemma ParsedRulesAfterAdd(c: string, id: nat, text: string)
    requires FindAll(Strip(text)) == []
    ensures ParsedRules(c + FormatRule(id, text)) == ParsedRules(c) + [Rule(id, BlockContent(id, text))]
  {
    var f := FormatRule(id, text);
    var t := c + f;
    var m := Shift(BlockMatch(NatToString(id), id), |c|);
    FindAllAfterAdd(c, id, text);
    BlockLayout(id, text);
    assert t[..|c|] == c;
    assert t[|c|] == f[0] && t[|c| + 1] == f[1];
    forall i | 0 <= i < |FindAll(c)| ensures RuleAt(t, i) == RuleAt(c, i) {
      RuleKept(c, t, m, i);
    }
    RuleAdded(c, id, text);
  }

  /** A match appended after the others, numbered with the next id, becomes the maximum. */
  lemma NextIdAfterMatch(c: string, t: string, m: Match)
    requires FindAll(t) == FindAll(c) + [m] && m.id == NextRuleId(Some(c))
    ensures NextRuleId(Some(t)) == m.id + 1
  {
    var ms := FindAll(c);
    var k := |ms|;
    assert FindAll(t)[k] == m;
    assert forall i :: 0 <= i < k ==> FindAll(t)[i] == ms[i];
  }

  /** After add_rule, the next id is one more than the id just used. */
  lemma NextIdAfterAdd(corpus: Option<string>, text: string)
    requires FindAll(Strip(text)) == []
    ensures var id := NextRuleId(corpus);
      NextRuleId(Some(corpus.GetOr("") + FormatRule(id, text))) == id + 1
  {
    var id := NextRuleId(corpus);
    var c := corpus.GetOr("");
    if corpus.None? {
      assert FindAll(c) == [] by { assert Scan("", 0) == []; }
    }
    assert NextRuleId(Some(c)) == id;
    FindAllAfterAdd(c, id, text);
    NextIdAfterMatch(c, c + FormatRule(id, text), Shift(BlockMatch(NatToString(id), id), |c|));
  }

  const PromptIntro: string :=
    "\nYou are a generic calculation assistant.\nUse the following rule context to answer the user query.\nContext:\n"

  const PromptInstructions: string :=
    "\n\nInstructions:\n"
    + "1. Extract the numeric values (price, age, quantity, etc.) from the User Query.\n"
    + "2. If the User Query DOES NOT contain the necessary BASE value (like price, sum assured, etc.), YOU MUST assume the value from the 'Context' (Rule Example or Scenario).\n"
    + "3. IF you assumed a BASE value, you MUST explicitly state in the response that \"No input value given from the query, value will be assumed and taken from the default rules txt file\".\n"
    + "4. Do NOT apply optional discounts, surcharges, or specific conditions (like \"early payment discount\", \"membership\", etc.) unless the User Query explicitly mentions them. Assume the standard/base rate otherwise.\n"
    + "5. Perform the calculation based on the values (either from query or assumed).\n"
    + "\nReturn the answer in strict JSON format with the following keys:\n"
    + "- result: A short summary of the result (e.g. \"Premium is $500\").\n"
    + "- calculated_value: The final calculated number.\n"
    + "- explanation: A detailed explanation of the steps.\n"

  const QueryLabel: string := "\n\nQuery: "

  /** The prompt get_tax_calculation sends to the language model. */
  function Prompt(context: string, query: string): (p: string)
    ensures |p| == |PromptIntro| + |context| + |QueryLabel| + |query| + |PromptInstructions|
    ensures p[..|PromptIntro|] == PromptIntro
    ensures p[|p| - |PromptInstructions|..] == PromptInstructions
  {
    PiecesInPlace(PromptIntro, context, QueryLabel, query, PromptInstructions);
    PromptIntro + context + QueryLabel + query + PromptInstructions
  }

  /** In intro + x + sep + y + outro, x and y sit right after intro and sep. */
  lemma PiecesInPlace(intro: string, x: string, sep: string, y: string, outro: string)
    ensures var p := intro + x + sep + y + outro;
      var j := |intro| + |x| + |sep|;
      && |p| == j + |y| + |outro|
      && p[..|intro|] == intro
      && p[|intro|..|intro| + |x|] == x
      && p[j..j + |y|] == y
      && p[j + |y|..] == outro
  {
    var a := intro + x;
    var b := a + sep;
    var c := b + y;
    assert c[..|b|] == b && b[..|a|] == a;
    assert a[|intro|..] == x;
    assert c[|b|..] == y;
  }

  /** The prompt carries the retrieved context and the query verbatim, each in its
      own place. */
  lemma PromptHoldsContextAndQuery(context: string, query: string)
    ensures var p := Prompt(context, query);
      var i := |PromptIntro|;
      var j := i + |context| + |QueryLabel|;
      && j + |query| <= |p|
      && p[i..i + |context|] == context
      && p[j..j + |query|] == query
  {
    PiecesInPlace(PromptIntro, context, QueryLabel, query, PromptInstructions);
  }

  const NoRuleFound: string := "No relevant rule found"

  /** What get_tax_calculation hands back: the error dictionary or the model's raw text. */
  datatype Reply = DictReply(fields: map<string, Value>) | TextReply(text: string)

  /** The top-1 similarity search: the hit among the rows, if any (embeddings and the
      cosine ranking are hidden inside it). */
  type Search = (seq<Rule>, string) -> Option<Rule>

  /** A search only ever returns one of the rows it searched. */
  ghost predicate SearchSound(search: Search) {
    forall rows, query :: search(rows, query).Some? ==> search(rows, query).value in rows
  }

  /** The language model: prompt in, reply text out. */
  type Generate = string -> string

  /** Rows of the collection once ingest_rules has dropped (on reset) and re-created it. */
  function OpenedRows(collection: Option<seq<Rule>>, reset: bool): (r: seq<Rule>)
    ensures r == [] || (collection.Some? && r == collection.value)
    ensures reset ==> r == []
    ensures !reset && collection.Some? ==> r == collection.value
  {
    if reset || collection.None? then [] else collection.value
  }

  /** The rule_id column ingest_rules collects from a list of records. */
  function IdColumn(rs: seq<Rule>): (ids: seq<nat>)
    ensures |ids| == |rs|
    ensures forall k :: 0 <= k < |rs| ==> ids[k] == rs[k].ruleId
  {
    if rs == [] then [] else IdColumn(rs[..|rs| - 1]) + [rs[|rs| - 1].ruleId]
  }

  /** The content column ingest_rules collects from a list of records. */
  function ContentColumn(rs: seq<Rule>): (cs: seq<string>)
    ensures |cs| == |rs|
    ensures forall k :: 0 <= k < |rs| ==> cs[k] == rs[k].content
  {
    if rs == [] then [] else ContentColumn(rs[..|rs| - 1]) + [rs[|rs| - 1].content]
  }

  /** The rows collection.insert stores from the two columns, position by position. */
  function Rows(ruleIds: seq<nat>, contents: seq<string>): (r: seq<Rule>)
    requires |ruleIds| == |contents|
  {
    seq(|ruleIds|, i requires 0 <= i < |ruleIds| => Rule(ruleIds[i], contents[i]))
  }

  /** Zipping two columns and splitting the rows again gives back the columns. */
  lemma RowsColumns(ruleIds: seq<nat>, contents: seq<string>)
    requires |ruleIds| == |contents|
    ensures IdColumn(Rows(ruleIds, contents)) == ruleIds
    ensures ContentColumn(Rows(ruleIds, contents)) == contents
  {
  }

  /** Splitting records into their two columns and zipping the columns back gives the
      records again. */
  lemma ColumnsRoundTrip(rs: seq<Rule>)
    ensures Rows(IdColumn(rs), ContentColumn(rs)) == rs
  {
  }

  /** The loop of ingest_rules that fills the rule_id and content columns, one record
      at a time. */
  method CollectColumns(rules: seq<Rule>) returns (ruleIds: seq<nat>, contents: seq<string>)
    ensures ruleIds == IdColumn(rules) && contents == ContentColumn(rules)
  {
    ruleIds := [];
    contents := [];
    for i := 0 to |rules|
      invariant |ruleIds| == i && |contents| == i
      invariant forall k :: 0 <= k < i ==> ruleIds[k] == rules[k].ruleId && contents[k] == rules[k].content
    {
      ruleIds := ruleIds + [rules[i].ruleId];
      contents := contents + [rules[i].content];
    }
  }

  // ---------------------------------------------------------------------------
  // The durable state: rule text file and vector-store collection
  // ---------------------------------------------------------------------------

  class RuleBase {
    /** Contents of the rule text file; None while the file does not exist. */
    var corpus: Option<string>
    /** Rows of the collection in insertion order; None while the collection does not exist. */
    var collection: Option<seq<Rule>>

    constructor (corpus: Option<string>, collection: Option<seq<Rule>>)
      ensures this.corpus == corpus && this.collection == collection
    {
      this.corpus := corpus;
      this.collection := collection;
    }

    /** ingest_rules: optionally drop the collection, make sure it exists, parse the
        file, and insert one row per record when there is at least one. */
    method Ingest(reset: bool) returns (r: Result<nat>)
      modifies this
      ensures corpus == old(corpus)
      ensures old(corpus).None? ==>
        r == Failure(FileNotFound) && collection == Some(OpenedRows(old(collection), reset))
      ensures old(corpus).Some? ==>
        && r == Success(|ParsedRules(old(corpus).value)|)
        && collection == Some(OpenedRows(old(collection), reset) + ParsedRules(old(corpus).value))
      ensures old(corpus).Some? && reset ==> collection == Some(ParsedRules(old(corpus).value))
      ensures old(corpus).Some? && ParsedRules(old(corpus).value) == [] ==>
        collection == Some(OpenedRows(old(collection), reset))
    {
      if reset {
        collection := None;
      }
      if collection.None? {
        collection := Some([]);
      }
      var base := collection.value;
      assert base == OpenedRows(old(collection), reset);
      if corpus.None? {
        r := Failure(FileNotFound);
        return;
      }
      var rules := ParseRules(corpus.value);
      var ruleIds, contents := CollectColumns(rules);
      var rows := Rows(ruleIds, contents);
      ColumnsRoundTrip(rules);
      if |ruleIds| > 0 {
        collection := Some(base + rows);
      } else {
        assert base + rows == base;
      }
      assert reset ==> base + rows == rows;
      r := Success(|rules|);
    }

    /** With an empty collection there is nothing to retrieve, so the error dictionary
        comes back whatever the query. */
    lemma NoRowsNoRule(query: string, search: Search, generate: Generate)
      requires collection == Some([]) && SearchSound(search)
      ensures GetTaxCalculation(query, search, generate) == Success(DictReply(map["error" := Str(NoRuleFound)]))
    {
    }

    /** A model reply always answers a prompt built from a rule held in the collection. */
    lemma ReplyFromStoredRule(query: string, search: Search, generate: Generate)
      requires SearchSound(search)
      ensures var r := GetTaxCalculation(query, search, generate);
        r.Success? && r.value.TextReply? ==>
          exists row :: row in collection.value && r.value.text == generate(Prompt(row.content, query))
    {
      var r := GetTaxCalculation(query, search, generate);
      if r.Success? && r.value.TextReply? {
        var row := search(collection.value, query).value;
        assert row in collection.value;
      }
    }

    /** add_rule: append the formatted block to the file (creating it if needed), then
        insert one row holding the caller's text as given. */
    method AddRule(text: string) returns (r: Result<nat>)
      modifies this
      ensures corpus == Some(old(corpus).GetOr("") + FormatRule(NextRuleId(old(corpus)), text))
      ensures old(collection).None? ==> r == Failure(CollectionMissing) && collection == None
      ensures old(collection).Some? ==>
        && r == Success(NextRuleId(old(corpus)))
        && collection == Some(old(collection).value + [Rule(NextRuleId(old(corpus)), text)])
    {
      var nextId := NextRuleId(corpus);
      var formatted := FormatRule(nextId, text);
      corpus := Some(corpus.GetOr("") + formatted);
      if collection.None? {
        r := Failure(CollectionMissing);
        return;
      }
      collection := Some(collection.value + [Rule(nextId, text)]);
      r := Success(nextId);
    }

    /** get_tax_calculation: search the collection for the query's top hit; without a hit
        return the error dictionary, otherwise the model's reply to the composed prompt. */
    function GetTaxCalculation(query: string, search: Search, generate: Generate): (r: Result<Reply>)
      reads this
      ensures r.Failure? <==> collection.None?
      ensures r.Success? ==>
        (r.value.DictReply? <==> search(collection.value, query).None?)
      ensures r.Success? && r.value.DictReply? ==> r.value.fields == map["error" := Str(NoRuleFound)]
      ensures r.Success? && r.value.TextReply? ==>
        r.value.text == generate(Prompt(search(collection.value, query).value.content, query))
    {
      match collection
      case None => Failure(CollectionMissing)
      case Some(rows) =>
        match search(rows, query)
        case None => Success(DictReply(map["error" := Str(NoRuleFound)]))
        case Some(hit) => Success(TextReply(generate(Prompt(hit.content, query))))
    }
  }
}
