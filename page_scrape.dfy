/**
 * The two fields `fetchMetadata` reads from the watch page: the title,
 * `/<title>(.*?) - YouTube<\/title>/`, and the length in seconds,
 * `/"lengthSeconds":"(\d+)"/`, formatted as minutes and zero-padded seconds.
 */
module PageScrape {
  import opened Optional
  import opened Text

  const TitleOpen := "<title>"
  const TitleClose := " - YouTube</title>"
  const LengthKey := "\"lengthSeconds\":\""
  const UnknownTitle := "Unknown Title"
  const UnknownDuration := "Unknown"

  /** The record `fetchMetadata` returns and caches. */
  datatype Metadata = Metadata(title: string, duration: string)

  /** What `fetchMetadata` returns when the fetch throws. */
  const Degraded := Metadata(UnknownTitle, UnknownDuration)

  // ---------------------------------------------------------------------------
  // Title

  /** The lazy `(.*?)` followed by the closing text, from index `k`: where the closing text starts. */
  function LazyClose(s: string, k: nat): (c: Option<nat>)
    ensures c.Some? ==> k <= c.value && StartsAt(s, c.value, TitleClose)
    decreases |s| - k
  {
    if StartsAt(s, k, TitleClose) then Some(k)
    else if k < |s| && !IsLineTerminator(s[k]) then LazyClose(s, k + 1)
    else None
  }

  /** The leftmost match of the title pattern at or after `p`: the bounds of the captured text. */
  function TitleMatch(s: string, p: nat): (c: Option<(nat, nat)>)
    ensures c.Some? ==> p + |TitleOpen| <= c.value.0 <= c.value.1 <= |s|
    decreases |s| + 1 - p
  {
    if p + |TitleOpen| > |s| then None
    else if Opens(s, p) then Some((p + |TitleOpen|, LazyClose(s, p + |TitleOpen|).value))
    else TitleMatch(s, p + 1)
  }

  /** `titleMatch ? titleMatch[1] : 'Unknown Title'`. */
  function ExtractTitle(html: string): string {
    match TitleMatch(html, 0)
    case Some((a, b)) => html[a..b]
    case None => UnknownTitle
  }

  /** `<title>` at `p`, then text with no line terminator, then the closing text at `b`. */
  ghost predicate TitleCandidate(s: string, p: int, b: int) {
    StartsAt(s, p, TitleOpen) && p + |TitleOpen| <= b && StartsAt(s, b, TitleClose)
    && forall k :: p + |TitleOpen| <= k < b ==> !IsLineTerminator(s[k])
  }

  lemma {:induction false} LazyCloseSound(s: string, k: nat)
    requires LazyClose(s, k).Some?
    ensures forall j :: k <= j < LazyClose(s, k).value ==> !IsLineTerminator(s[j]) && !StartsAt(s, j, TitleClose)
    decreases |s| - k
  {
    if !StartsAt(s, k, TitleClose) {
      LazyCloseSound(s, k + 1);
    }
  }

  lemma {:induction false} LazyCloseComplete(s: string, k: nat, b: int)
    requires k <= b && StartsAt(s, b, TitleClose)
    requires forall j :: k <= j < b ==> !IsLineTerminator(s[j])
    ensures LazyClose(s, k).Some?
    decreases b - k
  {
    if k < b && !StartsAt(s, k, TitleClose) {
      LazyCloseComplete(s, k + 1, b);
    }
  }

  /** A `<title>` at `p` whose lazy body reaches a closing text. */
  predicate Opens(s: string, p: nat) {
    StartsAt(s, p, TitleOpen) && LazyClose(s, p + |TitleOpen|).Some?
  }

  /** The title match is taken at the leftmost `<title>` that can close. */
  lemma {:induction false} TitleMatchLeftmost(s: string, p: nat)
    requires TitleMatch(s, p).Some?
    ensures p + |TitleOpen| <= TitleMatch(s, p).value.0
    ensures Opens(s, TitleMatch(s, p).value.0 - |TitleOpen|)
    ensures LazyClose(s, TitleMatch(s, p).value.0) == Some(TitleMatch(s, p).value.1)
    ensures forall p' :: p <= p' < TitleMatch(s, p).value.0 - |TitleOpen| ==> !Opens(s, p')
    decreases |s| + 1 - p
  {
    if !Opens(s, p) {
      assert p + |TitleOpen| <= |s|;
      var next := TitleMatch(s, p + 1);
      assert TitleMatch(s, p) == next;
      TitleMatchLeftmost(s, p + 1);
      var o := next.value.0 - |TitleOpen|;
      forall p' | p <= p' < o
        ensures !Opens(s, p')
      {
        if p' != p {
          assert p + 1 <= p';
        }
      }
    } else {
      var c := LazyClose(s, p + |TitleOpen|);
      assert TitleMatch(s, p) == Some((p + |TitleOpen|, c.value));
    }
  }

  lemma TitleMatchSound(s: string, p: nat)
    requires TitleMatch(s, p).Some?
    ensures var (a, b) := TitleMatch(s, p).value;
      TitleCandidate(s, a - |TitleOpen|, b)
      && (forall j :: a <= j < b ==> !StartsAt(s, j, TitleClose))
      && (forall p', b' :: p <= p' < a - |TitleOpen| ==> !TitleCandidate(s, p', b'))
  {
    TitleMatchLeftmost(s, p);
    var a := TitleMatch(s, p).value.0;
    var b := TitleMatch(s, p).value.1;
    LazyCloseSound(s, a);
    forall p', b' | p <= p' < a - |TitleOpen| && TitleCandidate(s, p', b')
      ensures false
    {
      assert !Opens(s, p');
      LazyCloseComplete(s, p' + |TitleOpen|, b');
    }
  }

  lemma {:induction false} TitleMatchComplete(s: string, p: nat, p0: int, b: int)
    requires p <= p0 && TitleCandidate(s, p0, b)
    ensures TitleMatch(s, p).Some?
    decreases |s| + 1 - p
  {
    if !Opens(s, p) {
      if p == p0 {
        LazyCloseComplete(s, p + |TitleOpen|, b);
      } else {
        TitleMatchComplete(s, p + 1, p0, b);
      }
    }
  }

  /**
   * A matched title is the text after the leftmost `<title>` that can be
   * closed, up to the first ` - YouTube</title>` after it, with no line
   * terminator in between.
   */
  lemma TitleSound(html: string)
    requires TitleMatch(html, 0).Some?
    ensures var (a, b) := TitleMatch(html, 0).value;
      ExtractTitle(html) == html[a..b]
      && TitleCandidate(html, a - |TitleOpen|, b)
      && (forall j :: a <= j < b ==> !StartsAt(html, j, TitleClose))
      && (forall p', b' :: 0 <= p' < a - |TitleOpen| ==> !TitleCandidate(html, p', b'))
  {
    TitleMatchSound(html, 0);
  }

  /** The sentinel is used exactly when no `<title>…  - YouTube</title>` occurs on one line. */
  lemma TitleFallbackIff(html: string)
    ensures TitleMatch(html, 0).None? <==> forall p, b :: !TitleCandidate(html, p, b)
    ensures TitleMatch(html, 0).None? ==> ExtractTitle(html) == UnknownTitle
  {
    if TitleMatch(html, 0).Some? {
      TitleMatchSound(html, 0);
    } else {
      forall p, b | TitleCandidate(html, p, b) ensures false {
        TitleMatchComplete(html, 0, p, b);
      }
    }
  }

  /** The title never spans lines. */
  lemma TitleHasNoLineBreak(html: string)
    ensures forall k :: 0 <= k < |ExtractTitle(html)| ==> !IsLineTerminator(ExtractTitle(html)[k])
  {
    if TitleMatch(html, 0).Some? {
      TitleSound(html);
      var (a, b) := TitleMatch(html, 0).value;
      SliceOneLine(html, a, b);
    } else {
      SentinelOneLine();
    }
  }

  lemma SliceOneLine(s: string, a: nat, b: nat)
    requires a <= b <= |s| && forall k :: a <= k < b ==> !IsLineTerminator(s[k])
    ensures forall k :: 0 <= k < b - a ==> !IsLineTerminator(s[a..b][k])
  {
  }

  lemma SentinelOneLine()
    ensures forall k :: 0 <= k < |UnknownTitle| ==> !IsLineTerminator(UnknownTitle[k])
  {
    forall k | 0 <= k < |UnknownTitle| ensures !IsLineTerminator(UnknownTitle[k]) {
      assert UnknownTitle[k] in "Unknown Title";
    }
  }

  /** The lazy search stops at the first closing text when the line does not break before it. */
  lemma {:induction false} LazyCloseFinds(s: string, k: nat, b: nat)
    requires k <= b && StartsAt(s, b, TitleClose)
    requires forall j :: k <= j < b ==> !IsLineTerminator(s[j]) && !StartsAt(s, j, TitleClose)
    ensures LazyClose(s, k) == Some(b)
    decreases b - k
  {
    if k < b { LazyCloseFinds(s, k + 1, b); }
  }

  /** The closing text has its `<` ten characters in. */
  lemma CloseHasAngle(s: string, j: int)
    ensures StartsAt(s, j, TitleClose) ==> s[j + 10] == '<'
  {
    if StartsAt(s, j, TitleClose) { assert s[j + 10] == s[j..j + |TitleClose|][10]; }
  }

  /** Inside a title text without line terminators or `<`, the lazy search neither stops nor closes. */
  lemma TitleTextOpen(s: string, t: string)
    requires |s| >= |TitleOpen| + |t| + |TitleClose|
    requires s[|TitleOpen|..|TitleOpen| + |t|] == t
    requires s[|TitleOpen| + |t|..|TitleOpen| + |t| + |TitleClose|] == TitleClose
    requires forall k :: 0 <= k < |t| ==> !IsLineTerminator(t[k]) && t[k] != '<'
    ensures forall j :: |TitleOpen| <= j < |TitleOpen| + |t| ==>
      !IsLineTerminator(s[j]) && !StartsAt(s, j, TitleClose)
  {
    var b := |TitleOpen| + |t|;
    assert TitleClose[..10] == " - YouTube";
    forall j | 7 <= j < b ensures !IsLineTerminator(s[j]) && !StartsAt(s, j, TitleClose) {
      assert s[j] == t[j - 7];
      if j + 10 < b {
        assert s[j + 10] == t[j + 3];
      } else {
        assert s[j + 10] == TitleClose[j + 10 - b];
        assert TitleClose[j + 10 - b] in TitleClose[..10];
      }
      CloseHasAngle(s, j);
    }
  }

  /** A page whose head is `<title>t - YouTube</title>`, `t` on one line without `<`, has title `t`. */
  lemma TitleOfPage(t: string, rest: string)
    requires forall k :: 0 <= k < |t| ==> !IsLineTerminator(t[k]) && t[k] != '<'
    ensures ExtractTitle(TitleOpen + t + TitleClose + rest) == t
  {
    var s := TitleOpen + t + TitleClose + rest;
    var b := |TitleOpen| + |t|;
    assert s[..7] == TitleOpen;
    assert s[7..b] == t;
    assert s[b..b + |TitleClose|] == TitleClose;
    TitleTextOpen(s, t);
    LazyCloseFinds(s, 7, b);
    assert TitleMatch(s, 0) == Some((7 as nat, b));
  }

  // ---------------------------------------------------------------------------
  // Duration

  /** The end of the digit run starting at `k` (the greedy `\d+`). */
  function DigitsEnd(s: string, k: nat): (e: nat)
    requires k <= |s|
    ensures k <= e <= |s| && AllDigits(s[k..e])
    ensures e < |s| ==> !IsDigit(s[e])
    decreases |s| - k
  {
    if k < |s| && IsDigit(s[k]) then DigitsEnd(s, k + 1) else k
  }

  /** The leftmost `"lengthSeconds":"<digits>"` at or after `p`: the captured digits. */
  function LengthMatch(s: string, p: nat): (c: Option<string>)
    ensures c.Some? ==> |c.value| > 0 && AllDigits(c.value)
    decreases |s| + 1 - p
  {
    if p + |LengthKey| > |s| then None
    else if LengthAt(s, p) then Some(s[p + |LengthKey|..DigitsEnd(s, p + |LengthKey|)])
    else LengthMatch(s, p + 1)
  }

  /** `"lengthSeconds":"` at `p`, then a non-empty digit run ended by `"`. */
  predicate LengthAt(s: string, p: nat) {
    StartsAt(s, p, LengthKey)
    && var d := p + |LengthKey|;
       var e := DigitsEnd(s, d);
       d < e < |s| && s[e] == '"'
  }

  /** `${Math.floor(n / 60)}:${(n % 60).toString().padStart(2, '0')}`. */
  function FormatDuration(n: nat): string {
    NatToString(n / 60) + ":" + PadStart(NatToString(n % 60), 2, '0')
  }

  /**
   * The duration shown: the formatted length when the field is present (any
   * digit string is truthy, `"0"` included, and `Number` reads leading
   * zeros), else `'Unknown'`.
   */
  function ExtractDuration(html: string): string {
    match LengthMatch(html, 0)
    case Some(d) => FormatDuration(DecimalValue(d))
    case None => UnknownDuration
  }

  /**
   * `{ title, duration }` as scraped from a fetched page: the title falls
   * back to `Unknown Title` when no `<title>` closes on its line (a page
   * title may itself read `Unknown Title`, so only this direction holds),
   * it never spans lines, and the duration is `Unknown` exactly when the
   * page has no `"lengthSeconds":"<digits>"` field.
   */
  function Scrape(html: string): (m: Metadata)
    ensures (forall p, b :: !TitleCandidate(html, p, b)) ==> m.title == UnknownTitle
    ensures forall k :: 0 <= k < |m.title| ==> !IsLineTerminator(m.title[k])
    ensures m.duration == UnknownDuration <==> forall q, d :: !LengthCandidate(html, q, d)
  {
    TitleFallbackIff(html);
    TitleHasNoLineBreak(html);
    DurationFallbackIff(html);
    Metadata(ExtractTitle(html), ExtractDuration(html))
  }

  /** `"lengthSeconds":"` followed by a non-empty digit string and `"` at `q`. */
  ghost predicate LengthCandidate(s: string, q: int, digits: string) {
    StartsAt(s, q, LengthKey) && |digits| > 0 && AllDigits(digits)
    && StartsAt(s, q + |LengthKey|, digits) && StartsAt(s, q + |LengthKey| + |digits|, "\"")
  }

  lemma {:induction false} DigitsEndReaches(s: string, k: nat, e: nat)
    requires k <= e <= |s| && AllDigits(s[k..e])
    ensures e <= DigitsEnd(s, k)
    decreases e - k
  {
    if k < e {
      assert IsDigit(s[k..e][0]);
      assert s[k + 1..e] == s[k..e][1..];
      DigitsEndReaches(s, k + 1, e);
    }
  }

  /** A field written out in the page is one the search stops at, with exactly its digits. */
  lemma CandidateIsLengthAt(s: string, q: nat, digits: string)
    requires LengthCandidate(s, q, digits)
    ensures LengthAt(s, q) && DigitsEnd(s, q + |LengthKey|) == q + |LengthKey| + |digits|
  {
    var d := q + |LengthKey|;
    var e := d + |digits|;
    assert s[d..e] == digits;
    DigitsEndReaches(s, d, e);
    assert s[e..e + 1] == "\"";
    assert !IsDigit(s[e]);
  }

  /** The search stops at the leftmost position where a field starts. */
  lemma {:induction false} LengthMatchLeftmost(s: string, p: nat) returns (q: nat)
    requires LengthMatch(s, p).Some?
    ensures p <= q && LengthAt(s, q)
    ensures LengthMatch(s, p).value == s[q + |LengthKey|..DigitsEnd(s, q + |LengthKey|)]
    ensures forall q' :: p <= q' < q ==> !LengthAt(s, q')
    decreases |s| + 1 - p
  {
    if LengthAt(s, p) {
      q := p;
    } else {
      assert p + |LengthKey| <= |s|;
      var next := LengthMatch(s, p + 1);
      assert LengthMatch(s, p) == next;
      q := LengthMatchLeftmost(s, p + 1);
      forall q' | p <= q' < q
        ensures !LengthAt(s, q')
      {
        if q' != p {
          assert p + 1 <= q';
        }
      }
    }
  }

  /**
   * The captured digits are those of a `"lengthSeconds":"<digits>"` field
   * in the page, and no such field starts further left.
   */
  lemma LengthMatchSound(s: string, p: nat)
    requires LengthMatch(s, p).Some?
    ensures exists q :: p <= q && LengthCandidate(s, q, LengthMatch(s, p).value)
              && forall q', d' :: p <= q' < q ==> !LengthCandidate(s, q', d')
  {
    var q := LengthMatchLeftmost(s, p);
    var d := q + |LengthKey|;
    var e := DigitsEnd(s, d);
    var digits := LengthMatch(s, p).value;
    assert StartsAt(s, d, digits);
    assert s[e..e + 1] == "\"";
    assert LengthCandidate(s, q, digits);
    forall q', d' | p <= q' < q && LengthCandidate(s, q', d')
      ensures false
    {
      assert !LengthAt(s, q');
      CandidateIsLengthAt(s, q', d');
    }
  }

  lemma {:induction false} LengthMatchComplete(s: string, p: nat, q: nat, digits: string)
    requires p <= q && LengthCandidate(s, q, digits)
    ensures LengthMatch(s, p).Some?
    decreases |s| + 1 - p
  {
    if p < q {
      if !LengthAt(s, p) {
        LengthMatchComplete(s, p + 1, q, digits);
      }
    } else {
      CandidateIsLengthAt(s, q, digits);
    }
  }

  /** A captured length is a genuine field, and the duration is then not `'Unknown'`. */
  lemma DurationFound(html: string)
    requires LengthMatch(html, 0).Some?
    ensures ExtractDuration(html) != UnknownDuration
    ensures exists q, d :: LengthCandidate(html, q, d)
  {
    var d := LengthMatch(html, 0).value;
    LengthMatchSound(html, 0);
    FormatNotUnknown(DecimalValue(d));
  }

  /** With no captured length, no field occurs and the duration is `'Unknown'`. */
  lemma DurationMissing(html: string)
    requires LengthMatch(html, 0).None?
    ensures ExtractDuration(html) == UnknownDuration
    ensures forall q, d :: !LengthCandidate(html, q, d)
  {
    forall q, d | LengthCandidate(html, q, d) ensures false {
      LengthMatchComplete(html, 0, q, d);
    }
  }

  /** `'Unknown'` is shown exactly when no `"lengthSeconds":"<digits>"` field occurs. */
  lemma DurationFallbackIff(html: string)
    ensures ExtractDuration(html) == UnknownDuration <==> forall q, d :: !LengthCandidate(html, q, d)
  {
    if LengthMatch(html, 0).Some? {
      DurationFound(html);
    } else {
      DurationMissing(html);
    }
  }

  // ---------------------------------------------------------------------------
  // Reading a formatted duration back

  /** Splits `m:ss` and reads both parts; the seconds part must be two digits below 60. */
  function ParseClock(r: string): Option<nat> {
    if |r| < 4 then None
    else
      var m := r[..|r| - 3];
      var ss := r[|r| - 2..];
      if r[|r| - 3] == ':' && |m| > 0 && AllDigits(m) && AllDigits(ss) && DecimalValue(ss) < 60
      then Some(60 * DecimalValue(m) + DecimalValue(ss))
      else None
  }

  /** The seconds part is always exactly two digits, the value of `n % 60`. */
  lemma SecondsField(n: nat)
    ensures var ss := PadStart(NatToString(n % 60), 2, '0');
      |ss| == 2 && AllDigits(ss) && DecimalValue(ss) == n % 60
  {
    var t := NatToString(n % 60);
    NatToStringRoundTrip(n % 60);
    var ss := PadStart(t, 2, '0');
    if n % 60 < 10 {
      assert |t| == 1 && ss[1..] == t;
      assert ss == ['0', t[0]];
      assert ss[..1] == ['0'];
      assert t[..0] == [];
    } else {
      NatToStringLength(n % 60);
      assert ss == t;
    }
  }

  /** Below 100 a natural has at most two digits. */
  lemma NatToStringLength(n: nat)
    requires n < 100
    ensures |NatToString(n)| <= 2
  {
  }

  /** The shape of `m:ss` with a two-character seconds part. */
  lemma ClockParts(m: string, ss: string)
    requires |ss| == 2 && |m| >= 1
    ensures var r := m + ":" + ss;
      |r| >= 4 && r[|r| - 3] == ':' && r[..|r| - 3] == m && r[|r| - 2..] == ss
  {
    var r := m + ":" + ss;
    assert r[..|r| - 3] == m;
  }

  /** The seconds field of a formatted duration is two characters wide. */
  lemma SecondsWidth(k: nat)
    requires k < 60
    ensures |PadStart(NatToString(k), 2, '0')| == 2
  {
    NatToStringLength(k);
  }

  /** A formatted duration ends in `:` and a two-character seconds part. */
  lemma FormatShape(n: nat)
    ensures var r := FormatDuration(n); |r| >= 4 && r[|r| - 3] == ':'
  {
    var k := n % 60;
    var m := NatToString(n / 60);
    var ss := PadStart(NatToString(k), 2, '0');
    SecondsWidth(k);
    ClockParts(m, ss);
    assert FormatDuration(n) == m + ":" + ss;
  }

  /** No formatted duration is the fallback text. */
  lemma FormatNotUnknown(n: nat)
    ensures FormatDuration(n) != UnknownDuration
  {
    FormatShape(n);
    assert UnknownDuration[4] == 'o';
  }

  /** Reading `m:ss` back. */
  lemma ParseClockParts(m: string, ss: string)
    requires |m| >= 1 && AllDigits(m) && |ss| == 2 && AllDigits(ss) && DecimalValue(ss) < 60
    ensures ParseClock(m + ":" + ss) == Some(60 * DecimalValue(m) + DecimalValue(ss))
  {
    ClockParts(m, ss);
  }

  lemma ParseClockOf(n: nat, m: string, ss: string)
    requires |m| >= 1 && AllDigits(m) && DecimalValue(m) == n / 60
    requires |ss| == 2 && AllDigits(ss) && DecimalValue(ss) == n % 60
    ensures ParseClock(m + ":" + ss) == Some(n)
  {
    ParseClockParts(m, ss);
  }

  /** The formatted duration reads back as the same number of seconds. */
  lemma FormatDurationRoundTrip(n: nat)
    ensures ParseClock(FormatDuration(n)) == Some(n)
  {
    var m := NatToString(n / 60);
    var ss := PadStart(NatToString(n % 60), 2, '0');
    SecondsField(n);
    NatToStringRoundTrip(n / 60);
    ParseClockOf(n, m, ss);
  }

  /** 75 seconds is `1:15`. */
  lemma FormatSeventyFive(n: nat)
    requires n == 75
    ensures FormatDuration(n) == "1:15"
  {
    assert n / 60 == 1 && n % 60 == 15;
    assert NatToString(1) == "1";
    assert NatToString(15) == NatToString(1) + "5";
    assert PadStart("15", 2, '0') == "15";
  }

  /** 9 seconds is `0:09`: the minutes are unpadded, the seconds padded. */
  lemma FormatNine(n: nat)
    requires n == 9
    ensures FormatDuration(n) == "0:09"
  {
    var minutes := NatToString(n / 60);
    var seconds := NatToString(n % 60);
    assert minutes == "0" && seconds == "9";
    var padded := PadStart(seconds, 2, '0');
    assert padded == "09" by {
      assert PadStart("09", 2, '0') == "09";
    }
    assert FormatDuration(n) == minutes + ":" + padded;
  }

  /** 600 seconds is `10:00`. */
  lemma FormatSixHundred(n: nat)
    requires n == 600
    ensures FormatDuration(n) == "10:00"
  {
    var minutes := NatToString(n / 60);
    var seconds := NatToString(n % 60);
    assert n / 60 == 10 && n % 60 == 0;
    assert minutes == "10" by {
      assert NatToString(10) == NatToString(1) + [DigitChar(0)];
    }
    assert seconds == "0";
    var padded := PadStart(seconds, 2, '0');
    assert padded == "00" by {
      assert PadStart("00", 2, '0') == "00";
    }
    assert FormatDuration(n) == minutes + ":" + padded;
  }

  /** A field holding the single digit `0`, at the start of a string, is captured as `"0"`. */
  lemma ZeroFieldMatch(s: string)
    requires |s| == |LengthKey| + 2 && s[..|LengthKey|] == LengthKey
    requires s[|LengthKey|] == '0' && s[|LengthKey| + 1] == '"'
    ensures LengthMatch(s, 0) == Some("0")
  {
    var d := |LengthKey|;
    assert StartsAt(s, 0, LengthKey);
    assert DigitsEnd(s, d + 1) == d + 1;
    assert DigitsEnd(s, d) == d + 1;
    assert LengthAt(s, 0);
    assert s[d..d + 1] == "0";
  }

  /**
   * `"0"` is a truthy string, so a page whose length field is `"0"` shows
   * 0 seconds as `0:00`, not as `Unknown`.
   */
  lemma FormatZero(n: nat)
    requires n == 0
    ensures FormatDuration(n) == "0:00"
    ensures ExtractDuration("\"lengthSeconds\":\"0\"") == "0:00"
  {
    var page := "\"lengthSeconds\":\"0\"";
    assert page[..|LengthKey|] == LengthKey;
    ZeroFieldMatch(page);
    assert DecimalValue("0") == 0;
    var minutes := NatToString(n / 60);
    var seconds := NatToString(n % 60);
    assert minutes == "0" && seconds == "0";
    var padded := PadStart(seconds, 2, '0');
    assert padded == "00" by {
      assert PadStart("00", 2, '0') == "00";
    }
    assert FormatDuration(n) == minutes + ":" + padded;
  }

  /** Leading zeros are read as `Number` reads them: `"075"` is 75 seconds. */
  lemma LeadingZeroExample()
    ensures DecimalValue("075") == 75
  {
    assert "075"[..2] == "07" && "07"[..1] == "0" && "0"[..0] == "";
  }
}
