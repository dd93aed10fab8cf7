/**
 * `extractVideoId`: an unanchored search for the pattern
 *
 *   (https?://)? (www.)? ( youtube.com/ ( SEG/PATH/ | v/ | e(mbed)?/ | \S*?[?&]v= ) | youtu.be/ ) ID
 *
 * where SEG is `[^/\n\s]+`, PATH is a greedy `\S+`, and ID, the captured
 * token, is exactly 11 characters of `[a-zA-Z0-9_-]`. Each alternative is
 * written out as its own search, in the order (and with the greedy or lazy
 * preference) in which the JavaScript engine tries it.
 */
module VideoId {
  import opened Optional
  import opened Text

  const IdLength: nat := 11
  const LongHost := "youtube.com/"
  const ShortHost := "youtu.be/"

  predicate IdChar(c: char) {
    'a' <= c <= 'z' || 'A' <= c <= 'Z' || '0' <= c <= '9' || c == '_' || c == '-'
  }

  /** The shape of a video id: 11 characters of `[a-zA-Z0-9_-]`. */
  predicate IsVideoId(id: string) {
    |id| == IdLength && forall k :: 0 <= k < |id| ==> IdChar(id[k])
  }

  /** An id-shaped token starts at index `i` (no boundary is required after it). */
  predicate IdAt(s: string, i: int) {
    0 <= i && i + IdLength <= |s| && forall k :: i <= k < i + IdLength ==> IdChar(s[k])
  }

  // ---------------------------------------------------------------------------
  // The searches the regular expression performs

  /** `\S*?[?&]v=` followed by an id, lazily from index `k`: the capture index. */
  function QueryCapture(s: string, k: nat): (c: Option<nat>)
    ensures c.Some? ==> IdAt(s, c.value) && k + 3 <= c.value
    decreases |s| - k
  {
    if k >= |s| then None
    else if (s[k] == '?' || s[k] == '&') && StartsAt(s, k + 1, "v=") && IdAt(s, k + 3) then Some(k + 3)
    else if IsSpace(s[k]) then None
    else QueryCapture(s, k + 1)
  }

  /** The end of the `[^/\n\s]*` run starting at `r`. */
  function SegmentEnd(s: string, r: nat): (e: nat)
    requires r <= |s|
    ensures r <= e <= |s|
    ensures forall k :: r <= k < e ==> s[k] != '/' && !IsSpace(s[k])
    ensures e < |s| ==> s[e] == '/' || IsSpace(s[e])
    decreases |s| - r
  {
    if r == |s| || s[r] == '/' || IsSpace(s[r]) then r else SegmentEnd(s, r + 1)
  }

  /** The end of the `\S*` run starting at `t`. */
  function RunEnd(s: string, t: nat): (e: nat)
    requires t <= |s|
    ensures t <= e <= |s|
    ensures forall k :: t <= k < e ==> !IsSpace(s[k])
    ensures e < |s| ==> IsSpace(s[e])
    decreases |s| - t
  {
    if t == |s| || IsSpace(s[t]) then t else RunEnd(s, t + 1)
  }

  /**
   * The backtracking of the greedy `\S+/` that follows the segment: the
   * rightmost slash `j` with `t < j <= top` that is followed by an id.
   */
  function LastSlashCapture(s: string, t: nat, top: int): (c: Option<nat>)
    requires top < |s|
    ensures c.Some? ==> IdAt(s, c.value) && t + 2 <= c.value <= top + 1 && s[c.value - 1] == '/'
    decreases top
  {
    if top <= t then None
    else if s[top] == '/' && IdAt(s, top + 1) then Some(top + 1)
    else LastSlashCapture(s, t, top - 1)
  }

  /** `[^/\n\s]+/\S+/` followed by an id, from index `r`. */
  function PathCapture(s: string, r: nat): (c: Option<nat>)
    requires r <= |s|
    ensures c.Some? ==> IdAt(s, c.value)
  {
    var e := SegmentEnd(s, r);
    if e == r || e == |s| || s[e] != '/' then None
    else LastSlashCapture(s, e + 1, RunEnd(s, e + 1) - 1)
  }

  /** The host-and-path part of the pattern matched at index `q`: the capture index. */
  function CaptureAt(s: string, q: nat): (c: Option<nat>)
    ensures c.Some? ==> IdAt(s, c.value)
  {
    if StartsAt(s, q, LongHost) then
      var r := q + |LongHost|;
      var p := PathCapture(s, r);
      if p.Some? then p
      else if StartsAt(s, r, "v/") && IdAt(s, r + 2) then Some(r + 2)
      else if StartsAt(s, r, "embed/") && IdAt(s, r + 6) then Some(r + 6)
      else if StartsAt(s, r, "e/") && IdAt(s, r + 2) then Some(r + 2)
      else QueryCapture(s, r)
    else if StartsAt(s, q, ShortHost) && IdAt(s, q + |ShortHost|) then Some(q + |ShortHost|)
    else None
  }

  /** `(www\.)?` in front of the host, tried with the prefix first. */
  function AfterWww(s: string, q: nat): (c: Option<nat>)
    ensures c.Some? ==> IdAt(s, c.value)
  {
    if StartsAt(s, q, "www.") && CaptureAt(s, q + 4).Some? then CaptureAt(s, q + 4)
    else CaptureAt(s, q)
  }

  /** The whole pattern, `(https?://)?` included, matched at index `p`. */
  function MatchAt(s: string, p: nat): (c: Option<nat>)
    ensures c.Some? ==> IdAt(s, c.value)
  {
    if StartsAt(s, p, "https://") && AfterWww(s, p + 8).Some? then AfterWww(s, p + 8)
    else if StartsAt(s, p, "http://") && AfterWww(s, p + 7).Some? then AfterWww(s, p + 7)
    else AfterWww(s, p)
  }

  /** The leftmost match at or after index `p`, as the engine scans start positions. */
  function FirstMatch(s: string, p: nat): (c: Option<nat>)
    ensures c.Some? ==> IdAt(s, c.value)
    decreases |s| + 1 - p
  {
    if p > |s| then None
    else if MatchAt(s, p).Some? then MatchAt(s, p)
    else FirstMatch(s, p + 1)
  }

  /** `extractVideoId(url)`: the captured group, or `None` for `null`. */
  function ExtractVideoId(url: string): Option<string> {
    match FirstMatch(url, 0)
    case Some(i) => Some(url[i..i + IdLength])
    case None => None
  }

  // ---------------------------------------------------------------------------
  // What a match is, stated declaratively

  /** `s[r..]` begins with `\S*?[?&]v=` and the id starts at `i`. */
  ghost predicate QueryShape(s: string, r: int, i: int) {
    0 <= r && r + 3 <= i <= |s|
    && (s[i - 3] == '?' || s[i - 3] == '&') && s[i - 2] == 'v' && s[i - 1] == '='
    && forall k :: r <= k < i - 3 ==> !IsSpace(s[k])
  }

  /** `s[r..]` begins with SEG `/` PATH `/`, the segment ending at `e`, and the id starts at `i`. */
  ghost predicate SegmentPathShape(s: string, r: int, e: int, i: int) {
    0 <= r < e && e + 2 < i <= |s| && s[e] == '/' && s[i - 1] == '/'
    && (forall k :: r <= k < e ==> s[k] != '/' && !IsSpace(s[k]))
    && (forall k :: e < k < i - 1 ==> !IsSpace(s[k]))
  }

  /** `s[r..]` begins with SEG `/` PATH `/` and the id starts at `i`. */
  ghost predicate PathShape(s: string, r: int, i: int) {
    exists e :: SegmentPathShape(s, r, e, i)
  }

  /** Some reading of the pattern has its host at `q` and its captured id at `i`. */
  ghost predicate Candidate(s: string, q: int, i: int) {
    IdAt(s, i) &&
    ((StartsAt(s, q, ShortHost) && i == q + |ShortHost|)
     || (StartsAt(s, q, LongHost)
         && ((i == q + 14 && (StartsAt(s, q + 12, "v/") || StartsAt(s, q + 12, "e/")))
             || (i == q + 18 && StartsAt(s, q + 12, "embed/"))
             || QueryShape(s, q + 12, i)
             || PathShape(s, q + 12, i))))
  }

  /** Some reading of the pattern captures an id at index `i`. */
  ghost predicate Recognised(s: string, i: int) {
    exists q :: 0 <= q <= i && Candidate(s, q, i)
  }

  // ---------------------------------------------------------------------------
  // The searches are sound and complete for the declarative shapes

  lemma {:induction false} QueryCaptureSound(s: string, k: nat)
    requires QueryCapture(s, k).Some?
    ensures QueryShape(s, k, QueryCapture(s, k).value)
    decreases |s| - k
  {
    if !((s[k] == '?' || s[k] == '&') && StartsAt(s, k + 1, "v=") && IdAt(s, k + 3)) {
      QueryCaptureSound(s, k + 1);
    }
  }

  lemma {:induction false} QueryCaptureComplete(s: string, k: nat, i: int)
    requires k + 3 <= i && QueryShape(s, k, i) && IdAt(s, i)
    ensures QueryCapture(s, k).Some?
    decreases |s| - k
  {
    if k < i - 3 {
      if !((s[k] == '?' || s[k] == '&') && StartsAt(s, k + 1, "v=") && IdAt(s, k + 3)) {
        QueryCaptureComplete(s, k + 1, i);
      }
    } else {
      assert s[k + 1..k + 3] == "v=";
    }
  }

  lemma {:induction false} LastSlashComplete(s: string, t: nat, top: int, j: int)
    requires top < |s| && t < j <= top && s[j] == '/' && IdAt(s, j + 1)
    ensures LastSlashCapture(s, t, top).Some?
    decreases top
  {
    if top != j && !(s[top] == '/' && IdAt(s, top + 1)) {
      LastSlashComplete(s, t, top - 1, j);
    }
  }

  lemma PathCaptureSound(s: string, r: nat)
    requires r <= |s| && PathCapture(s, r).Some?
    ensures SegmentPathShape(s, r, SegmentEnd(s, r), PathCapture(s, r).value)
  {
  }

  lemma PathCaptureComplete(s: string, r: nat, e: int, i: int)
    requires r <= |s| && SegmentPathShape(s, r, e, i) && IdAt(s, i)
    ensures PathCapture(s, r).Some?
  {
    var e' := SegmentEnd(s, r);
    assert e' == e;
    var w := RunEnd(s, e + 1);
    assert i - 1 < w;
    LastSlashComplete(s, e + 1, w - 1, i - 1);
  }

  lemma CaptureAtSound(s: string, q: nat)
    requires CaptureAt(s, q).Some?
    ensures Candidate(s, q, CaptureAt(s, q).value)
  {
    var i := CaptureAt(s, q).value;
    if StartsAt(s, q, LongHost) {
      var r := q + 12;
      if PathCapture(s, r).Some? {
        PathCaptureSound(s, r);
        assert SegmentPathShape(s, r, SegmentEnd(s, r), i);
        assert PathShape(s, r, i);
      } else if StartsAt(s, r, "v/") && IdAt(s, r + 2) {
      } else if StartsAt(s, r, "embed/") && IdAt(s, r + 6) {
      } else if StartsAt(s, r, "e/") && IdAt(s, r + 2) {
      } else {
        QueryCaptureSound(s, r);
      }
    }
  }

  lemma CaptureAtComplete(s: string, q: nat, i: int)
    requires Candidate(s, q, i)
    ensures CaptureAt(s, q).Some?
  {
    if StartsAt(s, q, LongHost) {
      assert !StartsAt(s, q, ShortHost) by {
        assert s[q + 5] == s[q..q + 12][5];
      }
      var r := q + 12;
      if PathCapture(s, r).None? {
        if QueryShape(s, r, i) {
          QueryCaptureComplete(s, r, i);
        } else if PathShape(s, r, i) {
          var e :| SegmentPathShape(s, r, e, i);
          PathCaptureComplete(s, r, e, i);
        }
      }
    }
  }

  // ---------------------------------------------------------------------------
  // The optional `https?://` and `www.` cannot change what is captured

  /** The host of every alternative starts with `y`. */
  lemma CaptureNeedsY(s: string, q: nat)
    ensures CaptureAt(s, q).Some? ==> q < |s| && s[q] == 'y'
  {
    if StartsAt(s, q, LongHost) { assert s[q] == s[q..q + 12][0]; }
    if StartsAt(s, q, ShortHost) { assert s[q] == s[q..q + 9][0]; }
  }

  /** Start positions with no capture contribute nothing to the leftmost search. */
  function FirstCapture(s: string, q: nat): (c: Option<(nat, nat)>)
    decreases |s| + 1 - q
  {
    if q > |s| then None
    else if CaptureAt(s, q).Some? then Some((q, CaptureAt(s, q).value))
    else FirstCapture(s, q + 1)
  }

  lemma {:induction false} FirstCaptureSkip(s: string, q: nat, n: nat)
    requires q + n <= |s|
    requires 'y' !in s[q..q + n]
    ensures FirstCapture(s, q) == FirstCapture(s, q + n)
    decreases n
  {
    if n > 0 {
      CaptureNeedsY(s, q);
      assert s[q] == s[q..q + n][0];
      assert s[q + 1..q + n] == s[q..q + n][1..];
      FirstCaptureSkip(s, q + 1, n - 1);
    }
  }

  lemma AfterWwwIsFirstCapture(s: string, q: nat)
    requires q <= |s|
    ensures AfterWww(s, q).Some? ==> FirstCapture(s, q).Some? && AfterWww(s, q).value == FirstCapture(s, q).value.1
    ensures CaptureAt(s, q).None? && AfterWww(s, q).None? ==> FirstCapture(s, q) == FirstCapture(s, q + 1)
  {
    if StartsAt(s, q, "www.") {
      assert s[q..q + 4] == "www.";
      FirstCaptureSkip(s, q, 4);
      if CaptureAt(s, q + 4).None? {
        CaptureNeedsY(s, q);
      }
    }
  }

  /** A scheme prefix holds no `y`, so skipping it leaves the first capture at the host after it. */
  lemma SchemeIsFirstCapture(s: string, p: nat, n: nat)
    requires p + n <= |s| && 'y' !in s[p..p + n]
    requires AfterWww(s, p + n).Some?
    ensures FirstCapture(s, p).Some? && AfterWww(s, p + n).value == FirstCapture(s, p).value.1
  {
    FirstCaptureSkip(s, p, n);
    AfterWwwIsFirstCapture(s, p + n);
  }

  lemma MatchAtIsFirstCapture(s: string, p: nat)
    requires p <= |s|
    ensures MatchAt(s, p).Some? ==> FirstCapture(s, p).Some? && MatchAt(s, p).value == FirstCapture(s, p).value.1
  {
    if StartsAt(s, p, "https://") && AfterWww(s, p + 8).Some? {
      assert s[p..p + 8] == "https://";
      SchemeIsFirstCapture(s, p, 8);
    } else if StartsAt(s, p, "http://") && AfterWww(s, p + 7).Some? {
      assert s[p..p + 7] == "http://";
      SchemeIsFirstCapture(s, p, 7);
    } else if AfterWww(s, p).Some? {
      AfterWwwIsFirstCapture(s, p);
    }
  }

  /** When the whole pattern fails at `p`, so does its host-and-path part. */
  lemma MatchAtNone(s: string, p: nat)
    ensures MatchAt(s, p).None? ==> CaptureAt(s, p).None?
  {
  }

  /** The leftmost full match captures what the leftmost host-and-path match captures. */
  lemma {:induction false} FirstMatchIsFirstCapture(s: string, p: nat)
    ensures FirstMatch(s, p).Some? <==> FirstCapture(s, p).Some?
    ensures FirstMatch(s, p).Some? ==> FirstMatch(s, p).value == FirstCapture(s, p).value.1
    decreases |s| + 1 - p
  {
    if p <= |s| {
      MatchAtIsFirstCapture(s, p);
      MatchAtNone(s, p);
      FirstMatchIsFirstCapture(s, p + 1);
    }
  }

  /** The first capture is taken at the leftmost host position where the host-and-path part matches. */
  lemma {:induction false} FirstCaptureLeftmost(s: string, q: nat)
    requires FirstCapture(s, q).Some?
    ensures var (h, i) := FirstCapture(s, q).value;
      q <= h && CaptureAt(s, h) == Some(i) && forall h' :: q <= h' < h ==> CaptureAt(s, h').None?
    decreases |s| + 1 - q
  {
    if CaptureAt(s, q).None? {
      var next := FirstCapture(s, q + 1);
      assert FirstCapture(s, q) == next;
      FirstCaptureLeftmost(s, q + 1);
      var h := next.value.0;
      forall h' | q <= h' < h
        ensures CaptureAt(s, h').None?
      {
        if h' != q {
          assert q + 1 <= h' < h;
        }
      }
    }
  }

  lemma FirstCaptureSound(s: string, q: nat)
    requires FirstCapture(s, q).Some?
    ensures var (h, i) := FirstCapture(s, q).value;
      q <= h <= i && Candidate(s, h, i) && forall h' :: q <= h' < h ==> CaptureAt(s, h').None?
  {
    FirstCaptureLeftmost(s, q);
    var (h, i) := FirstCapture(s, q).value;
    CaptureAtSound(s, h);
  }

  lemma {:induction false} FirstCaptureComplete(s: string, q: nat, h: int, i: int)
    requires q <= h && Candidate(s, h, i)
    ensures FirstCapture(s, q).Some?
    decreases |s| + 1 - q
  {
    if q <= |s| && CaptureAt(s, q).None? {
      if q == h {
        CaptureAtComplete(s, h, i);
      } else {
        FirstCaptureComplete(s, q + 1, h, i);
      }
    }
  }

  // ---------------------------------------------------------------------------
  // Properties of `extractVideoId`

  /**
   * Soundness: a returned id is 11 characters of `[a-zA-Z0-9_-]`, taken from
   * the input right after one of the recognised prefixes, and no recognised
   * prefix begins earlier in the input.
   */
  lemma ExtractSound(url: string, id: string)
    requires ExtractVideoId(url) == Some(id)
    ensures IsVideoId(id)
    ensures exists h, i :: 0 <= h <= i && Candidate(url, h, i) && url[i..i + IdLength] == id
              && forall h', i' :: 0 <= h' < h ==> !Candidate(url, h', i')
  {
    FirstMatchIsFirstCapture(url, 0);
    FirstCaptureSound(url, 0);
    var (h, i) := FirstCapture(url, 0).value;
    forall h', i' | 0 <= h' < h
      ensures !Candidate(url, h', i')
    {
      if Candidate(url, h', i') { CaptureAtComplete(url, h', i'); }
    }
  }

  /** Completeness: `None` (JavaScript's `null`) exactly when no recognised shape occurs. */
  lemma ExtractNoneIff(url: string)
    ensures ExtractVideoId(url).None? <==> forall i :: !Recognised(url, i)
  {
    FirstMatchIsFirstCapture(url, 0);
    if ExtractVideoId(url).None? {
      forall i | Recognised(url, i)
        ensures false
      {
        var h :| 0 <= h <= i && Candidate(url, h, i);
        FirstCaptureComplete(url, 0, h, i);
      }
    } else {
      FirstCaptureSound(url, 0);
      var (h, i) := FirstCapture(url, 0).value;
      assert Recognised(url, i);
    }
  }

  /** Without a `y` there is no host, so nothing is extracted. */
  lemma NoHostNoId(url: string)
    requires forall k :: 0 <= k < |url| ==> url[k] != 'y'
    ensures ExtractVideoId(url) == None
  {
    ExtractNoneIff(url);
    forall i | Recognised(url, i)
      ensures false
    {
      var h :| 0 <= h <= i && Candidate(url, h, i);
      CaptureAtComplete(url, h, i);
      CaptureNeedsY(url, h);
    }
  }

  /** A segment with no slash or space runs to the end of the string. */
  lemma {:induction false} SegmentEndAll(s: string, r: nat)
    requires r <= |s|
    requires forall k :: r <= k < |s| ==> s[k] != '/' && !IsSpace(s[k])
    ensures SegmentEnd(s, r) == |s|
    decreases |s| - r
  {
    if r < |s| { SegmentEndAll(s, r + 1); }
  }

  /** A segment stops at the first slash. */
  lemma {:induction false} SegmentEndStops(s: string, r: nat, e: nat)
    requires r <= e < |s| && s[e] == '/'
    requires forall k :: r <= k < e ==> s[k] != '/' && !IsSpace(s[k])
    ensures SegmentEnd(s, r) == e
    decreases e - r
  {
    if r < e { SegmentEndStops(s, r + 1, e); }
  }

  /** With no slash after `t`, the greedy path alternative finds nothing. */
  lemma {:induction false} LastSlashNone(s: string, t: nat, top: int)
    requires top < |s|
    requires forall j :: t < j <= top ==> s[j] != '/'
    ensures LastSlashCapture(s, t, top).None?
    decreases top
  {
    if top > t { LastSlashNone(s, t, top - 1); }
  }

  /** With no space from `t` on, the `\S*` run reaches the end of the string. */
  lemma {:induction false} RunEndAll(s: string, t: nat)
    requires t <= |s|
    requires forall k :: t <= k < |s| ==> !IsSpace(s[k])
    ensures RunEnd(s, t) == |s|
    decreases |s| - t
  {
    if t < |s| { RunEndAll(s, t + 1); }
  }

  /** The backtracking stops at the last slash in range, when an id follows it. */
  lemma {:induction false} LastSlashFinds(s: string, t: nat, top: int, j: nat)
    requires top < |s| && t < j <= top && s[j] == '/' && IdAt(s, j + 1)
    requires forall k :: j < k <= top ==> s[k] != '/'
    ensures LastSlashCapture(s, t, top) == Some(j + 1)
    decreases top
  {
    if top > j { LastSlashFinds(s, t, top - 1, j); }
  }

  /** When no `y` comes before the first capturing host, that host decides the result. */
  lemma FirstHostDecides(s: string, q: nat, i: nat)
    requires q <= |s| && 'y' !in s[..q] && CaptureAt(s, q) == Some(i)
    ensures ExtractVideoId(s) == Some(s[i..i + IdLength])
  {
    assert s[0..q] == s[..q];
    FirstCaptureSkip(s, 0, q);
    FirstMatchIsFirstCapture(s, 0);
  }

  /** The id captured after the first host is the result. */
  lemma HostDecidesId(s: string, q: nat, i: nat, id: string)
    requires q <= |s| && 'y' !in s[..q] && CaptureAt(s, q) == Some(i)
    requires i + IdLength <= |s| && s[i..i + IdLength] == id
    ensures ExtractVideoId(s) == Some(id)
  {
    FirstHostDecides(s, q, i);
  }

  // ---------------------------------------------------------------------------
  // One host form at an arbitrary position

  /** No slash from index `k` to the end. */
  predicate SlashFreeFrom(s: string, k: nat) {
    forall j :: k <= j < |s| ==> s[j] != '/'
  }

  /** With no slash after `r`, the `[^/\n\s]+/` segment never reaches a slash. */
  lemma NoFirstSlash(s: string, r: nat)
    requires r <= |s| && SlashFreeFrom(s, r)
    ensures PathCapture(s, r).None?
  {
    var e := SegmentEnd(s, r);
    assert e < |s| ==> s[e] != '/';
  }

  /**
   * After a segment of `n` characters and its slash, with no slash later,
   * the greedy `\S+/` finds no second slash.
   */
  lemma NoSecondSlash(s: string, r: nat, n: nat)
    requires r + n < |s| && n > 0 && s[r + n] == '/'
    requires forall k :: r <= k < r + n ==> s[k] != '/' && !IsSpace(s[k])
    requires SlashFreeFrom(s, r + n + 1)
    ensures PathCapture(s, r).None?
  {
    SegmentEndStops(s, r, r + n);
    LastSlashNone(s, r + n + 1, RunEnd(s, r + n + 1) - 1);
  }

  /** `youtu.be/` and an id at `q`: the long host does not apply, the short one captures. */
  lemma ShortCapture(s: string, q: nat)
    requires StartsAt(s, q, ShortHost) && IdAt(s, q + |ShortHost|)
    ensures CaptureAt(s, q) == Some(q + |ShortHost|)
  {
    assert s[q + 5] == s[q..q + |ShortHost|][5];
    assert LongHost[5] == 'b';
  }

  /** The lazy query search from `watch?v=` stops at its `?v=`. */
  lemma WatchQuery(s: string, r: nat)
    requires StartsAt(s, r, "watch?v=") && IdAt(s, r + 8)
    ensures QueryCapture(s, r) == Some(r + 8)
  {
    var v := s[r..r + 8];
    assert s[r] == v[0] && s[r + 1] == v[1] && s[r + 2] == v[2] && s[r + 3] == v[3] && s[r + 4] == v[4];
    assert s[r + 5] == v[5];
    assert s[r + 6..r + 8] == v[6..8];
    assert QueryCapture(s, r + 5) == Some(r + 8);
    assert QueryCapture(s, r + 4) == QueryCapture(s, r + 5);
    assert QueryCapture(s, r + 3) == QueryCapture(s, r + 4);
    assert QueryCapture(s, r + 2) == QueryCapture(s, r + 3);
    assert QueryCapture(s, r + 1) == QueryCapture(s, r + 2);
  }

  /** `youtube.com/watch?v=` and an id at `q`, no slash after: the query alternative captures. */
  lemma WatchCapture(s: string, q: nat)
    requires StartsAt(s, q, "youtube.com/watch?v=") && IdAt(s, q + 20) && SlashFreeFrom(s, q + 20)
    ensures CaptureAt(s, q) == Some(q + 20)
  {
    var w := s[q..q + 20];
    var r := q + |LongHost|;
    assert s[q..r] == w[..12];
    var v := s[r..r + 8];
    assert v == w[12..];
    forall j | r <= j < |s| ensures s[j] != '/' {
      if j < q + 20 {
        assert s[j] == v[j - r];
      }
    }
    NoFirstSlash(s, r);
    WatchQuery(s, r);
    assert s[r] == v[0];
  }

  /** `youtube.com/embed/` and an id at `q`, no slash after: the `embed/` alternative captures. */
  lemma EmbedCapture(s: string, q: nat)
    requires StartsAt(s, q, "youtube.com/embed/") && IdAt(s, q + 18) && SlashFreeFrom(s, q + 18)
    ensures CaptureAt(s, q) == Some(q + 18)
  {
    var w := s[q..q + 18];
    var r := q + |LongHost|;
    assert s[q..r] == w[..12];
    var f := s[r..r + 6];
    assert f == w[12..];
    forall k | r <= k < r + 5 ensures s[k] != '/' && !IsSpace(s[k]) {
      assert s[k] == f[k - r];
    }
    assert s[r + 5] == f[5];
    NoSecondSlash(s, r, 5);
    assert s[r] == f[0];
  }

  /** `youtube.com/v/` or `youtube.com/e/` and an id at `q`, no slash after: that alternative captures. */
  lemma LetterCapture(s: string, q: nat, form: string)
    requires form == "v/" || form == "e/"
    requires StartsAt(s, q, LongHost + form) && IdAt(s, q + 14) && SlashFreeFrom(s, q + 14)
    ensures CaptureAt(s, q) == Some(q + 14)
  {
    var w := s[q..q + 14];
    var r := q + |LongHost|;
    assert s[q..r] == w[..12];
    var f := s[r..r + 2];
    assert f == w[12..];
    assert s[r] == f[0] && s[r + 1] == f[1];
    NoSecondSlash(s, r, 1);
  }

  // ---------------------------------------------------------------------------
  // The URL shapes the tool is meant for

  /** The optional `https?://` and `www.` in front of a host, in every combination. */
  const Prefixes: seq<string> := ["", "www.", "http://", "http://www.", "https://", "https://www."]

  lemma PrefixHasNoY(pre: string)
    requires pre in Prefixes
    ensures 'y' !in pre
  {
  }

  /** An id placed after any prefix is an id token at that position. */
  lemma IdAfter(prefix: string, id: string, tail: string)
    requires IsVideoId(id)
    ensures IdAt(prefix + id + tail, |prefix|)
    ensures (prefix + id + tail)[|prefix|..|prefix| + IdLength] == id
    ensures (prefix + id + tail)[..|prefix|] == prefix
  {
    var s := prefix + id + tail;
    forall k | |prefix| <= k < |prefix| + IdLength ensures IdChar(s[k]) {
      assert s[k] == id[k - |prefix|];
    }
    assert s[|prefix|..|prefix| + IdLength] == id;
  }

  /** The parts of `pre + host + id + tail`, read back as slices. */
  lemma Pieces(pre: string, host: string, id: string, tail: string)
    requires IsVideoId(id)
    ensures var s := pre + host + id + tail;
      var i := |pre| + |host|;
      && s[..|pre|] == pre && StartsAt(s, |pre|, host)
      && IdAt(s, i) && s[i..i + IdLength] == id
      && ('/' !in tail ==> SlashFreeFrom(s, i))
  {
    var s := pre + host + id + tail;
    var i := |pre| + |host|;
    IdAfter(pre + host, id, tail);
    assert s[..|pre|] == pre;
    assert s[|pre|..i] == host;
    if '/' !in tail {
      forall j | i <= j < |s| ensures s[j] != '/' {
        if j >= i + IdLength {
          assert s[j] == tail[j - i - IdLength];
        }
      }
    }
  }

  /** `youtu.be/<id>` behind any prefix, with anything after the token: the first 11 characters. */
  lemma ShortLink(pre: string, id: string, tail: string)
    requires pre in Prefixes && IsVideoId(id)
    ensures ExtractVideoId(pre + ShortHost + id + tail) == Some(id)
  {
    var s := pre + ShortHost + id + tail;
    Pieces(pre, ShortHost, id, tail);
    PrefixHasNoY(pre);
    ShortCapture(s, |pre|);
    HostDecidesId(s, |pre|, |pre| + |ShortHost|, id);
  }

  /** `youtube.com/watch?v=<id>` behind any prefix, followed by a tail without a slash. */
  lemma WatchLink(pre: string, id: string, tail: string)
    requires pre in Prefixes && IsVideoId(id) && '/' !in tail
    ensures ExtractVideoId(pre + "youtube.com/watch?v=" + id + tail) == Some(id)
  {
    var s := pre + "youtube.com/watch?v=" + id + tail;
    Pieces(pre, "youtube.com/watch?v=", id, tail);
    PrefixHasNoY(pre);
    WatchCapture(s, |pre|);
    HostDecidesId(s, |pre|, |pre| + 20, id);
  }

  /** `youtube.com/embed/<id>` behind any prefix, followed by a tail without a slash. */
  lemma EmbedLink(pre: string, id: string, tail: string)
    requires pre in Prefixes && IsVideoId(id) && '/' !in tail
    ensures ExtractVideoId(pre + "youtube.com/embed/" + id + tail) == Some(id)
  {
    var s := pre + "youtube.com/embed/" + id + tail;
    Pieces(pre, "youtube.com/embed/", id, tail);
    PrefixHasNoY(pre);
    EmbedCapture(s, |pre|);
    HostDecidesId(s, |pre|, |pre| + 18, id);
  }

  /** `youtube.com/v/<id>` behind any prefix, followed by a tail without a slash. */
  lemma VLink(pre: string, id: string, tail: string)
    requires pre in Prefixes && IsVideoId(id) && '/' !in tail
    ensures ExtractVideoId(pre + "youtube.com/v/" + id + tail) == Some(id)
  {
    var s := pre + "youtube.com/v/" + id + tail;
    Pieces(pre, "youtube.com/v/", id, tail);
    PrefixHasNoY(pre);
    assert "youtube.com/v/" == LongHost + "v/";
    LetterCapture(s, |pre|, "v/");
    HostDecidesId(s, |pre|, |pre| + 14, id);
  }

  /** `youtube.com/e/<id>` behind any prefix, followed by a tail without a slash. */
  lemma ELink(pre: string, id: string, tail: string)
    requires pre in Prefixes && IsVideoId(id) && '/' !in tail
    ensures ExtractVideoId(pre + "youtube.com/e/" + id + tail) == Some(id)
  {
    var s := pre + "youtube.com/e/" + id + tail;
    Pieces(pre, "youtube.com/e/", id, tail);
    PrefixHasNoY(pre);
    assert "youtube.com/e/" == LongHost + "e/";
    LetterCapture(s, |pre|, "e/");
    HostDecidesId(s, |pre|, |pre| + 14, id);
  }

  /** The same token comes back from every supported form, with or without scheme and `www.`. */
  lemma SameIdFromEveryForm(pre: string, id: string, tail: string)
    requires pre in Prefixes && IsVideoId(id) && '/' !in tail
    ensures ExtractVideoId(pre + "youtu.be/" + id + tail) == Some(id)
    ensures ExtractVideoId(pre + "youtube.com/watch?v=" + id + tail) == Some(id)
    ensures ExtractVideoId(pre + "youtube.com/embed/" + id + tail) == Some(id)
    ensures ExtractVideoId(pre + "youtube.com/v/" + id + tail) == Some(id)
    ensures ExtractVideoId(pre + "youtube.com/e/" + id + tail) == Some(id)
  {
    ShortLink(pre, id, tail);
    WatchLink(pre, id, tail);
    EmbedLink(pre, id, tail);
    VLink(pre, id, tail);
    ELink(pre, id, tail);
  }

  /** A watch link with a start-time parameter after the id still yields the id. */
  lemma WatchTimestampExample(id: string)
    requires IsVideoId(id)
    ensures ExtractVideoId("https://www.youtube.com/watch?v=" + id + "&t=42s") == Some(id)
  {
    var pre := "https://www.";
    var tail := "&t=42s";
    assert pre in Prefixes;
    assert '/' !in tail;
    assert pre + "youtube.com/watch?v=" == "https://www.youtube.com/watch?v=";
    WatchLink(pre, id, tail);
  }

  /** The parts of `youtube.com/v/<first>/<second>`, read back by index. */
  lemma LetterPathPieces(first: string, second: string)
    requires IsVideoId(first) && IsVideoId(second)
    ensures var s := "youtube.com/v/" + first + "/" + second;
      && |s| == 37 && StartsAt(s, 0, LongHost)
      && s[12] == 'v' && s[13] == '/' && s[25] == '/'
      && IdAt(s, 26) && s[26..37] == second
      && (forall k :: 14 <= k < 37 ==> !IsSpace(s[k]))
      && (forall k :: 25 < k <= 36 ==> s[k] != '/')
  {
    var s := "youtube.com/v/" + first + "/" + second;
    assert s[..12] == LongHost;
    forall k | 14 <= k < 25 ensures IdChar(s[k]) {
      assert s[k] == first[k - 14];
    }
    forall k | 26 <= k < 37 ensures IdChar(s[k]) {
      assert s[k] == second[k - 26];
    }
    assert s[26..37] == second;
  }

  /**
   * The alternatives are tried in order at a host: in `youtube.com/v/<first>/<second>`
   * the `v/` alternative could read `first`, but `SEG/PATH/` comes before it
   * and backtracks to the last slash, so the extracted id is `second`.
   */
  lemma PathBeforeLetterExample(first: string, second: string)
    requires IsVideoId(first) && IsVideoId(second)
    ensures ExtractVideoId("youtube.com/v/" + first + "/" + second) == Some(second)
  {
    var s := "youtube.com/v/" + first + "/" + second;
    LetterPathPieces(first, second);
    SegmentEndStops(s, 12, 13);
    RunEndAll(s, 14);
    LastSlashFinds(s, 14, 36, 25);
    assert PathCapture(s, 12) == Some(26);
    HostDecidesId(s, 0, 26, second);
  }

  /** A typical short link: `https://youtu.be/dQw4w9WgXcQ` gives `dQw4w9WgXcQ`. */
  lemma ShortLinkExample(id: string)
    requires id == "dQw4w9WgXcQ"
    ensures ExtractVideoId("https://youtu.be/" + id) == Some(id)
  {
    assert IsVideoId(id);
    var u := "https://youtu.be/" + id;
    assert "https://" + ShortHost == "https://youtu.be/";
    assert u + [] == u;
    ShortLink("https://", id, []);
  }

  /** No boundary follows the token: `dQw4w9WgXcQxyz` yields its first 11 characters. */
  lemma LongerTokenExample(id: string)
    requires id == "dQw4w9WgXcQ"
    ensures ExtractVideoId("https://youtu.be/" + id + "xyz") == Some(id)
  {
    assert IsVideoId(id);
    ShortLink("https://", id, "xyz");
    assert "https://" + ShortHost == "https://youtu.be/";
  }
}
