/** The mock-tests page's video links: `getYouTubeEmbedUrl`, which turns a
    stored value into an embed URL, and the "Watch on YouTube" link.

    The extraction pattern is

      (?:youtube\.com\/(?:[^\/]+\/.+\/|(?:v|e(?:mbed)?)\/|.*[?&]v=)|youtu\.be\/)([^"&?\/\s]{11})

    `Matches` states what the pattern accepts at a position; `MatchAt` and
    `FirstMatch` compute the one match `String.prototype.match` reports:
    the leftmost start, then the alternatives in order, each greedy
    quantifier backing off from its longest run. */
module YouTube {

  import opened Options
  import opened Text

  const EmbedPrefix := "https://www.youtube.com/embed/"
  const WatchPrefix := "https://www.youtube.com/watch?v="
  const IdLength := 11

  /** ECMAScript line terminators: the characters `.` does not match. */
  predicate IsLineTerminator(c: char)
  {
    c == '\n' || c == '\r' || c == '\U{2028}' || c == '\U{2029}'
  }

  /** ECMAScript `\s`: white space and line terminators. */
  predicate IsWhitespace(c: char)
  {
    || IsLineTerminator(c)
    || c == '\t' || c == '\U{B}' || c == '\U{C}' || c == ' ' || c == '\U{A0}' || c == '\U{1680}'
    || ('\U{2000}' <= c <= '\U{200A}')
    || c == '\U{202F}' || c == '\U{205F}' || c == '\U{3000}' || c == '\U{FEFF}'
  }

  /** The class `[^"&?\/\s]`. */
  predicate IsIdChar(c: char)
  {
    c != '"' && c != '&' && c != '?' && c != '/' && !IsWhitespace(c)
  }

  /** Eleven id characters start at `g`. */
  predicate IdAt(s: string, g: int)
  {
    0 <= g && g + IdLength <= |s| && forall k :: g <= k < g + IdLength ==> IsIdChar(s[k])
  }

  predicate IsVideoId(id: string)
  {
    |id| == IdLength && forall k :: 0 <= k < |id| ==> IsIdChar(id[k])
  }

  /** `?v=` or `&v=` starts at `k`. */
  predicate QueryVAt(s: string, k: int)
  {
    StartsAt(s, k, "?v=") || StartsAt(s, k, "&v=")
  }

  // ---------------------------------------------------------------------
  // What the pattern accepts. `q` is the position just after
  // "youtube.com/", `g` the start of the captured id.

  /** `[^\/]+\/.+\/` spans `q` up to the slash at `j`. */
  ghost predicate SegmentsTo(s: string, q: int, j: int)
  {
    exists m ::
      && 0 <= q < m && m + 1 < j && j < |s|
      && s[m] == '/' && s[j] == '/'
      && (forall k :: q <= k < m ==> s[k] != '/')
      && (forall k :: m < k < j ==> !IsLineTerminator(s[k]))
  }

  ghost predicate SegmentsShape(s: string, q: int, g: int)
  {
    SegmentsTo(s, q, g - 1) && IdAt(s, g)
  }

  /** `(?:v|e(?:mbed)?)\/` */
  predicate PathShape(s: string, q: int, g: int)
  {
    && ((StartsAt(s, q, "v/") && g == q + 2)
        || (StartsAt(s, q, "embed/") && g == q + 6)
        || (StartsAt(s, q, "e/") && g == q + 2))
    && IdAt(s, g)
  }

  /** `.*[?&]v=` */
  ghost predicate QueryShape(s: string, q: int, g: int)
  {
    && 0 <= q && q + 3 <= g
    && IdAt(s, g)
    && QueryVAt(s, g - 3)
    && (forall k :: q <= k < g - 3 ==> !IsLineTerminator(s[k]))
  }

  /** The `youtube\.com\/(...)` alternative matches from `p`. */
  ghost predicate HostShape(s: string, p: int, g: int)
  {
    StartsAt(s, p, "youtube.com/")
    && (SegmentsShape(s, p + 12, g) || PathShape(s, p + 12, g) || QueryShape(s, p + 12, g))
  }

  /** The whole pattern matches from `p` with the id captured at `g`. */
  ghost predicate Matches(s: string, p: int, g: int)
  {
    HostShape(s, p, g) || (StartsAt(s, p, "youtu.be/") && g == p + 9 && IdAt(s, g))
  }

  // ---------------------------------------------------------------------
  // Computing the reported match

  /** The first '/' at or after `i`, or `|s|`. */
  function NextSlash(s: string, i: nat): (j: nat)
    requires i <= |s|
    ensures i <= j <= |s|
    ensures j < |s| ==> s[j] == '/'
    ensures forall k :: i <= k < j ==> s[k] != '/'
    decreases |s| - i
  {
    if i == |s| || s[i] == '/' then i else NextSlash(s, i + 1)
  }

  /** The first line terminator at or after `i`, or `|s|`. */
  function LineEnd(s: string, i: nat): (j: nat)
    requires i <= |s|
    ensures i <= j <= |s|
    ensures j < |s| ==> IsLineTerminator(s[j])
    ensures forall k :: i <= k < j ==> !IsLineTerminator(s[k])
    decreases |s| - i
  {
    if i == |s| || IsLineTerminator(s[i]) then i else LineEnd(s, i + 1)
  }

  /** The last slash in `[lo, hi)` followed by an id: the back-off of the
      greedy `.+`. */
  function LastSlashBeforeId(s: string, lo: nat, hi: nat): (r: Option<nat>)
    requires hi <= |s|
    ensures r.Some? ==> lo <= r.value < hi && s[r.value] == '/' && IdAt(s, r.value + 1)
    ensures r.Some? ==> forall j :: r.value < j < hi ==> !(s[j] == '/' && IdAt(s, j + 1))
    ensures r.None? ==> forall j :: lo <= j < hi ==> !(s[j] == '/' && IdAt(s, j + 1))
    decreases hi
  {
    if hi <= lo then None
    else if s[hi - 1] == '/' && IdAt(s, hi) then Some(hi - 1)
    else LastSlashBeforeId(s, lo, hi - 1)
  }

  /** The last `?v=` or `&v=` in `[lo, hi)` followed by an id: the back-off
      of the greedy `.*`. */
  function LastQueryBeforeId(s: string, lo: nat, hi: nat): (r: Option<nat>)
    requires hi <= |s|
    ensures r.Some? ==> lo <= r.value < hi && QueryVAt(s, r.value) && IdAt(s, r.value + 3)
    ensures r.Some? ==> forall k :: r.value < k < hi ==> !(QueryVAt(s, k) && IdAt(s, k + 3))
    ensures r.None? ==> forall k :: lo <= k < hi ==> !(QueryVAt(s, k) && IdAt(s, k + 3))
    decreases hi
  {
    if hi <= lo then None
    else if QueryVAt(s, hi - 1) && IdAt(s, hi + 2) then Some(hi - 1)
    else LastQueryBeforeId(s, lo, hi - 1)
  }

  /** A run of characters without a line terminator ends before the line
      does. */
  lemma LineEndBeyond(s: string, i: nat, j: nat)
    requires i <= j < |s|
    requires forall k :: i <= k <= j ==> !IsLineTerminator(s[k])
    ensures j < LineEnd(s, i)
  {
  }

  /** A slash with none before it from `i` is the one `NextSlash` finds. */
  lemma FirstSlashIs(s: string, i: nat, m: nat)
    requires i <= m < |s| && s[m] == '/'
    requires forall k :: i <= k < m ==> s[k] != '/'
    ensures NextSlash(s, i) == m
  {
  }

  /** A segments match ends at a slash after the first slash and before
      the end of the line. */
  lemma SegmentsShapeBounds(s: string, q: nat, g: int)
    requires q <= |s|
    ensures SegmentsShape(s, q, g) ==>
      var m := NextSlash(s, q);
      && q < m < |s|
      && m + 2 <= g - 1 < LineEnd(s, m + 1)
      && s[g - 1] == '/' && IdAt(s, g)
  {
    if SegmentsShape(s, q, g) {
      var j := g - 1;
      var m' :| && 0 <= q < m' && m' + 1 < j && j < |s|
                && s[m'] == '/' && s[j] == '/'
                && (forall k :: q <= k < m' ==> s[k] != '/')
                && (forall k :: m' < k < j ==> !IsLineTerminator(s[k]));
      FirstSlashIs(s, q, m');
      var m := NextSlash(s, q);
      assert !IsLineTerminator(s[j]);
      LineEndBeyond(s, m + 1, j);
    }
  }

  /** First alternative after "youtube.com/": `[^\/]+` can only end at the
      first slash, and `.+` backs off to the last slash before an id. */
  function SegmentsMatch(s: string, q: nat): (r: Option<nat>)
    requires q <= |s|
    ensures r.Some? ==> SegmentsShape(s, q, r.value)
    ensures r.None? ==> forall g :: !SegmentsShape(s, q, g)
    ensures forall g :: SegmentsShape(s, q, g) ==> r.Some? && g <= r.value
  {
    var m := NextSlash(s, q);
    forall g ensures SegmentsShape(s, q, g) ==>
        (q < m < |s| && m + 2 <= g - 1 < LineEnd(s, m + 1) && s[g - 1] == '/' && IdAt(s, g)) {
      SegmentsShapeBounds(s, q, g);
    }
    if m == q || m == |s| then None
    else
      var hi := LineEnd(s, m + 1);
      match LastSlashBeforeId(s, m + 2, hi)
      case Some(j) =>
        assert SegmentsTo(s, q, j) by {
          assert forall k :: m < k < j ==> !IsLineTerminator(s[k]);
        }
        Some(j + 1)
      case None => None
  }

  /** Second alternative: `v/`, then `embed/`, then `e/`. */
  function PathMatch(s: string, q: nat): (r: Option<nat>)
    requires q <= |s|
    ensures r.Some? ==> PathShape(s, q, r.value)
    ensures r.None? ==> forall g :: !PathShape(s, q, g)
  {
    if StartsAt(s, q, "v/") && IdAt(s, q + 2) then Some(q + 2)
    else if StartsAt(s, q, "embed/") && IdAt(s, q + 6) then Some(q + 6)
    else if StartsAt(s, q, "e/") && IdAt(s, q + 2) then Some(q + 2)
    else None
  }

  /** A query match's `?v=` lies before the end of the line. */
  lemma QueryShapeBounds(s: string, q: nat, g: int)
    requires q <= |s|
    ensures QueryShape(s, q, g) ==>
      q <= g - 3 < LineEnd(s, q) && QueryVAt(s, g - 3) && IdAt(s, g + 0)
  {
    if QueryShape(s, q, g) {
      var k := g - 3;
      StartsAtChar(s, k, "?v=", 0);
      StartsAtChar(s, k, "&v=", 0);
      assert !IsLineTerminator(s[k]);
      LineEndBeyond(s, q, k);
    }
  }

  /** Third alternative: `.*` backs off to the last `?v=` or `&v=` before
      an id. */
  function QueryMatch(s: string, q: nat): (r: Option<nat>)
    requires q <= |s|
    ensures r.Some? ==> QueryShape(s, q, r.value)
    ensures r.None? ==> forall g :: !QueryShape(s, q, g)
    ensures forall g :: QueryShape(s, q, g) ==> r.Some? && g <= r.value
  {
    var hi := LineEnd(s, q);
    forall g ensures QueryShape(s, q, g) ==> q <= g - 3 < hi && QueryVAt(s, g - 3) && IdAt(s, g + 0) {
      QueryShapeBounds(s, q, g);
    }
    match LastQueryBeforeId(s, q, hi)
    case Some(k) => Some(k + 3)
    case None => None
  }

  /** The `youtube\.com\/(...)` alternative from `p`: segments, then a
      `v/`, `embed/` or `e/` path, then the query form. */
  function HostMatch(s: string, p: nat): (r: Option<nat>)
    requires p <= |s|
    ensures r.Some? ==> HostShape(s, p, r.value)
    ensures r.None? ==> forall g :: !HostShape(s, p, g)
  {
    if StartsAt(s, p, "youtube.com/") then
      match SegmentsMatch(s, p + 12)
      case Some(g) => Some(g)
      case None =>
        match PathMatch(s, p + 12)
        case Some(g) => Some(g)
        case None => QueryMatch(s, p + 12)
    else None
  }

  /** The match starting at `p`, trying the alternatives in the pattern's
      order. */
  function MatchAt(s: string, p: nat): (r: Option<nat>)
    requires p <= |s|
    ensures r.Some? ==> Matches(s, p, r.value)
    ensures r.None? ==> forall g :: !Matches(s, p, g)
  {
    var viaHost := HostMatch(s, p);
    if viaHost.Some? then viaHost
    else if StartsAt(s, p, "youtu.be/") && IdAt(s, p + 9) then Some(p + 9)
    else None
  }

  /** The position just after "youtube.com/" when it starts at `p`. */
  function AfterHost(p: nat): nat
  {
    p + 12
  }

  /** The alternatives are tried in the pattern's order: segments first,
      whenever they fit, with the last id; then `v/`, `embed/`, `e/`; then
      the query form, with the last id; and the short-link host. */
  lemma AlternativesInOrder(s: string, p: nat)
    requires p <= |s|
    // The first alternative wins whenever it fits, with the last id.
    ensures StartsAt(s, p, "youtube.com/") ==>
      forall g :: SegmentsShape(s, AfterHost(p), g) ==>
        MatchAt(s, p).Some? && SegmentsShape(s, AfterHost(p), MatchAt(s, p).value) && g <= MatchAt(s, p).value
    // The second is tried only when the first cannot fit.
    ensures StartsAt(s, p, "youtube.com/") && (forall g :: !SegmentsShape(s, AfterHost(p), g)) ==>
      forall g :: PathShape(s, AfterHost(p), g) ==> MatchAt(s, p) == Some(g)
    // The third only when neither can, again with the last id.
    ensures StartsAt(s, p, "youtube.com/")
            && (forall g :: !SegmentsShape(s, AfterHost(p), g) && !PathShape(s, AfterHost(p), g)) ==>
      forall g :: QueryShape(s, AfterHost(p), g) ==>
        MatchAt(s, p).Some? && QueryShape(s, AfterHost(p), MatchAt(s, p).value) && g <= MatchAt(s, p).value
    // The short-link host.
    ensures StartsAt(s, p, "youtu.be/") && IdAt(s, p + 9) ==> MatchAt(s, p) == Some(p + 9)
  {
    var q := AfterHost(p);
    if StartsAt(s, p, "youtube.com/") {
      HostAlternatives(s, p);
      StartsAtChar(s, p, "youtu.be/", 5);
      StartsAtChar(s, p, "youtube.com/", 5);
      forall g | PathShape(s, q, g) ensures PathMatch(s, q) == Some(g) {
        PathShapeUnique(s, q, g);
      }
    } else if StartsAt(s, p, "youtu.be/") && IdAt(s, p + 9) {
      assert MatchAt(s, p) == Some(p + 9);
    }
  }

  /** After "youtube.com/" the short-link host cannot also start, so the
      match is the first of the three alternatives that succeeds. */
  lemma HostAlternatives(s: string, p: nat)
    requires p <= |s| && StartsAt(s, p, "youtube.com/")
    ensures var q := AfterHost(p);
            MatchAt(s, p) == if SegmentsMatch(s, q).Some? then SegmentsMatch(s, q)
                             else if PathMatch(s, q).Some? then PathMatch(s, q)
                             else QueryMatch(s, q)
  {
    StartsAtChar(s, p, "youtu.be/", 5);
    StartsAtChar(s, p, "youtube.com/", 5);
  }

  /** The three path prefixes exclude one another, so a path shape fixes
      the capture. */
  lemma PathShapeUnique(s: string, q: nat, g: int)
    requires q <= |s| && PathShape(s, q, g)
    ensures PathMatch(s, q) == Some(g)
  {
    StartsAtChar(s, q, "v/", 0);
    StartsAtChar(s, q, "embed/", 0);
    StartsAtChar(s, q, "embed/", 1);
    StartsAtChar(s, q, "e/", 0);
    StartsAtChar(s, q, "e/", 1);
  }

  /** The leftmost match at or after `p`: its start and the id position. */
  function FirstMatch(s: string, p: nat): (r: Option<(nat, nat)>)
    requires p <= |s|
    ensures r.Some? ==> p <= r.value.0 <= |s| && MatchAt(s, r.value.0) == Some(r.value.1)
    ensures r.Some? ==> forall p' :: p <= p' < r.value.0 ==> MatchAt(s, p').None?
    ensures r.None? ==> forall p' :: p <= p' <= |s| ==> MatchAt(s, p').None?
    decreases |s| - p
  {
    var here := MatchAt(s, p);
    if here.Some? then Some((p, here.value))
    else if p == |s| then None
    else
      var r := FirstMatch(s, p + 1);
      assert forall p' :: p < p' <= |s| && (r.None? || p' < r.value.0) ==> MatchAt(s, p').None?;
      r
  }

  /** `youtubeUrl.match(pattern)`: the captured id's position. */
  function Match(s: string): (r: Option<nat>)
    ensures r.Some? ==> IdAt(s, r.value) && exists p :: 0 <= p <= |s| && Matches(s, p, r.value)
    ensures r.Some? ==> exists p :: 0 <= p <= |s| && MatchAt(s, p) == r
                                  && forall p', g :: 0 <= p' < p ==> !Matches(s, p', g)
    ensures r.None? ==> forall p, g :: 0 <= p <= |s| ==> !Matches(s, p, g)
  {
    match FirstMatch(s, 0)
    case Some((p, g)) =>
      forall p', g' | 0 <= p' < p ensures !Matches(s, p', g') {
        assert MatchAt(s, p').None?;
      }
      Some(g)
    case None =>
      assert forall p, g :: 0 <= p <= |s| ==> !Matches(s, p, g) by {
        forall p, g | 0 <= p <= |s| ensures !Matches(s, p, g) {
          assert MatchAt(s, p).None?;
        }
      }
      None
  }

  predicate HasYouTubeHost(u: string)
  {
    Contains(u, "youtube.com") || Contains(u, "youtu.be")
  }

  /** `getYouTubeEmbedUrl`. */
  function EmbedUrl(u: string): (r: string)
    // A value naming neither host is taken to be a bare id, unchanged.
    ensures !HasYouTubeHost(u) ==> r == EmbedPrefix + u
    // A URL the pattern matches gives the embed URL of the captured id.
    ensures HasYouTubeHost(u) && Match(u).Some? ==>
      var g := Match(u).value;
      g + IdLength <= |u| && r == EmbedPrefix + u[g..g + IdLength] && IsVideoId(u[g..g + IdLength])
    // A URL the pattern does not match is returned as it is.
    ensures HasYouTubeHost(u) && Match(u).None? ==> r == u
  {
    if !HasYouTubeHost(u) then EmbedPrefix + u
    else match Match(u)
      case Some(g) => EmbedPrefix + u[g..g + IdLength]
      case None => u
  }

  /** The "Watch on YouTube" link: the stored value appended as it is. */
  function WatchUrl(u: string): (r: string)
    ensures IsPrefix(WatchPrefix, r) && r[|WatchPrefix|..] == u
  {
    WatchPrefix + u
  }

  // ---------------------------------------------------------------------
  // Properties

  /** Every captured id is preceded by '/' or by "v=". */
  lemma CaptureFollowsSlashOrV(s: string, p: int, g: int)
    requires Matches(s, p, g)
    ensures g >= 1 && (s[g - 1] == '/' || (g >= 2 && s[g - 2..g] == "v="))
  {
    if StartsAt(s, p, "youtube.com/") && QueryShape(s, p + 12, g) {
      assert s[g - 3..g][1..] == s[g - 2..g];
    } else if StartsAt(s, p, "youtube.com/") && PathShape(s, p + 12, g) {
      StartsAtChar(s, p + 12, "v/", 1);
      StartsAtChar(s, p + 12, "embed/", 5);
      StartsAtChar(s, p + 12, "e/", 1);
    } else if StartsAt(s, p, "youtu.be/") && g == p + 9 {
      StartsAtChar(s, p, "youtu.be/", 8);
    }
  }

  lemma StartsAtChar(s: string, i: int, t: string, k: int)
    requires 0 <= k < |t|
    ensures StartsAt(s, i, t) ==> s[i + k] == t[k]
  {
    if StartsAt(s, i, t) {
      assert s[i..i + |t|][k] == s[i + k];
    }
  }

  /** When the match reported starts at `p0`, nothing earlier matched. */
  lemma LeftmostIs(s: string, p0: nat, g: nat)
    requires p0 <= |s| && MatchAt(s, p0) == Some(g)
    requires forall p :: 0 <= p < p0 ==> MatchAt(s, p).None?
    ensures Match(s) == Some(g)
  {
  }

  /** Neither "youtube.com/" nor "youtu.be/" can start where there is no
      'y'. */
  lemma NoMatchWithoutY(s: string, p: nat)
    requires p < |s| && s[p] != 'y'
    ensures MatchAt(s, p).None?
  {
    StartsAtChar(s, p, "youtube.com/", 0);
    StartsAtChar(s, p, "youtu.be/", 0);
  }

  lemma NoEarlierMatch(s: string, n: nat)
    requires n <= |s|
    requires forall k :: 0 <= k < n ==> s[k] != 'y'
    ensures forall p :: 0 <= p < n ==> MatchAt(s, p).None?
  {
    forall p | 0 <= p < n ensures MatchAt(s, p).None? {
      NoMatchWithoutY(s, p);
    }
  }

  /** An id is free of the characters that end it. */
  lemma IdHasNoSeparators(id: string, k: int)
    requires IsVideoId(id) && 0 <= k < |id|
    ensures id[k] != '/' && id[k] != '?' && id[k] != '&' && !IsLineTerminator(id[k])
  {
  }

  /** "https://youtu.be/ID…": the eleven characters after the host are the
      id, whatever follows them. */
  lemma ShortLink(id: string, rest: string)
    requires IsVideoId(id)
    ensures EmbedUrl("https://youtu.be/" + id + rest) == EmbedPrefix + id
  {
    var pre := "https://youtu.be/";
    var s := pre + id + rest;
    assert s[..17] == pre;
    assert s[17..28] == id;
    assert forall k :: 0 <= k < 8 ==> s[k] == pre[k];
    assert HasYouTubeHost(s) by {
      assert StartsAt(s, 8, "youtu.be") by { assert s[8..16] == pre[8..16]; }
    }
    NoEarlierMatch(s, 8);
    ShortHostAt8(s, id);
    LeftmostIs(s, 8, 17);
    assert EmbedUrl(s) == EmbedPrefix + s[17..28];
  }

  /** After "https://youtu.be/" the short-link alternative captures the id. */
  lemma ShortHostAt8(s: string, id: string)
    requires IsVideoId(id) && |s| >= 28
    requires s[..17] == "https://youtu.be/" && s[17..28] == id
    ensures MatchAt(s, 8) == Some(17)
  {
    var pre := "https://youtu.be/";
    assert StartsAt(s, 8, "youtu.be/") by { assert s[8..17] == pre[8..17]; }
    StartsAtChar(s, 8, "youtube.com/", 5);
    assert s[13] == s[..17][13] == '.';
    assert IdAt(s, 17) by {
      forall k | 17 <= k < 28 ensures IsIdChar(s[k]) { assert s[k] == id[k - 17]; }
    }
  }

  /** Facts shared by the "https://www.youtube.com/…" shapes. */
  lemma HostAt12(s: string, pre: string, id: string)
    requires IsVideoId(id) && |pre| >= 24 && pre[..24] == "https://www.youtube.com/"
    requires s == pre + id
    ensures forall p :: 0 <= p < 12 ==> MatchAt(s, p).None?
    ensures StartsAt(s, 12, "youtube.com/")
    ensures Contains(s, "youtube.com")
    ensures HasYouTubeHost(s)
    ensures forall k :: |pre| <= k < |s| ==> s[k] == id[k - |pre|]
    ensures IdAt(s, |pre|)
    ensures LineEnd(s, |pre|) == |s|
  {
    assert s[..24] == "https://www.youtube.com/";
    assert forall k :: 0 <= k < 12 ==> s[k] == s[..24][k];
    NoEarlierMatch(s, 12);
    assert s[12..24] == s[..24][12..24];
    assert StartsAt(s, 12, "youtube.com") by { assert s[12..23] == s[..24][12..23]; }
    assert forall k :: |pre| <= k < |s| ==> s[k] == id[k - |pre|];
    forall k | |pre| <= k < |s| ensures !IsLineTerminator(s[k]) {
      IdHasNoSeparators(id, k - |pre|);
    }
  }

  /** "https://www.youtube.com/embed/ID" */
  lemma EmbedLink(id: string)
    requires IsVideoId(id)
    ensures EmbedUrl("https://www.youtube.com/embed/" + id) == EmbedPrefix + id
  {
    var pre := "https://www.youtube.com/embed/";
    var s := pre + id;
    HostAt12(s, pre, id);
    assert s[24..30] == "embed/";
    assert NextSlash(s, 24) == 29 by {
      assert forall k :: 24 <= k < 29 ==> s[k] == pre[k];
      assert s[29] == '/';
    }
    forall j | 31 <= j < |s| ensures s[j] != '/' {
      IdHasNoSeparators(id, j - 30);
    }
    assert SegmentsMatch(s, 24).None?;
    assert StartsAt(s, 24, "embed/");
    assert s[24] == 'e';
    StartsAtChar(s, 24, "v/", 0);
    assert PathMatch(s, 24) == Some(30);
    assert MatchAt(s, 12) == Some(30);
    LeftmostIs(s, 12, 30);
    assert s[30..41] == id;
  }

  /** "https://www.youtube.com/v/ID" */
  lemma VLink(id: string)
    requires IsVideoId(id)
    ensures EmbedUrl("https://www.youtube.com/v/" + id) == EmbedPrefix + id
  {
    var pre := "https://www.youtube.com/v/";
    var s := pre + id;
    HostAt12(s, pre, id);
    assert s[24..26] == "v/";
    assert NextSlash(s, 24) == 25 by {
      assert s[24] == 'v' && s[25] == '/';
    }
    forall j | 27 <= j < |s| ensures s[j] != '/' {
      IdHasNoSeparators(id, j - 26);
    }
    assert SegmentsMatch(s, 24).None?;
    assert PathMatch(s, 24) == Some(26);
    assert MatchAt(s, 12) == Some(26);
    LeftmostIs(s, 12, 26);
    assert s[26..37] == id;
  }

  /** Any "https://www.youtube.com/…?v=ID" or "…&v=ID" whose path has no
      further slash, such as ".../view?v=ID" or ".../embed?v=ID": without a
      slash neither the segments nor the `v/`, `embed/`, `e/` alternative
      fits, so the query alternative decides. */
  lemma QueryLink(pre: string, id: string)
    requires IsVideoId(id)
    requires |pre| >= 27 && pre[..24] == "https://www.youtube.com/"
    requires forall k :: 24 <= k < |pre| ==> pre[k] != '/' && !IsLineTerminator(pre[k])
    requires QueryVAt(pre, |pre| - 3)
    ensures EmbedUrl(pre + id) == EmbedPrefix + id
  {
    var s := pre + id;
    var n := |pre|;
    HostAt12(s, pre, id);
    forall k | 24 <= k < |s| ensures s[k] != '/' {
      if k < n {
        assert s[k] == pre[k];
      } else {
        IdHasNoSeparators(id, k - n);
      }
    }
    NoSlashLeavesQuery(s);
    LastQueryIsBeforeId(pre, id);
    assert MatchAt(s, 12) == Some(n);
    LeftmostIs(s, 12, n);
    assert s[n..n + 11] == id;
  }

  /** With no slash after "youtube.com/", neither the segments nor a path
      alternative can match there. */
  lemma NoSlashLeavesQuery(s: string)
    requires |s| >= 30
    requires forall k :: 24 <= k < |s| ==> s[k] != '/'
    ensures SegmentsMatch(s, 24).None? && PathMatch(s, 24).None?
  {
    assert NextSlash(s, 24) == |s|;
    StartsAtChar(s, 24, "v/", 1);
    StartsAtChar(s, 24, "embed/", 5);
    StartsAtChar(s, 24, "e/", 1);
  }

  /** In `pre + id` with `pre` ending in "?v=" or "&v=", the query
      alternative takes the id right after `pre`. */
  lemma LastQueryIsBeforeId(pre: string, id: string)
    requires IsVideoId(id)
    requires |pre| >= 27
    requires forall k :: 24 <= k < |pre| ==> !IsLineTerminator(pre[k])
    requires QueryVAt(pre, |pre| - 3)
    ensures QueryMatch(pre + id, 24) == Some(|pre|)
  {
    var s := pre + id;
    var n := |pre|;
    forall j | n <= j < |s| ensures s[j] != '/' && s[j] != '?' && s[j] != '&' {
      IdHasNoSeparators(id, j - n);
    }
    assert IdAt(s, n);
    assert LineEnd(s, 24) == |s| by {
      assert forall k :: 24 <= k < n ==> !IsLineTerminator(s[k]);
    }
    assert QueryVAt(s, n - 3) by {
      assert s[n - 3..n] == pre[n - 3..n];
    }
    forall k | n - 3 < k < |s| ensures !QueryVAt(s, k) {
      StartsAtChar(s, k, "?v=", 0);
      StartsAtChar(s, k, "&v=", 0);
      StartsAtChar(pre, n - 3, "?v=", 1);
      StartsAtChar(pre, n - 3, "?v=", 2);
      StartsAtChar(pre, n - 3, "&v=", 1);
      StartsAtChar(pre, n - 3, "&v=", 2);
    }
  }

  /** "https://www.youtube.com/watch?v=ID" */
  lemma WatchLink(id: string)
    requires IsVideoId(id)
    ensures EmbedUrl("https://www.youtube.com/watch?v=" + id) == EmbedPrefix + id
  {
    var pre := "https://www.youtube.com/watch?v=";
    assert pre[29..32] == "?v=";
    QueryLink(pre, id);
  }

  /** "https://www.youtube.com/watch?feature=share&v=ID": the id after
      "&v=" is taken. */
  lemma WatchLinkAmpersand(id: string)
    requires IsVideoId(id)
    ensures EmbedUrl("https://www.youtube.com/watch?feature=share&v=" + id) == EmbedPrefix + id
  {
    var pre := "https://www.youtube.com/watch?feature=share&v=";
    assert pre[43..46] == "&v=";
    QueryLink(pre, id);
  }

  /** "https://www.youtube.com/embed?v=ID": "embed" without a slash is not
      the `embed/` alternative, so the query alternative takes the id. */
  lemma EmbedQueryLink(id: string)
    requires IsVideoId(id)
    ensures EmbedUrl("https://www.youtube.com/embed?v=" + id) == EmbedPrefix + id
  {
    var pre := "https://www.youtube.com/embed?v=";
    assert pre[29..32] == "?v=";
    QueryLink(pre, id);
  }

  /** "https://www.youtube.com/watch?v=A&v=B": `.*` backs off only as far
      as the last "&v=", so B is taken, not A. */
  lemma LaterQueryIdWins(a: string, b: string)
    requires IsVideoId(a) && IsVideoId(b)
    ensures EmbedUrl("https://www.youtube.com/watch?v=" + a + "&v=" + b) == EmbedPrefix + b
  {
    var pre := "https://www.youtube.com/watch?v=" + a + "&v=";
    assert "https://www.youtube.com/watch?v=" + a + "&v=" + b == pre + b;
    forall k | 24 <= k < |pre| ensures pre[k] != '/' && !IsLineTerminator(pre[k]) {
      if 32 <= k < 43 {
        assert pre[k] == a[k - 32];
        IdHasNoSeparators(a, k - 32);
      }
    }
    assert pre[43..46] == "&v=";
    QueryLink(pre, b);
  }

  /** "https://www.youtube.com/v/A/B": the segments alternative is tried
      before `v/`, and its `.+` backs off only as far as the last slash, so
      B is taken, not A. */
  lemma SegmentsBeforePath(a: string, b: string)
    requires IsVideoId(a) && IsVideoId(b)
    ensures EmbedUrl("https://www.youtube.com/v/" + a + "/" + b) == EmbedPrefix + b
  {
    var pre := "https://www.youtube.com/v/" + a + "/";
    var s := pre + b;
    assert "https://www.youtube.com/v/" + a + "/" + b == s;
    assert pre[..24] == "https://www.youtube.com/";
    HostAt12(s, pre, b);
    SegmentsAfterSecondSlash(s, a);
    LeftmostIs(s, 12, 38);
    assert s[38..49] == b;
  }

  /** In "https://www.youtube.com/v/" + A + "/" + B the match at the host
      captures B, at position 38. */
  lemma SegmentsAfterSecondSlash(s: string, a: string)
    requires IsVideoId(a) && |s| == 49 && IdAt(s, 38)
    requires StartsAt(s, 12, "youtube.com/")
    requires s[24..26] == "v/" && s[26..37] == a && s[37] == '/'
    ensures MatchAt(s, 12) == Some(38)
  {
    assert s[24] == 'v' && s[25] == '/';
    forall k | 25 < k < 37 ensures !IsLineTerminator(s[k]) {
      assert s[k] == a[k - 26];
      IdHasNoSeparators(a, k - 26);
    }
    assert SegmentsTo(s, 24, 37);
    assert SegmentsShape(s, AfterHost(12), 38);
    AlternativesInOrder(s, 12);
  }

  /** For a bare id the embed URL and the watch link carry the same
      value; for a full URL the watch link carries the whole URL. */
  lemma WatchLinkIsNotExtracted(u: string)
    ensures WatchUrl(u) == WatchPrefix + u
    ensures !HasYouTubeHost(u) ==> EmbedUrl(u)[|EmbedPrefix|..] == WatchUrl(u)[|WatchPrefix|..]
  {
  }
}
