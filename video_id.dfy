/**
 * `get_youtube_video_id`: `re.search` of the pattern
 *
 *   (?:https?://)?(?:www\.)?(?:youtube\.com/(?:[^/\n\s]+/\S+/|(?:v|e(?:mbed)?)/|\S*?[?&]v=)|youtu\.be/)([a-zA-Z0-9_-]{11})
 *
 * returning group 1. The optional scheme and `www.` never change group 1:
 * every way of matching them ends where a `youtube.com/` or `youtu.be/` begins,
 * and neither of those can begin inside them (they start with `y`, which
 * `https://www.` does not contain). So group 1 is what the rest of the
 * pattern (the "core") captures at the first position where it matches, and
 * the model searches for that position. At one position the core is tried as
 * the regex engine backtracks through it: the three `youtube.com/` forms in
 * order, then `youtu.be/`.
 */
module VideoId {
  import opened Wrappers
  import Text

  /** `[a-zA-Z0-9_-]` */
  predicate IdChar(c: char)
  {
    ('a' <= c <= 'z') || ('A' <= c <= 'Z') || ('0' <= c <= '9') || c == '_' || c == '-'
  }

  /** A string group 1 can capture: eleven characters of `[a-zA-Z0-9_-]`. */
  predicate IsVideoId(id: string)
  {
    |id| == 11 && forall k :: 0 <= k < 11 ==> IdChar(id[k])
  }

  /** `([a-zA-Z0-9_-]{11})` matches at `i`. Nothing after it is required. */
  predicate IdAt(s: string, i: nat)
  {
    i + 11 <= |s| && forall k :: i <= k < i + 11 ==> IdChar(s[k])
  }

  /** The literal `lit` occurs at `i`. */
  predicate LiteralAt(s: string, i: nat, lit: string)
  {
    i + |lit| <= |s| && s[i..i + |lit|] == lit
  }

  /** Where the greedy `[^/\n\s]+` starting at `i` stops: at the first `/` or whitespace, or the end. */
  function SegmentEnd(s: string, i: nat): (k: nat)
    requires i <= |s|
    ensures i <= k <= |s|
    ensures forall m :: i <= m < k ==> s[m] != '/' && !Text.IsSpace(s[m])
    ensures k == |s| || s[k] == '/' || Text.IsSpace(s[k])
    decreases |s| - i
  {
    if i == |s| || s[i] == '/' || Text.IsSpace(s[i]) then i else SegmentEnd(s, i + 1)
  }

  /** Where the greedy `\S+` / `\S*` starting at `i` stops: at the first whitespace, or the end. */
  function RunEnd(s: string, i: nat): (e: nat)
    requires i <= |s|
    ensures i <= e <= |s|
    ensures forall m :: i <= m < e ==> !Text.IsSpace(s[m])
    ensures e == |s| || Text.IsSpace(s[e])
    decreases |s| - i
  {
    if i == |s| || Text.IsSpace(s[i]) then i else RunEnd(s, i + 1)
  }

  /**
   * The last `/` in `[lo, hi)` followed by an ID: `\S+/` backs off from the
   * end of the run one character at a time until `/` and the ID both match.
   */
  function LastSlashBeforeId(s: string, lo: nat, hi: nat): (r: Option<nat>)
    requires hi <= |s|
    ensures r.Some? ==> lo <= r.value < hi && s[r.value] == '/' && IdAt(s, r.value + 1)
    ensures r.Some? ==> forall m :: r.value < m < hi ==> !(s[m] == '/' && IdAt(s, m + 1))
    ensures r.None? ==> forall m :: lo <= m < hi ==> !(s[m] == '/' && IdAt(s, m + 1))
    decreases hi
  {
    if hi <= lo then None
    else if s[hi - 1] == '/' && IdAt(s, hi) then Some(hi - 1)
    else LastSlashBeforeId(s, lo, hi - 1)
  }

  /** `[^/\n\s]+/\S+/` then the ID, after `youtube.com/` ending at `r`: where the ID starts. */
  function PathForm(s: string, r: nat): (g: Option<nat>)
    requires r <= |s|
    ensures g.Some? ==> r + 3 <= g.value && IdAt(s, g.value) && s[g.value - 1] == '/'
  {
    var k := SegmentEnd(s, r);
    if r < k < |s| && s[k] == '/' then
      match LastSlashBeforeId(s, k + 2, RunEnd(s, k + 1))
      case Some(m) => Some(m + 1)
      case None => None
    else None
  }

  /** `(?:v|e(?:mbed)?)/` then the ID: `v/`, then `embed/` (the greedy `(?:mbed)?` first), then `e/`. */
  function ShortForm(s: string, r: nat): (g: Option<nat>)
    ensures g.Some? ==> IdAt(s, g.value)
    ensures g.Some? ==> (g.value == r + 2 && (LiteralAt(s, r, "v/") || LiteralAt(s, r, "e/")))
                        || (g.value == r + 6 && LiteralAt(s, r, "embed/"))
  {
    if LiteralAt(s, r, "v/") && IdAt(s, r + 2) then Some(r + 2)
    else if LiteralAt(s, r, "embed/") && IdAt(s, r + 6) then Some(r + 6)
    else if LiteralAt(s, r, "e/") && IdAt(s, r + 2) then Some(r + 2)
    else None
  }

  /** `[?&]v=` then the ID matches at `u`. */
  predicate QueryMatchAt(s: string, u: nat)
  {
    u < |s| && (s[u] == '?' || s[u] == '&') && LiteralAt(s, u + 1, "v=") && IdAt(s, u + 3)
  }

  /**
   * `\S*?[?&]v=` then the ID, from `t`: the lazy `\S*?` tries the shortest
   * run first, so this is the first `?v=` or `&v=` followed by an ID before
   * any whitespace.
   */
  function QueryForm(s: string, t: nat): (g: Option<nat>)
    ensures g.Some? ==> t + 3 <= g.value && QueryMatchAt(s, g.value - 3)
    ensures g.Some? ==> forall u :: t <= u < g.value - 3 ==> !QueryMatchAt(s, u) && !Text.IsSpace(s[u])
    ensures g.None? && t <= |s| ==> forall u :: t <= u < RunEnd(s, t) ==> !QueryMatchAt(s, u)
    decreases |s| - t
  {
    if t >= |s| then None
    else if QueryMatchAt(s, t) then Some(t + 3)
    else if Text.IsSpace(s[t]) then None
    else QueryForm(s, t + 1)
  }

  /** Where the core captures the ID when it matches at `q`. */
  function CoreAt(s: string, q: nat): (g: Option<nat>)
    ensures g.Some? ==> q < g.value && IdAt(s, g.value)
    ensures g.Some? ==> s[q] == 'y'
  {
    if LiteralAt(s, q, "youtube.com/") then
      assert s[q] == "youtube.com/"[0];
      var r := q + 12;
      match PathForm(s, r)
      case Some(g) => Some(g)
      case None =>
        match ShortForm(s, r)
        case Some(g) => Some(g)
        case None => QueryForm(s, r)
    else if LiteralAt(s, q, "youtu.be/") && IdAt(s, q + 9) then
      assert s[q] == "youtu.be/"[0];
      Some(q + 9)
    else None
  }

  /** The first position at or after `q` where the core matches, with where its ID starts. */
  function FirstCore(s: string, q: nat): (r: Option<(nat, nat)>)
    requires q <= |s|
    ensures r.Some? ==> q <= r.value.0 < |s| && CoreAt(s, r.value.0) == Some(r.value.1)
    ensures r.Some? ==> forall p :: q <= p < r.value.0 ==> CoreAt(s, p).None?
    ensures r.None? ==> forall p :: q <= p < |s| ==> CoreAt(s, p).None?
    decreases |s| - q
  {
    if q == |s| then None
    else match CoreAt(s, q)
      case Some(g) => Some((q, g))
      case None => FirstCore(s, q + 1)
  }

  /**
   * `get_youtube_video_id(url)`: an ID of eleven `[a-zA-Z0-9_-]` characters
   * taken from the URL, captured by the core's first match; `None` when the
   * core matches nowhere.
   */
  function GetVideoId(url: string): (r: Option<string>)
    ensures r.Some? ==> IsVideoId(r.value)
  {
    match FirstCore(url, 0)
    case Some((q, g)) => Some(url[g..g + 11])
    case None => None
  }

  /**
   * The ID returned is the one captured at the first position where the
   * core matches, and there is none exactly when the core matches nowhere.
   */
  lemma GetVideoIdIsFirstMatch(url: string)
    ensures GetVideoId(url).Some? ==>
              exists q, g :: 0 <= q < g && g + 11 <= |url| && CoreAt(url, q) == Some(g)
                && (forall p :: 0 <= p < q ==> CoreAt(url, p).None?)
                && GetVideoId(url).value == url[g..g + 11]
    ensures GetVideoId(url).None? <==> forall p :: 0 <= p < |url| ==> CoreAt(url, p).None?
  {
    match FirstCore(url, 0) {
      case Some((q, g)) =>
        assert CoreAt(url, q) == Some(g);
      case None =>
    }
  }

  // ---- the URL forms the service is given ----

  /** At a position holding neither of the two core literals' first letter, the core does not match. */
  lemma NoCoreWithoutY(s: string, q: nat)
    requires q < |s| && s[q] != 'y'
    ensures CoreAt(s, q).None?
  {
  }

  lemma NoCoreInPrefix(prefix: string, rest: string)
    requires forall k :: 0 <= k < |prefix| ==> prefix[k] != 'y'
    ensures forall p :: 0 <= p < |prefix| ==> CoreAt(prefix + rest, p).None?
  {
    var s := prefix + rest;
    forall p | 0 <= p < |prefix|
      ensures CoreAt(s, p).None?
    {
      assert s[p] == prefix[p];
      NoCoreWithoutY(s, p);
    }
  }

  lemma {:induction false} FirstCoreAt(s: string, q: nat, g: nat)
    requires q < |s| && CoreAt(s, q) == Some(g)
    requires forall p :: 0 <= p < q ==> CoreAt(s, p).None?
    ensures GetVideoId(s) == Some(s[g..g + 11])
  {
    FirstCoreFrom(s, 0, q, g);
    GetVideoIdOfFirst(s, q, g);
  }

  lemma GetVideoIdOfFirst(s: string, q: nat, g: nat)
    requires FirstCore(s, 0) == Some((q, g))
    ensures GetVideoId(s) == Some(s[g..g + 11])
  {
  }

  /** Scanning from `p`, the search passes every position before `q` and stops at `q`. */
  lemma {:induction false} FirstCoreFrom(s: string, p: nat, q: nat, g: nat)
    requires p <= q < |s| && CoreAt(s, q) == Some(g)
    requires forall k :: p <= k < q ==> CoreAt(s, k).None?
    ensures FirstCore(s, p) == Some((q, g))
    decreases q - p
  {
    if p < q {
      FirstCoreFrom(s, p + 1, q, g);
    }
  }

  /** The text after a prefix is what was appended to it. */
  lemma IdAfter(prefix: string, id: string)
    ensures (prefix + id)[|prefix|..|prefix| + |id|] == id
  {
  }

  /** `https://www.youtube.com/watch?v=<id>` gives back `<id>`. */
  lemma WatchUrlRoundTrip(id: string)
    requires IsVideoId(id)
    ensures GetVideoId("https://www.youtube.com/watch?v=" + id) == Some(id)
  {
    var prefix, literal := "https://www.", "youtube.com/watch?v=";
    var s := prefix + (literal + id);
    Text.AppendAssoc(prefix, literal, id);
    assert prefix + literal == "https://www.youtube.com/watch?v=";
    NoCoreInPrefix(prefix, literal + id);
    WatchCore(s, id);
    FirstCoreAt(s, 12, 32);
    IdAfter(prefix + literal, id);
  }

  lemma WatchCore(s: string, id: string)
    requires IsVideoId(id) && s == "https://www.youtube.com/watch?v=" + id
    ensures CoreAt(s, 12) == Some(32)
  {
    WatchHost(s, id);
    WatchNoPath(s, id);
    WatchNoShort(s, id);
    WatchQuery(s, id);
    CoreByLaterForm(s, 12);
  }

  lemma WatchHost(s: string, id: string)
    requires IsVideoId(id) && s == "https://www.youtube.com/watch?v=" + id
    ensures LiteralAt(s, 12, "youtube.com/")
  {
    assert s[..32] == "https://www.youtube.com/watch?v=";
    assert s[12..24] == s[..32][12..24];
  }

  lemma WatchNoShort(s: string, id: string)
    requires IsVideoId(id) && s == "https://www.youtube.com/watch?v=" + id
    ensures ShortForm(s, 24).None?
  {
    assert s[24] == 'w';
  }

  lemma WatchNoPath(s: string, id: string)
    requires IsVideoId(id) && s == "https://www.youtube.com/watch?v=" + id
    ensures PathForm(s, 24).None?
  {
    assert forall m :: 24 <= m < |s| ==> s[m] != '/' by {
      forall m | 32 <= m < |s|
        ensures s[m] != '/'
      {
        assert s[m] == id[m - 32];
      }
    }
  }

  lemma WatchQuery(s: string, id: string)
    requires IsVideoId(id) && s == "https://www.youtube.com/watch?v=" + id
    ensures QueryForm(s, 24) == Some(32)
  {
    assert IdAt(s, 32) by {
      assert forall k :: 32 <= k < 43 ==> s[k] == id[k - 32];
    }
    assert s[24..32] == "watch?v=" by {
      assert s[..32] == "https://www.youtube.com/watch?v=";
      assert s[24..32] == s[..32][24..32];
    }
    QueryHit(s, 29);
    QueryStep(s, 28, 32);
    QueryStep(s, 27, 32);
    QueryStep(s, 26, 32);
    QueryStep(s, 25, 32);
    QueryStep(s, 24, 32);
  }

  /** The query form matches where `?v=` or `&v=` is followed by an ID. */
  lemma QueryHit(s: string, t: nat)
    requires t < |s| && (s[t] == '?' || s[t] == '&') && LiteralAt(s, t + 1, "v=") && IdAt(s, t + 3)
    ensures QueryForm(s, t) == Some(t + 3)
  {
  }

  /** The lazy `\S*?` passes over a character that is neither whitespace nor the start of a query parameter. */
  lemma QueryStep(s: string, t: nat, g: nat)
    requires t < |s| && s[t] != '?' && s[t] != '&' && !Text.IsSpace(s[t]) && QueryForm(s, t + 1) == Some(g)
    ensures QueryForm(s, t) == Some(g)
  {
  }

  /** `https://youtu.be/<id>` gives back `<id>`. */
  lemma ShortLinkRoundTrip(id: string)
    requires IsVideoId(id)
    ensures GetVideoId("https://youtu.be/" + id) == Some(id)
  {
    var prefix := "https://";
    var s := "https://youtu.be/" + id;
    assert s == prefix + ("youtu.be/" + id);
    NoCoreInPrefix(prefix, "youtu.be/" + id);
    assert forall k :: 17 <= k < 28 ==> s[k] == id[k - 17];
    assert !LiteralAt(s, 8, "youtube.com/") by {
      assert s[13] == '.';
    }
    assert LiteralAt(s, 8, "youtu.be/") by {
      assert s[8..17] == "youtu.be/";
    }
    FirstCoreAt(s, 8, 17);
    assert s[17..28] == id;
  }

  /** `https://www.youtube.com/embed/<id>` gives back `<id>`. */
  lemma EmbedUrlRoundTrip(id: string)
    requires IsVideoId(id)
    ensures GetVideoId("https://www.youtube.com/embed/" + id) == Some(id)
  {
    var prefix, literal := "https://www.", "youtube.com/embed/";
    var s := prefix + (literal + id);
    Text.AppendAssoc(prefix, literal, id);
    assert prefix + literal == "https://www.youtube.com/embed/";
    NoCoreInPrefix(prefix, literal + id);
    EmbedCore(s, id);
    FirstCoreAt(s, 12, 30);
    IdAfter(prefix + literal, id);
  }

  lemma EmbedCore(s: string, id: string)
    requires IsVideoId(id) && s == "https://www.youtube.com/embed/" + id
    ensures CoreAt(s, 12) == Some(30)
  {
    EmbedHost(s, id);
    EmbedNoPath(s, id);
    EmbedShort(s, id);
    CoreByLaterForm(s, 12);
  }

  lemma EmbedHost(s: string, id: string)
    requires IsVideoId(id) && s == "https://www.youtube.com/embed/" + id
    ensures LiteralAt(s, 12, "youtube.com/")
  {
    assert s[12..24] == "youtube.com/";
  }

  lemma EmbedShort(s: string, id: string)
    requires IsVideoId(id) && s == "https://www.youtube.com/embed/" + id
    ensures ShortForm(s, 24) == Some(30)
  {
    assert IdAt(s, 30) by {
      assert forall k :: 30 <= k < 41 ==> s[k] == id[k - 30];
    }
    assert s[24..30] == "embed/";
    assert s[24] == 'e';
  }

  /** After `youtube.com/`, when the path form fails the short form decides, and when that fails too the query form does. */
  lemma CoreByLaterForm(s: string, q: nat)
    requires LiteralAt(s, q, "youtube.com/") && PathForm(s, q + 12).None?
    ensures ShortForm(s, q + 12).Some? ==> CoreAt(s, q) == ShortForm(s, q + 12)
    ensures ShortForm(s, q + 12).None? ==> CoreAt(s, q) == QueryForm(s, q + 12)
  {
  }

  lemma EmbedNoPath(s: string, id: string)
    requires IsVideoId(id) && s == "https://www.youtube.com/embed/" + id
    ensures PathForm(s, 24).None?
  {
    assert SegmentEnd(s, 24) == 29 by {
      assert s[29] == '/';
      assert forall m :: 24 <= m < 29 ==> s[m] != '/' && !Text.IsSpace(s[m]);
    }
    forall m | 31 <= m < |s|
      ensures s[m] != '/'
    {
      assert s[m] == id[m - 30];
    }
  }
}
