/** The monitor query of query_xrandr (sinwm.c:334-381) as values: which
    CRTCs become monitors, and the bounding size of the virtual screen. */
module Topology {
  import opened Common
  import opened Geometry

  /** The part of a CRTC info reply the query reads. */
  datatype CrtcInfo = CrtcInfo(mode: nat, x: int, y: int, width: int, height: int)

  /** XCB_NONE as a mode. */
  const MODE_NONE: nat := 0

  /** A CRTC with a reply, a mode and a positive size drives a monitor. */
  predicate Usable(c: Option<CrtcInfo>) {
    c.Some? && c.value.mode != MODE_NONE && c.value.width > 0 && c.value.height > 0
  }

  function AsMonitor(index: int, c: CrtcInfo): Monitor {
    Monitor(index, c.x, c.y, c.width, c.height)
  }

  /** The usable CRTCs as monitors, in CRTC order, each tagged with its CRTC
      index. */
  function ActiveMonitors(crtcs: seq<Option<CrtcInfo>>): (ms: seq<Monitor>)
    ensures |ms| <= |crtcs|
  {
    if |crtcs| == 0 then []
    else
      var n := |crtcs| - 1;
      if Usable(crtcs[n]) then ActiveMonitors(crtcs[..n]) + [AsMonitor(n, crtcs[n].value)]
      else ActiveMonitors(crtcs[..n])
  }

  /** ActiveMonitors over one more CRTC. */
  lemma ActiveMonitorsSnoc(crtcs: seq<Option<CrtcInfo>>, i: nat)
    requires i < |crtcs|
    ensures ActiveMonitors(crtcs[..i + 1])
            == if Usable(crtcs[i]) then ActiveMonitors(crtcs[..i]) + [AsMonitor(i, crtcs[i].value)]
               else ActiveMonitors(crtcs[..i])
  {
    assert crtcs[..i + 1][..i] == crtcs[..i];
  }

  /** Every monitor comes from a usable CRTC, carries that CRTC's index and
      geometry, and the monitors are in increasing CRTC order. */
  ghost predicate FromUsableCrtcs(crtcs: seq<Option<CrtcInfo>>, ms: seq<Monitor>) {
    && (forall k :: 0 <= k < |ms| ==>
          0 <= ms[k].id < |crtcs| && Usable(crtcs[ms[k].id]) && ms[k] == AsMonitor(ms[k].id, crtcs[ms[k].id].value))
    && (forall k, l :: 0 <= k < l < |ms| ==> ms[k].id < ms[l].id)
  }

  /** The filter only keeps usable CRTCs, tagged and ordered by index. */
  lemma {:induction false} ActiveMonitorsSound(crtcs: seq<Option<CrtcInfo>>)
    ensures FromUsableCrtcs(crtcs, ActiveMonitors(crtcs))
  {
    if |crtcs| > 0 {
      var n := |crtcs| - 1;
      ActiveMonitorsSound(crtcs[..n]);
      var prefix := ActiveMonitors(crtcs[..n]);
      forall k | 0 <= k < |prefix|
        ensures crtcs[prefix[k].id] == crtcs[..n][prefix[k].id]
      {
      }
    }
  }

  /** No usable CRTC is left out. */
  lemma {:induction false} ActiveMonitorsComplete(crtcs: seq<Option<CrtcInfo>>, i: int)
    requires 0 <= i < |crtcs| && Usable(crtcs[i])
    ensures exists k :: 0 <= k < |ActiveMonitors(crtcs)| && ActiveMonitors(crtcs)[k] == AsMonitor(i, crtcs[i].value)
  {
    var n := |crtcs| - 1;
    var ms := ActiveMonitors(crtcs);
    if i == n {
      assert ms[|ms| - 1] == AsMonitor(i, crtcs[i].value);
    } else {
      assert crtcs[..n][i] == crtcs[i];
      ActiveMonitorsComplete(crtcs[..n], i);
      var k :| 0 <= k < |ActiveMonitors(crtcs[..n])| && ActiveMonitors(crtcs[..n])[k] == AsMonitor(i, crtcs[i].value);
      assert ms[k] == ActiveMonitors(crtcs[..n])[k];
    }
  }

  /** At most `n` monitors are kept: later ones are dropped. */
  function Truncate(ms: seq<Monitor>, n: nat): (r: seq<Monitor>)
    ensures |r| == if |ms| <= n then |ms| else n
    ensures r == ms[..|r|]
    ensures |ms| <= n ==> r == ms
  {
    if |ms| <= n then ms else ms[..n]
  }

  /** The monitor list a successful query leaves behind. */
  function QueriedMonitors(crtcs: seq<Option<CrtcInfo>>): seq<Monitor> {
    Truncate(ActiveMonitors(crtcs), MAX_MONITORS)
  }

  /** total_width: the largest right edge, and 0 for no monitor. */
  function TotalWidth(ms: seq<Monitor>): (w: int)
    ensures w >= 0
  {
    if |ms| == 0 then 0
    else
      var last := ms[|ms| - 1];
      var w := TotalWidth(ms[..|ms| - 1]);
      if last.x + last.width > w then last.x + last.width else w
  }

  /** total_height: the largest bottom edge, and 0 for no monitor. */
  function TotalHeight(ms: seq<Monitor>): (h: int)
    ensures h >= 0
  {
    if |ms| == 0 then 0
    else
      var last := ms[|ms| - 1];
      var h := TotalHeight(ms[..|ms| - 1]);
      if last.y + last.height > h then last.y + last.height else h
  }

  /** The totals bound every monitor's right and bottom edge, and each is 0
      or reached by some monitor. */
  lemma {:induction false} TotalsBoundMonitors(ms: seq<Monitor>)
    ensures forall m <- ms :: m.x + m.width <= TotalWidth(ms) && m.y + m.height <= TotalHeight(ms)
    ensures TotalWidth(ms) == 0 || exists m <- ms :: m.x + m.width == TotalWidth(ms)
    ensures TotalHeight(ms) == 0 || exists m <- ms :: m.y + m.height == TotalHeight(ms)
  {
    if |ms| > 0 {
      var prefix := ms[..|ms| - 1];
      TotalsBoundMonitors(prefix);
      assert ms == prefix + [ms[|ms| - 1]];
    }
  }

  /** The totals over one more monitor. */
  lemma TotalsSnoc(ms: seq<Monitor>, k: nat)
    requires k < |ms|
    ensures TotalWidth(ms[..k + 1]) == if ms[k].x + ms[k].width > TotalWidth(ms[..k]) then ms[k].x + ms[k].width else TotalWidth(ms[..k])
    ensures TotalHeight(ms[..k + 1]) == if ms[k].y + ms[k].height > TotalHeight(ms[..k]) then ms[k].y + ms[k].height else TotalHeight(ms[..k])
  {
    assert ms[..k + 1][..k] == ms[..k];
  }

  /** Keeping one more monitor extends the list only while there is room. */
  lemma TruncateAppend(ms: seq<Monitor>, m: Monitor, n: nat)
    ensures Truncate(ms + [m], n) == if |ms| < n then Truncate(ms, n) + [m] else Truncate(ms, n)
  {
    if |ms| >= n {
      assert (ms + [m])[..n] == ms[..n];
    }
  }

  /** The sentinel span covers every monitor when the totals are the ones the
      query computed. */
  lemma WholeScreenCoversMonitors(xs: Span, ms: seq<Monitor>)
    requires IsSentinel(xs)
    ensures var r := CalculateFullscreenGeometry(xs, ms, TotalWidth(ms), TotalHeight(ms));
            && r.Some? && r.value.x1 == 0 && r.value.y1 == 0
            && forall m <- ms :: m.x + m.width <= r.value.x2 && m.y + m.height <= r.value.y2
  {
    TotalsBoundMonitors(ms);
  }
}
