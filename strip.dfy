/** Layout of the icon strip: the width the tray asks of the bar, and the
    rectangle each icon is placed in, left to right in registry order. */
module Strip {

  datatype Rect = Rect(x: int, y: int, width: int, height: int)

  function Sum(ws: seq<int>): int
  {
    if ws == [] then 0 else Sum(ws[..|ws| - 1]) + ws[|ws| - 1]
  }

  /** The horizontal extent of icons of widths `ws`, each followed by
      `padding`: the sum of (width + padding) over the icons. */
  function Span(ws: seq<int>, padding: int): int
  {
    if ws == [] then 0 else Span(ws[..|ws| - 1], padding) + ws[|ws| - 1] + padding
  }

  /** The extent is the sum of widths plus padding once per icon, which is
      how the widget computes its width. */
  lemma {:induction false} SpanIsSumPlusPadding(ws: seq<int>, padding: int)
    ensures Span(ws, padding) == Sum(ws) + padding * |ws|
  {
    if ws != [] {
      SpanIsSumPlusPadding(ws[..|ws| - 1], padding);
    }
  }

  lemma {:induction false} SpanConcat(a: seq<int>, b: seq<int>, padding: int)
    ensures Span(a + b, padding) == Span(a, padding) + Span(b, padding)
  {
    if b == [] {
      assert a + b == a;
    } else {
      assert (a + b)[..|a + b| - 1] == a + b[..|b| - 1];
      SpanConcat(a, b[..|b| - 1], padding);
    }
  }

  lemma SpanAppend(ws: seq<int>, w: int, padding: int)
    ensures Span(ws + [w], padding) == Span(ws, padding) + w + padding
  {
    assert (ws + [w])[..|ws|] == ws;
  }

  /** Removing the icon at position i shrinks the extent by its width and
      one padding. */
  lemma SpanRemoveAt(ws: seq<int>, i: nat, padding: int)
    requires i < |ws|
    ensures Span(ws[..i] + ws[i + 1..], padding) == Span(ws, padding) - ws[i] - padding
  {
    assert ws == ws[..i] + [ws[i]] + ws[i + 1..];
    SpanConcat(ws[..i], ws[i + 1..], padding);
    SpanConcat(ws[..i] + [ws[i]], ws[i + 1..], padding);
    SpanAppend(ws[..i], ws[i], padding);
  }

  /** Changing the width of the icon at position i changes the extent by the
      difference of the widths. */
  lemma SpanReplaceAt(ws: seq<int>, i: nat, w: int, padding: int)
    requires i < |ws|
    ensures Span(ws[i := w], padding) == Span(ws, padding) - ws[i] + w
  {
    assert ws == ws[..i] + [ws[i]] + ws[i + 1..];
    assert ws[i := w] == ws[..i] + [w] + ws[i + 1..];
    SpanConcat(ws[..i] + [ws[i]], ws[i + 1..], padding);
    SpanConcat(ws[..i] + [w], ws[i + 1..], padding);
    SpanAppend(ws[..i], ws[i], padding);
    SpanAppend(ws[..i], w, padding);
  }

  /** The reference layout: icon k, of width ws[k], sits at
      x = offset + padding + Span(ws[..k], padding), vertically centred on the
      bar, `iconSize` tall. */
  function Layout(ws: seq<int>, offset: int, padding: int, iconSize: int, barHeight: int)
    : (r: seq<Rect>)
    ensures |r| == |ws|
  {
    seq(|ws|, k requires 0 <= k < |ws| =>
      Rect(offset + padding + Span(ws[..k], padding), barHeight / 2 - iconSize / 2, ws[k], iconSize))
  }

  /** One more icon extends the layout by one rectangle placed one padding
      after the extent of the icons before it; the earlier rectangles stay. */
  lemma LayoutSnoc(ws: seq<int>, w: int, offset: int, padding: int, iconSize: int, barHeight: int)
    ensures Layout(ws + [w], offset, padding, iconSize, barHeight)
         == Layout(ws, offset, padding, iconSize, barHeight)
            + [Rect(offset + padding + Span(ws, padding), barHeight / 2 - iconSize / 2, w, iconSize)]
  {
    var ext := ws + [w];
    forall k | 0 <= k < |ws|
      ensures ext[..k] == ws[..k]
    {
    }
    assert ext[..|ws|] == ws;
  }

  /** The first icon starts one padding after the offset; each next icon starts
      one padding after the previous one ends; every icon keeps its own width,
      the icon size as height, and the same centred y. */
  lemma LayoutSteps(ws: seq<int>, offset: int, padding: int, iconSize: int, barHeight: int)
    ensures var r := Layout(ws, offset, padding, iconSize, barHeight);
      && (|r| > 0 ==> r[0].x == offset + padding)
      && (forall k :: 0 <= k < |r| ==>
            r[k].width == ws[k] && r[k].height == iconSize
            && r[k].y == barHeight / 2 - iconSize / 2)
      && (forall k :: 0 <= k < |r| - 1 ==> r[k + 1].x == r[k].x + r[k].width + padding)
  {
    var r := Layout(ws, offset, padding, iconSize, barHeight);
    if |r| > 0 {
      assert ws[..0] == [];
    }
    forall k | 0 <= k < |r| - 1
      ensures r[k + 1].x == r[k].x + r[k].width + padding
    {
      assert ws[..k + 1] == ws[..k] + [ws[k]];
      SpanAppend(ws[..k], ws[k], padding);
    }
  }

  /** With non-negative padding and widths, an icon ends (plus padding) before
      any later icon starts, so no two icons overlap. */
  lemma {:induction false} LayoutDisjoint(ws: seq<int>, offset: int, padding: int, iconSize: int,
                                          barHeight: int, i: nat, j: nat)
    requires padding >= 0 && forall k :: 0 <= k < |ws| ==> ws[k] >= 0
    requires i < j < |ws|
    ensures var r := Layout(ws, offset, padding, iconSize, barHeight);
      r[i].x + r[i].width + padding <= r[j].x
  {
    var r := Layout(ws, offset, padding, iconSize, barHeight);
    LayoutSteps(ws, offset, padding, iconSize, barHeight);
    if j > i + 1 {
      LayoutDisjoint(ws, offset, padding, iconSize, barHeight, i, j - 1);
    }
  }

  /** The last icon ends exactly at offset + Span(ws, padding): the strip
      fills the width the widget reserves. */
  lemma LayoutEndsAtSpan(ws: seq<int>, offset: int, padding: int, iconSize: int, barHeight: int)
    requires |ws| > 0
    ensures var r := Layout(ws, offset, padding, iconSize, barHeight);
      r[|ws| - 1].x + r[|ws| - 1].width == offset + Span(ws, padding)
  {
    var n := |ws|;
    assert ws == ws[..n - 1] + [ws[n - 1]];
    SpanAppend(ws[..n - 1], ws[n - 1], padding);
  }

  /** With non-negative padding and widths, every icon lies inside the
      region [offset, offset + Span(ws, padding)] reserved for the strip. */
  lemma LayoutWithinSpan(ws: seq<int>, offset: int, padding: int, iconSize: int, barHeight: int,
                         k: nat)
    requires padding >= 0 && forall j :: 0 <= j < |ws| ==> ws[j] >= 0
    requires k < |ws|
    ensures var r := Layout(ws, offset, padding, iconSize, barHeight);
      offset <= r[k].x && r[k].x + r[k].width <= offset + Span(ws, padding)
  {
    var n := |ws|;
    SpanNonNegative(ws[..k], padding);
    LayoutEndsAtSpan(ws, offset, padding, iconSize, barHeight);
    if k < n - 1 {
      LayoutDisjoint(ws, offset, padding, iconSize, barHeight, k, n - 1);
    }
  }

  lemma {:induction false} SpanNonNegative(ws: seq<int>, padding: int)
    requires padding >= 0 && forall j :: 0 <= j < |ws| ==> ws[j] >= 0
    ensures Span(ws, padding) >= 0
  {
    if ws != [] {
      SpanNonNegative(ws[..|ws| - 1], padding);
    }
  }
}
