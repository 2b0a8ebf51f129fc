/** Negotiation of a tray icon's size from the minimum size its client asks
    for in its size hints, capped on the height axis by the tray's icon size. */
module Geometry {
  import opened Results

  datatype Size = Size(width: int, height: int)

  /** The size an icon takes after a ConfigureNotify. `hints` is the client's
      (min_width, min_height), or None when the hints lack either key. A hint
      taller than `iconSize` is scaled down to `iconSize`, keeping the aspect
      ratio with floor division; a height that ends up not positive falls back
      to a square of `iconSize`. The width is never capped. */
  function Negotiate(iconSize: nat, hints: Option<Size>): (r: Size)
    ensures iconSize > 0 ==> 0 < r.height <= iconSize
    ensures iconSize == 0 ==> r == Size(0, 0)
  {
    var asked := match hints
      case None => Size(iconSize, iconSize)
      case Some(s) => s;
    var scaled := if asked.height > iconSize
      then Size(asked.width * iconSize / asked.height, iconSize)
      else asked;
    if scaled.height <= 0 then Size(iconSize, iconSize) else scaled
  }

  /** Missing hints, or a hint height that is not positive, give a square of
      the icon size; hints whose height already fits are kept as they are. */
  lemma NegotiateFallbacks(iconSize: nat, hints: Option<Size>)
    ensures hints.None? ==> Negotiate(iconSize, hints) == Size(iconSize, iconSize)
    ensures hints.Some? && hints.value.height <= 0 ==>
      Negotiate(iconSize, hints) == Size(iconSize, iconSize)
    ensures hints.Some? && 0 < hints.value.height <= iconSize ==>
      Negotiate(iconSize, hints) == hints.value
  {
  }

  /** A hint taller than the icon size is scaled to exactly the icon size in
      height, and its width is the floor of the width scaled by the same
      ratio: width * height' <= min_width * iconSize < (width + 1) * height'
      with height' = min_height. */
  lemma NegotiateKeepsAspect(iconSize: nat, w: int, h: int)
    requires h > iconSize > 0
    ensures var r := Negotiate(iconSize, Some(Size(w, h)));
      && r.height == iconSize
      && r.width * h <= w * iconSize < (r.width + 1) * h
  {
    var q := w * iconSize / h;
    assert w * iconSize == q * h + (w * iconSize) % h;
    assert (q + 1) * h == q * h + h;
  }

  /** Renegotiating from a negotiated size changes nothing: the result is
      already within the cap. */
  lemma NegotiateIdempotent(iconSize: nat, hints: Option<Size>)
    ensures var r := Negotiate(iconSize, hints);
      Negotiate(iconSize, Some(r)) == r
  {
  }
}
