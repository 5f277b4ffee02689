/** Aspect-ratio classification of a probed video (`getVideoAspectRatio`) and
    the `aspectMap` lookup that turns the classification into the first
    segment of the object key.

    Go divides `float64(width) / float64(height)` and compares the quotient
    with the band limits. Here the comparison is done exactly, by
    cross-multiplying; `AspectRatioLabelMatchesQuotient` proves that this
    agrees with comparing the exact real quotient. */
module Aspect {

  const Portrait916 := "9:16"
  const Landscape169 := "16:9"
  const OtherRatio := "other"

  /** The classification of an exact ratio, bands checked in the source's order. */
  function RatioLabel(ratio: real): string
  {
    if 0.5 <= ratio <= 0.6 then Portrait916
    else if 1.7 <= ratio <= 1.8 then Landscape169
    else OtherRatio
  }

  /** `getVideoAspectRatio` after the probe: the tag for a first stream of
      `width` x `height`. A zero height makes the Go quotient an infinity or
      NaN, which fails every band comparison, so it is "other". A negative
      height flips both inequalities; negating both sides keeps the ratio. */
  function AspectRatioLabel(width: int, height: int): (tag: string)
    ensures tag == Portrait916 || tag == Landscape169 || tag == OtherRatio
  {
    if height == 0 then OtherRatio
    else
      var w := if height < 0 then -width else width;
      var h := if height < 0 then -height else height;
      if 2 * w >= h && 10 * w <= 6 * h then Portrait916
      else if 10 * w >= 17 * h && 10 * w <= 18 * h then Landscape169
      else OtherRatio
  }

  lemma QuotientAtLeast(w: int, h: int, n: int, d: int)
    requires h > 0 && d > 0
    ensures (w as real) / (h as real) >= (n as real) / (d as real) <==> d * w >= n * h
  {
    var q := (w as real) / (h as real);
    var k := (n as real) / (d as real);
    assert q * (h as real) == w as real;
    assert k * (d as real) == n as real;
    if q >= k {
      assert q * (h as real) * (d as real) >= k * (d as real) * (h as real);
    }
    if d * w >= n * h {
      assert q * (h as real) * (d as real) >= k * (d as real) * (h as real);
    }
  }

  lemma QuotientAtMost(w: int, h: int, n: int, d: int)
    requires h > 0 && d > 0
    ensures (w as real) / (h as real) <= (n as real) / (d as real) <==> d * w <= n * h
  {
    QuotientAtLeast(-w, h, -n, d);
    assert ((-w) as real) / (h as real) == -((w as real) / (h as real));
    assert ((-n) as real) / (d as real) == -((n as real) / (d as real));
  }

  lemma PositiveHeightMatchesQuotient(w: int, h: int)
    requires h > 0
    ensures AspectRatioLabel(w, h) == RatioLabel((w as real) / (h as real))
  {
    var q := (w as real) / (h as real);
    QuotientAtLeast(w, h, 1, 2);
    QuotientAtMost(w, h, 6, 10);
    QuotientAtLeast(w, h, 17, 10);
    QuotientAtMost(w, h, 18, 10);
    assert (0.5 <= q) == (2 * w >= h);
    assert (q <= 0.6) == (10 * w <= 6 * h);
    assert (1.7 <= q) == (10 * w >= 17 * h);
    assert (q <= 1.8) == (10 * w <= 18 * h);
  }

  lemma NegatedQuotient(w: int, h: int)
    requires h != 0
    ensures ((-w) as real) / ((-h) as real) == (w as real) / (h as real)
  {
    var q := (w as real) / (h as real);
    assert q * (h as real) == w as real;
    assert q * ((-h) as real) == (-w) as real;
  }

  /** For every non-zero height, the integer classification is the
      classification of the exact quotient width / height. */
  lemma AspectRatioLabelMatchesQuotient(width: int, height: int)
    requires height != 0
    ensures AspectRatioLabel(width, height) == RatioLabel((width as real) / (height as real))
  {
    if height < 0 {
      PositiveHeightMatchesQuotient(-width, -height);
      NegatedQuotient(width, height);
    } else {
      PositiveHeightMatchesQuotient(width, height);
    }
  }

  /** The two bands are disjoint: no ratio is both portrait and landscape. */
  lemma BandsDisjoint(width: int, height: int)
    requires height != 0
    ensures !(0.5 <= (width as real) / (height as real) <= 0.6
              && 1.7 <= (width as real) / (height as real) <= 1.8)
  {
  }

  /** Typical dimensions: 1080x1920 is 9:16, 1920x1080 is 16:9 and
      1000x1000 is other. */
  lemma Examples()
    ensures AspectRatioLabel(1080, 1920) == Portrait916
    ensures AspectRatioLabel(1920, 1080) == Landscape169
    ensures AspectRatioLabel(1000, 1000) == OtherRatio
  {
  }

  /** Go's `aspectMap[tag]`: a missing key yields the zero string "". */
  function AspectPrefix(tag: string): (prefix: string)
    ensures prefix == "landscape" <==> tag == Landscape169
    ensures prefix == "portrait" <==> tag == Portrait916
    ensures prefix == "other" <==> tag == OtherRatio
    ensures prefix == "" <==> tag !in {Landscape169, Portrait916, OtherRatio}
  {
    var aspectMap := map[Landscape169 := "landscape", Portrait916 := "portrait", OtherRatio := "other"];
    if tag in aspectMap then aspectMap[tag] else ""
  }

  /** The key prefix chosen for a probed first stream: never the empty string,
      always one of the three category names, and free of the characters that
      structure object keys and stored references. */
  lemma KeyPrefixIsCategory(width: int, height: int)
    ensures var prefix := AspectPrefix(AspectRatioLabel(width, height));
      && prefix in {"landscape", "portrait", "other"}
      && '/' !in prefix && ',' !in prefix
  {
  }
}
