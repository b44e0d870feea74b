/**
  * The banner of `make_fallback_annotated`, drawn across the top of the
  * image when text recognition raised an exception.  Its height is
  * `max(30, h // 18)` for an image `h` pixels high.
  */
module Fallback {

  /** The smallest banner the fallback image ever gets, in pixels. */
  const MinBannerHeight: nat := 30

  /** The banner takes one eighteenth of the image height when that is larger. */
  const BannerDivisor: nat := 18

  /** `max(30, h // 18)`: never below the minimum, never below the proportional share. */
  function BannerHeight(h: nat): (bannerH: nat)
    ensures bannerH >= MinBannerHeight && bannerH >= h / BannerDivisor
    ensures bannerH == MinBannerHeight || bannerH == h / BannerDivisor
  {
    if MinBannerHeight >= h / BannerDivisor then MinBannerHeight else h / BannerDivisor
  }

  /** The banner is exactly the proportional share once the image is at least 540 pixels high. */
  lemma BannerHeightProportional(h: nat)
    ensures BannerHeight(h) == h / BannerDivisor <==> h >= 540
  {
  }

  /** The banner stays at its minimum of 30 pixels exactly while the image is under 558 pixels high. */
  lemma BannerHeightMinimum(h: nat)
    ensures BannerHeight(h) == MinBannerHeight <==> h < 558
  {
  }

  /** A taller image never gets a shorter banner. */
  lemma BannerHeightMonotone(h1: nat, h2: nat)
    requires h1 <= h2
    ensures BannerHeight(h1) <= BannerHeight(h2)
  {
  }
}
