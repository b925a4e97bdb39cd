/** The geometry planner of `addTimestampWaterMark`: from the decoded pixel
    dimensions and the EXIF Orientation tag (tag 0x0112) it decides whether the
    image must be turned upright, and where and how large the date label is drawn.
    All arithmetic is Go `int` arithmetic; the font size is an integer quotient
    that the source converts to `float64` only afterwards. */
module Geometry {
  import opened GoInt

  /** Orientation tag value for "rotate 90 degrees clockwise to display". */
  const RotateCwTag := 6
  /** Orientation tag value for "rotate 90 degrees counter-clockwise to display". */
  const RotateCcwTag := 8

  /** The angle handed to the external rotation primitive, if any. */
  datatype Rotation =
    | NoRotation
    | HalfPi          // math.Pi / 2.0
    | ThreeHalvesPi   // math.Pi * 1.5

  /** Where the label is anchored and its font size, in pixels. */
  datatype Anchor = Anchor(posX: int, posY: int, fontSize: int)

  /** The decisions taken for one image: the upright dimensions, the rotation
      applied to the pixels, and the label placement. */
  datatype RenderPlan = RenderPlan(width: int, height: int, rotation: Rotation, anchor: Anchor)

  /** What the metadata reader found for the Orientation tag. */
  datatype TagLookup =
    | TagMissing           // x.Get(exif.Orientation) failed
    | TagUnreadable        // the tag holds no readable integer
    | TagValue(v: int)

  /** `otag` after the lookup: a readable tag is passed on, and an absent or
      unreadable one never asks for the quarter-turn correction. */
  function OrientationTag(lookup: TagLookup): (otag: int)
    ensures lookup.TagValue? ==> otag == lookup.v
    ensures !lookup.TagValue? ==> forall w, h :: !NeedsCorrection(w, h, otag)
  {
    match lookup
    case TagValue(v) => v
    case _ => 0
  }

  /** The two tags that describe a quarter turn. */
  predicate IsQuarterTurnTag(otag: int)
  {
    otag == RotateCwTag || otag == RotateCcwTag
  }

  /** A quarter-turn tag on an image stored wider than tall: it was shot upright. */
  predicate NeedsCorrection(width: int, height: int, otag: int)
  {
    IsQuarterTurnTag(otag) && width > height
  }

  /** The label placement for upright dimensions: the portrait values are the
      defaults, which a landscape layout overrides. */
  function Layout(width: int, height: int): (a: Anchor)
    ensures width > height ==>
      IsTruncatedQuotient(5 * width, 6, a.posX) &&
      IsTruncatedQuotient(9 * height, 10, a.posY) &&
      IsTruncatedQuotient(140 * width, 6000, a.fontSize)
    ensures width <= height ==>
      IsTruncatedQuotient(3 * width, 4, a.posX) &&
      IsTruncatedQuotient(12 * height, 13, a.posY) &&
      IsTruncatedQuotient(140 * width, 4000, a.fontSize)
    ensures width > 0 && height > 0 ==>
      0 <= a.posX < width && 0 <= a.posY < height && 0 <= a.fontSize
  {
    var portrait := Anchor(Quo(3 * width, 4), Quo(12 * height, 13), Quo(140 * width, 4000));
    if width > height then
      Anchor(Quo(5 * width, 6), Quo(9 * height, 10), Quo(140 * width, 6000))
    else
      portrait
  }

  /** The whole planner: orientation correction, then the layout of the
      corrected image. */
  function Plan(rawWidth: int, rawHeight: int, otag: int): (p: RenderPlan)
    ensures p.rotation != NoRotation <==> NeedsCorrection(rawWidth, rawHeight, otag)
    ensures p.rotation == HalfPi <==> NeedsCorrection(rawWidth, rawHeight, otag) && otag == RotateCwTag
    ensures p.rotation == ThreeHalvesPi <==> NeedsCorrection(rawWidth, rawHeight, otag) && otag == RotateCcwTag
    ensures p.rotation == NoRotation ==> p.width == rawWidth && p.height == rawHeight
    ensures p.rotation != NoRotation ==> p.width == rawHeight && p.height == rawWidth
    ensures IsQuarterTurnTag(otag) ==> p.width <= p.height
    ensures p.anchor == Layout(p.width, p.height)
  {
    var (width, height, rotation) :=
      if NeedsCorrection(rawWidth, rawHeight, otag) then
        (rawHeight, rawWidth, if otag == RotateCwTag then HalfPi else ThreeHalvesPi)
      else
        (rawWidth, rawHeight, NoRotation);
    RenderPlan(width, height, rotation, Layout(width, height))
  }

  /** For positive dimensions the label anchor lies inside the (corrected)
      image and the font size is not negative. The anchor is the top of the
      text: `addLabel` puts the baseline `fontSize` pixels below it, which can
      fall outside a very wide, short image (10000x2000: baseline 2033). */
  lemma AnchorInsideImage(rawWidth: int, rawHeight: int, otag: int)
    requires rawWidth > 0 && rawHeight > 0
    ensures var p := Plan(rawWidth, rawHeight, otag);
      0 <= p.anchor.posX < p.width && 0 <= p.anchor.posY < p.height && 0 <= p.anchor.fontSize
  {
  }

  /** Without a readable tag the image is never rotated or swapped. */
  lemma UnreadableTagNeverRotates(rawWidth: int, rawHeight: int, lookup: TagLookup)
    requires !lookup.TagValue?
    ensures var p := Plan(rawWidth, rawHeight, OrientationTag(lookup));
      p.rotation == NoRotation && p.width == rawWidth && p.height == rawHeight
  {
  }

  /** Planning an image that was already turned upright does not turn it again. */
  lemma CorrectionNotReapplied(rawWidth: int, rawHeight: int, otag: int)
    ensures var p := Plan(rawWidth, rawHeight, otag);
      Plan(p.width, p.height, otag) == RenderPlan(p.width, p.height, NoRotation, p.anchor)
  {
  }

  /** Within one orientation class a wider image never gets a smaller font. */
  lemma FontSizeMonotone(w1: int, h1: int, w2: int, h2: int)
    requires w1 <= w2
    requires (w1 > h1) == (w2 > h2)
    ensures Layout(w1, h1).fontSize <= Layout(w2, h2).fontSize
  {
    if w1 > h1 {
      QuoMonotone(140 * w1, 140 * w2, 6000);
    } else {
      QuoMonotone(140 * w1, 140 * w2, 4000);
    }
  }

  /** Worked values: a 4000x3000 landscape frame, the same frame shot upright
      (tags 6 and 8) and a 3000x4000 portrait frame. The font sizes are the
      truncated integer quotients 93 and 105. */
  lemma PlanExamples()
    ensures Plan(4000, 3000, 1) == RenderPlan(4000, 3000, NoRotation, Anchor(3333, 2700, 93))
    ensures Plan(3000, 4000, 1) == RenderPlan(3000, 4000, NoRotation, Anchor(2250, 3692, 105))
    ensures Plan(4000, 3000, 6) == RenderPlan(3000, 4000, HalfPi, Anchor(2250, 3692, 105))
    ensures Plan(4000, 3000, 8) == RenderPlan(3000, 4000, ThreeHalvesPi, Anchor(2250, 3692, 105))
    ensures Plan(3000, 4000, 6) == RenderPlan(3000, 4000, NoRotation, Anchor(2250, 3692, 105))
    ensures Plan(3000, 3000, 6) == RenderPlan(3000, 3000, NoRotation, Anchor(2250, 2769, 105))
  {
  }
}
