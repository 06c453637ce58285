/** The presentation quad of game.py: a full-screen card that samples a
    window of the square off-screen buffer texture, centred on the buffer and
    then shifted on U to follow the player. All quantities are exact ratios. */
module Presentation {

  /** A texture-coordinate rectangle, lower-left (u0, v0) to upper-right (u1, v1). */
  datatype UvRect = UvRect(u0: real, v0: real, u1: real, v1: real)

  /** The window handed to the card: half-extent w / b on U and h / b on V,
      around the buffer's centre (0.5, 0.5). */
  function CropWindow(w: real, h: real, b: real): (r: UvRect)
    requires b > 0.0
    ensures (r.u0 + r.u1) / 2.0 == 0.5 && (r.v0 + r.v1) / 2.0 == 0.5
    ensures (r.u1 - r.u0) * b == 2.0 * w && (r.v1 - r.v0) * b == 2.0 * h
  {
    var xRange := w / b;
    var yRange := h / b;
    UvRect(0.5 - xRange, 0.5 - yRange, 0.5 + xRange, 0.5 + yRange)
  }

  /** The texture offset that centres the "camera" on the player: 16 / b on U,
      nothing on V. */
  function CameraOffset(b: real): (o: (real, real))
    requires b > 0.0
    ensures o.0 * b == 16.0 && o.1 == 0.0
  {
    (16.0 / b, 0.0)
  }

  /** The rectangle actually sampled once a texture offset is applied. */
  function Shifted(r: UvRect, o: (real, real)): (s: UvRect)
    ensures s.u1 - s.u0 == r.u1 - r.u0 && s.v1 - s.v0 == r.v1 - r.v0
    ensures s.u0 - r.u0 == o.0 && s.v0 - r.v0 == o.1
  {
    UvRect(r.u0 + o.0, r.v0 + o.1, r.u1 + o.0, r.v1 + o.1)
  }

  /** The rectangle lies in the texture: it samples no texel outside [0, 1]^2. */
  predicate InsideTexture(r: UvRect)
  {
    0.0 <= r.u0 && r.u1 <= 1.0 && 0.0 <= r.v0 && r.v1 <= 1.0
  }

  lemma HalfAtMost(x: real, b: real)
    requires b > 0.0 && x >= 0.0
    ensures x / b <= 0.5 <==> x <= b / 2.0
  {
    var q := x / b;
    assert q * b == x;
    if q <= 0.5 {
      assert q * b <= 0.5 * b;
    } else {
      assert q * b > 0.5 * b;
    }
  }

  /** For a non-negative resolution the window stays inside the buffer
      texture exactly when neither side exceeds half the buffer. */
  lemma CropInsideTexture(w: real, h: real, b: real)
    requires b > 0.0 && w >= 0.0 && h >= 0.0
    ensures InsideTexture(CropWindow(w, h, b)) <==> w <= b / 2.0 && h <= b / 2.0
  {
    HalfAtMost(w, b);
    HalfAtMost(h, b);
  }

  /** Shifting by the camera offset moves the window right by 16 / b and keeps
      its size and its V range. */
  lemma CameraShift(w: real, h: real, b: real)
    requires b > 0.0
    ensures var r := CropWindow(w, h, b);
            var s := Shifted(r, CameraOffset(b));
            s.u0 * b == r.u0 * b + 16.0 && s.u1 * b == r.u1 * b + 16.0 &&
            s.v0 == r.v0 && s.v1 == r.v1 &&
            (s.u1 - s.u0) * b == 2.0 * w
  {
    var r := CropWindow(w, h, b);
    var o := CameraOffset(b);
    assert (r.u0 + o.0) * b == r.u0 * b + o.0 * b;
    assert (r.u1 + o.0) * b == r.u1 * b + o.0 * b;
  }

  /** The shifted window stays inside the texture exactly when the right edge
      with the 16-texel shift still fits: w + 16 <= b / 2 and h <= b / 2. */
  lemma ShiftedInsideTexture(w: real, h: real, b: real)
    requires b > 0.0 && w >= 0.0 && h >= 0.0
    ensures InsideTexture(Shifted(CropWindow(w, h, b), CameraOffset(b))) <==>
              w + 16.0 <= b / 2.0 && h <= b / 2.0
  {
    var s := Shifted(CropWindow(w, h, b), CameraOffset(b));
    HalfAtMost(w + 16.0, b);
    HalfAtMost(h, b);
    assert s.u1 == 0.5 + (w + 16.0) / b;
    if w + 16.0 <= b / 2.0 {
      assert w - 16.0 <= b / 2.0;
      assert s.u0 == 0.5 - (w - 16.0) / b;
      if w >= 16.0 {
        HalfAtMost(w - 16.0, b);
      } else {
        assert (16.0 - w) / b >= 0.0;
      }
    }
  }

  /** The window of the configured 256 x 144 resolution on a 2048 buffer. */
  lemma ConfiguredWindow()
    ensures CropWindow(256.0, 144.0, 2048.0) == UvRect(0.375, 0.4296875, 0.625, 0.5703125)
    ensures Shifted(CropWindow(256.0, 144.0, 2048.0), CameraOffset(2048.0))
         == UvRect(0.3828125, 0.4296875, 0.6328125, 0.5703125)
    ensures InsideTexture(Shifted(CropWindow(256.0, 144.0, 2048.0), CameraOffset(2048.0)))
  {
  }
}
