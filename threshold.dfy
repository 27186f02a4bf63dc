/** The darkening step applied to the grayscale image before contour search:
    every pixel below the cutoff becomes black, every other pixel is kept. */
module Threshold {

  const CUTOFF: int := 55

  /** A grayscale intensity on the 0..255 scale. */
  type Intensity = v: int | 0 <= v <= 255

  /** An image as rows of pixels. */
  type Grid = seq<seq<Intensity>>

  /** `np.where(gray < 55, 0, gray)`. */
  function Darken(gray: Grid): (r: Grid)
    ensures |r| == |gray|
    ensures forall row :: 0 <= row < |r| ==> |r[row]| == |gray[row]|
    ensures forall row, col :: 0 <= row < |r| && 0 <= col < |r[row]| ==>
      (r[row][col] == 0 || r[row][col] >= CUTOFF) && (r[row][col] != 0 ==> r[row][col] == gray[row][col])
    ensures forall row, col :: 0 <= row < |r| && 0 <= col < |r[row]| && gray[row][col] >= CUTOFF ==>
      r[row][col] == gray[row][col]
  {
    seq(|gray|, row requires 0 <= row < |gray| =>
      seq(|gray[row]|, col requires 0 <= col < |gray[row]| =>
        if gray[row][col] < CUTOFF then 0 else gray[row][col]))
  }

  /** Darkening twice is darkening once. */
  lemma DarkenIdempotent(gray: Grid)
    ensures Darken(Darken(gray)) == Darken(gray)
  {
    var once := Darken(gray);
    var twice := Darken(once);
    forall row | 0 <= row < |once| ensures twice[row] == once[row] {
    }
  }

  /** An image with no pixel at or above the cutoff darkens to all black. */
  lemma DarkImageIsBlack(gray: Grid)
    requires forall row, col :: 0 <= row < |gray| && 0 <= col < |gray[row]| ==> gray[row][col] < CUTOFF
    ensures forall row, col :: 0 <= row < |gray| && 0 <= col < |gray[row]| ==> Darken(gray)[row][col] == 0
  {
  }
}
