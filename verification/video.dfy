/** The arithmetic of wrapy/video/maker.py: letterboxing each card into the
    video frame, the order of the clips and the cross-fade weights. Images
    are represented by their index and their size. */
module Video {
  import opened Wrappers

  /** Python's `int()` of a float: truncation toward zero. */
  function Trunc(x: real): (n: int)
    ensures 0.0 <= x ==> 0 <= n && n as real <= x < n as real + 1.0
    ensures x < 0.0 ==> n <= 0 && n as real - 1.0 < x <= n as real
  {
    if x >= 0.0 then x.Floor else -((-x).Floor)
  }

  function MinReal(a: real, b: real): real {
    if a <= b then a else b
  }

  /** The resized size and the black borders added around it. */
  datatype Padding = Padding(newHeight: int, newWidth: int, top: int, bottom: int, left: int, right: int)

  /** Borders are split evenly, the odd pixel going to the bottom (right). */
  ghost predicate Centred(target: int, inner: int, before: int, after: int) {
    && before + inner + after == target
    && 0 <= before
    && before == (target - inner) / 2
    && 0 <= after - before <= 1
  }

  lemma ScaledFits(scale: real, dim: nat, target: nat)
    requires dim > 0 && 0.0 <= scale <= target as real / dim as real
    ensures scale * dim as real <= target as real
  {
    assert (target as real / dim as real) * dim as real == target as real;
  }

  lemma MulMonotone(a: real, b: real, c: real)
    requires a <= b && 0.0 <= c
    ensures a * c <= b * c
  {
    assert b * c - a * c == (b - a) * c;
  }

  lemma RatioTimes(t: nat, d: nat, o: nat)
    requires o > 0
    ensures (t as real / o as real) * d as real == (t * d) as real / o as real
  {
  }

  lemma RatioBelowOne(a: nat, b: nat)
    requires b > 0
    ensures a as real / b as real < 1.0 <==> a < b
  {
    var q := a as real / b as real;
    assert q * b as real == a as real;
    if q < 1.0 {
      assert b as real - a as real == (1.0 - q) * b as real;
    } else {
      MulMonotone(1.0, q, b as real);
    }
  }

  lemma TruncZero(x: real)
    requires 0.0 <= x
    ensures Trunc(x) == 0 <==> x < 1.0
  {
  }

  /** The resized side `int(scale * dim)` is zero exactly when the scaled
      side falls below one pixel, which with `scale = min(t_dim / dim,
      t_other / other)` means a zero target or a side so thin that
      `t_other * dim < other`. */
  lemma {:induction false} ScaledSideVanishes(dim: nat, other: nat, tDim: nat, tOther: nat)
    requires dim > 0 && other > 0
    ensures var scale := MinReal(tDim as real / dim as real, tOther as real / other as real);
      Trunc(scale * dim as real) == 0 <==> tDim == 0 || tOther * dim < other
  {
    var a := tDim as real / dim as real;
    var b := tOther as real / other as real;
    assert a * dim as real == tDim as real;
    RatioTimes(tOther, dim, other);
    RatioBelowOne(tOther * dim, other);
    if a <= b {
      MulMonotone(a, b, dim as real);
      TruncZero(tDim as real);
    } else {
      MulMonotone(b, a, dim as real);
      assert 0.0 <= b * dim as real;
      TruncZero(b * dim as real);
    }
  }

  /** One side of the resized image, `int(scale * dim)` with `scale =
      min(t_dim / dim, t_other / other)`: it fits its target, fills it when
      this side sets the scale, and truncates to zero exactly as
      `ScaledSideVanishes` says. */
  function ScaledSide(dim: nat, other: nat, tDim: nat, tOther: nat): (n: int)
    requires dim > 0 && other > 0
    ensures 0 <= n <= tDim
    ensures tDim as real / dim as real <= tOther as real / other as real ==> n == tDim
    ensures n == 0 <==> tDim == 0 || tOther * dim < other
  {
    var scale := MinReal(tDim as real / dim as real, tOther as real / other as real);
    ScaledFits(scale, dim, tDim);
    ScaledSideVanishes(dim, other, tDim, tOther);
    assert (tDim as real / dim as real) * dim as real == tDim as real;
    assert 0.0 <= scale * dim as real;
    Trunc(scale * dim as real)
  }

  /** The scaled size and the borders of a non-empty image: the scaled
      image fits, the borders centre it, one side fills the target, and a
      side is empty exactly for a zero target or a too thin image. */
  function Letterbox(height: nat, width: nat, targetHeight: nat, targetWidth: nat): (p: Padding)
    requires height > 0 && width > 0
    ensures 0 <= p.newHeight <= targetHeight && 0 <= p.newWidth <= targetWidth
    ensures p.newWidth == 0 <==> targetWidth == 0 || targetHeight * width < height
    ensures p.newHeight == 0 <==> targetHeight == 0 || targetWidth * height < width
    ensures Centred(targetHeight, p.newHeight, p.top, p.bottom)
    ensures Centred(targetWidth, p.newWidth, p.left, p.right)
    ensures p.newHeight == targetHeight || p.newWidth == targetWidth
  {
    var newWidth := ScaledSide(width, height, targetWidth, targetHeight);
    var newHeight := ScaledSide(height, width, targetHeight, targetWidth);
    var top := (targetHeight - newHeight) / 2;
    var left := (targetWidth - newWidth) / 2;
    Padding(newHeight, newWidth, top, targetHeight - newHeight - top, left, targetWidth - newWidth - left)
  }

  /** `__prepare_image`: convert the colours, scale by `min(tw / w, th / h)`
      (exact rationals here), truncate the new size, resize, and pad with
      `(t - n) // 2` before and the rest after. OpenCV refuses to convert an
      empty image before any division happens, and refuses to resize to a
      zero-sized image. */
  function PrepareImage(height: nat, width: nat, targetHeight: nat, targetWidth: nat): (r: Result<Padding>)
    ensures r.Err? <==>
      || height == 0 || width == 0
      || targetHeight == 0 || targetWidth == 0
      || targetHeight * width < height || targetWidth * height < width
    ensures r.Err? ==> r.error == OpenCvError
    ensures r.Ok? ==> 1 <= r.value.newHeight <= targetHeight && 1 <= r.value.newWidth <= targetWidth
    ensures r.Ok? ==> Centred(targetHeight, r.value.newHeight, r.value.top, r.value.bottom)
    ensures r.Ok? ==> Centred(targetWidth, r.value.newWidth, r.value.left, r.value.right)
    ensures r.Ok? ==> r.value.newHeight == targetHeight || r.value.newWidth == targetWidth
  {
    if width == 0 || height == 0 then Err(OpenCvError)
    else
      var p := Letterbox(height, width, targetHeight, targetWidth);
      if p.newWidth == 0 || p.newHeight == 0 then Err(OpenCvError) else Ok(p)
  }

  /** A tall, one-pixel-wide card scaled into a square frame shrinks to a
      zero width, which OpenCV refuses to resize to. */
  lemma ThinCardFails()
    ensures PrepareImage(1000, 1, 100, 100) == Err(OpenCvError)
  {
  }

  /** A card shown for the image duration, or a cross-fade between two cards. */
  datatype Clip = Still(image: nat) | Fade(from: nat, to: nat)

  /** Cards in order, a fade joining each card to the next, the last card
      shown without a fade after it. */
  ghost predicate Slideshow(clips: seq<Clip>, n: nat) {
    && |clips| == 2 * n - 1
    && clips[|clips| - 1] == Still(n - 1)
    && (forall j :: 0 <= j < |clips| && clips[j].Still? ==> clips[j].image == j / 2 && j % 2 == 0)
    && (forall j :: 0 <= j < |clips| && clips[j].Fade? ==>
          0 < j < |clips| - 1 && clips[j - 1] == Still(clips[j].from) &&
          clips[j + 1] == Still(clips[j].to) && clips[j].to == clips[j].from + 1)
  }

  /** The clip list `make` hands to `concatenate_videoclips` for `n` images.
      With no image, `self.images[-1]` raises `IndexError`. */
  method Make(n: nat) returns (r: Result<seq<Clip>>)
    ensures r.Err? <==> n == 0
    ensures r.Err? ==> r.error == IndexError
    ensures r.Ok? ==> Slideshow(r.value, n)
  {
    if n == 0 {
      return Err(IndexError);
    }
    var clips: seq<Clip> := [];
    var i := 0;
    while i < n - 1
      invariant 0 <= i <= n - 1
      invariant |clips| == 2 * i
      invariant forall j :: 0 <= j < |clips| ==> clips[j] == if j % 2 == 0 then Still(j / 2) else Fade(j / 2, j / 2 + 1)
    {
      clips := clips + [Still(i), Fade(i, i + 1)];
      i := i + 1;
    }
    clips := clips + [Still(n - 1)];
    return Ok(clips);
  }

  /** The blending weight of the next card in each frame of a fade,
      `i / transition_frames`. */
  function Alphas(frames: int): (a: seq<real>)
    ensures |a| == if frames > 0 then frames else 0
    ensures forall i :: 0 <= i < |a| ==> a[i] * frames as real == i as real
  {
    if frames <= 0 then []
    else seq(frames, i requires 0 <= i < frames => i as real / frames as real)
  }

  /** The weights of `__create_transition`: `int(TRANSTITION_DURATION_SECS
      * FPS)` frames, the duration and the frame rate being parameters here.
      The fade lasts the whole frames that fit in the duration, none when
      less than one does. */
  function TransitionAlphas(durationSecs: real, fps: real): (a: seq<real>)
    ensures 0.0 <= durationSecs * fps ==> |a| as real <= durationSecs * fps < |a| as real + 1.0
    ensures durationSecs * fps < 1.0 ==> a == []
    ensures forall i :: 0 <= i < |a| ==> a[i] * |a| as real == i as real
  {
    Alphas(Trunc(durationSecs * fps))
  }

  /** The fade starts from the previous card alone and moves strictly toward
      the next one without reaching it. */
  lemma AlphasRise(frames: int)
    ensures Alphas(frames) != [] ==> Alphas(frames)[0] == 0.0
    ensures forall i, j :: 0 <= i < j < |Alphas(frames)| ==> Alphas(frames)[i] < Alphas(frames)[j]
    ensures forall i :: 0 <= i < |Alphas(frames)| ==> 0.0 <= Alphas(frames)[i] < 1.0
  {
    var a := Alphas(frames);
    if frames > 0 {
      var f := frames as real;
      forall i, j | 0 <= i < j < |a|
        ensures a[i] < a[j]
      {
        RatioLess(i as real, j as real, f);
      }
      forall i | 0 <= i < |a|
        ensures 0.0 <= a[i] < 1.0
      {
        RatioLess(i as real, f, f);
        assert f / f == 1.0;
        RatioLess(0.0, i as real, f);
      }
    }
  }

  lemma RatioLess(x: real, y: real, f: real)
    requires f > 0.0 && x <= y
    ensures x / f <= y / f
    ensures x < y ==> x / f < y / f
  {
    assert x / f * f == x && y / f * f == y;
  }
}
