/**
 * The frame extraction script (backend/extract_frames_only.py): once a tutorial
 * video is downloaded, one frame every 30 seconds is resized to a 640-pixel-wide
 * thumbnail and written as `0.jpg`, `1.jpg`, ... The decoded video is modelled as
 * the sequence of its frames, and a frame by its dimensions.
 */
module Extract {
  import opened PyStr

  /** `INTERVAL_SEC`: one thumbnail per this many seconds of video. */
  const IntervalSeconds: nat := 30
  /** `THUMB_WIDTH`, in pixels. */
  const ThumbWidth: nat := 640
  /** The frame rate assumed when the video reports none. */
  const DefaultFps: nat := 30

  /**
   * `int((cap.get(CAP_PROP_FPS) or 30) * INTERVAL_SEC)`: the number of frames between
   * two thumbnails. A reported rate of 0 means unknown and falls back to 30.
   */
  function FrameInterval(fps: real): (k: int)
    requires fps >= 0.0
    ensures k >= 0
    ensures fps == 0.0 ==> k == DefaultFps * IntervalSeconds
    ensures fps > 0.0 ==> k as real <= fps * IntervalSeconds as real < k as real + 1.0
  {
    if fps == 0.0 then DefaultFps * IntervalSeconds else (fps * IntervalSeconds as real).Floor
  }

  /** An unknown frame rate gives one thumbnail every 900 frames. */
  lemma FrameIntervalUnknownFps()
    ensures FrameInterval(0.0) == 900
  {
  }

  /** A whole frame rate of `n` frames per second gives one thumbnail every `30 * n` frames. */
  lemma FrameIntervalWholeFps(n: nat)
    requires n > 0
    ensures FrameInterval(n as real) == 30 * n
  {
    assert n as real * 30.0 == (30 * n) as real;
  }

  /** The interval is 0, and the modulo in the loop raises, exactly for rates strictly between 0 and 1/30. */
  lemma FrameIntervalZero(fps: real)
    requires fps >= 0.0
    ensures FrameInterval(fps) == 0 <==> 0.0 < fps && fps * 30.0 < 1.0
  {
  }

  /** A decoded frame: `frame.shape[:2]`. */
  datatype Frame = Frame(height: nat, width: nat)

  /** Frames the decoder returns have a positive width. */
  predicate Decoded(frames: seq<Frame>) {
    forall i :: 0 <= i < |frames| ==> frames[i].width > 0
  }

  /**
   * `max(1, int(h * THUMB_WIDTH / w))`: the thumbnail height that keeps the aspect
   * ratio at width 640, rounded down, and never 0.
   */
  function ThumbHeight(h: nat, w: nat): (r: nat)
    requires w > 0
    ensures r >= 1
    ensures h * ThumbWidth >= w ==> r * w <= h * ThumbWidth < (r + 1) * w
    ensures h * ThumbWidth < w ==> r == 1
  {
    var scaled := h * ThumbWidth / w;
    if scaled < 1 then 1 else scaled
  }

  /** A frame that is already 640 pixels wide keeps its height (a zero height becomes 1). */
  lemma ThumbHeightAtFullWidth(h: nat)
    ensures ThumbHeight(h, ThumbWidth) == if h == 0 then 1 else h
  {
  }

  /** A 1920 by 1080 frame becomes a 640 by 360 thumbnail. */
  lemma ThumbHeightFullHd()
    ensures ThumbHeight(1080, 1920) == 360
  {
  }

  /** A thumbnail written to the namespace's frame directory. */
  datatype Thumbnail = Thumbnail(name: string, frame: Frame, width: nat, height: nat)

  /** The `saved`-th thumbnail, taken from `frame`: `f"{saved}.jpg"`, resized to 640 wide. */
  function ThumbnailOf(saved: nat, frame: Frame): (t: Thumbnail)
    requires frame.width > 0
    ensures t.name == NatToString(saved) + ".jpg"
    ensures t.frame == frame && t.width == ThumbWidth && t.height >= 1
  {
    Thumbnail(NatToString(saved) + ".jpg", frame, ThumbWidth, ThumbHeight(frame.height, frame.width))
  }

  /** Thumbnails are written under distinct names. */
  lemma ThumbnailNamesDistinct(i: nat, j: nat, a: Frame, b: Frame)
    requires a.width > 0 && b.width > 0 && i != j
    ensures ThumbnailOf(i, a).name != ThumbnailOf(j, b).name
  {
    var x, y := NatToString(i), NatToString(j);
    if x + ".jpg" == y + ".jpg" {
      assert x == (x + ".jpg")[..|x|] && y == (y + ".jpg")[..|y|];
      NatToStringInjective(i, j);
    }
  }

  /** How `extract_for` ends. */
  datatype Extraction =
    | DownloadMissing                                  // the early return after the download
    | IntervalZero                                     // `count % 0` raises on the first frame
    | Extracted(count: nat, thumbs: seq<Thumbnail>)    // the loop read every frame

  /** One more frame raises the number of multiples of `k` below the count exactly when the count is one. */
  lemma CeilStep(c: nat, k: nat)
    requires k > 0
    ensures c % k == 0 ==> (c + k) / k == (c + k - 1) / k + 1 && c == (c + k - 1) / k * k
    ensures c % k != 0 ==> (c + k) / k == (c + k - 1) / k
  {
    var q, r := c / k, c % k;
    assert c == q * k + r;
    if r == 0 {
      DivOf(c + k - 1, k, q, k - 1);
      DivOf(c + k, k, q + 1, 0);
    } else {
      DivOf(c + k - 1, k, q + 1, r - 1);
      DivOf(c + k, k, q + 1, r);
    }
  }

  /** Division is determined by a quotient and an in-range remainder. */
  lemma DivOf(a: nat, k: nat, q: nat, r: nat)
    requires k > 0 && r < k && a == q * k + r
    ensures a / k == q
  {
    var q', r' := a / k, a % k;
    assert a == q' * k + r';
    var d: int := q - q';
    assert d * k == q * k - q' * k;
    assert d * k == r' - r;
    if d >= 1 {
      MulAtLeast(d, k);
    } else if d <= -1 {
      MulAtLeast(-d, k);
    }
  }

  lemma MulAtLeast(d: int, k: nat)
    requires d >= 1
    ensures d * k >= k
  {
    assert d * k == (d - 1) * k + k;
    assert (d - 1) * k >= 0;
  }

  /** A number at least `q * k` has a quotient by `k` of at least `q`. */
  lemma DivAtLeast(m: nat, k: nat, q: nat)
    requires k > 0 && m >= q * k
    ensures m / k >= q
  {
    var q' := m / k;
    assert m == q' * k + m % k;
    if q' < q {
      MulAtLeast(q - q', k);
    }
  }

  /** A multiple `p` of `k` below `n` is the `p / k`-th of the `(n + k - 1) / k` multiples. */
  lemma MultipleIndex(p: nat, n: nat, k: nat)
    requires k > 0 && p < n && p % k == 0
    ensures p / k * k == p
    ensures p / k < (n + k - 1) / k
  {
    var q := p / k;
    assert p == q * k + p % k;
    assert (q + 1) * k == q * k + k;
    DivAtLeast(n + k - 1, k, q + 1);
  }

  /**
   * `extract_for` from the download check on: `downloaded` says whether the temporary
   * video exists, `fps` is the rate the video reports and `frames` the frames it decodes to.
   * Frame `p` is kept exactly when `p % k == 0`, and the `j`-th thumbnail comes from frame `j * k`.
   */
  method ExtractFor(downloaded: bool, fps: real, frames: seq<Frame>) returns (result: Extraction)
    requires fps >= 0.0 && Decoded(frames)
    ensures result == DownloadMissing <==> !downloaded
    ensures result == IntervalZero <==> downloaded && FrameInterval(fps) == 0 && frames != []
    ensures result.Extracted? ==> result.count == |frames|
    ensures result.Extracted? && frames == [] ==> result.thumbs == []
    ensures result.Extracted? && frames != [] ==>
      FrameInterval(fps) > 0 && |result.thumbs| == (|frames| + FrameInterval(fps) - 1) / FrameInterval(fps)
    ensures result.Extracted? ==> forall j :: 0 <= j < |result.thumbs| ==>
      j * FrameInterval(fps) < |frames| && result.thumbs[j] == ThumbnailOf(j, frames[j * FrameInterval(fps)])
    ensures result.Extracted? && FrameInterval(fps) > 0 ==> forall p :: 0 <= p < |frames| && p % FrameInterval(fps) == 0 ==>
      p / FrameInterval(fps) < |result.thumbs| && result.thumbs[p / FrameInterval(fps)].frame == frames[p]
  {
    if !downloaded {
      return DownloadMissing;
    }
    var k := FrameInterval(fps);
    var count := 0;
    var saved := 0;
    var thumbs := [];
    while count < |frames|
      invariant 0 <= count <= |frames|
      invariant k > 0 || count == 0
      invariant saved == |thumbs|
      invariant k > 0 ==> saved == (count + k - 1) / k
      invariant k == 0 ==> thumbs == []
      invariant forall j :: 0 <= j < saved ==> j * k < count && thumbs[j] == ThumbnailOf(j, frames[j * k])
    {
      if k == 0 {
        return IntervalZero;
      }
      CeilStep(count, k);
      if count % k == 0 {
        thumbs := thumbs + [ThumbnailOf(saved, frames[count])];
        saved := saved + 1;
      }
      count := count + 1;
    }
    if k > 0 {
      forall p | 0 <= p < |frames| && p % k == 0
        ensures p / k < |thumbs| && thumbs[p / k].frame == frames[p]
      {
        MultipleIndex(p, |frames|, k);
      }
    }
    return Extracted(count, thumbs);
  }
}
