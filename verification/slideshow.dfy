/**
 * The home slideshow: the hero background chosen from the home images read
 * once at page load, and the rotation the interval timer advances, one
 * frame per tick, wrapping around after the last image.
 */
module Slideshow {
  import opened Dom
  import opened Store

  /** The background used when no home image is stored. */
  const FallbackUrl := "https://images.unsplash.com/photo-1529626455594-4ff0802cfb7e"

  /** The inline CSS value `url('…')` the script writes for an image address. */
  function CssUrl(address: string): string {
    "url('" + address + "')"
  }

  /** One timer tick: `(current + 1) % n`, i.e. the next frame, back to 0 after the last. */
  function Advance(current: nat, n: nat): (next: nat)
    requires current < n
    ensures next < n
    ensures next == if current + 1 < n then current + 1 else 0
  {
    (current + 1) % n
  }

  /** The frame index after k ticks starting from `current`. */
  function AfterTicks(current: nat, n: nat, k: nat): (r: nat)
    requires current < n
    ensures r < n
    decreases k
  {
    if k == 0 then current else AfterTicks(Advance(current, n), n, k - 1)
  }

  /** a ticks followed by b ticks are a + b ticks. */
  lemma {:induction false} TicksCompose(current: nat, n: nat, a: nat, b: nat)
    requires current < n
    ensures AfterTicks(current, n, a + b) == AfterTicks(AfterTicks(current, n, a), n, b)
    decreases a
  {
    if a > 0 {
      TicksCompose(Advance(current, n), n, a - 1, b);
    }
  }

  /** Before wrapping, each tick moves one frame forward. */
  lemma {:induction false} TicksClimb(current: nat, n: nat, k: nat)
    requires current + k < n
    ensures AfterTicks(current, n, k) == current + k
    decreases k
  {
    if k > 0 {
      TicksClimb(current + 1, n, k - 1);
    }
  }

  /** From any frame, n ticks come back to that frame. */
  lemma TicksPeriod(current: nat, n: nat)
    requires current < n
    ensures AfterTicks(current, n, n) == current
  {
    TicksClimb(current, n, n - 1 - current);
    TicksCompose(current, n, n - 1 - current, 1);
    TicksCompose(current, n, n - current, current);
    TicksClimb(0, n, current);
  }

  /** Division with remainder has one answer: helper for TicksFromStart. */
  lemma ModUnique(k: int, n: int, m: int, r: int)
    requires 0 < n && 0 <= r < n && k == m * n + r
    ensures k % n == r
  {
    var q := k / n;
    assert k == q * n + k % n;
    assert (m - q) * n == k % n - r;
    assert m - q >= 1 ==> (m - q) * n >= n;
    assert m - q <= -1 ==> (m - q) * n <= -n;
  }

  /** Removing one period does not change the remainder: helper for TicksFromStart. */
  lemma ModShift(k: int, n: int)
    requires 0 < n <= k
    ensures k % n == (k - n) % n
  {
    var rest := k - n;
    assert rest == (rest / n) * n + rest % n;
    ModUnique(k, n, rest / n + 1, rest % n);
  }

  /** Starting from the first image, the frame after k ticks is k mod n. */
  lemma {:induction false} TicksFromStart(n: nat, k: nat)
    requires 0 < n
    ensures AfterTicks(0, n, k) == k % n
    decreases k
  {
    if k < n {
      TicksClimb(0, n, k);
      ModUnique(k, n, 0, k);
    } else {
      var rest := k - n;
      TicksCompose(0, n, n, rest);
      TicksPeriod(0, n);
      assert AfterTicks(0, n, k) == AfterTicks(0, n, rest);
      TicksFromStart(n, rest);
      ModShift(k, n);
    }
  }

  /**
   * The running rotation: the images captured at load time, the index the
   * interval callback closes over, and the hero it paints. Valid says the
   * index is in range and the hero shows the current frame.
   */
  class Rotation {
    const home: Hero
    const frames: seq<ImageRecord>
    var current: nat

    ghost predicate Valid()
      reads this, home
    {
      0 < |frames| && current < |frames| &&
      home.backgroundImage == CssUrl(frames[current].data)
    }

    /** Show the first frame; the timer is started with this state. */
    constructor Start(home: Hero, frames: seq<ImageRecord>)
      requires frames != []
      modifies home
      ensures Valid() && this.home == home && this.frames == frames && current == 0
    {
      this.home := home;
      this.frames := frames;
      current := 0;
      new;
      home.backgroundImage := CssUrl(frames[0].data);
    }

    /**
     * The interval callback. Since each call moves `current` by `Advance`,
     * k calls after `Start` leave `current == AfterTicks(0, |frames|, k)`,
     * which `TicksFromStart` shows is k mod |frames|.
     */
    method Tick()
      requires Valid()
      modifies this, home
      ensures Valid() && current == Advance(old(current), |frames|)
    {
      current := (current + 1) % |frames|;
      home.backgroundImage := CssUrl(frames[current].data);
    }
  }

  /**
   * `loadSlideshow`: a missing hero is skipped; with no home image the hero
   * gets the fallback background and no rotation starts; otherwise the
   * hero shows the first image and a rotation over all of them starts.
   */
  method LoadSlideshow(home: Hero?, images: seq<ImageRecord>) returns (rotation: Rotation?)
    modifies home
    ensures home == null ==> rotation == null
    ensures home != null && images == [] ==>
      rotation == null && home.backgroundImage == CssUrl(FallbackUrl)
    ensures home != null && images != [] ==>
      rotation != null && fresh(rotation) && rotation.Valid() &&
      rotation.home == home && rotation.frames == images && rotation.current == 0
  {
    if home == null {
      return null;
    }
    if |images| == 0 {
      home.backgroundImage := CssUrl(FallbackUrl);
      return null;
    }
    rotation := new Rotation.Start(home, images);
  }
}
