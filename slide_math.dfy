/** Index arithmetic of the Slidezy carousel: clone padding, clamped stepping,
    the loop correction that shifts the index by the real slide count to a
    position showing the same slides, and the mapping from an index to a
    paging dot. Everything here is a pure function of the configuration and
    the index; the widget itself is in SlidezyWidget. */
module SlideMath {

  datatype Option<T> = None | Some(value: T)

  /** The `slideBy` option: a number of slides, or the literal 'page'. */
  datatype SlideBy = Slides(count: int) | Page

  /** The options the core reads, with the source's defaults below. */
  datatype Options = Options(
    items: int,
    speed: int,
    loop: bool,
    nav: bool,
    controls: bool,
    slideBy: SlideBy,
    autoPlay: bool,
    autoPlayTimeout: int,
    autoPlayHoverPause: bool)

  function Defaults(): Options {
    Options(items := 1, speed := 300, loop := false, nav := true, controls := true,
            slideBy := Slides(1), autoPlay := false, autoPlayTimeout := 3000,
            autoPlayHoverPause := true)
  }

  // ---------------------------------------------------------------------------
  // JavaScript primitives, written out with their own semantics

  function Min(a: int, b: int): int { if a <= b then a else b }
  function Max(a: int, b: int): int { if a >= b then a else b }

  function Abs(a: int): int { if a < 0 then -a else a }

  /** `a % b` in JavaScript: truncating, the result takes the sign of `a`. */
  function JsRem(a: int, b: int): (r: int)
    requires b != 0
    ensures -Abs(b) < r < Abs(b)
    ensures a >= 0 ==> 0 <= r
    ensures a <= 0 ==> r <= 0
    ensures a >= 0 && b > 0 ==> r == a % b
  {
    if a >= 0 then DivMod(a, Abs(b)); a % Abs(b)
    else DivMod(-a, Abs(b)); -((-a) % Abs(b))
  }

  /** `Math.ceil(a / b)` for a positive divisor: the least `r` with `a <= r * b`. */
  function CeilDiv(a: int, b: int): (r: int)
    requires b >= 1
    ensures (r - 1) * b < a <= r * b
  {
    var q := (-a) / b;
    DivMod(-a, b);
    assert -a == q * b + (-a) % b;
    assert (-q - 1) * b == -(q * b) - b;
    -q
  }

  /** `s.slice(-k)` for `k >= 1`: the last `k` elements, or all of `s` when it is shorter. */
  function SliceFromEnd<T>(s: seq<T>, k: int): (r: seq<T>)
    requires k >= 1
    ensures |r| == Min(k, |s|) && r == s[|s| - |r|..]
  {
    if k >= |s| then s else s[|s| - k..]
  }

  /** `s.slice(0, k)` for `k >= 0`: the first `k` elements, or all of `s` when it is shorter. */
  function SliceHead<T>(s: seq<T>, k: int): (r: seq<T>)
    requires k >= 0
    ensures |r| == Min(k, |s|) && r == s[..|r|]
  {
    if k >= |s| then s else s[..k]
  }

  // ---------------------------------------------------------------------------
  // Division facts the lemmas below are built from

  lemma DivMod(x: int, n: int)
    requires n > 0
    ensures x == (x / n) * n + x % n && 0 <= x % n < n
  {
  }

  /** Quotient and remainder are unique. */
  lemma DivModUnique(x: int, n: int, q: int, r: int)
    requires n > 0 && 0 <= r < n && x == q * n + r
    ensures x / n == q && x % n == r
  {
    var q' := x / n;
    DivMod(x, n);
    assert q' * n < (q + 1) * n;
    MulLessCancel(q', q + 1, n);
    assert q * n < (q' + 1) * n;
    MulLessCancel(q, q' + 1, n);
  }

  lemma MulNonNeg(a: int, n: int)
    requires a >= 0 && n >= 0
    ensures a * n >= 0
  {
  }

  lemma MulMono(a: int, b: int, n: int)
    requires a <= b && n >= 0
    ensures a * n <= b * n
  {
  }

  /** A positive factor can be cancelled from a strict inequality. */
  lemma MulLessCancel(a: int, b: int, n: int)
    requires n > 0 && a * n < b * n
    ensures a < b
  {
  }

  /** Adding a multiple of `n` does not change the remainder modulo `n`. */
  lemma ModShift(x: int, n: int, d: int)
    requires n > 0
    ensures (x + d * n) % n == x % n
  {
    DivMod(x, n);
    assert x + d * n == (x / n + d) * n + x % n;
    DivModUnique(x + d * n, n, x / n + d, x % n);
  }

  // ---------------------------------------------------------------------------
  // Clone padding (`_createTrack`) and the real slide count (`_getSlideCount`)

  /** The slide list after `_createTrack`: with `loop`, copies of the last `items`
      slides, then the originals, then copies of the first `items` slides.
      A deep `cloneNode` is a copy of the slide's value. */
  function Padded<T>(s: seq<T>, items: int, loop: bool): (r: seq<T>)
    requires items >= 1
    ensures |r| == |s| + (if loop then 2 * Min(items, |s|) else 0)
  {
    if loop then SliceFromEnd(s, items) + (s + SliceHead(s, items)) else s
  }

  /** `_getSlideCount`: the padded length less the two clone regions. */
  function SlideCount(len: int, items: int, loop: bool): int {
    len - (if loop then items * 2 else 0)
  }

  /** The padded track has `n + 2*items` slides and position `j` shows original
      `(j - items) mod n`: each clone shows the slide it stands in for. The real
      count recovers `n`. Without `loop` nothing changes. */
  lemma PaddedShape<T>(s: seq<T>, items: int, loop: bool)
    requires 1 <= items <= |s|
    ensures var p := Padded(s, items, loop);
      && (loop ==> |p| == |s| + 2 * items)
      && (!loop ==> p == s)
      && SlideCount(|p|, items, loop) == |s|
      && (loop ==> forall j :: 0 <= j < |p| ==> p[j] == s[(j - items + |s|) % |s|])
  {
    if loop {
      forall j | 0 <= j < |s| + 2 * items
        ensures Padded(s, items, loop)[j] == s[(j - items + |s|) % |s|]
      {
        PaddedAt(s, items, j);
      }
    }
  }

  lemma PaddedAt<T>(s: seq<T>, items: int, j: int)
    requires 1 <= items <= |s| && 0 <= j < |s| + 2 * items
    ensures var p := Padded(s, items, true);
      |p| == |s| + 2 * items && p[j] == s[(j - items + |s|) % |s|]
  {
    var k := PaddedSource(s, items, j);
    ModOfWrapped(j - items + |s|, |s|, k);
  }

  lemma ModOfWrapped(x: int, n: int, k: int)
    requires 0 <= k < n && (x == k || x == k + n || x == k + 2 * n)
    ensures x % n == k
  {
  }

  /** The original slide behind position `j` of the padded track, region by region. */
  lemma PaddedSource<T>(s: seq<T>, items: int, j: int) returns (k: int)
    requires 1 <= items <= |s| && 0 <= j < |s| + 2 * items
    ensures var p := Padded(s, items, true);
      && |p| == |s| + 2 * items && 0 <= k < |s| && p[j] == s[k]
      && k == (if j < items then j - items + |s| else if j < |s| + items then j - items else j - items - |s|)
  {
    var n := |s|;
    var head, tail := SliceFromEnd(s, items), SliceHead(s, items);
    var p := head + (s + tail);
    assert |head| == items && |tail| == items;
    if j < items {
      k := j - items + n;
      assert p[j] == head[j];
    } else if j < n + items {
      k := j - items;
      assert p[j] == (s + tail)[j - items];
    } else {
      k := j - items - n;
      assert p[j] == tail[k];
    }
  }

  // ---------------------------------------------------------------------------
  // Clamped stepping (`moveSlide`)

  /** The index `moveSlide(step)` moves to on a track of `len` slides:
      `Math.min(Math.max(index + step, 0), len - items)`. */
  function Stepped(index: int, step: int, len: int, items: int): (r: int)
    ensures items <= len ==> 0 <= r <= len - items
    ensures 0 <= index + step <= len - items ==> r == index + step
    ensures index + step < 0 && items <= len ==> r == 0
    ensures index + step > len - items ==> r == len - items
  {
    Min(Max(index + step, 0), len - items)
  }

  // ---------------------------------------------------------------------------
  // The deferred loop correction (the `setTimeout` callback of `moveSlide`)

  function Corrected(index: int, items: int, count: int, loop: bool): int {
    if !loop then index
    else if index < items then index + count
    else if index > count then index - count
    else index
  }

  /** The correction moves by the real slide count or not at all, leaves an
      index inside the real window `[items, count]` alone, and never leaves the
      track: from anywhere in `[0, count + items]` it lands in
      `[1, count + items - 1]`. */
  lemma CorrectionRange(index: int, items: int, count: int, loop: bool)
    requires 1 <= items <= count && 0 <= index <= count + items
    ensures var c := Corrected(index, items, count, loop);
      && (c == index || c == index + count || c == index - count)
      && (loop ==> 1 <= c <= count + items - 1)
      && (!loop || items <= index <= count ==> c == index)
  {
  }

  /** The correction keeps the index's value modulo the real slide count. */
  lemma CorrectionKeepsResidue(index: int, items: int, count: int, loop: bool)
    requires 1 <= count
    ensures Corrected(index, items, count, loop) % count == index % count
  {
    var c := Corrected(index, items, count, loop);
    if c == index + count {
      ModShift(index, count, 1);
    } else if c == index - count {
      ModShift(c, count, 1);
    }
  }

  /** The snap is invisible: the `items` slides in view are the same before and
      after it. */
  lemma SnapInvisible<T>(s: seq<T>, items: int, index: int)
    requires 1 <= items <= |s| && 0 <= index <= |s| + items
    ensures var p, c := Padded(s, items, true), Corrected(index, items, |s|, true);
      && 0 <= c && c + items <= |p| && index + items <= |p|
      && p[c..c + items] == p[index..index + items]
  {
  }

  // ---------------------------------------------------------------------------
  // Paging dots (`_createNav`, `_updateNav`)

  /** `pageCount = Math.ceil(slidesCount / items)`. */
  function PageCount(count: int, items: int): (r: int)
    requires items >= 1
    ensures count >= 0 ==> r >= 0
    ensures count >= 1 ==> r >= 1
  {
    var r := CeilDiv(count, items);
    if count >= 1 then
      assert 0 * items < r * items;
      MulLessCancel(0, r, items);
      r
    else if count >= 0 then
      assert (-1) * items < r * items;
      MulLessCancel(-1, r, items);
      r
    else r
  }

  /** `realIndex` of `_updateNav`: with loop, the index less the head clones,
      wrapped modulo the real count with JavaScript's `%`. */
  function RealIndex(index: int, items: int, count: int, loop: bool): (r: int)
    requires loop ==> count != 0
    ensures loop && count >= 1 && index + count >= items ==>
      0 <= r < count && r % count == (index - items) % count
  {
    if loop then
      var r := JsRem(index - items + count, count);
      if count >= 1 && index + count >= items then
        ModShift(index - items, count, 1);
        DivModUnique(r, count, 0, r);
        r
      else r
    else index
  }

  /** `pageIndex = Math.floor(realIndex / items)`; Dafny's `/` floors for a positive divisor. */
  function PageIndex(realIndex: int, items: int): (r: int)
    requires items >= 1
    ensures r * items <= realIndex < r * items + items
  {
    DivMod(realIndex, items);
    realIndex / items
  }

  /** The index a click on dot `i` jumps to. */
  function DotTarget(i: int, items: int, loop: bool): int {
    if loop then i * items + items else i * items
  }

  /** The dots after `_updateNav` marks page `p`: dot `j` is active exactly when `j == p`. */
  function ActiveDots(n: nat, p: int): seq<bool> {
    seq(n, j => j == p)
  }

  /** How many dots are active. */
  function ActiveCount(dots: seq<bool>): nat {
    if dots == [] then 0
    else ActiveCount(dots[..|dots| - 1]) + (if dots[|dots| - 1] then 1 else 0)
  }

  /** Exactly one dot is active when the page exists, none otherwise. */
  lemma {:induction false} ExactlyOneActive(n: nat, p: int)
    ensures ActiveCount(ActiveDots(n, p)) == (if 0 <= p < n then 1 else 0)
  {
    if n > 0 {
      assert ActiveDots(n, p)[..n - 1] == ActiveDots(n - 1, p);
      ExactlyOneActive(n - 1, p);
    }
  }

  lemma PageBelowCount(r: int, n: int, items: int)
    requires 1 <= items && 0 <= r < n
    ensures 0 <= PageIndex(r, items) < PageCount(n, items)
  {
    var q, c := r / items, PageCount(n, items);
    DivMod(r, items);
    assert q * items < c * items;
    MulLessCancel(q, c, items);
    assert (-1) * items < q * items;
    MulLessCancel(-1, q, items);
  }

  /** Every index the widget can hold maps to an existing dot: without loop any
      index on the track (`< n`), with loop any index from 0 on. */
  lemma NavPageInRange(index: int, items: int, n: int, loop: bool)
    requires 1 <= items <= n && 0 <= index && (!loop ==> index < n)
    ensures 0 <= PageIndex(RealIndex(index, items, n, loop), items) < PageCount(n, items)
  {
    PageBelowCount(RealIndex(index, items, n, loop), n, items);
  }

  /** The loop correction never changes the active dot. */
  lemma CorrectionKeepsPage(index: int, items: int, n: int, loop: bool)
    requires 1 <= items <= n && 0 <= index <= n + items
    ensures RealIndex(Corrected(index, items, n, loop), items, n, loop)
         == RealIndex(index, items, n, loop)
  {
    var c := Corrected(index, items, n, loop);
    if loop {
      CorrectionRange(index, items, n, loop);
      if c == index + n {
        ModShift(index - items + n, n, 1);
      } else if c == index - n {
        ModShift(c - items + n, n, 1);
      }
    }
  }

  lemma DotStartBelowCount(i: int, items: int, n: int)
    requires 1 <= items && 0 <= i < PageCount(n, items)
    ensures 0 <= i * items < n
  {
    MulNonNeg(i, items);
    MulMono(i, PageCount(n, items) - 1, items);
  }

  /** Clicking dot `i` lands on an index inside the track (inside the clamp
      bounds when looping) whose page is `i`: the clicked dot becomes the active one. */
  lemma DotRoundTrip(i: int, items: int, n: int, loop: bool)
    requires 1 <= items <= n && 0 <= i < PageCount(n, items)
    ensures var t := DotTarget(i, items, loop);
      && 0 <= t < n + (if loop then 2 * items else 0)
      && (loop ==> items <= t <= n + items - 1)
      && PageIndex(RealIndex(t, items, n, loop), items) == i
  {
    DotStartBelowCount(i, items, n);
    DivModUnique(i * items, items, i, 0);
    if loop {
      DivModUnique(i * items + n, n, 1, i * items);
    }
  }

  /** Without loop the last dot can jump past the last full window: with 5
      slides, 2 per view, dot 2 goes to index 4 while the clamp bound is 3, so
      the next step of one slide forward moves the track back to 3. */
  lemma DotPastLastWindow()
    ensures PageCount(5, 2) == 3
    ensures DotTarget(2, 2, false) == 4 > 5 - 2
    ensures Stepped(DotTarget(2, 2, false), 1, 5, 2) == 3
  {
  }

  /** Without loop, the last dot jumps past the last full window exactly when
      the slide count is not a multiple of `items`. */
  lemma LastDotPastLastWindow(n: int, items: int)
    requires 1 <= items <= n
    ensures DotTarget(PageCount(n, items) - 1, items, false) > n - items <==> n % items != 0
  {
    var c := PageCount(n, items);
    assert DotTarget(c - 1, items, false) == c * items - items;
    DivMod(n, items);
    var q := n / items;
    if n % items == 0 {
      MulLessCancel(c - 1, q, items);
      assert q * items < (c + 1) * items;
      MulLessCancel(q, c + 1, items);
    } else if c * items == n {
      DivModUnique(n, items, c, 0);
    }
  }

  /** A 'page' step forward from the start of page `p` shows page `p + 1`, and
      from the last page wraps to page 0, when looping. */
  lemma NextPageFromDot(p: int, items: int, n: int)
    requires 1 <= items <= n && 0 <= p < PageCount(n, items)
    ensures var t := Stepped(DotTarget(p, items, true), items, n + 2 * items, items);
      PageIndex(RealIndex(t, items, n, true), items) == (p + 1) % PageCount(n, items)
  {
    var c := PageCount(n, items);
    var a := (p + 1) * items;
    var t := Stepped(DotTarget(p, items, true), items, n + 2 * items, items);
    assert DotTarget(p, items, true) + items == a + items;
    MulNonNeg(p + 1, items);
    if a < n {
      assert t == a + items;
      InnerPage(p + 1, items, n);
      DivModUnique(p + 1, c, 0, p + 1);
    } else {
      assert t == n + items;
      DivModUnique(2 * n, n, 2, 0);
      assert RealIndex(t, items, n, true) == 0;
      LastPage(p, items, n);
      DivModUnique(p + 1, c, 1, 0);
    }
  }

  /** A page `q` whose first slide is a real one is shown at index `q*items + items`. */
  lemma InnerPage(q: int, items: int, n: int)
    requires 1 <= items <= n && 0 <= q && q * items < n
    ensures PageIndex(RealIndex(q * items + items, items, n, true), items) == q
    ensures q < PageCount(n, items)
  {
    MulNonNeg(q, items);
    DivModUnique(q * items + n, n, 1, q * items);
    DivModUnique(q * items, items, q, 0);
    DotPagesCover(q, items, n);
  }

  lemma DotPagesCover(i: int, items: int, n: int)
    requires 1 <= items && i * items < n
    ensures i < PageCount(n, items)
  {
  }

  lemma LastPage(p: int, items: int, n: int)
    requires 1 <= items && p < PageCount(n, items) && (p + 1) * items >= n
    ensures p + 1 == PageCount(n, items)
  {
  }

  // ---------------------------------------------------------------------------
  // Rendering (`_updatePosition`)

  /** The track's horizontal translation in percent, `-(index * (100 / items))`;
      real arithmetic stands in for the browser's floating point. */
  function Offset(index: int, items: int): (r: real)
    requires items >= 1
    ensures r * items as real == -(index as real) * 100.0
  {
    -(index as real * (100.0 / items as real))
  }

  /** `slideSize` of `_createControl`: 'page' steps by `items`. */
  function SlideSize(slideBy: SlideBy, items: int): int {
    match slideBy
    case Page => items
    case Slides(count) => count
  }
}
