# Slidezy carousel — a verified Dafny model

Slidezy is a browser carousel. It shows `items` slides at a time from a
horizontal track and moves the track by a step from the prev/next buttons,
the paging dots or an autoplay interval. With `loop`, the track is padded with
copies of the last and first `items` slides. After each move a deferred
correction shifts an index below `items` or above the real slide count by the
real slide count, to a position that shows the same slides.

The model has three modules:

- `SlideMath` (`slide_math.dfy`): the pure arithmetic. It covers JavaScript's
  `%`, `Math.ceil` and `slice`, the clone padding and `_getSlideCount`, the
  clamped step of `moveSlide`, the loop correction, the `realIndex` and
  `pageIndex` of `_updateNav`, dot targets, `slideSize`, and the lemmas about
  them.
- `SlidezyWidget` (`slidezy.dfy`): the class `Slidezy<T>`, with the source's
  fields (`slides`, `currentIndex`, `inAnimation`, `autoPlayTimer`,
  `slidesCount`, `pageCount`) and its methods. `Valid()` is the object
  invariant. It ties the padded slides to the originals and keeps the index on
  the track (and inside the clamp bounds when looping). It also says the dots
  are exactly the dot of the current page when nav is on, or the first dot
  when nav is off. Every method keeps it.
- `SlidezyScenarios` (`scenarios.dfy`): client walks through the widget that use
  only the contracts. They cover clamping at the last slide, the snap from the
  head clone, a loop that comes back to its start, the busy-flag guard (for
  `moveSlide`, the buttons and the autoplay firing), dot clicks and starting
  autoplay twice.

The browser's timers are explicit. Only `moveSlide` schedules the deferred
callback, right after it sets `inAnimation`, and only that callback clears the
flag. So a callback is pending exactly while `inAnimation` holds, and the host
runs it by calling `Settle()`. While an interval is armed, the host calls `Tick()` for each firing.
The handle that `setInterval` would return is passed to `StartAutoPlay` as a
parameter. `autoPlayTimer` is an `Option`, and `Some` stands for a truthy
handle. A render records the track's transition and its offset. The offset is
computed in `real`.

Two behaviours of the code are easy to misread. The first render at construction is animated (`_updatePosition()` with no
argument), so it syncs the dots when nav is on. Without `loop`, a dot click is
not clamped. So `currentIndex <= slides.length - items` is not an invariant
of the code in that case. `DotPastLastWindow` shows 5 slides with 2 per view,
where dot 2 jumps to index 4 while the clamp bound is 3. The next step forward
then moves back to 3. `LastDotPastLastWindow` shows that the last dot overshoots
exactly when the slide count is not a multiple of `items`.

## Model

| member | source | states |
|---|---|---|
| `SlideMath.Defaults` | src/slidezy.js:9-22 | the option defaults: one slide per view, 300 ms, no loop, nav and controls on, a step of one slide, autoplay off with a 3000 ms timeout and hover pause on |
| `SlideMath.JsRem` | src/slidezy.js:190-191 | JavaScript's `%`: the result has the sign of the dividend and a smaller magnitude than the divisor, and agrees with the mathematical remainder for a non-negative dividend |
| `SlideMath.CeilDiv` | src/slidezy.js:138 | `Math.ceil(a / b)` is the least `r` with `a <= r * b`: `(r - 1) * b < a <= r * b` |
| `SlideMath.PageCount` | src/slidezy.js:138 | the page count is non-negative for a non-negative slide count, and at least one when there is a slide |
| `SlideMath.SliceFromEnd` | src/slidezy.js:81-83 | `slice(-k)` is the suffix of length `min(k, n)` |
| `SlideMath.SliceHead` | src/slidezy.js:84-86 | `slice(0, k)` is the prefix of length `min(k, n)` |
| `SlideMath.Padded` | src/slidezy.js:80-88 | the slides after `_createTrack`: with loop, the last `items` slides, the originals, then the first `items` slides, so the length grows by twice `min(items, n)`; the contents are proved in `PaddedShape` and `PaddedAt` |
| `SlideMath.SlideCount` | src/slidezy.js:128-130 | `_getSlideCount` on a track length: the length less `2*items` with loop; `PaddedShape` proves it gives back the number of originals |
| `SlideMath.PaddedShape` | src/slidezy.js:80-88 | with loop the padded track has `n + 2*items` slides, position `j` shows original `(j - items) mod n`, and `_getSlideCount` gives back `n`; without loop the slides are unchanged |
| `SlideMath.PaddedAt` | src/slidezy.js:80-88 | each position of the padded track, clone or not, holds the original slide `(j - items) mod n` |
| `SlideMath.Stepped` | src/slidezy.js:162-166 | the stepped index lies in `[0, len - items]`, equals `index + step` when that is in range, and is clamped to the nearer bound otherwise |
| `SlideMath.Corrected` | src/slidezy.js:169-179 | the index the deferred callback leaves: plus the real count below `items`, minus it above the real count, unchanged otherwise or without loop; its range, residue and view are proved in the three lemmas below |
| `SlideMath.CorrectionRange` | src/slidezy.js:168-180 | the correction moves by `+count`, `-count` or not at all, keeps an index in `[items, count]` and every index without loop, and takes any index of `[0, count + items]` into `[1, count + items - 1]`, inside the clamp bounds |
| `SlideMath.CorrectionKeepsResidue` | src/slidezy.js:168-180 | the corrected index is congruent to the old one modulo the real slide count |
| `SlideMath.SnapInvisible` | src/slidezy.js:168-180 | the `items` slides in view are the same before and after the snap |
| `SlideMath.CorrectionKeepsPage` | src/slidezy.js:185-194 | the correction does not change `realIndex`, so the active dot is the same before and after the snap |
| `SlideMath.RealIndex` | src/slidezy.js:186-192 | with loop and an index on the track, `realIndex` lies in `[0, n)` and is congruent to `index - items` modulo `n`, so it names the original slide shown first |
| `SlideMath.PageIndex` | src/slidezy.js:194 | `Math.floor(realIndex / items)` is the page whose `items`-wide block holds `realIndex`: `r*items <= realIndex < r*items + items` |
| `SlideMath.NavPageInRange` | src/slidezy.js:185-194 | for any index on the track, `pageIndex` names an existing dot: `0 <= pageIndex < ceil(n / items)` |
| `SlideMath.ExactlyOneActive` | src/slidezy.js:198-200 | toggling `active` on `index === pageIndex` leaves exactly one active dot when the page exists, and none otherwise |
| `SlideMath.DotTarget` | src/slidezy.js:146-148 | the index a click on dot `i` jumps to: `i*items`, plus the `items` head clones with loop; `DotRoundTrip` proves it maps back to page `i` |
| `SlideMath.DotRoundTrip` | src/slidezy.js:145-150 | clicking dot `i` lands on an index on the track, inside the clamp bounds when looping, whose page is `i` |
| `SlideMath.DotPastLastWindow` | src/slidezy.js:145-150 | without loop, with 5 slides and 2 per view, dot 2 jumps past the clamp bound and the next step forward goes back |
| `SlideMath.LastDotPastLastWindow` | src/slidezy.js:145-150 | without loop, the last dot's target lies past the last full window `n - items` exactly when `n` is not a multiple of `items` |
| `SlideMath.NextPageFromDot` | src/slidezy.js:121-125 | with loop and `slideBy: 'page'`, a next click from the start of page `p` shows page `(p + 1) mod pageCount` |
| `SlideMath.SlideSize` | src/slidezy.js:121-122 | the button step: `items` for `'page'`, the number of slides otherwise |
| `SlideMath.Offset` | src/slidezy.js:207 | the track's translation in percent: `offset * items == -100 * index`, so each slide is `100 / items` percent wide and the track moves left as the index grows |
| `SlidezyWidget.Slidezy.GetSlideCount` | src/slidezy.js:128-130 | `_getSlideCount` on the widget's slides; `SlideCountIsReal` proves it is the number of originals |
| `SlidezyWidget.Slidezy.constructor` | src/slidezy.js:25-29 | the index starts at `items` with loop and at 0 without, the track is padded, the first dot is active, autoplay is armed exactly when enabled, and the invariant holds |
| `SlidezyWidget.Slidezy.StartAutoPlay` | src/slidezy.js:54-62 | an armed timer is kept; otherwise the new handle is stored, so starting twice leaves one timer |
| `SlidezyWidget.Slidezy.StopAutoPlay` | src/slidezy.js:64-67 | the handle is cleared |
| `SlidezyWidget.Slidezy.MouseEnter` | src/slidezy.js:48 | with autoplay and hover pause the timer is stopped, otherwise nothing changes |
| `SlidezyWidget.Slidezy.MouseLeave` | src/slidezy.js:49 | with autoplay and hover pause the timer is restarted unless armed, otherwise nothing changes |
| `SlidezyWidget.Slidezy.CreateTrack` | src/slidezy.js:76-98 | the slides become the padded sequence and the track holds them in order |
| `SlidezyWidget.Slidezy.CreateControl` | src/slidezy.js:121-125 | the buttons step by `items` for `'page'` and by `slideBy` otherwise |
| `SlidezyWidget.Slidezy.CreateNav` | src/slidezy.js:132-156 | `slidesCount` is `_getSlideCount()`, there are `ceil(slidesCount / items)` dots and only the first is active |
| `SlidezyWidget.Slidezy.UpdateNav` | src/slidezy.js:185-201 | after the loop, dot `j` is active exactly when `j` is the page of the current index |
| `SlidezyWidget.Slidezy.UpdatePosition` | src/slidezy.js:203-213 | the transition is `none` for an instant render and `speed` otherwise, the offset is `-(index * 100 / items)`, and the dots are synced only on an animated render with nav on |
| `SlidezyWidget.Slidezy.MoveSlide` | src/slidezy.js:158-183 | while a move is in flight nothing changes; otherwise the flag is set, the correction is scheduled, the index becomes the clamped step, an animated render follows, and the invariant holds |
| `SlidezyWidget.Slidezy.Settle` | src/slidezy.js:168-181 | the pending callback clears the busy flag and sets the index to its loop correction, with an instant render only when the index moved; the dots are untouched; with nothing pending nothing changes |
| `SlidezyWidget.Slidezy.CorrectionCallback` | src/slidezy.js:168-181 | the callback clears the busy flag; the index becomes its loop correction (unchanged without loop), the render and the dots change only as the correction says, and the invariant holds |
| `SlidezyWidget.Slidezy.LoopCorrection` | src/slidezy.js:169-179 | an index in the head clones moves forward by the real slide count and one past the real window moves back by it, with an instant render only when it moved; the active dot stays the same and the invariant holds |
| `SlidezyWidget.Slidezy.ClickDot` | src/slidezy.js:145-150 | the index becomes `i*items` (plus `items` with loop) whatever the busy flag, and with nav on dot `i` becomes the only active dot |
| `SlidezyWidget.Slidezy.ClickPrev` | src/slidezy.js:124 | `moveSlide(-slideSize)`: while a move is in flight nothing changes; otherwise the busy flag is set, the index becomes the clamped step back and an animated render follows, so a second click before the correction is ignored |
| `SlidezyWidget.Slidezy.ClickNext` | src/slidezy.js:125 | `moveSlide(slideSize)`: while a move is in flight nothing changes; otherwise the busy flag is set, the index becomes the clamped step forward and an animated render follows, so a second click before the correction is ignored |
| `SlidezyWidget.Slidezy.Tick` | src/slidezy.js:59-61 | while the interval is armed and no move is in flight, a firing sets the busy flag, steps the index by `slideBy` with the clamp and renders with animation; otherwise nothing changes |
| `SlidezyWidget.Slidezy.SlideCountIsReal` | src/slidezy.js:128-130 | on a valid widget `_getSlideCount()` is the number of original slides, the same as `slidesCount` |
| `SlidezyWidget.Slidezy.OneActiveDot` | src/slidezy.js:198-200 | on every valid widget exactly one dot is active |
| `SlidezyWidget.Slidezy.ActiveDotIsCurrentPage` | src/slidezy.js:185-200 | with nav on, the current page is an existing dot and it is the active one |

## Left out

- DOM construction and mutation are not modelled: `createElement`, `appendChild`, class names, `innerText`, the content wrapper (`_createContent`) and the nav wrapper element. The track is a sequence of slide values, a deep `cloneNode` is a copy of the value, and a dot is its `active` flag.
- The failure when the container is missing (`querySelector` and `console.error`) is not modelled, and neither is the lookup of external prev/next buttons by selector. The model starts from the container's children.
- `Object.assign` is not modelled. The model takes the merged options as a value; `Defaults()` gives the source's defaults. `controlText`, `prevButton` and `nextButton` only affect the DOM.
- The CSS strings (`flexBasis`, `transition`, `translateX`) are reduced to a `Transition` value and a `real` offset. Floating-point rounding of `100 / items` and of the divisions in `Math.ceil` and `Math.floor` is not modelled; the model uses exact arithmetic.
- Real time is not modelled. `setTimeout` and `setInterval` become the explicit calls `Settle` and `Tick`, and timer handles are parameters.
- SlidezyWidget.Slidezy.constructor: requires `1 <= items <= number of slides`. The source assumes this without checking it. Outside that range `slice(-items)` returns the whole list, `_getSlideCount` is wrong, and `maxIndex` can be negative.
- SlidezyWidget.Slidezy.Tick: requires `slideBy` to be a number. The interval passes the raw option, and with `'page'` the source would concatenate strings inside `moveSlide`.
