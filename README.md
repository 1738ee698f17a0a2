# Barbershop landing page: verified model of the page script's logic

`script/main.js` drives a barbershop landing page. Most of it wires up the
browser: it schedules work, registers listeners and checks which browser
features exist. This project models the parts that hold real logic and
proves what they guarantee:

- **Testimonial selection** (`getRandomTestimonials`). The script copies the
  fixed list of six testimonials into a fresh array and runs a Fisher–Yates
  shuffle in place, swapping downwards from the last index to index 1. It
  then keeps the first `count` entries. `renderTestimonials` turns three of
  them into cards and appends the cards to `#testimonials-container` in one
  fragment.
- **Carousel construction** (`renderCarousel`). The script concatenates the
  eight-image list with itself and appends one `carousel-item` per entry,
  in order, to `#carousel-track`.
- **Reveal animations** (`initializeScrollAnimations`, `handleIntersection`,
  `handleInitialVisibleElements`). Every `[data-animate]` element is marked
  `animate-out` (pending). It gains `animate-in` and loses `animate-out`
  when it is revealed. Without an intersection observer, setup reveals
  every element at once.
- **Decision rules**. One is the viewport test of `isElementInViewport`: the
  top edge is at most three quarters of the window height, and the bottom
  edge is not above the window. The other is the floating reservation
  button's rule: it shows exactly when `scrollY > 300`.

## Layout

- `dom.dfy` (`Dom`): the document state the script touches. `Element` is a
  class with a class list, appended children, an `href` and a layout box.
  It has the `classList.add`/`remove` and `appendChild` operations.
- `viewport.dfy` (`Viewport`): the viewport test and lemmas about it.
- `fisher_yates.dfy` (`FisherYates`): the shuffle. It has a specification
  function (`ShuffleSteps`/`Shuffle`), the in-place array loop
  (`ShuffleInPlace`), and the permutation and distinctness lemmas.
- `testimonials.dfy` (`Testimonials`): the testimonial list, selection and
  rendering.
- `carousel.dfy` (`Carousel`): list duplication, fragment building and
  rendering.
- `scroll_animations.dfy` (`ScrollAnimations`): a pure state machine over
  class lists (`Mark`, `Reveal`, `Step`, `Run`) and its lemmas, plus the
  three handlers as methods over `Element` objects.
- `reservation.dfy` (`Reservation`): the scroll rule for the floating button
  and the button wiring.

## Modelling decisions

- `Math.random()` is not called. Each shuffle takes a sequence `randoms` of
  values in [0, 1), one per loop iteration, in call order. The swap partner
  is `Math.floor(r * (i + 1))` (`DrawIndex`), and the model proves it lies in
  [0, i] rather than assuming it. The shuffle's specification is written
  over the resulting swap partners (`Choices`), so every permutation and
  distinctness lemma holds for any in-range partners, not only for the ones
  the draws produce. Nothing is claimed about uniformity.
- The testimonial list is an immutable value (`Testimonios`). The shuffle
  runs on a freshly allocated array initialised from it, just as the script
  shuffles a spread copy. The source list cannot change.
- `slice(0, count)` keeps JavaScript's treatment of a negative `count`,
  which counts back from the end (`SliceEnd`). A `count` larger than the
  list is clamped, so it never fails.
- The callbacks of `requestAnimationFrame` inside `handleIntersection` and
  `handleInitialVisibleElements` are applied at once, in entry order.
- A class list can hold both `animate-in` and `animate-out`. This happens
  when `handleInitialVisibleElements` (run by the resize listener) reveals
  an element before the delayed setup marks it
  (`RevealedBeforeSetupHoldsBoth`). `StateOf` reads such an element as
  revealed. That is an assumption about the stylesheet, which decides how
  the page shows it (see "Left out"). The "never regresses" statements of
  `Step` and `Run` are about this reading.
- The geometry and the scroll offset are exact reals, not IEEE doubles.
- `handleInitialVisibleElements` and `handleAccessibility` are not called at
  page load, because their calls are commented out (script/main.js:8-9).
  The model follows the code. The viewport test is reached only through the
  resize listener. `initializeScrollAnimations` runs in the delayed tier
  together with `handleStateButton`.

## Model

| member | source | states |
|---|---|---|
| `FisherYates.DrawIndex` | script/main.js:173 | the swap partner `Math.floor(r * (i + 1))` lies in [0, i] for every draw r in [0, 1) |
| `FisherYates.Choices` | script/main.js:172-173 | the partners the draws select are valid for every loop iteration: iteration k (index n-1-k) gets a partner in [0, n-1-k] |
| `FisherYates.ShuffleSteps` | script/main.js:172-175 | after m iterations of the downward loop the list keeps its length |
| `FisherYates.Swap` | script/main.js:174 | position i gets the old entry at j, position j gets the old entry at i, and every other position keeps its entry |
| `FisherYates.SwapIsPermutation` | script/main.js:174 | one destructuring swap keeps the multiset of entries |
| `FisherYates.ShuffleStepsIsPermutation` | script/main.js:172-175 | any number of loop iterations leaves a permutation of the input |
| `FisherYates.ShuffleIsPermutation` | script/main.js:172-175 | the complete shuffle has the input's length and multiset, whatever the swap partners |
| `FisherYates.Shuffle` | script/main.js:172-175 | the whole loop (n-1 iterations, none for an empty list) keeps the length; that it permutes the list is `ShuffleIsPermutation` |
| `FisherYates.PermutationKeepsDistinct` | script/main.js:171-175 | shuffling a list without repetitions produces none |
| `FisherYates.PrefixOfPermutation` | script/main.js:176 | a prefix of such a shuffle has no repetitions, and each of its entries is in the original list |
| `FisherYates.ShuffleInPlace` | script/main.js:171-175 | the array after the in-place loop is the specification shuffle of its old contents, with the partners drawn from `randoms` |
| `Testimonials.TestimoniosAreDistinct` | script/main.js:123-166 | the list has six pairwise different entries, so each entry identifies its source position |
| `Testimonials.SliceEnd` | script/main.js:176 | the end of `slice(0, count)` never exceeds the list; it is `min(count, len)` for non-negative `count` and counts back from the end for a negative one |
| `Testimonials.SelectionIsDistinct` | script/main.js:169-177 | for any swap partners, the first `end` shuffled testimonials are pairwise different entries of the list |
| `Testimonials.GetRandomTestimonials` | script/main.js:169-177 | the result is the first `count` entries of the shuffled copy, exactly `min(count, 6)` of them for `count >= 0`, pairwise distinct, each from the list |
| `Testimonials.RenderTestimonials` | script/main.js:195-210 | with no container nothing changes; otherwise exactly three cards are appended after the old children, the k-th showing the k-th shuffled testimonial |
| `Testimonials.Card` | script/main.js:180-192 | definition, no contract: the card carries the quote, the author's name and the descriptor; its properties are the two lemmas below |
| `Testimonials.CardDropsOnlyPortrait` | script/main.js:180-192 | two testimonials give the same card exactly when they agree on quote, name and descriptor, so only the portrait is dropped |
| `Testimonials.CardsAreDistinct` | script/main.js:180-192 | the six testimonials give six different cards |
| `Carousel.Duplicated` | script/main.js:291 | the duplicated list has length 2N, and positions k and k+N both hold `images[k]` |
| `Carousel.BuildFragment` | script/main.js:291-308 | the fragment holds one item per duplicated image, in order: 2N items, the second half repeating the first |
| `Carousel.ItemFor` | script/main.js:297-304 | definition, no contract: a `carousel-item` showing `src` with the shared alt text and lazy loading |
| `Carousel.RenderCarousel` | script/main.js:274-311 | with no track nothing changes; otherwise 16 items are appended after the old children, item k showing image k mod 8 |
| `Viewport.IsElementInViewport` | script/main.js:92-95 | definition, no contract: the test itself; its properties are the three lemmas below |
| `Viewport.InViewportOnPixels` | script/main.js:92-95 | on whole pixels the test is `4*top <= 3*innerHeight && bottom >= 0` |
| `Viewport.OutsideEitherBound` | script/main.js:94 | an element failing either bound is not in view |
| `Viewport.InViewportMonotone` | script/main.js:94 | raising the top edge or lowering the bottom edge keeps an element in view |
| `ScrollAnimations.StateOf` | script/main.js:51-67 | definition, no contract: `animate-in` reads as revealed, otherwise `animate-out` reads as pending |
| `ScrollAnimations.Mark` | script/main.js:31-55 | setup adds its marker class (`animate-out` with an observer, `animate-in` without one) and nothing else; with an observer the element reads as pending unless it was already revealed, without one it reads as revealed |
| `ScrollAnimations.Reveal` | script/main.js:64-67 | revealing leaves `animate-in` present and `animate-out` absent, and every other class unchanged |
| `ScrollAnimations.Step` | script/main.js:31-87 | no handler removes `animate-in`, and no handler moves an element back to an earlier state |
| `ScrollAnimations.Run` | script/main.js:31-87 | over any history of handler events, `animate-in` is never lost and the state never regresses |
| `ScrollAnimations.RevealIsPermanent` | script/main.js:31-87 | once any event reveals an element, it ends revealed whatever follows |
| `ScrollAnimations.NoRevealWithoutEvent` | script/main.js:51-69 | an element that is not revealed stays unrevealed through a history without a revealing event |
| `ScrollAnimations.RevealedBeforeSetupHoldsBoth` | script/main.js:31-87 | an element revealed by the resize handler before setup runs ends with both `animate-in` and `animate-out` |
| `ScrollAnimations.InitializeScrollAnimations` | script/main.js:31-55 | every marked element gets `animate-out` with an observer and `animate-in` without one; all of them, and only with an observer, are observed in order |
| `ScrollAnimations.HandleIntersection` | script/main.js:60-70 | each element that some entry reports as intersecting is revealed; elements with only non-intersecting entries keep their classes |
| `ScrollAnimations.HandleInitialVisibleElements` | script/main.js:75-87 | each element whose box passes the viewport test is revealed; the others keep their classes |
| `Reservation.AfterScroll` | script/main.js:250-254 | after the handler, `visible` is present exactly when `scrollY > 300`, and no other class changes |
| `Reservation.ThresholdIsStrict` | script/main.js:250 | at 300 the button is hidden; at 301 it shows; at 299 it hides even if it was visible |
| `Reservation.AfterScrolls` | script/main.js:247-256 | definition, no contract: successive runs of the handler, oldest offset first; its properties are the two lemmas below |
| `Reservation.LatestOffsetDecides` | script/main.js:247-256 | after any sequence of handler runs, visibility depends only on the latest offset, not on earlier offsets or the initial state |
| `Reservation.ScrollsKeepOtherClasses` | script/main.js:250-254 | handler runs never change a class other than `visible` |
| `Reservation.OnScroll` | script/main.js:249-255 | the scroll handler sets the floating button's classes to `AfterScroll` of the old ones |
| `Reservation.HandleStateButton` | script/main.js:237-244 | the buttons are wired only when both exist; then the primary button points at the booking link; otherwise nothing changes |

## Left out

- The start-up scheduling is left out: the `DOMContentLoaded` handler, the 800 ms `setTimeout` tier, the `requestIdleCallback` tier with its 2000 ms ceiling, and the idle-callback polyfill (script/main.js:6-26, 321-334). This is event-loop timing with no data transformation.
- `debounce` and the registration of the scroll and resize listeners are left out (script/main.js:215-235, 247-256). `OnScroll` and `AfterScrolls` model the handler body and a series of its runs. Which runs survive the debounce is not modelled.
- The intersection observer's threshold (0.15) and root margin (-50px) are left out. `isIntersecting` is an input, because the browser computes it.
- `getBoundingClientRect` is left out: the box is the element's `rect` field, owned by the browser. IEEE comparison behaviour, such as NaN making the test false, is not modelled.
- `StateOf`: the stylesheet is not modelled. Reading an element that holds both `animate-in` and `animate-out` as revealed assumes that the `animate-in` rule wins in CSS. The monotonicity statements of `Step`, `Run` and `RevealIsPermanent` are about this reading. On classes alone, the model promises only that `animate-in` is never removed.
- `requestAnimationFrame` deferral is left out: its callbacks are applied at once.
- `DrawIndex`: does not model double-precision rounding of `Math.random() * (i + 1)`. The product is an exact real. Nothing is claimed about how uniform the shuffle is.
- `SliceEnd`: covers integer `count` only. The conversion of non-integer, `NaN` or `undefined` arguments is not modelled.
- `RenderTestimonials`: the draws are a parameter even when the container is missing. In the script, that path never calls `Math.random`.
- `createTestimonialHTML` templating and the `innerHTML` parsing are left out (script/main.js:180-192, 204-206). A card is reduced to the three texts it shows (quote, author, descriptor); the portrait path is never rendered. The texts are interpolated without escaping, and this is not modelled.
- The `<img>` element inside each carousel item is folded into the `CarouselItem` node (source, alt text, lazy loading).
- `handleAccessibility` and `matchMedia` (script/main.js:100-121) are left out: browser preference calls with no internal logic.
- The click handlers that call `window.open` (script/main.js:258-271) are left out, including the lookup of the floating button's inner link. `HandleStateButton` returns whether the listeners would be installed.
- `updateFooterYear` (script/main.js:313-319) is left out: it depends on the clock.
