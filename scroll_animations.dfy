/** The reveal animations: every `[data-animate]` element carries the class
    `animate-out` while it waits and gains `animate-in` when it is revealed.
    The pure part describes what each handler does to one class list; the
    methods apply it to the elements of the page. */
module ScrollAnimations {
  import opened Dom
  import opened Viewport

  const AnimateIn := "animate-in"
  const AnimateOut := "animate-out"

  /** The state a class list shows. `animate-in` wins: once it is present
      the element is displayed as revealed. */
  datatype RevealState = Unmarked | Pending | Revealed

  function StateOf(classes: set<string>): (s: RevealState)
  {
    if AnimateIn in classes then Revealed
    else if AnimateOut in classes then Pending
    else Unmarked
  }

  /** States ordered by how far an element has progressed. */
  function Rank(s: RevealState): (rank: nat)
  {
    match s
    case Unmarked => 0
    case Pending => 1
    case Revealed => 2
  }

  /** Setup: with an intersection observer the element is marked pending
      (`animate-out`); without one it is revealed at once (`animate-in`).
      Nothing else in the class list changes. */
  function Mark(classes: set<string>, hasObserver: bool): (r: set<string>)
    ensures hasObserver ==> AnimateOut in r
    ensures !hasObserver ==> AnimateIn in r
    ensures classes <= r && r - classes <= {if hasObserver then AnimateOut else AnimateIn}
    ensures hasObserver ==> StateOf(r) == (if StateOf(classes) == Revealed then Revealed else Pending)
    ensures !hasObserver ==> StateOf(r) == Revealed
  {
    classes + {if hasObserver then AnimateOut else AnimateIn}
  }

  /** Reveal: add `animate-in`, then remove `animate-out`; every other class
      is kept. */
  function Reveal(classes: set<string>): (r: set<string>)
    ensures AnimateIn in r && AnimateOut !in r && StateOf(r) == Revealed
    ensures forall c :: c != AnimateIn && c != AnimateOut ==> (c in r <==> c in classes)
  {
    (classes + {AnimateIn}) - {AnimateOut}
  }

  /** What the script can do to one marked element. */
  datatype Event =
    | /** initializeScrollAnimations */
      Setup(hasObserver: bool)
    | /** an entry handed to handleIntersection */
      Intersection(isIntersecting: bool)
    | /** handleInitialVisibleElements, with the element's geometry test */
      ViewportCheck(inViewport: bool)

  /** The effect of one event on the element's class list. */
  function Step(classes: set<string>, e: Event): (r: set<string>)
    ensures AnimateIn in classes ==> AnimateIn in r
    ensures Rank(StateOf(r)) >= Rank(StateOf(classes))
  {
    match e
    case Setup(hasObserver) => Mark(classes, hasObserver)
    case Intersection(isIntersecting) => if isIntersecting then Reveal(classes) else classes
    case ViewportCheck(inViewport) => if inViewport then Reveal(classes) else classes
  }

  /** The effect of a whole history of events, oldest first. */
  function Run(classes: set<string>, events: seq<Event>): (r: set<string>)
    ensures AnimateIn in classes ==> AnimateIn in r
    ensures Rank(StateOf(r)) >= Rank(StateOf(classes))
    decreases |events|
  {
    if events == [] then classes else Run(Step(classes, events[0]), events[1..])
  }

  /** An event that reveals. */
  predicate Reveals(e: Event)
  {
    match e
    case Setup(hasObserver) => !hasObserver
    case Intersection(isIntersecting) => isIntersecting
    case ViewportCheck(inViewport) => inViewport
  }

  /** Once any event of a history reveals the element, it ends revealed,
      whatever comes after: no handler takes `animate-in` away. */
  lemma {:induction false} RevealIsPermanent(classes: set<string>, events: seq<Event>, k: nat)
    requires k < |events| && Reveals(events[k])
    ensures StateOf(Run(classes, events)) == Revealed
    decreases k
  {
    if k == 0 {
      assert AnimateIn in Step(classes, events[0]);
    } else {
      RevealIsPermanent(Step(classes, events[0]), events[1..], k - 1);
    }
  }

  /** A history with no revealing event never shows the element as revealed
      unless it already was. */
  lemma {:induction false} NoRevealWithoutEvent(classes: set<string>, events: seq<Event>)
    requires AnimateIn !in classes
    requires forall k :: 0 <= k < |events| ==> !Reveals(events[k])
    ensures AnimateIn !in Run(classes, events)
    decreases |events|
  {
    if events != [] {
      NoRevealWithoutEvent(Step(classes, events[0]), events[1..]);
    }
  }

  /** An element that the resize handler reveals before the delayed setup
      runs ends up holding both classes: setup adds `animate-out` without
      looking at `animate-in`. */
  lemma RevealedBeforeSetupHoldsBoth(classes: set<string>)
    ensures AnimateIn in Run(classes, [ViewportCheck(true), Setup(true)])
    ensures AnimateOut in Run(classes, [ViewportCheck(true), Setup(true)])
  {
    assert [ViewportCheck(true), Setup(true)][1..] == [Setup(true)];
  }

  /** initializeScrollAnimations over the `[data-animate]` elements: every
      one is marked, and with an observer each is observed, in document
      order. The returned sequence is the observer's list of targets. */
  method InitializeScrollAnimations(elements: seq<Element>, hasObserver: bool)
      returns (observed: seq<Element>)
    modifies elements`classes
    ensures forall e :: e in elements ==> e.classes == Step(old(e.classes), Setup(hasObserver))
    ensures observed == (if hasObserver then elements else [])
  {
    if !hasObserver {
      for n := 0 to |elements|
        invariant forall e :: e in elements[..n] ==> e.classes == old(e.classes) + {AnimateIn}
        invariant forall e :: e in elements && e !in elements[..n] ==> e.classes == old(e.classes)
      {
        assert elements[..n + 1] == elements[..n] + [elements[n]];
        elements[n].AddClass(AnimateIn);
      }
      assert elements[..|elements|] == elements;
      return [];
    }
    observed := [];
    for n := 0 to |elements|
      invariant observed == elements[..n]
      invariant forall e :: e in elements[..n] ==> e.classes == old(e.classes) + {AnimateOut}
      invariant forall e :: e in elements && e !in elements[..n] ==> e.classes == old(e.classes)
    {
      assert elements[..n + 1] == elements[..n] + [elements[n]];
      elements[n].AddClass(AnimateOut);
      observed := observed + [elements[n]];
    }
    assert elements[..|elements|] == elements;
  }

  /** An entry handed to the observer callback. */
  datatype Entry = Entry(target: Element, isIntersecting: bool)

  function Targets(entries: seq<Entry>): (targets: seq<Element>)
    ensures |targets| == |entries|
    ensures forall k :: 0 <= k < |entries| ==> targets[k] == entries[k].target
  {
    seq(|entries|, k requires 0 <= k < |entries| => entries[k].target)
  }

  /** Some entry reports `e` as intersecting. */
  predicate Intersects(entries: seq<Entry>, e: Element)
  {
    exists k :: 0 <= k < |entries| && entries[k].target == e && entries[k].isIntersecting
  }

  /** One more entry reports `e` as intersecting exactly when the earlier
      entries did or the new one does. */
  lemma IntersectsExtended(entries: seq<Entry>, n: nat, e: Element)
    requires n < |entries|
    ensures Intersects(entries[..n + 1], e) <==>
      Intersects(entries[..n], e) || (entries[n].target == e && entries[n].isIntersecting)
  {
    if Intersects(entries[..n + 1], e) {
      var k :| 0 <= k < n + 1 && entries[..n + 1][k].target == e && entries[..n + 1][k].isIntersecting;
      if k < n {
        assert entries[..n][k] == entries[..n + 1][k];
      }
    }
    if Intersects(entries[..n], e) {
      var k :| 0 <= k < n && entries[..n][k].target == e && entries[..n][k].isIntersecting;
      assert entries[..n + 1][k] == entries[..n][k];
    }
    if entries[n].target == e && entries[n].isIntersecting {
      assert entries[..n + 1][n] == entries[n];
    }
  }

  /** handleIntersection: every element reported as intersecting is
      revealed; an element with only non-intersecting entries keeps its
      classes. */
  method HandleIntersection(entries: seq<Entry>)
    modifies Targets(entries)`classes
    ensures forall e :: e in Targets(entries) ==>
      e.classes == (if Intersects(entries, e) then Reveal(old(e.classes)) else old(e.classes))
  {
    for n := 0 to |entries|
      invariant forall e :: e in Targets(entries) ==>
        e.classes == (if Intersects(entries[..n], e) then Reveal(old(e.classes)) else old(e.classes))
    {
      var entry := entries[n];
      forall e
        ensures Intersects(entries[..n + 1], e) <==>
          Intersects(entries[..n], e) || (entry.target == e && entry.isIntersecting)
      {
        IntersectsExtended(entries, n, e);
      }
      if entry.isIntersecting {
        entry.target.AddClass(AnimateIn);
        entry.target.RemoveClass(AnimateOut);
      }
    }
    assert entries[..|entries|] == entries;
  }

  /** handleInitialVisibleElements: each element whose box passes the
      viewport test is revealed; the others keep their classes. */
  method HandleInitialVisibleElements(elements: seq<Element>, innerHeight: real)
    modifies elements`classes
    ensures forall e :: e in elements ==>
      e.classes == Step(old(e.classes), ViewportCheck(IsElementInViewport(e.rect, innerHeight)))
  {
    if |elements| == 0 {
      return;
    }
    for n := 0 to |elements|
      invariant forall e :: e in elements[..n] ==>
        e.classes == Step(old(e.classes), ViewportCheck(IsElementInViewport(e.rect, innerHeight)))
      invariant forall e :: e in elements && e !in elements[..n] ==> e.classes == old(e.classes)
    {
      assert elements[..n + 1] == elements[..n] + [elements[n]];
      var element := elements[n];
      if IsElementInViewport(element.rect, innerHeight) {
        element.AddClass(AnimateIn);
        element.RemoveClass(AnimateOut);
      }
    }
    assert elements[..|elements|] == elements;
  }
}
