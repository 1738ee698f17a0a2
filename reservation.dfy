/** The reservation buttons: the primary button's link target, and the
    floating button that shows once the page has been scrolled far enough. */
module Reservation {
  import opened Dom

  /** The booking link the primary button is pointed at. */
  const BookingUrl := "https://tu-sistema-de-reservas.com"

  /** The scroll offset, in CSS pixels, beyond which the floating button shows. */
  const ScrollThreshold: real := 300.0

  /** The class that shows the floating button. */
  const Visible := "visible"

  /** The scroll handler's effect on the floating button's class list:
      `visible` is present exactly when `scrollY > 300`, and no other class
      changes. */
  function AfterScroll(classes: set<string>, scrollY: real): (r: set<string>)
    ensures Visible in r <==> scrollY > ScrollThreshold
    ensures forall c :: c != Visible ==> (c in r <==> c in classes)
  {
    if scrollY > ScrollThreshold then classes + {Visible} else classes - {Visible}
  }

  /** The comparison is strict: at exactly 300 pixels the button is hidden. */
  lemma ThresholdIsStrict(classes: set<string>)
    ensures Visible !in AfterScroll(classes, 300.0)
    ensures Visible in AfterScroll(classes, 301.0)
    ensures Visible !in AfterScroll(classes + {Visible}, 299.0)
  {
  }

  /** A burst of scroll handler runs, oldest offset first. */
  function AfterScrolls(classes: set<string>, offsets: seq<real>): (r: set<string>)
    decreases |offsets|
  {
    if offsets == [] then classes else AfterScrolls(AfterScroll(classes, offsets[0]), offsets[1..])
  }

  /** After any run of the handler, whether the button shows depends only on
      the latest offset: neither earlier offsets nor the initial classes
      matter. */
  lemma {:induction false} LatestOffsetDecides(classes: set<string>, offsets: seq<real>)
    requires offsets != []
    ensures Visible in AfterScrolls(classes, offsets) <==> offsets[|offsets| - 1] > ScrollThreshold
    decreases |offsets|
  {
    if |offsets| > 1 {
      LatestOffsetDecides(AfterScroll(classes, offsets[0]), offsets[1..]);
    }
  }

  /** Handler runs leave every class other than `visible` as it was. */
  lemma {:induction false} ScrollsKeepOtherClasses(classes: set<string>, offsets: seq<real>, c: string)
    requires c != Visible
    ensures c in AfterScrolls(classes, offsets) <==> c in classes
    decreases |offsets|
  {
    if offsets != [] {
      ScrollsKeepOtherClasses(AfterScroll(classes, offsets[0]), offsets[1..], c);
    }
  }

  /** The body of the debounced scroll listener. */
  method OnScroll(floatingBtn: Element, scrollY: real)
    modifies floatingBtn`classes
    ensures floatingBtn.classes == AfterScroll(old(floatingBtn.classes), scrollY)
  {
    if scrollY > ScrollThreshold {
      floatingBtn.AddClass(Visible);
    } else {
      floatingBtn.RemoveClass(Visible);
    }
  }

  /** handleStateButton: when either button is missing nothing is wired and
      nothing changes; otherwise the primary button is pointed at the
      booking link and the listeners are installed (`wired`). */
  method HandleStateButton(reservaBtn: Element?, floatingBtn: Element?) returns (wired: bool)
    modifies (if reservaBtn == null then {} else {reservaBtn})`href
    ensures wired <==> reservaBtn != null && floatingBtn != null
    ensures wired ==> reservaBtn.href == BookingUrl
    ensures !wired && reservaBtn != null ==> reservaBtn.href == old(reservaBtn.href)
  {
    if reservaBtn == null || floatingBtn == null {
      return false;
    }
    reservaBtn.href := BookingUrl;
    wired := true;
  }
}
