/** The part of the browser document that the page script reads and changes. */
module Dom {

  /** The vertical edges of an element's bounding box, as getBoundingClientRect
      reports them (viewport coordinates, growing downwards). */
  datatype Rect = Rect(top: real, bottom: real)

  /** Content the script appends to containers. */
  datatype Node =
    | /** A `div.carousel-item` wrapping one lazily loaded `img`. */
      CarouselItem(className: string, src: string, alt: string, loading: string)
    | /** A `div.testimonial-card`: quoted text, author name, author descriptor. */
      TestimonialCard(quote: string, author: string, descriptor: string)

  /** A document element. Only the state the script touches is kept:
      its class list, its appended children, its `href`, and the layout box
      that the browser owns. */
  class Element {
    var classes: set<string>
    var children: seq<Node>
    var href: string
    var rect: Rect

    /** `classList.add(c)`. */
    method AddClass(c: string)
      modifies this`classes
      ensures classes == old(classes) + {c}
    {
      classes := classes + {c};
    }

    /** `classList.remove(c)`. */
    method RemoveClass(c: string)
      modifies this`classes
      ensures classes == old(classes) - {c}
    {
      classes := classes - {c};
    }

    /** `appendChild(fragment)`: the fragment's nodes move to the end, in order. */
    method AppendFragment(fragment: seq<Node>)
      modifies this`children
      ensures children == old(children) + fragment
    {
      children := children + fragment;
    }
  }
}
