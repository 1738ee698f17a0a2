/** The image carousel: a fixed image list shown twice in a row so that the
    CSS animation can loop without a visible seam. */
module Carousel {
  import opened Dom

  /** The `images` list of renderCarousel: eight copies of one photograph. */
  const Images: seq<string> := [
    "assets/img/corte1.jpeg", "assets/img/corte1.jpeg",
    "assets/img/corte1.jpeg", "assets/img/corte1.jpeg",
    "assets/img/corte1.jpeg", "assets/img/corte1.jpeg",
    "assets/img/corte1.jpeg", "assets/img/corte1.jpeg"
  ]

  /** `[...images, ...images]`: twice as long, and both halves are the
      original list in its original order. */
  function Duplicated<T>(images: seq<T>): (d: seq<T>)
    ensures |d| == 2 * |images|
    ensures d[..|images|] == images && d[|images|..] == images
    ensures forall k :: 0 <= k < |images| ==> d[k] == images[k] && d[k + |images|] == images[k]
  {
    images + images
  }

  /** The `div.carousel-item` made for one image: a lazily loaded `img`
      with the shared alternative text. */
  function ItemFor(src: string): (item: Node)
  {
    CarouselItem("carousel-item", src, "Imagen de la barbería", "lazy")
  }

  /** The forEach of renderCarousel: one item per entry of the duplicated
      list, in order, collected in a fragment. */
  method BuildFragment(images: seq<string>) returns (fragment: seq<Node>)
    ensures |fragment| == 2 * |images|
    ensures forall k :: 0 <= k < |images| ==>
      fragment[k] == ItemFor(images[k]) && fragment[k + |images|] == ItemFor(images[k])
  {
    var duplicatedImages := Duplicated(images);
    fragment := [];
    for n := 0 to |duplicatedImages|
      invariant |fragment| == n
      invariant forall k :: 0 <= k < n ==> fragment[k] == ItemFor(duplicatedImages[k])
    {
      fragment := fragment + [ItemFor(duplicatedImages[n])];
    }
  }

  /** renderCarousel: without a `carousel-track` element nothing happens;
      otherwise sixteen items, the eight images twice over, are appended to
      the track after whatever it already held. */
  method RenderCarousel(track: Element?)
    modifies (if track == null then {} else {track})`children
    ensures track != null ==>
      |track.children| == |old(track.children)| + 16 &&
      track.children[..|old(track.children)|] == old(track.children) &&
      forall k :: 0 <= k < 16 ==>
        track.children[|old(track.children)| + k] == ItemFor(Images[k % 8])
  {
    if track == null {
      return;
    }
    var fragment := BuildFragment(Images);
    forall k | 0 <= k < 16
      ensures fragment[k] == ItemFor(Images[k % 8])
    {
      if k >= 8 {
        assert fragment[(k - 8) + 8] == ItemFor(Images[k - 8]);
      }
    }
    track.AppendFragment(fragment);
  }
}
