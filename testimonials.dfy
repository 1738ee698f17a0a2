/** The testimonial section: a fixed list of six testimonials, a random
    selection of them, and the cards appended to the page. */
module Testimonials {
  import opened Dom
  import opened FisherYates

  /** One entry of `testimonios`: the quote (`texto`), the author's name
      (`nombre`), the author descriptor (`tipo`) and a portrait path
      (`imagen`). */
  datatype Testimonial = Testimonial(text: string, name: string, kind: string, image: string)

  /** The module-level `testimonios` list, in source order. */
  const Testimonios: seq<Testimonial> := [
    Testimonial(
      "La mejor experiencia de barbería que he tenido. El servicio es impecable y la atención al detalle es increíble.",
      "Carlos Méndez", "Cliente desde 2018", "assets/img/testimonial-1.jpg"),
    Testimonial(
      "Siempre salgo de aquí sintiéndome renovado. Los barberos realmente saben lo que hacen y el ambiente es relajante.",
      "David Ramos", "Cliente frecuente", "assets/img/testimonial-2.jpg"),
    Testimonial(
      "Recomiendo este lugar a todos mis amigos. La calidad del servicio justifica cada centavo.",
      "José Rodríguez", "Cliente desde 2015", "assets/img/testimonial-3.jpg"),
    Testimonial(
      "Excelente servicio y atención. Nunca me había sentido tan cómodo en una barbería.",
      "Miguel Ángel", "Cliente desde 2020", "assets/img/testimonial-4.jpg"),
    Testimonial(
      "Los mejores cortes de la ciudad. Siempre recibo cumplidos después de venir aquí.",
      "Andrés Gómez", "Cliente semanal", "assets/img/testimonial-5.jpg"),
    Testimonial(
      "Ambiente increíble y profesionales de primera. Mi lugar favorito para el cuidado personal.",
      "Fernando Castro", "Cliente mensual", "assets/img/testimonial-6.jpg")
  ]

  /** How many testimonials renderTestimonials asks for. */
  const DisplayCount := 3

  function Min(a: int, b: int): (m: int)
    ensures m <= a && m <= b && (m == a || m == b)
  {
    if a < b then a else b
  }

  /** The six entries are pairwise different (their portrait paths differ
      in the digit at position 23), so an entry identifies its source
      position. */
  lemma TestimoniosAreDistinct()
    ensures |Testimonios| == 6 && Distinct(Testimonios)
  {
    forall i, j | 0 <= i < j < |Testimonios|
      ensures Testimonios[i] != Testimonios[j]
    {
      assert Testimonios[i].image[23] != Testimonios[j].image[23];
    }
  }

  /** The end index `Array.prototype.slice(0, count)` uses on a list of
      length `len`: a negative `count` counts back from the end, and the
      result is clamped to the list, so slicing never fails. */
  function SliceEnd(count: int, len: nat): (end: nat)
    ensures end <= len
    ensures 0 <= count ==> end == Min(count, len)
    ensures count < 0 ==> end == if len + count < 0 then 0 else len + count
  {
    if count < 0 then (if len + count < 0 then 0 else len + count)
    else if count < len then count
    else len
  }

  /** Whatever the swap partners, the first `end` shuffled testimonials
      are pairwise different entries of the list. */
  lemma {:induction false} SelectionIsDistinct(js: seq<int>, end: nat)
    requires ValidChoices(js, |Testimonios|) && end <= |Testimonios|
    ensures Distinct(Shuffle(Testimonios, js)[..end])
    ensures forall t :: t in Shuffle(Testimonios, js)[..end] ==> t in Testimonios
  {
    ShuffleIsPermutation(Testimonios, js);
    TestimoniosAreDistinct();
    PrefixOfPermutation(Testimonios, Shuffle(Testimonios, js), end);
  }

  /** getRandomTestimonials(count): shuffle a copy of the list, then take
      the first `count` entries. */
  method GetRandomTestimonials(count: int, randoms: seq<real>) returns (picked: seq<Testimonial>)
    requires ValidDraws(randoms, |Testimonios|)
    ensures picked == Shuffle(Testimonios, Choices(randoms, |Testimonios|))[..SliceEnd(count, |Testimonios|)]
    ensures 0 <= count ==> |picked| == Min(count, |Testimonios|)
    ensures Distinct(picked)
    ensures forall t :: t in picked ==> t in Testimonios
  {
    var shuffled := new Testimonial[|Testimonios|](k requires 0 <= k < |Testimonios| => Testimonios[k]);
    assert shuffled[..] == Testimonios;
    ShuffleInPlace(shuffled, randoms);
    picked := shuffled[..SliceEnd(count, shuffled.Length)];
    SelectionIsDistinct(Choices(randoms, |Testimonios|), SliceEnd(count, |Testimonios|));
  }

  /** The card createTestimonialHTML produces, reduced to the three texts it
      shows; the portrait path is not rendered. */
  function Card(t: Testimonial): (card: Node)
  {
    TestimonialCard(t.text, t.name, t.kind)
  }

  /** Two testimonials give the same card exactly when they agree on the
      three texts: the portrait is the only part the card drops. */
  lemma CardDropsOnlyPortrait(t: Testimonial, u: Testimonial)
    ensures Card(t) == Card(u) <==> t.text == u.text && t.name == u.name && t.kind == u.kind
  {
  }

  /** The six entries give six different cards, so the three cards rendered
      are pairwise different too (the authors' initials all differ). */
  lemma CardsAreDistinct()
    ensures forall i, j :: 0 <= i < j < |Testimonios| ==> Card(Testimonios[i]) != Card(Testimonios[j])
  {
    forall i, j | 0 <= i < j < |Testimonios|
      ensures Card(Testimonios[i]) != Card(Testimonios[j])
    {
      assert Testimonios[i].name[0] != Testimonios[j].name[0];
    }
  }

  /** renderTestimonials: without a `testimonials-container` element nothing
      happens; otherwise the cards of three random testimonials are appended
      to it in one fragment, in the order drawn. */
  method RenderTestimonials(container: Element?, randoms: seq<real>)
    requires ValidDraws(randoms, |Testimonios|)
    modifies (if container == null then {} else {container})`children
    ensures container != null ==>
      var drawn := Shuffle(Testimonios, Choices(randoms, |Testimonios|));
      |container.children| == |old(container.children)| + DisplayCount &&
      container.children[..|old(container.children)|] == old(container.children) &&
      forall k :: 0 <= k < DisplayCount ==>
        container.children[|old(container.children)| + k] == Card(drawn[k])
  {
    if container == null {
      return;
    }
    var picked := GetRandomTestimonials(DisplayCount, randoms);
    var fragment: seq<Node> := [];
    for k := 0 to |picked|
      invariant fragment == seq(k, n requires 0 <= n < k => Card(picked[n]))
    {
      fragment := fragment + [Card(picked[k])];
    }
    container.AppendFragment(fragment);
  }
}
