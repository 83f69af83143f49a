/** The photo gallery of the condo listing: images tagged with a room
    category, a category filter, and a main image chosen by index among the
    filtered images. */
module Gallery {
  import opened Common

  datatype GalleryImage = GalleryImage(src: string, category: string)

  /** The filter id that shows every image. */
  const ShowAll: string := "all"

  const BedroomImages: seq<string> := ["bedroom-1.jpg", "bedroom-2.jpg"]
  const LivingImages: seq<string> := ["living-1.jpg", "living-2.jpg", "living-3.jpg", "living-4.jpg"]
  const CommonImages: seq<string> :=
    ["common-area-1.jpg", "common-area-2.jpg", "common-area-3.jpg", "common-area-4.jpg"]

  /** The filter buttons, in display order. */
  const CategoryButtons: seq<string> := [ShowAll, "bedroom", "living", "common"]

  /** `srcs.map(img => ({ src: img, category }))` */
  function Tag(srcs: seq<string>, category: string): (r: seq<GalleryImage>)
    ensures |r| == |srcs|
    ensures forall k :: 0 <= k < |r| ==> r[k] == GalleryImage(srcs[k], category)
  {
    if srcs == [] then [] else [GalleryImage(srcs[0], category)] + Tag(srcs[1..], category)
  }

  /** The bedroom, then living-room, then common-area images, each tagged
      with its category. */
  function AllImages(): seq<GalleryImage> {
    Tag(BedroomImages, "bedroom") + Tag(LivingImages, "living") + Tag(CommonImages, "common")
  }

  /** `images.filter(img => img.category === category)` */
  function FilterCategory(images: seq<GalleryImage>, category: string): (r: seq<GalleryImage>)
    ensures |r| <= |images|
    ensures forall k :: 0 <= k < |r| ==> r[k].category == category
  {
    if images == [] then []
    else (if images[0].category == category then [images[0]] else [])
         + FilterCategory(images[1..], category)
  }

  /** An image is kept by the filter exactly when it is in the list and has
      the category asked for. */
  lemma {:induction false} FilterMembership(images: seq<GalleryImage>, category: string, x: GalleryImage)
    ensures x in FilterCategory(images, category) <==> x in images && x.category == category
    decreases |images|
  {
    if images != [] {
      FilterMembership(images[1..], category, x);
      assert images == [images[0]] + images[1..];
    }
  }

  /** The images shown for the selected category. */
  function FilteredImages(activeCategory: string): seq<GalleryImage> {
    if activeCategory == ShowAll then AllImages()
    else FilterCategory(AllImages(), activeCategory)
  }

  /** `xs` is `ys` with some elements left out, the order kept. */
  predicate IsSubsequence(xs: seq<GalleryImage>, ys: seq<GalleryImage>)
    decreases |ys|
  {
    if xs == [] then true
    else if ys == [] then false
    else (xs[0] == ys[0] && IsSubsequence(xs[1..], ys[1..])) || IsSubsequence(xs, ys[1..])
  }

  /** Filtering keeps the order of the images it keeps. */
  lemma {:induction false} FilterIsSubsequence(images: seq<GalleryImage>, category: string)
    ensures IsSubsequence(FilterCategory(images, category), images)
    decreases |images|
  {
    if images != [] {
      FilterIsSubsequence(images[1..], category);
      var rest := FilterCategory(images[1..], category);
      if images[0].category == category {
        assert ([images[0]] + rest)[1..] == rest;
      } else {
        assert [] + rest == rest;
      }
    }
  }

  lemma {:induction false} FilterConcat(a: seq<GalleryImage>, b: seq<GalleryImage>, category: string)
    ensures FilterCategory(a + b, category) == FilterCategory(a, category) + FilterCategory(b, category)
    decreases |a|
  {
    if a == [] {
      assert a + b == b;
    } else {
      assert (a + b)[0] == a[0];
      assert (a + b)[1..] == a[1..] + b;
      FilterConcat(a[1..], b, category);
    }
  }

  /** Filtering images that all have the category asked for keeps them all. */
  lemma {:induction false} FilterTaggedSame(srcs: seq<string>, category: string)
    ensures FilterCategory(Tag(srcs, category), category) == Tag(srcs, category)
    decreases |srcs|
  {
    if srcs != [] {
      FilterTaggedSame(srcs[1..], category);
    }
  }

  /** Filtering images that all have another category keeps none. */
  lemma {:induction false} FilterTaggedOther(srcs: seq<string>, tagged: string, category: string)
    requires tagged != category
    ensures FilterCategory(Tag(srcs, tagged), category) == []
    decreases |srcs|
  {
    if srcs != [] {
      FilterTaggedOther(srcs[1..], tagged, category);
    }
  }

  /** The gallery holds ten images: two bedroom, four living-room and four
      common-area images, in that order. */
  lemma AllImagesLayout()
    ensures |AllImages()| == 10
    ensures forall k :: 0 <= k < 2 ==> AllImages()[k] == GalleryImage(BedroomImages[k], "bedroom")
    ensures forall k :: 2 <= k < 6 ==> AllImages()[k] == GalleryImage(LivingImages[k - 2], "living")
    ensures forall k :: 6 <= k < 10 ==> AllImages()[k] == GalleryImage(CommonImages[k - 6], "common")
  {
  }

  /** Each category button shows exactly the images of that category, and
      "all" shows every image. */
  lemma FilteredByButton()
    ensures FilteredImages(CategoryButtons[0]) == AllImages()
    ensures FilteredImages(CategoryButtons[1]) == Tag(BedroomImages, "bedroom")
    ensures FilteredImages(CategoryButtons[2]) == Tag(LivingImages, "living")
    ensures FilteredImages(CategoryButtons[3]) == Tag(CommonImages, "common")
  {
    assert CategoryButtons[0] == ShowAll && CategoryButtons[1] == "bedroom";
    assert CategoryButtons[2] == "living" && CategoryButtons[3] == "common";
    BedroomButton();
    LivingButton();
    CommonButton();
  }

  lemma BedroomButton() ensures FilteredImages("bedroom") == Tag(BedroomImages, "bedroom") {
    FilterTaggedSame(BedroomImages, "bedroom");
    FilterTaggedOther(LivingImages, "living", "bedroom");
    FilterTaggedOther(CommonImages, "common", "bedroom");
    KeepFirstGroup(Tag(BedroomImages, "bedroom"), Tag(LivingImages, "living"), Tag(CommonImages, "common"), "bedroom");
  }

  lemma LivingButton() ensures FilteredImages("living") == Tag(LivingImages, "living") {
    FilterTaggedOther(BedroomImages, "bedroom", "living");
    FilterTaggedSame(LivingImages, "living");
    FilterTaggedOther(CommonImages, "common", "living");
    KeepSecondGroup(Tag(BedroomImages, "bedroom"), Tag(LivingImages, "living"), Tag(CommonImages, "common"), "living");
  }

  lemma CommonButton() ensures FilteredImages("common") == Tag(CommonImages, "common") {
    FilterTaggedOther(BedroomImages, "bedroom", "common");
    FilterTaggedOther(LivingImages, "living", "common");
    FilterTaggedSame(CommonImages, "common");
    KeepThirdGroup(Tag(BedroomImages, "bedroom"), Tag(LivingImages, "living"), Tag(CommonImages, "common"), "common");
  }

  /** Filtering three groups filters each of them. */
  lemma FilterThree(b: seq<GalleryImage>, l: seq<GalleryImage>, c: seq<GalleryImage>, category: string)
    ensures FilterCategory(b + l + c, category)
         == FilterCategory(b, category) + FilterCategory(l, category) + FilterCategory(c, category)
  {
    FilterConcat(b + l, c, category);
    FilterConcat(b, l, category);
  }

  lemma KeepFirstGroup(b: seq<GalleryImage>, l: seq<GalleryImage>, c: seq<GalleryImage>, category: string)
    requires FilterCategory(b, category) == b && FilterCategory(l, category) == [] && FilterCategory(c, category) == []
    ensures FilterCategory(b + l + c, category) == b
  {
    FilterThree(b, l, c, category);
    assert b + [] + [] == b;
  }

  lemma KeepSecondGroup(b: seq<GalleryImage>, l: seq<GalleryImage>, c: seq<GalleryImage>, category: string)
    requires FilterCategory(b, category) == [] && FilterCategory(l, category) == l && FilterCategory(c, category) == []
    ensures FilterCategory(b + l + c, category) == l
  {
    FilterThree(b, l, c, category);
    assert [] + l + [] == l;
  }

  lemma KeepThirdGroup(b: seq<GalleryImage>, l: seq<GalleryImage>, c: seq<GalleryImage>, category: string)
    requires FilterCategory(b, category) == [] && FilterCategory(l, category) == [] && FilterCategory(c, category) == c
    ensures FilterCategory(b + l + c, category) == c
  {
    FilterThree(b, l, c, category);
    assert [] + [] + c == c;
  }

  /** For a category other than "all", the filtered images are the images of
      that category, in gallery order. */
  lemma FilteredIsCategorySubsequence(activeCategory: string)
    requires activeCategory != ShowAll
    ensures IsSubsequence(FilteredImages(activeCategory), AllImages())
    ensures forall x :: x in FilteredImages(activeCategory) <==> x in AllImages() && x.category == activeCategory
  {
    FilterIsSubsequence(AllImages(), activeCategory);
    forall x ensures x in FilteredImages(activeCategory) <==> x in AllImages() && x.category == activeCategory {
      FilterMembership(AllImages(), activeCategory, x);
    }
  }

  /** `Math.min(activeImage, Math.max(0, length - 1))`: the index of the main
      image, pulled back into the filtered list. */
  function ClampIndex(activeImage: int, length: nat): (r: int)
    ensures r <= activeImage
    ensures length == 0 && activeImage >= 0 ==> r == 0
    ensures length > 0 && activeImage >= 0 ==> 0 <= r < length
    ensures 0 <= activeImage < length ==> r == activeImage
    ensures activeImage >= length > 0 ==> r == length - 1
  {
    var top := if 0 > length - 1 then 0 else length - 1;
    if activeImage < top then activeImage else top
  }

  /** The main image: none when the filtered list is empty, otherwise the
      filtered image at the clamped index. */
  function MainImage(activeCategory: string, activeImage: nat): (r: Option<GalleryImage>)
    ensures r.None? <==> FilteredImages(activeCategory) == []
    ensures r.Some? ==> r.value in FilteredImages(activeCategory)
    ensures activeImage < |FilteredImages(activeCategory)| ==> r == Some(FilteredImages(activeCategory)[activeImage])
  {
    var images := FilteredImages(activeCategory);
    if |images| > 0 then Some(images[ClampIndex(activeImage, |images|)]) else None
  }

  /** The page's state: the selected category and the index of the main
      image. */
  class GalleryState {
    var activeImage: nat
    var activeCategory: string

    constructor ()
      ensures activeImage == 0 && activeCategory == ShowAll
    {
      activeImage := 0;
      activeCategory := ShowAll;
    }

    /** A category button; the effect that depends on the category resets the
        image index to 0 whenever the category actually changes. */
    method OnCategory(category: string)
      modifies this
      ensures activeCategory == category
      ensures activeImage == if category != old(activeCategory) then 0 else old(activeImage)
    {
      var changed := category != activeCategory;
      activeCategory := category;
      if changed {
        activeImage := 0;
      }
    }

    /** A thumbnail button, rendered for each index of the filtered images. */
    method OnThumbnail(index: nat)
      modifies this
      ensures activeImage == index && activeCategory == old(activeCategory)
    {
      activeImage := index;
    }

    function ShownImage(): (r: Option<GalleryImage>)
      reads this
      ensures r.None? <==> FilteredImages(activeCategory) == []
      ensures r.Some? ==> r.value in FilteredImages(activeCategory)
      ensures activeImage < |FilteredImages(activeCategory)| ==>
        r == Some(FilteredImages(activeCategory)[activeImage])
    {
      MainImage(activeCategory, activeImage)
    }
  }

  /** After a category change the first filtered image is shown, and after a
      thumbnail click the clicked image is shown. */
  lemma SelectionShowsImage(category: string, index: nat)
    ensures FilteredImages(category) != [] ==> MainImage(category, 0) == Some(FilteredImages(category)[0])
    ensures index < |FilteredImages(category)| ==> MainImage(category, index) == Some(FilteredImages(category)[index])
  {
  }
}
