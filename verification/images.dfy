/**
 * The logo slot and the gallery grid: what each shows for the records read
 * from its object store, and the loaders that clear the element and then
 * append to it.
 */
module Images {
  import opened Wrappers
  import opened Text
  import opened Dom
  import opened Store

  /** The key of the single logo record. */
  const LogoKey := 1
  const LogoAlt := "Royal Photowaala Logo"

  /** At most this many gallery records are shown; the rest are not. */
  const GalleryCap: nat := 50
  const GalleryPlaceholder := "No images available. Admin can add images in dashboard."
  const GalleryAltPrefix := "Gallery Image "

  /** The logo image element: fixed alt text, 80px high, 10px right margin, loaded eagerly. */
  function LogoImage(src: string): Node {
    Image(src, LogoAlt, Eager, AutoDecoding, "80px", "10px")
  }

  /**
   * What the logo slot holds once the lookup of key 1 has answered: one
   * logo image of the stored payload when a record was found and its
   * payload is non-empty (truthy), otherwise nothing.
   */
  function LogoView(found: Option<ImageRecord>): (r: seq<Node>)
    ensures |r| <= 1
    ensures r == [] <==> found.None? || found.value.data == ""
    ensures r != [] ==> r[0] == LogoImage(found.value.data)
  {
    if found.Some? && found.value.data != "" then [LogoImage(found.value.data)] else []
  }

  /** `loadLogo`: a missing slot element is skipped; otherwise it is cleared and filled. */
  method LoadLogo(slot: Container?, logoRecords: seq<ImageRecord>)
    modifies slot
    ensures slot != null ==> slot.children == LogoView(Get(logoRecords, LogoKey))
  {
    if slot == null {
      return;
    }
    slot.Clear();
    var found := Get(logoRecords, LogoKey);
    if found.Some? && found.value.data != "" {
      slot.AppendChild(LogoImage(found.value.data));
    }
  }

  /** The alt text of the gallery image at zero-based position i: numbered from 1. */
  function GalleryLabel(i: nat): string {
    GalleryAltPrefix + Decimal(i + 1)
  }

  /** One gallery image element: lazily loaded, decoded asynchronously. */
  function GalleryTile(rec: ImageRecord, i: nat): Node {
    Image(rec.data, GalleryLabel(i), Lazy, AsyncDecoding, "", "")
  }

  /** The tiles for records shown from position `from` on, in stored order. */
  function Tiles(recs: seq<ImageRecord>, from: nat): (r: seq<Node>)
    ensures |r| == |recs|
    ensures forall i :: 0 <= i < |recs| ==> r[i] == GalleryTile(recs[i], from + i)
  {
    if recs == [] then [] else [GalleryTile(recs[0], from)] + Tiles(recs[1..], from + 1)
  }

  function Min(a: nat, b: nat): nat {
    if a <= b then a else b
  }

  /**
   * What the gallery holds for the records of its store: the placeholder
   * text when there are none; otherwise the first min(n, 50) records, in
   * stored order, the i-th as an image of its payload labelled
   * "Gallery Image i+1".
   */
  function GalleryView(images: seq<ImageRecord>): (r: seq<Node>)
    ensures images == [] ==> r == [Paragraph(GalleryPlaceholder)]
    ensures images != [] ==> |r| == Min(|images|, GalleryCap)
    ensures images != [] ==> forall i :: 0 <= i < |r| ==>
      r[i] == GalleryTile(images[i], i) &&
      r[i].Image? && r[i].src == images[i].data && r[i].alt == GalleryLabel(i) &&
      r[i].loading == Lazy && r[i].decoding == AsyncDecoding
  {
    if images == [] then [Paragraph(GalleryPlaceholder)]
    else Tiles(images[..Min(|images|, GalleryCap)], 0)
  }

  /** `loadGallery`: clear the grid, then show the placeholder or append each tile. */
  method LoadGallery(gallery: Container?, images: seq<ImageRecord>)
    modifies gallery
    ensures gallery != null ==> gallery.children == GalleryView(images)
  {
    if gallery == null {
      return;
    }
    gallery.Clear();
    if |images| == 0 {
      gallery.ShowParagraph(GalleryPlaceholder);
      return;
    }
    var shown := images[..Min(|images|, GalleryCap)];
    for i := 0 to |shown|
      invariant |gallery.children| == i
      invariant forall k :: 0 <= k < i ==> gallery.children[k] == GalleryTile(shown[k], k)
    {
      gallery.AppendChild(GalleryTile(shown[i], i));
    }
    assert gallery.children == Tiles(shown, 0);
  }

  /** The numbers in the gallery's alt texts are the positions, counted from 1. */
  lemma GalleryLabelNumber(i: nat)
    ensures GalleryLabel(i)[..|GalleryAltPrefix|] == GalleryAltPrefix
    ensures ParseDecimal(GalleryLabel(i)[|GalleryAltPrefix|..]) == i + 1
  {
    assert GalleryLabel(i)[|GalleryAltPrefix|..] == Decimal(i + 1);
    DecimalRoundTrip(i + 1);
  }

  /** No two gallery images share an alt text. */
  lemma GalleryLabelsDistinct(i: nat, j: nat)
    requires i != j
    ensures GalleryLabel(i) != GalleryLabel(j)
  {
    if GalleryLabel(i) == GalleryLabel(j) {
      GalleryLabelNumber(i);
      GalleryLabelNumber(j);
    }
  }

  /** Records past the fiftieth never reach the page: the view depends on the first fifty only. */
  lemma GalleryIgnoresTail(images: seq<ImageRecord>, more: seq<ImageRecord>)
    requires |images| >= GalleryCap
    ensures GalleryView(images + more) == GalleryView(images)
  {
  }

  /** Two stored records "x" and "y" give two lazily loaded images, "x" then "y". */
  lemma GalleryTwoRecords()
    ensures GalleryView([ImageRecord(1, "x"), ImageRecord(2, "y")]) ==
      [Image("x", "Gallery Image 1", Lazy, AsyncDecoding, "", ""),
       Image("y", "Gallery Image 2", Lazy, AsyncDecoding, "", "")]
  {
    var v := GalleryView([ImageRecord(1, "x"), ImageRecord(2, "y")]);
    assert Decimal(1) == "1" && Decimal(2) == "2";
    assert GalleryLabel(0) == "Gallery Image 1" && GalleryLabel(1) == "Gallery Image 2";
    assert |v| == 2;
    assert v[0] == GalleryTile(ImageRecord(1, "x"), 0) && v[1] == GalleryTile(ImageRecord(2, "y"), 1);
  }
}
