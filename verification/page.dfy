/**
 * Page start-up for the image surfaces: open the database (upgrading its
 * schema when needed) and, once it is open, render the logo slot, the
 * gallery and the slideshow from the records of their stores.
 */
module Page {
  import opened Dom
  import opened Store
  import opened Images
  import opened Slideshow

  /** The records the three stores hold when they are read. */
  datatype StoreContents = StoreContents(logo: seq<ImageRecord>, gallery: seq<ImageRecord>, home: seq<ImageRecord>)

  /**
   * `indexedDB.open` followed by the success callback's three loaders. The
   * open fails when the browser refuses access (`denied`) or the database
   * is newer than version 1; then nothing is rendered. Otherwise the
   * loaders run in order: logo, gallery, slideshow. Each first opens a
   * transaction on its store, which throws when that store is missing, and
   * the exception ends the callback, so neither that loader nor any later
   * one renders. Every surface that is reached and present on the page
   * shows its view, and the slideshow rotation, if any, is returned. The
   * logo slot and the gallery are different elements (distinct ids).
   */
  method OpenAndRender(db: Database, denied: bool, contents: StoreContents,
                       logoSlot: Container?, gallery: Container?, home: Hero?)
    returns (isOpen: bool, rotation: Rotation?)
    requires logoSlot == null || logoSlot != gallery
    modifies db, logoSlot, gallery, home
    ensures isOpen <==> !denied && old(db.version) <= SchemaVersion
    ensures !isOpen ==>
      rotation == null && db.version == old(db.version) && db.stores == old(db.stores) &&
      (logoSlot != null ==> logoSlot.children == old(logoSlot.children)) &&
      (gallery != null ==> gallery.children == old(gallery.children)) &&
      (home != null ==> home.backgroundImage == old(home.backgroundImage))
    ensures isOpen ==>
      db.version == SchemaVersion &&
      db.stores == (if old(db.version) < SchemaVersion then Upgraded(old(db.stores)) else old(db.stores))
    ensures isOpen && old(db.version) < SchemaVersion ==>
      GalleryStore in db.stores && HomeStore in db.stores && LogoStore in db.stores
    ensures isOpen && logoSlot != null ==>
      logoSlot.children ==
        (if LogoStore in db.stores then LogoView(Get(contents.logo, LogoKey)) else old(logoSlot.children))
    ensures isOpen && gallery != null ==>
      gallery.children ==
        (if LogoStore in db.stores && GalleryStore in db.stores then GalleryView(contents.gallery)
         else old(gallery.children))
    ensures isOpen && !(LogoStore in db.stores && GalleryStore in db.stores && HomeStore in db.stores) ==>
      rotation == null && (home != null ==> home.backgroundImage == old(home.backgroundImage))
    ensures isOpen && LogoStore in db.stores && GalleryStore in db.stores && HomeStore in db.stores ==>
      (home == null ==> rotation == null) &&
      (home != null && contents.home == [] ==> rotation == null && home.backgroundImage == CssUrl(FallbackUrl)) &&
      (home != null && contents.home != [] ==>
        rotation != null && fresh(rotation) && rotation.Valid() && rotation.home == home &&
        rotation.frames == contents.home && rotation.current == 0)
  {
    isOpen := db.Open(denied);
    if !isOpen {
      return false, null;
    }
    if LogoStore !in db.stores {
      return true, null;
    }
    LoadLogo(logoSlot, contents.logo);
    if GalleryStore !in db.stores {
      return true, null;
    }
    LoadGallery(gallery, contents.gallery);
    if HomeStore !in db.stores {
      return true, null;
    }
    rotation := LoadSlideshow(home, contents.home);
  }
}
