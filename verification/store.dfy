/**
 * The browser-local image database "RoyalPhotowaalaDB": its object stores,
 * the schema step run when the database is opened at version 1 for the
 * first time, and the records the loaders read.
 */
module Store {
  import opened Wrappers

  /** How an object store keys its records: the key path and whether keys are generated. */
  datatype KeyPolicy = KeyPolicy(keyPath: string, autoIncrement: bool)

  const GalleryStore := "galleryImages"
  const HomeStore := "homeImages"
  const LogoStore := "websiteLogo"

  /** The version the page requests when it opens the database. */
  const SchemaVersion: nat := 1

  /** Keyed by "id", generated in insertion order (gallery and home images). */
  const AutoId := KeyPolicy("id", true)
  /** Keyed by "id", supplied by the writer (the single logo slot). */
  const ExplicitId := KeyPolicy("id", false)

  /** One stored image: its key and its opaque payload (a data URI or URL). */
  datatype ImageRecord = ImageRecord(id: int, data: string)

  /**
   * The object stores after the upgrade step: each of the three image stores
   * that is missing is created with its key policy; stores already present,
   * whatever their policy, are left as they were, and no other store appears.
   */
  function Upgraded(stores: map<string, KeyPolicy>): (r: map<string, KeyPolicy>)
    ensures r.Keys == stores.Keys + {GalleryStore, HomeStore, LogoStore}
    ensures forall name :: name in stores ==> r[name] == stores[name]
    ensures GalleryStore !in stores ==> r[GalleryStore] == AutoId
    ensures HomeStore !in stores ==> r[HomeStore] == AutoId
    ensures LogoStore !in stores ==> r[LogoStore] == ExplicitId
  {
    var withGallery := if GalleryStore in stores then stores else stores[GalleryStore := AutoId];
    var withHome := if HomeStore in withGallery then withGallery else withGallery[HomeStore := AutoId];
    if LogoStore in withHome then withHome else withHome[LogoStore := ExplicitId]
  }

  /** Running the upgrade step on an upgraded schema changes nothing. */
  lemma UpgradeIdempotent(stores: map<string, KeyPolicy>)
    ensures Upgraded(Upgraded(stores)) == Upgraded(stores)
  {
  }

  /** A schema that already holds all three stores is a fixed point of the upgrade. */
  lemma UpgradeKeepsCompleteSchema(stores: map<string, KeyPolicy>)
    requires GalleryStore in stores && HomeStore in stores && LogoStore in stores
    ensures Upgraded(stores) == stores
  {
  }

  /**
   * `store.get(key)`: the record with that key, if any. Keys are unique in an
   * object store, so the first match is the match.
   */
  function Get(records: seq<ImageRecord>, key: int): (r: Option<ImageRecord>)
    ensures r.Some? ==> r.value in records && r.value.id == key
    ensures r.None? <==> forall i :: 0 <= i < |records| ==> records[i].id != key
  {
    if records == [] then None
    else if records[0].id == key then Some(records[0])
    else Get(records[1..], key)
  }

  /** The database as the browser keeps it: its version and its object stores. */
  class Database {
    var version: nat
    var stores: map<string, KeyPolicy>

    constructor (version: nat, stores: map<string, KeyPolicy>)
      ensures this.version == version && this.stores == stores
    {
      this.version := version;
      this.stores := stores;
    }

    /** `createObjectStore`: the browser refuses a name that already exists. */
    method CreateObjectStore(name: string, policy: KeyPolicy)
      requires name !in stores
      modifies this
      ensures stores == old(stores)[name := policy] && version == old(version)
    {
      stores := stores[name := policy];
    }

    /** The `onupgradeneeded` handler: create each image store that is missing. */
    method OnUpgradeNeeded()
      modifies this
      ensures stores == Upgraded(old(stores)) && version == old(version)
    {
      if GalleryStore !in stores {
        CreateObjectStore(GalleryStore, AutoId);
      }
      if HomeStore !in stores {
        CreateObjectStore(HomeStore, AutoId);
      }
      if LogoStore !in stores {
        CreateObjectStore(LogoStore, ExplicitId);
      }
    }

    /**
     * `indexedDB.open(name, 1)`: when the browser refuses access (`denied`,
     * an input of the environment) or the database is newer than version 1,
     * the open fails and the error callback only logs; otherwise an older
     * database, including one that does not exist yet (version 0), is
     * upgraded first, and then it is open.
     */
    method Open(denied: bool) returns (isOpen: bool)
      modifies this
      ensures isOpen <==> !denied && old(version) <= SchemaVersion
      ensures isOpen ==> version == SchemaVersion
      ensures !isOpen ==> version == old(version) && stores == old(stores)
      ensures isOpen && old(version) < SchemaVersion ==> stores == Upgraded(old(stores))
      ensures isOpen && old(version) == SchemaVersion ==> stores == old(stores)
    {
      if denied || version > SchemaVersion {
        return false;
      }
      if version < SchemaVersion {
        OnUpgradeNeeded();
        version := SchemaVersion;
      }
      isOpen := true;
    }
  }
}
