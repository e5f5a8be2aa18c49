/** The service manager: lazy initialisation of the remote collaborators and
    the basename-keyed local document cache (`ServiceManager`). */
module SmartCache {
  import opened Wrappers
  import opened TaxModel
  import JavaFile
  import JavaStrings

  /** The exceptions the manager lets escape. */
  datatype Error =
    | IllegalState(message: string)  // IllegalStateException
    | NumberFormat                   // the database port setting is not a number
    | Retrieval                      // the remote share could not deliver the file
    | Storage                        // a local directory or file could not be created

  const MissingConfiguration: string := "Configurazione mancante. Vai in Impostazioni."
  const ServiceNotInitialised: string := "Servizio non inizializzato"
  const MetadataNotInitialised: string := "Metadata non inizializzato"

  // ---------------------------------------------------------------------
  // Collaborators
  // ---------------------------------------------------------------------

  /** The user's settings file: key to value. */
  type Config = map<string, string>

  const KeyHost: string := "raspberry.host"
  const KeyDbPort: string := "db.port"
  const DefaultDbPort: string := "3306"

  /** `cfg.get(key, default)`. */
  function ConfigGet(cfg: Config, key: string, default: string): string {
    if key in cfg then cfg[key] else default
  }

  /** The remote share: the bytes stored under (directory, file name), whether
      it can be reached at all, and, when `breakAfter` is set, the number of
      bytes after which a transfer breaks off. */
  datatype RemoteStore = RemoteStore(
    reachable: bool,
    files: map<(string, string), Bytes>,
    breakAfter: Option<nat>)

  /** What one `storage.loadFile(dir, name)` plus the copy of its stream yields. */
  datatype Fetch =
    | Fetched(bytes: Bytes)     // the whole file arrived
    | Broken(partial: Bytes)    // the stream opened, then broke after these bytes
    | Refused                   // loadFile itself threw

  function LoadFile(store: RemoteStore, dir: string, name: string): (f: Fetch)
    ensures f.Fetched? ==> (dir, name) in store.files && f.bytes == store.files[(dir, name)]
    ensures f.Broken? ==>
      && (dir, name) in store.files
      && |f.partial| < |store.files[(dir, name)]|
      && f.partial == store.files[(dir, name)][..|f.partial|]
    ensures f.Refused? <==> !store.reachable || (dir, name) !in store.files
  {
    if !store.reachable || (dir, name) !in store.files then Refused
    else
      var b := store.files[(dir, name)];
      if store.breakAfter.Some? && store.breakAfter.value < |b| then Broken(b[..store.breakAfter.value])
      else Fetched(b)
  }

  /** The metadata database: the years it knows, the expenses of each year and
      the registered persons. */
  datatype MetadataStore = MetadataStore(
    years: seq<string>,
    byYear: map<string, seq<Expense>>,
    persons: seq<Person>)

  /** `findByYear(year)`; a year without expenses gives an empty list. */
  function FindByYear(db: MetadataStore, year: string): seq<Expense> {
    if year in db.byYear then db.byYear[year] else []
  }

  /** The default port setting is a valid port. */
  lemma DefaultPortParses()
    ensures JavaStrings.ParseInt(DefaultDbPort) == Some(3306)
  {
    var d := DefaultDbPort;
    assert forall i :: 0 <= i < |d| ==> JavaStrings.IsDigit(d[i]);
    assert d[..3] == "330" && "330"[..2] == "33" && "33"[..1] == "3" && "3"[..0] == "";
    assert JavaStrings.DigitsValue(d) == 3306;
    JavaStrings.ParseIntAccepts(d);
  }

  /** The business service built over both collaborators. */
  datatype TaxReportService = TaxReportService(storage: RemoteStore, metadata: MetadataStore)

  // ---------------------------------------------------------------------
  // The local cache directory
  // ---------------------------------------------------------------------

  /** The cache directory: whether it exists, and the files in it by name. */
  datatype LocalCache = LocalCache(dirExists: bool, files: map<string, Bytes>)

  /** A file can only be in the cache while the directory exists. */
  ghost predicate CacheValid(c: LocalCache) {
    !c.dirExists ==> c.files == map[]
  }

  const CacheDirName: string := "TaxReportCache"

  /** `Paths.get(tempDir, "TaxReportCache")`: the two joined by a separator,
      normalised; an empty temp directory gives the relative path
      "TaxReportCache". */
  function CacheRoot(tempDir: string): (root: string)
    ensures JavaFile.IsNormal(root) && root != "" && root[|root| - 1] != JavaFile.Separator
    ensures tempDir == "" ==> root == CacheDirName
  {
    CacheDirNameIsSimple();
    if tempDir == "" then
      JavaFile.SimpleName(CacheDirName);
      CacheDirName
    else
      JavaFile.NameOfNormalizedChild(tempDir, CacheDirName);
      var r := JavaFile.Normalize(tempDir + "/" + CacheDirName);
      assert r[|r| - 1] == r[|r| - |CacheDirName|..][|CacheDirName| - 1];
      r
  }

  /** Whatever the temp directory, the cache directory is named "TaxReportCache". */
  lemma CacheRootName(tempDir: string)
    ensures JavaFile.Name(CacheRoot(tempDir)) == CacheDirName
  {
    CacheDirNameIsSimple();
    if tempDir == "" {
      JavaFile.SimpleName(CacheDirName);
    } else {
      JavaFile.NameOfNormalizedChild(tempDir, CacheDirName);
    }
  }

  /** A non-empty temp directory is the cache directory's parent. */
  lemma CacheRootParent(tempDir: string)
    requires tempDir != ""
    ensures JavaFile.Parent(CacheRoot(tempDir)) == Some(JavaFile.Normalize(tempDir))
  {
    CacheDirNameIsSimple();
    JavaFile.ParentOfNormalizedChild(tempDir, CacheDirName);
  }

  lemma CacheDirNameIsSimple()
    ensures CacheDirName != "" && JavaFile.HasNoSeparator(CacheDirName)
  {
  }

  /** `cachePath.resolve(name)` for a name without separators: a file
      directly inside `root` named `name`; an empty name resolves to `root`. */
  function LocalPath(root: string, name: string): (r: string)
    ensures name == "" ==> r == root
    ensures JavaFile.IsNormal(root) && root != "" && root[|root| - 1] != JavaFile.Separator &&
            name != "" && JavaFile.HasNoSeparator(name) ==>
              JavaFile.Name(r) == name && JavaFile.Parent(r) == Some(root)
  {
    if name == "" then root
    else
      assert JavaFile.IsNormal(root) && root != "" && root[|root| - 1] != JavaFile.Separator &&
             JavaFile.HasNoSeparator(name) ==>
               JavaFile.Name(root + "/" + name) == name && JavaFile.Parent(root + "/" + name) == Some(root) by {
        if JavaFile.IsNormal(root) && root != "" && root[|root| - 1] != JavaFile.Separator && JavaFile.HasNoSeparator(name) {
          JavaFile.SplitChild(root, name);
        }
      }
      root + "/" + name
  }

  /** The cache key of a document: the last component of its relative path. */
  function Filename(doc: Document): (name: string)
    ensures JavaFile.HasNoSeparator(name)
  {
    JavaFile.Name(doc.relativePath)
  }

  /** The remote directory of a document: "" exactly when `getParent` is null. */
  function ParentPath(doc: Document): (dir: string)
    ensures dir == "" <==> JavaFile.Parent(doc.relativePath).None?
    ensures dir != "" ==> JavaFile.Parent(doc.relativePath) == Some(dir)
  {
    JavaFile.Parent(doc.relativePath).GetOr("")
  }

  /** A cache hit: the file exists and is not empty. */
  predicate IsHit(c: LocalCache, name: string) {
    name in c.files && |c.files[name]| > 0
  }

  /** The outcome of one resolve: the returned path or the error, the cache
      afterwards, and the (directory, name) pairs asked of the remote share. */
  datatype Resolution = Resolution(result: Result<string, Error>, cache: LocalCache, fetched: seq<(string, string)>)

  /** Resolving a document once the manager is ready: a hit returns the cached
      path; a miss asks the share for (parent, name) and writes what arrives
      straight to the cached path. */
  function Resolve(root: string, c: LocalCache, store: RemoteStore, doc: Document): (res: Resolution)
    ensures CacheValid(c) ==> CacheValid(res.cache)
    ensures res.cache.dirExists == c.dirExists
    ensures res.cache.files - {Filename(doc)} == c.files - {Filename(doc)}
    ensures res.fetched == [] <==> IsHit(c, Filename(doc))
    ensures res.fetched != [] ==> res.fetched == [(ParentPath(doc), Filename(doc))]
    ensures res.result.Ok? ==> res.result.value == LocalPath(root, Filename(doc)) && Filename(doc) in res.cache.files
    ensures IsHit(c, Filename(doc)) ==> res.cache == c && res.result.Ok?
    ensures !IsHit(c, Filename(doc)) ==>
      var f := LoadFile(store, ParentPath(doc), Filename(doc));
      && (res.result.Ok? <==> f.Fetched? && c.dirExists)
      && (res.result == Err(Storage) <==> !f.Refused? && !c.dirExists)
      && (res.result == Err(Retrieval) <==> f.Refused? || (f.Broken? && c.dirExists))
      && (f.Fetched? && c.dirExists ==> res.cache.files == c.files[Filename(doc) := f.bytes])
      && (f.Broken? && c.dirExists ==> res.cache.files == c.files[Filename(doc) := f.partial])
      && (f.Refused? || !c.dirExists ==> res.cache == c)
  {
    var name := Filename(doc);
    var parent := ParentPath(doc);
    if IsHit(c, name) then Resolution(Ok(LocalPath(root, name)), c, [])
    else
      match LoadFile(store, parent, name)
      case Refused => Resolution(Err(Retrieval), c, [(parent, name)])
      case Broken(partial) =>
        if c.dirExists then Resolution(Err(Retrieval), c.(files := c.files[name := partial]), [(parent, name)])
        else Resolution(Err(Storage), c, [(parent, name)])
      case Fetched(bytes) =>
        if c.dirExists then Resolution(Ok(LocalPath(root, name)), c.(files := c.files[name := bytes]), [(parent, name)])
        else Resolution(Err(Storage), c, [(parent, name)])
  }

  /** What `init` rejects before assigning anything: no host configured, or a
      port that does not parse. */
  function InitFailure(cfg: Config): (e: Option<Error>)
    ensures ConfigGet(cfg, KeyHost, "") == "" ==> e == Some(IllegalState(MissingConfiguration))
    ensures e.None? <==>
      ConfigGet(cfg, KeyHost, "") != "" && JavaStrings.ParseInt(ConfigGet(cfg, KeyDbPort, DefaultDbPort)).Some?
  {
    if ConfigGet(cfg, KeyHost, "") == "" then Some(IllegalState(MissingConfiguration))
    else if JavaStrings.ParseInt(ConfigGet(cfg, KeyDbPort, DefaultDbPort)).None? then Some(NumberFormat)
    else None
  }

  /** The cache directory after `Files.createDirectories`, which succeeds when
      `mkdirOk` holds. */
  function CacheAfterInit(c: LocalCache, mkdirOk: bool): (c': LocalCache)
    ensures c'.files == c.files
    ensures c'.dirExists <==> c.dirExists || mkdirOk
  {
    if c.dirExists || !mkdirOk then c else c.(dirExists := true)
  }

  /** What `init` returns or throws. */
  function InitResult(cfg: Config, c: LocalCache, mkdirOk: bool): (r: Result<(), Error>)
    ensures r.Ok? <==> InitFailure(cfg).None? && CacheAfterInit(c, mkdirOk).dirExists
  {
    if InitFailure(cfg).Some? then Err(InitFailure(cfg).value)
    else if !CacheAfterInit(c, mkdirOk).dirExists then Err(Storage)
    else Ok(())
  }

  // ---------------------------------------------------------------------
  // The manager
  // ---------------------------------------------------------------------

  class ServiceManager {
    var metadata: Option<MetadataStore>
    var storage: Option<RemoteStore>
    var taxReportService: Option<TaxReportService>
    var cache: LocalCache
    const cachePath: string
    /** Every (directory, name) asked of the remote share, in order. */
    ghost var fetchLog: seq<(string, string)>

    ghost predicate Valid()
      reads this
    {
      && CacheValid(cache)
      && (taxReportService.Some? ==>
            && storage.Some? && metadata.Some?
            && taxReportService.value == TaxReportService(storage.value, metadata.value))
    }

    /** The manager starts with nothing connected; `disk` is the cache
        directory as the process finds it. */
    constructor (tempDir: string, disk: LocalCache)
      requires CacheValid(disk)
      ensures Valid()
      ensures metadata == None && storage == None && taxReportService == None
      ensures cache == disk && cachePath == CacheRoot(tempDir) && fetchLog == []
    {
      metadata := None;
      storage := None;
      taxReportService := None;
      cache := disk;
      cachePath := CacheRoot(tempDir);
      fetchLog := [];
    }

    predicate IsReady()
      reads this
    {
      taxReportService.Some?
    }

    /** `getService()`. */
    function GetService(): (r: Result<TaxReportService, Error>)
      reads this
      ensures r.Ok? <==> IsReady()
      ensures r.Ok? ==> taxReportService == Some(r.value)
      ensures r.Err? ==> r.error == IllegalState(ServiceNotInitialised)
    {
      if taxReportService.None? then Err(IllegalState(ServiceNotInitialised)) else Ok(taxReportService.value)
    }

    /** `getMetadata()`. */
    function GetMetadata(): (r: Result<MetadataStore, Error>)
      reads this
      ensures r.Ok? <==> metadata.Some?
      ensures r.Ok? ==> metadata == Some(r.value)
      ensures r.Err? ==> r.error == IllegalState(MetadataNotInitialised)
    {
      if metadata.None? then Err(IllegalState(MetadataNotInitialised)) else Ok(metadata.value)
    }

    /** `init()`: read the settings, connect the database (`db`) and the share
        (`store`), build the service, then create the cache directory. */
    method Init(cfg: Config, db: MetadataStore, store: RemoteStore, mkdirOk: bool) returns (r: Result<(), Error>)
      requires Valid()
      modifies this
      ensures Valid()
      ensures r == InitResult(cfg, old(cache), mkdirOk)
      ensures InitFailure(cfg).Some? ==>
        metadata == old(metadata) && storage == old(storage) &&
        taxReportService == old(taxReportService) && cache == old(cache)
      ensures InitFailure(cfg).None? ==>
        metadata == Some(db) && storage == Some(store) &&
        taxReportService == Some(TaxReportService(store, db)) && cache == CacheAfterInit(old(cache), mkdirOk)
      ensures fetchLog == old(fetchLog)
    {
      var host := ConfigGet(cfg, KeyHost, "");
      if host == "" {
        return Err(IllegalState(MissingConfiguration));
      }
      var port := JavaStrings.ParseInt(ConfigGet(cfg, KeyDbPort, DefaultDbPort));
      if port.None? {
        return Err(NumberFormat);
      }
      metadata := Some(db);
      storage := Some(store);
      taxReportService := Some(TaxReportService(store, db));
      if !cache.dirExists {
        if !mkdirOk {
          return Err(Storage);
        }
        cache := cache.(dirExists := true);
      }
      r := Ok(());
    }

    /** The manager after `if (!isReady()) init();`: untouched when it was
        ready or `init` failed early; otherwise every collaborator is set and
        the cache directory created if it can be. No file is fetched. */
    twostate predicate LazilyInitialised(cfg: Config, db: MetadataStore, store: RemoteStore, mkdirOk: bool)
      reads this
    {
      && fetchLog == old(fetchLog)
      && (old(taxReportService).Some? || InitFailure(cfg).Some? ==>
            && metadata == old(metadata) && storage == old(storage)
            && taxReportService == old(taxReportService) && cache == old(cache))
      && (old(taxReportService).None? && InitFailure(cfg).None? ==>
            && metadata == Some(db) && storage == Some(store)
            && taxReportService == Some(TaxReportService(store, db))
            && cache == CacheAfterInit(old(cache), mkdirOk))
    }

    /** `if (!isReady()) init();`, with which every caller starts. */
    method EnsureReady(cfg: Config, db: MetadataStore, store: RemoteStore, mkdirOk: bool) returns (r: Result<(), Error>)
      requires Valid()
      modifies this
      ensures Valid()
      ensures LazilyInitialised(cfg, db, store, mkdirOk)
      ensures IsReady() <==> old(IsReady()) || InitFailure(cfg).None?
      ensures r == if old(IsReady()) then Ok(()) else InitResult(cfg, old(cache), mkdirOk)
    {
      if IsReady() {
        return Ok(());
      }
      r := Init(cfg, db, store, mkdirOk);
    }

    /** `downloadDocument(doc)`: initialise when not ready, then resolve the
        document against the local cache. The arguments after `doc` are what
        `init` would find. */
    method DownloadDocument(doc: Document, cfg: Config, db: MetadataStore, store: RemoteStore, mkdirOk: bool)
      returns (r: Result<string, Error>)
      requires Valid()
      modifies this
      ensures Valid()
      ensures old(IsReady()) ==>
        metadata == old(metadata) && storage == old(storage) && taxReportService == old(taxReportService)
      ensures old(IsReady()) ==>
        var res := Resolve(cachePath, old(cache), old(storage).value, doc);
        r == res.result && cache == res.cache && fetchLog == old(fetchLog) + res.fetched
      ensures !old(IsReady()) && InitFailure(cfg).Some? ==>
        metadata == old(metadata) && storage == old(storage) && taxReportService == old(taxReportService)
      ensures !old(IsReady()) && InitFailure(cfg).None? ==>
        metadata == Some(db) && storage == Some(store) && taxReportService == Some(TaxReportService(store, db))
      ensures !old(IsReady()) && InitResult(cfg, old(cache), mkdirOk).Err? ==>
        r == Err(InitResult(cfg, old(cache), mkdirOk).error) && cache == old(cache) && fetchLog == old(fetchLog)
      ensures !old(IsReady()) && InitResult(cfg, old(cache), mkdirOk).Ok? ==>
        var res := Resolve(cachePath, CacheAfterInit(old(cache), mkdirOk), store, doc);
        IsReady() && storage == Some(store) &&
        r == res.result && cache == res.cache && fetchLog == old(fetchLog) + res.fetched
    {
      var i := EnsureReady(cfg, db, store, mkdirOk);
      if i.Err? {
        return Err(i.error);
      }
      ghost var res := Resolve(cachePath, cache, storage.value, doc);
      assert old(IsReady()) ==> cache == old(cache) && storage == old(storage);
      var name := Filename(doc);
      var parentPath := ParentPath(doc);
      var localFile := LocalPath(cachePath, name);
      if IsHit(cache, name) {
        assert res == Resolution(Ok(localFile), cache, []);
        return Ok(localFile);
      }
      fetchLog := fetchLog + [(parentPath, name)];
      var fetch := LoadFile(storage.value, parentPath, name);
      match fetch {
        case Refused =>
          r := Err(Retrieval);
        case Broken(partial) =>
          if cache.dirExists {
            cache := cache.(files := cache.files[name := partial]);
            r := Err(Retrieval);
          } else {
            r := Err(Storage);
          }
        case Fetched(bytes) =>
          if cache.dirExists {
            cache := cache.(files := cache.files[name := bytes]);
            r := Ok(localFile);
          } else {
            r := Err(Storage);
          }
      }
      assert r == res.result && cache == res.cache;
    }
  }

  // ---------------------------------------------------------------------
  // Properties of a resolve
  // ---------------------------------------------------------------------

  /** A successful miss writes exactly the bytes the share holds under the
      document's (parent, name). */
  lemma {:induction false} MissWritesRemoteBytes(root: string, c: LocalCache, store: RemoteStore, doc: Document)
    requires !IsHit(c, Filename(doc))
    requires Resolve(root, c, store, doc).result.Ok?
    ensures (ParentPath(doc), Filename(doc)) in store.files
    ensures Resolve(root, c, store, doc).cache.files[Filename(doc)] == store.files[(ParentPath(doc), Filename(doc))]
  {
    var f := LoadFile(store, ParentPath(doc), Filename(doc));
    assert f.Fetched?;
  }

  /** Once a resolve has left a non-empty file, resolving the same document
      again is a hit whatever the share holds by then. */
  lemma SecondResolveHits(root: string, c: LocalCache, store: RemoteStore, later: RemoteStore, doc: Document)
    requires Resolve(root, c, store, doc).result.Ok?
    requires |Resolve(root, c, store, doc).cache.files[Filename(doc)]| > 0
    ensures var c1 := Resolve(root, c, store, doc).cache;
      Resolve(root, c1, later, doc) == Resolution(Ok(LocalPath(root, Filename(doc))), c1, [])
  {
  }

  /** The cache is keyed by basename only: after one document is fetched, a
      document of another directory with the same basename is served the first
      one's bytes, and the share is not asked. */
  lemma SameBasenameAliases(root: string, c: LocalCache, store: RemoteStore, d1: Document, d2: Document)
    requires Filename(d1) == Filename(d2) && ParentPath(d1) != ParentPath(d2)
    requires !IsHit(c, Filename(d1))
    requires Resolve(root, c, store, d1).result.Ok?
    requires |store.files[(ParentPath(d1), Filename(d1))]| > 0
    ensures var c1 := Resolve(root, c, store, d1).cache;
      && Resolve(root, c1, store, d2).result == Ok(LocalPath(root, Filename(d2)))
      && Resolve(root, c1, store, d2).fetched == []
      && c1.files[Filename(d2)] == store.files[(ParentPath(d1), Filename(d1))]
  {
    MissWritesRemoteBytes(root, c, store, d1);
  }

  /** A transfer that breaks after some bytes leaves them at the cached path;
      when there was at least one, the next resolve serves that truncated file
      as a hit. */
  lemma BrokenTransferBecomesHit(root: string, c: LocalCache, store: RemoteStore, later: RemoteStore, doc: Document)
    requires c.dirExists && !IsHit(c, Filename(doc))
    requires LoadFile(store, ParentPath(doc), Filename(doc)).Broken?
    requires |LoadFile(store, ParentPath(doc), Filename(doc)).partial| > 0
    ensures var res := Resolve(root, c, store, doc);
      && res.result == Err(Retrieval)
      && Resolve(root, res.cache, later, doc).result == Ok(LocalPath(root, Filename(doc)))
      && Resolve(root, res.cache, later, doc).fetched == []
      && |res.cache.files[Filename(doc)]| < |store.files[(ParentPath(doc), Filename(doc))]|
  {
  }
}
