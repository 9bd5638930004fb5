/**
 * LLSyntaxIdLSL: keeps the LSL keyword document that the script editor uses
 * in step with the syntax id the current region advertises. A null id means
 * the keyword file bundled with the application; any other id names a file in
 * the cache directory, which is downloaded from the region's "LSLSyntax"
 * capability when it is not there yet.
 *
 * The environment is explicit: the agent's current region is a parameter, the
 * file system is the field `disk`, the HTTP client is the field `requests`
 * (a GET only records what was asked for), and the "syntax id changed"
 * signal is the counter `signalCount`.
 */
module SyntaxIdLsl {
  import opened Wrappers
  import opened Uuids
  import opened Llsd
  import opened InflightList

  const SyntaxIdCapabilityName: string := "LSLSyntax"
  const SyntaxIdSimulatorFeature: string := "LSLSyntaxId"
  const FilenameDefault: string := "keywords_lsl_default.xml"
  const CacheNamePrefix: string := "keywords_lsl_"
  const CacheNameSuffix: string := ".llsd.xml"

  /** The schema version of the keyword document this client understands (an unsigned 32-bit constant). */
  const SyntaxVersionExpected: nat := 2
  const SyntaxVersionKey: string := "llsd-lsl-syntax-version"

  /** The two directories a keyword file can live in. */
  datatype PathKind = AppSettings | Cache

  /** An expanded file name: a directory paired with a file name. */
  datatype FileSpec = FileSpec(dir: PathKind, name: string)

  const DefaultFileSpec: FileSpec := FileSpec(AppSettings, FilenameDefault)

  /** What a file on disk holds: a document that parses, or text that does not. */
  datatype StoredFile = Xml(doc: Value) | Unparsable

  /** A GET issued through the HTTP client, with the file spec its responder was created for. */
  datatype HttpGet = HttpGet(url: string, fileSpec: FileSpec)

  /** The agent's region: its id, whether its capabilities have arrived, its simulator features and capability URLs. */
  datatype Region = Region(id: Uuid, capsReceived: bool, features: Value, caps: map<string, string>)

  /** LLViewerRegion::getCapability: an unknown capability has the empty URL. */
  function Capability(r: Region, name: string): string {
    if name in r.caps then r.caps[name] else ""
  }

  //---------------------------------------------------------------------------
  // Version gate and file names
  //---------------------------------------------------------------------------

  /** The implicit conversion of the signed LLSD integer to U32 in the version comparison. */
  function ToU32(v: int32): int {
    v as int % 0x1_0000_0000
  }

  /** isSupportedVersion: the document has the version key and its integer value is the expected version. */
  function IsSupportedVersion(content: Value): (r: bool)
    ensures r <==> Has(content, SyntaxVersionKey) && AsInteger(Get(content, SyntaxVersionKey)) == 2
  {
    Has(content, SyntaxVersionKey) && ToU32(AsInteger(Get(content, SyntaxVersionKey))) == SyntaxVersionExpected
  }

  lemma SupportedVersionExamples()
    ensures IsSupportedVersion(Map(map[SyntaxVersionKey := Integer(2)]))
    ensures IsSupportedVersion(Map(map[SyntaxVersionKey := Str("2"), "controls" := Map(map[])]))
    ensures !IsSupportedVersion(Map(map[SyntaxVersionKey := Integer(1)]))
    ensures !IsSupportedVersion(Map(map[SyntaxVersionKey := Boolean(true)]))
    ensures !IsSupportedVersion(Map(map["controls" := Integer(2)]))
    ensures !IsSupportedVersion(Array([Integer(2)]))
  {
    assert DigitsValue("2") == 2 by {
      assert "2"[..0] == "";
    }
  }

  function KeywordsFileName(id: Uuid): string {
    if IsNull(id) then FilenameDefault else CacheNamePrefix + FormatUuid(id) + CacheNameSuffix
  }

  /** The spec buildFullFileSpec computes for an id. */
  function FullFileSpec(id: Uuid): (spec: FileSpec)
    ensures spec.dir == AppSettings <==> IsNull(id)
    ensures IsNull(id) ==> spec.name == FilenameDefault
  {
    FileSpec(if IsNull(id) then AppSettings else Cache, KeywordsFileName(id))
  }

  /** The cache file name of a non-null id is the prefix, the id's string form and the suffix. */
  lemma CacheFileNameParts(id: Uuid)
    requires !IsNull(id)
    ensures var name := FullFileSpec(id).name;
      |name| == 58 && name[..13] == CacheNamePrefix &&
      name[13..49] == FormatUuid(id) && name[49..] == CacheNameSuffix
  {
  }

  /** Distinct ids never share a keyword file. */
  lemma FullFileSpecInjective(a: Uuid, b: Uuid)
    requires FullFileSpec(a) == FullFileSpec(b)
    ensures a == b
  {
    if !IsNull(a) {
      CacheFileNameParts(a);
      CacheFileNameParts(b);
      FormatInjective(a, b);
    }
  }

  /** The document loadKeywordsIntoLLSD reads: an absent or unparsable file reads as an empty document. */
  function StoredDocument(disk: map<FileSpec, StoredFile>, spec: FileSpec): Value {
    if spec in disk && disk[spec].Xml? then disk[spec].doc else Undefined
  }

  //---------------------------------------------------------------------------
  // The syntax-id check
  //---------------------------------------------------------------------------

  /** The region has its capabilities and advertises a syntax id. */
  predicate Advertises(region: Option<Region>) {
    region.Some? && region.value.capsReceived && Has(region.value.features, SyntaxIdSimulatorFeature)
  }

  function AdvertisedId(r: Region): Uuid {
    AsUuid(Get(r.features, SyntaxIdSimulatorFeature))
  }

  /** The outcome of syntaxIdChanged: whether it reports a change, and the stored id and URL afterwards. */
  datatype IdCheck = IdCheck(changed: bool, id: Uuid, url: string)

  function CheckSyntaxId(id: Uuid, url: string, region: Option<Region>): (r: IdCheck)
    ensures r.changed <==> Advertises(region) && AdvertisedId(region.value) != id
    ensures r.id == if r.changed then AdvertisedId(region.value) else id
    ensures r.url == if Advertises(region) then Capability(region.value, SyntaxIdCapabilityName) else url
  {
    match region
    case None => IdCheck(false, id, url)
    case Some(rg) =>
      if !rg.capsReceived || !Has(rg.features, SyntaxIdSimulatorFeature) then IdCheck(false, id, url)
      else
        var newId := AsUuid(Get(rg.features, SyntaxIdSimulatorFeature));
        var newUrl := Capability(rg, SyntaxIdCapabilityName);
        if newId != id then IdCheck(true, newId, newUrl) else IdCheck(false, id, newUrl)
  }

  /** A second check against the same region reports no change and keeps the id and URL. */
  lemma CheckSyntaxIdSettles(id: Uuid, url: string, region: Option<Region>)
    ensures var c := CheckSyntaxId(id, url, region);
      CheckSyntaxId(c.id, c.url, region) == IdCheck(false, c.id, c.url)
  {
  }

  //---------------------------------------------------------------------------
  // Findings
  //---------------------------------------------------------------------------

  /** The file handleRegionChanged fetches, as written: the spec of whatever id the region advertises. */
  function RegionChangedFetchAsWritten(id: Uuid, url: string, region: Option<Region>): Option<FileSpec> {
    var c := CheckSyntaxId(id, url, region);
    if c.changed then Some(FullFileSpec(c.id)) else None
  }

  /**
   * A region that advertises the null id (or an id string that does not parse)
   * after a non-null one makes the code as written download into the bundled
   * default file's spec in the application-settings directory.
   */
  lemma NullAdvertisedIdFetchesDefaultFile(id: Uuid, url: string, region: Region)
    requires !IsNull(id)
    requires Advertises(Some(region)) && IsNull(AdvertisedId(region))
    ensures RegionChangedFetchAsWritten(id, url, Some(region)) == Some(DefaultFileSpec)
  {
  }

  /**
   * The file the corrected handleRegionChanged fetches: only the cache file of
   * a non-null id. It differs from the code as written only in dropping the
   * fetch of the bundled default file.
   */
  function RegionChangedFetch(id: Uuid, url: string, region: Option<Region>): (r: Option<FileSpec>)
    ensures r.Some? ==> r.value.dir == Cache
    ensures r.Some? ==> r == RegionChangedFetchAsWritten(id, url, region)
    ensures r.None? && RegionChangedFetchAsWritten(id, url, region).Some? ==>
      RegionChangedFetchAsWritten(id, url, region) == Some(DefaultFileSpec)
  {
    var c := CheckSyntaxId(id, url, region);
    if c.changed && !IsNull(c.id) then Some(FullFileSpec(c.id)) else None
  }

  /** handleCapsReceived as written reads the current region's id whenever the given id is not null. */
  predicate CapsCallbackDefined(region: Option<Region>, regionUuid: Uuid) {
    IsNull(regionUuid) || region.Some?
  }

  /** A caps-received callback for a non-null region id while the agent has no region. */
  lemma CapsReceivedWithoutRegion(regionUuid: Uuid)
    requires !IsNull(regionUuid)
    ensures !CapsCallbackDefined(None, regionUuid)
  {
  }

  /** The corrected test of handleCapsReceived: a non-null id of the agent's current region. */
  function CapsRegionMatches(region: Option<Region>, regionUuid: Uuid): (r: bool)
    ensures r ==> region.Some? && region.value.id == regionUuid && !IsNull(regionUuid)
    ensures CapsCallbackDefined(region, regionUuid) ==>
      (r <==> !IsNull(regionUuid) && region.value.id == regionUuid)
  {
    !IsNull(regionUuid) && region.Some? && region.value.id == regionUuid
  }

  //---------------------------------------------------------------------------
  // The state machine
  //---------------------------------------------------------------------------

  function RequestedSpecs(rs: seq<HttpGet>): set<FileSpec> {
    set q | q in rs :: q.fileSpec
  }

  class SyntaxIdLSL {
    var syntaxId: Uuid
    var capabilityUrl: string
    var fullFileSpec: FileSpec
    var keywordsXml: Value
    var inflightFetches: seq<FileSpec>
    /** How many times the "syntax id changed" signal has fired. */
    var signalCount: nat
    /** The file system: what each expanded file name holds. */
    var disk: map<FileSpec, StoredFile>
    /** Every GET issued, in order. */
    var requests: seq<HttpGet>

    /**
     * Downloads only ever target the cache directory, and every in-flight
     * file has a GET whose responder will save to it.
     */
    ghost predicate Valid()
      reads this
      ensures Valid() ==> forall p :: p in inflightFetches ==> p.dir == Cache
    {
      (forall q :: q in requests ==> q.fileSpec.dir == Cache) &&
      (forall p :: p in inflightFetches ==> p in RequestedSpecs(requests))
    }

    /** keywordFetchInProgress. */
    function KeywordFetchInProgress(): (b: bool)
      reads this
      ensures b <==> exists p :: p in inflightFetches
    {
      assert inflightFetches != [] ==> inflightFetches[0] in inflightFetches;
      inflightFetches != []
    }

    /** Loads the bundled keywords, then checks the current region as a region change would. */
    constructor (region: Option<Region>, files: map<FileSpec, StoredFile>)
      ensures Valid()
      ensures disk == files
      ensures var c := CheckSyntaxId(NullUuid, "", region);
        syntaxId == c.id && capabilityUrl == c.url && fullFileSpec == FullFileSpec(c.id) &&
        keywordsXml == StoredDocument(files, DefaultFileSpec) && signalCount == 1 &&
        inflightFetches == (if c.changed then [FullFileSpec(c.id)] else []) &&
        requests == (if c.changed then [HttpGet(c.url, FullFileSpec(c.id))] else [])
    {
      keywordsXml := Undefined;
      capabilityUrl := "";
      syntaxId := NullUuid;
      fullFileSpec := DefaultFileSpec;  // overwritten by the default load below
      inflightFetches := [];
      signalCount := 0;
      disk := files;
      requests := [];
      new;
      LoadDefaultKeywordsIntoLLSD();
      HandleRegionChanged(region);
    }

    /** buildFullFileSpec. */
    method BuildFullFileSpec()
      modifies this`fullFileSpec
      ensures fullFileSpec == FullFileSpec(syntaxId)
    {
      var path := if IsNull(syntaxId) then AppSettings else Cache;
      var filename := if IsNull(syntaxId) then FilenameDefault
                      else CacheNamePrefix + FormatUuid(syntaxId) + CacheNameSuffix;
      fullFileSpec := FileSpec(path, filename);
    }

    /** syntaxIdChanged: adopts the id the region advertises and refreshes the capability URL. */
    method SyntaxIdChanged(region: Option<Region>) returns (changed: bool)
      modifies this`syntaxId, this`capabilityUrl
      ensures var c := CheckSyntaxId(old(syntaxId), old(capabilityUrl), region);
        changed == c.changed && syntaxId == c.id && capabilityUrl == c.url
    {
      changed := false;
      if region.Some? {
        var rg := region.value;
        if rg.capsReceived {
          var simFeatures := rg.features;
          if Has(simFeatures, SyntaxIdSimulatorFeature) {
            var newSyntaxId := AsUuid(Get(simFeatures, SyntaxIdSimulatorFeature));
            capabilityUrl := Capability(rg, SyntaxIdCapabilityName);
            if newSyntaxId != syntaxId {
              syntaxId := newSyntaxId;
              changed := true;
            }
          }
        }
      }
    }

    /** fetchKeywordsFile: records the file as in flight and issues the GET. */
    method FetchKeywordsFile(fileSpec: FileSpec)
      modifies this`inflightFetches, this`requests
      ensures inflightFetches == old(inflightFetches) + [fileSpec]
      ensures requests == old(requests) + [HttpGet(capabilityUrl, fileSpec)]
      ensures KeywordFetchInProgress()
      ensures old(Valid()) && fileSpec.dir == Cache ==> Valid()
    {
      inflightFetches := inflightFetches + [fileSpec];
      requests := requests + [HttpGet(capabilityUrl, fileSpec)];
      assert fileSpec in inflightFetches;
      assert forall q :: q in old(requests) ==> q in requests;
    }

    /** loadKeywordsIntoLLSD: always replaces the document, supported version or not, and fires the signal. */
    method LoadKeywordsIntoLLSD()
      modifies this`keywordsXml, this`signalCount
      ensures keywordsXml == StoredDocument(disk, fullFileSpec)
      ensures signalCount == old(signalCount) + 1
    {
      var content := Undefined;
      if fullFileSpec in disk {
        match disk[fullFileSpec]
        case Xml(doc) =>
          // the version check only decides which message is logged
          content := doc;
        case Unparsable =>
      }
      keywordsXml := content;
      signalCount := signalCount + 1;
    }

    /** loadDefaultKeywordsIntoLLSD. */
    method LoadDefaultKeywordsIntoLLSD()
      modifies this`syntaxId, this`fullFileSpec, this`keywordsXml, this`signalCount
      ensures syntaxId == NullUuid && fullFileSpec == DefaultFileSpec
      ensures keywordsXml == StoredDocument(disk, DefaultFileSpec)
      ensures signalCount == old(signalCount) + 1
    {
      syntaxId := NullUuid;
      BuildFullFileSpec();
      LoadKeywordsIntoLLSD();
    }

    /** initialize: the default file, the cached file, or a download. */
    method Initialize()
      requires Valid()
      modifies this`syntaxId, this`fullFileSpec, this`keywordsXml, this`signalCount,
               this`inflightFetches, this`requests
      ensures Valid()
      ensures IsNull(old(syntaxId)) || old(capabilityUrl) == "" ==>
        syntaxId == NullUuid && fullFileSpec == DefaultFileSpec &&
        keywordsXml == StoredDocument(disk, DefaultFileSpec) && signalCount == old(signalCount) + 1 &&
        inflightFetches == old(inflightFetches) && requests == old(requests)
      ensures !IsNull(old(syntaxId)) && old(capabilityUrl) != "" ==>
        syntaxId == old(syntaxId) && fullFileSpec == FullFileSpec(syntaxId) &&
        if fullFileSpec in disk then
          keywordsXml == StoredDocument(disk, fullFileSpec) && signalCount == old(signalCount) + 1 &&
          inflightFetches == old(inflightFetches) && requests == old(requests)
        else
          keywordsXml == old(keywordsXml) && signalCount == old(signalCount) &&
          inflightFetches == old(inflightFetches) + [fullFileSpec] &&
          requests == old(requests) + [HttpGet(capabilityUrl, fullFileSpec)]
    {
      if IsNull(syntaxId) {
        LoadDefaultKeywordsIntoLLSD();
      } else if capabilityUrl != "" {
        BuildFullFileSpec();
        // initialize tests the id for null a second time; after the first test it cannot be null
        if fullFileSpec !in disk {
          FetchKeywordsFile(fullFileSpec);
        } else {
          LoadKeywordsIntoLLSD();
        }
      } else {
        LoadDefaultKeywordsIntoLLSD();
      }
    }

    /**
     * handleRegionChanged, corrected: a change to a non-null id starts a
     * download of its cache file; a change to the null id loads the bundled
     * file, as initialize does.
     */
    method HandleRegionChanged(region: Option<Region>)
      requires Valid()
      modifies this`syntaxId, this`capabilityUrl, this`fullFileSpec, this`keywordsXml, this`signalCount,
               this`inflightFetches, this`requests
      ensures Valid()
      ensures var c := CheckSyntaxId(old(syntaxId), old(capabilityUrl), region);
        syntaxId == c.id && capabilityUrl == c.url &&
        if !c.changed then
          fullFileSpec == old(fullFileSpec) && keywordsXml == old(keywordsXml) &&
          signalCount == old(signalCount) &&
          inflightFetches == old(inflightFetches) && requests == old(requests)
        else if IsNull(c.id) then
          fullFileSpec == DefaultFileSpec && keywordsXml == StoredDocument(disk, DefaultFileSpec) &&
          signalCount == old(signalCount) + 1 &&
          inflightFetches == old(inflightFetches) && requests == old(requests)
        else
          fullFileSpec == FullFileSpec(c.id) && keywordsXml == old(keywordsXml) &&
          signalCount == old(signalCount) &&
          inflightFetches == old(inflightFetches) + [FullFileSpec(c.id)] &&
          requests == old(requests) + [HttpGet(c.url, FullFileSpec(c.id))]
      ensures var f := RegionChangedFetch(old(syntaxId), old(capabilityUrl), region);
        (f.Some? ==> inflightFetches == old(inflightFetches) + [f.value] &&
                     requests == old(requests) + [HttpGet(capabilityUrl, f.value)]) &&
        (f.None? ==> inflightFetches == old(inflightFetches) && requests == old(requests))
    {
      var changed := SyntaxIdChanged(region);
      if changed {
        if IsNull(syntaxId) {
          LoadDefaultKeywordsIntoLLSD();
        } else {
          BuildFullFileSpec();
          FetchKeywordsFile(fullFileSpec);
        }
      }
    }

    /** handleRegionChanged as written: any reported change starts a download of the new id's file. */
    method HandleRegionChangedAsWritten(region: Option<Region>)
      modifies this`syntaxId, this`capabilityUrl, this`fullFileSpec, this`inflightFetches, this`requests
      ensures var c := CheckSyntaxId(old(syntaxId), old(capabilityUrl), region);
        syntaxId == c.id && capabilityUrl == c.url &&
        if !c.changed then
          fullFileSpec == old(fullFileSpec) &&
          inflightFetches == old(inflightFetches) && requests == old(requests)
        else
          fullFileSpec == FullFileSpec(c.id) &&
          inflightFetches == old(inflightFetches) + [FullFileSpec(c.id)] &&
          requests == old(requests) + [HttpGet(c.url, FullFileSpec(c.id))]
      ensures var f := RegionChangedFetchAsWritten(old(syntaxId), old(capabilityUrl), region);
        (f.Some? ==> inflightFetches == old(inflightFetches) + [f.value] &&
                     requests == old(requests) + [HttpGet(capabilityUrl, f.value)]) &&
        (f.None? ==> inflightFetches == old(inflightFetches) && requests == old(requests))
    {
      var changed := SyntaxIdChanged(region);
      if changed {
        BuildFullFileSpec();
        FetchKeywordsFile(fullFileSpec);
      }
    }

    /** handleCapsReceived, corrected: re-checks the id for the current region and never fetches. */
    method HandleCapsReceived(region: Option<Region>, regionUuid: Uuid)
      modifies this`syntaxId, this`capabilityUrl
      ensures if CapsRegionMatches(region, regionUuid) then
          var c := CheckSyntaxId(old(syntaxId), old(capabilityUrl), region);
          syntaxId == c.id && capabilityUrl == c.url
        else
          syntaxId == old(syntaxId) && capabilityUrl == old(capabilityUrl)
    {
      if CapsRegionMatches(region, regionUuid) {
        var _ := SyntaxIdChanged(region);
      }
    }

    /** handleCapsReceived as written: the current region is read without testing that there is one. */
    method HandleCapsReceivedAsWritten(region: Option<Region>, regionUuid: Uuid)
      requires CapsCallbackDefined(region, regionUuid)
      modifies this`syntaxId, this`capabilityUrl
      ensures if !IsNull(regionUuid) && region.value.id == regionUuid then
          var c := CheckSyntaxId(old(syntaxId), old(capabilityUrl), region);
          syntaxId == c.id && capabilityUrl == c.url
        else
          syntaxId == old(syntaxId) && capabilityUrl == old(capabilityUrl)
    {
      if !IsNull(regionUuid) && region.value.id == regionUuid {
        var _ := SyntaxIdChanged(region);
      }
    }

    /** handleFileFetched: drops every in-flight entry for the file and reloads the keywords. */
    method HandleFileFetched(filepath: FileSpec)
      modifies this`inflightFetches, this`keywordsXml, this`signalCount
      ensures old(Valid()) ==> Valid()
      ensures inflightFetches == Without(old(inflightFetches), filepath)
      ensures filepath !in inflightFetches
      ensures keywordsXml == StoredDocument(disk, fullFileSpec)
      ensures signalCount == old(signalCount) + 1
    {
      ghost var before := inflightFetches;
      inflightFetches := Without(inflightFetches, filepath);
      forall p | p in inflightFetches
        ensures p in before && p != filepath
      {
        WithoutMembers(before, filepath, p);
      }
      WithoutMembers(before, filepath, filepath);
      LoadKeywordsIntoLLSD();
    }

    /** The responder's cacheFile: the fetched document is written to the responder's file. */
    method CacheFile(fileSpec: FileSpec, content: Value)
      modifies this`disk
      ensures disk == old(disk)[fileSpec := Xml(content)]
    {
      disk := disk[fileSpec := Xml(content)];
    }

    /**
     * The responder's result: only a map of a supported version is taken; it
     * becomes the keyword document, is cached, and its file leaves the
     * in-flight list. Anything else leaves the state as it was.
     */
    method FetchResponderResult(req: HttpGet, content: Value)
      requires req in requests
      modifies this`keywordsXml, this`disk, this`inflightFetches, this`signalCount
      ensures old(Valid()) ==> Valid()
      ensures if content.Map? && IsSupportedVersion(content) then
          disk == old(disk)[req.fileSpec := Xml(content)] &&
          inflightFetches == Without(old(inflightFetches), req.fileSpec) &&
          keywordsXml == StoredDocument(disk, fullFileSpec) && signalCount == old(signalCount) + 1
        else
          disk == old(disk) && inflightFetches == old(inflightFetches) &&
          keywordsXml == old(keywordsXml) && signalCount == old(signalCount)
      ensures content.Map? && IsSupportedVersion(content) && fullFileSpec == req.fileSpec ==>
        keywordsXml == content
      ensures old(Valid()) ==>
        forall p :: p in old(disk) && p.dir == AppSettings ==> p in disk && disk[p] == old(disk)[p]
    {
      if content.Map? {
        if IsSupportedVersion(content) {
          keywordsXml := content;  // setKeywordsXml
          CacheFile(req.fileSpec, content);
          HandleFileFetched(req.fileSpec);
        }
      }
    }

    /** The responder's errorWithContent: a failed GET is only logged, so the file stays in flight. */
    method FetchResponderError(req: HttpGet, status: nat, reason: string, content: Value)
    {
    }
  }

  /**
   * A client: a region advertising a non-null id makes the new object fetch
   * that id's cache file; a supported reply is loaded and cached, nothing is
   * left in flight, a later initialize loads the cached copy, and the same
   * region seen again starts nothing.
   */
  method FetchThenCacheScenario(u: Uuid, url: string, doc: Value)
    requires !IsNull(u) && url != ""
    requires doc.Map? && IsSupportedVersion(doc)
  {
    var features := Map(map[SyntaxIdSimulatorFeature := UuidValue(u)]);
    var region := Region(NullUuid, true, features, map[SyntaxIdCapabilityName := url]);
    assert Has(features, SyntaxIdSimulatorFeature) && AdvertisedId(region) == u;
    var s := new SyntaxIdLSL(Some(region), map[]);
    assert s.inflightFetches == [FullFileSpec(u)] && s.KeywordFetchInProgress();
    assert s.requests == [HttpGet(url, FullFileSpec(u))];
    s.FetchResponderResult(s.requests[0], doc);
    assert s.inflightFetches == [] && !s.KeywordFetchInProgress();
    assert s.keywordsXml == doc && s.signalCount == 2;
    s.Initialize();
    assert s.keywordsXml == doc && s.signalCount == 3 && s.inflightFetches == [];
    s.HandleRegionChanged(Some(region));
    assert s.requests == [HttpGet(url, FullFileSpec(u))] && s.signalCount == 3;
  }

  /**
   * The first finding on the state machine: after a non-null id, a region that
   * advertises the null id makes the as-written handler issue a GET for the
   * bundled default file, the invariant no longer holds, and a supported reply
   * to that GET overwrites the bundled file. The result is what the bundled
   * file holds afterwards.
   */
  method NullIdOverwritesBundledFileScenario(u: Uuid, url: string, doc: Value) returns (bundled: Option<StoredFile>)
    requires !IsNull(u) && url != ""
    requires doc.Map? && IsSupportedVersion(doc)
    ensures bundled == Some(Xml(doc))
  {
    var features := Map(map[SyntaxIdSimulatorFeature := UuidValue(u)]);
    var region := Region(NullUuid, true, features, map[SyntaxIdCapabilityName := url]);
    assert Has(features, SyntaxIdSimulatorFeature) && AdvertisedId(region) == u;
    var s := new SyntaxIdLSL(Some(region), map[DefaultFileSpec := Xml(Map(map[]))]);
    assert s.Valid() && s.syntaxId == u;

    var nullFeatures := Map(map[SyntaxIdSimulatorFeature := UuidValue(NullUuid)]);
    var nullRegion := Region(NullUuid, true, nullFeatures, map[SyntaxIdCapabilityName := url]);
    assert Has(nullFeatures, SyntaxIdSimulatorFeature) && AdvertisedId(nullRegion) == NullUuid;
    NullAdvertisedIdFetchesDefaultFile(u, url, nullRegion);
    s.HandleRegionChangedAsWritten(Some(nullRegion));
    var req := HttpGet(url, DefaultFileSpec);
    assert req in s.requests && DefaultFileSpec in s.inflightFetches;
    assert !s.Valid();

    s.FetchResponderResult(req, doc);
    bundled := if DefaultFileSpec in s.disk then Some(s.disk[DefaultFileSpec]) else None;
  }
}
