# LSL syntax-id keyword cache, modelled in Dafny

The viewer's script editor colours LSL code from a keyword document. Each region
advertises, in its simulator features, the id (`LSLSyntaxId`) of the keyword
document it expects. `LLSyntaxIdLSL` keeps the client's document in step with
that id:
- the null id means the file `keywords_lsl_default.xml` bundled in the
  application-settings directory;
- any other id names the file `keywords_lsl_<id>.llsd.xml` in the cache
  directory. When that file is missing, it is downloaded from the region's
  `LSLSyntax` capability.

A download is accepted only if it is a map whose `llsd-lsl-syntax-version` is
2. While a download is outstanding, its file spec sits in a list of in-flight
fetches. Every (re)load of the document fires a "syntax id changed" signal.

This project models that state machine and proves what it does.

Files:
- `wrappers.dfy`: module `Wrappers`, the `Option` type.
- `uuid.dfy`: module `Uuids`. Ids are sixteen bytes. `FormatUuid` gives the
  8-4-4-4-12 lower-case string form, and `ParseUuid` is its inverse.
- `llsd.dfy`: module `Llsd`. Structured-document values (`Value`), with the
  library operations the code uses: `has`, `[]`, `asInteger` and `asUUID`.
- `inflight.dfy`: module `InflightList`. `Without(s, p)` is `std::list::remove`:
  every occurrence of `p` goes, and the rest keep their order.
- `syntaxid.dfy`: module `SyntaxIdLsl`. It holds:
  - the constants;
  - the pure rules: the version gate, the file-spec choice and the id check;
  - the class `SyntaxIdLSL`, which has the source's fields and one method per
    member function;
  - the two findings below;
  - two client methods: `FetchThenCacheScenario` runs the normal download cycle,
    and `NullIdOverwritesBundledFileScenario` runs the first finding to its end.

The environment is explicit:
- The agent's current region (`gAgent.getRegion()`) is a method parameter
  `Option<Region>`. A `Region` holds its id, whether its capabilities arrived,
  its simulator features and its capability URLs.
- The file system is the field `disk`, a map from `FileSpec` (a directory
  paired with a file name) to `Xml(doc)` or `Unparsable`.
- The HTTP client is the field `requests`: a GET only appends
  `HttpGet(url, fileSpec)`, and `fileSpec` is the responder's `mFileSpec`.
  A reply is delivered by calling `FetchResponderResult` (or
  `FetchResponderError`, which only logs and so changes nothing).
- The signal is the counter `signalCount`.

`Valid()` is the object invariant:
- every GET targets a cache-directory file;
- every in-flight file spec has a GET issued for it.

Every method that starts in a valid state keeps it, with two exceptions:
- `FetchKeywordsFile` keeps it only when given a cache-directory spec;
- the as-written `HandleRegionChangedAsWritten`, described under Findings, can
  pass it the application-settings spec and so break it. The constructor and
`HandleRegionChanged` in this model use the corrected behaviour. At construction
the stored id is still null, so there the corrected and the as-written handler
agree.

## Model

| member | source | states |
|---|---|---|
| `SyntaxIdLsl.IsSupportedVersion` | indra/newview/llsyntaxid.cpp:222-248 | true exactly when the document is a map with key `llsd-lsl-syntax-version` whose integer value is 2; the signed-to-U32 conversion of the comparison is written out and shown not to admit any other value |
| `SyntaxIdLsl.SupportedVersionExamples` | indra/newview/llsyntaxid.cpp:222-248 | an integer 2 or the string "2" is supported; version 1, `true`, a map without the key and a non-map are not |
| `SyntaxIdLsl.FullFileSpec` | indra/newview/llsyntaxid.cpp:119-124 | the spec lies in the application-settings directory exactly when the id is null, and the null id gives `keywords_lsl_default.xml` |
| `SyntaxIdLsl.CacheFileNameParts` | indra/newview/llsyntaxid.cpp:122 | a non-null id gives the 58-character name `keywords_lsl_` + the id's 36-character string + `.llsd.xml` |
| `SyntaxIdLsl.FullFileSpecInjective` | indra/newview/llsyntaxid.cpp:119-124 | two ids with the same file spec are the same id, so distinct ids never share a cache file |
| `Uuids.FormatUuidShape` | indra/newview/llsyntaxid.cpp:122 | the id's string form has dashes at positions 8, 13, 18 and 23 and lower-case hexadecimal digits everywhere else |
| `Uuids.ParseFormat` | indra/newview/llsyntaxid.cpp:143 | reading an id back from its string form (as `asUUID` does for a string feature) gives the same id |
| `Uuids.FormatInjective` | indra/newview/llsyntaxid.cpp:122 | distinct ids have distinct string forms |
| `SyntaxIdLsl.CheckSyntaxId` | indra/newview/llsyntaxid.cpp:129-163 | reports a change exactly when a region exists, its caps are received, it advertises `LSLSyntaxId` and that id differs from the stored one; the stored id then becomes the advertised id and is otherwise kept; the URL becomes the region's `LSLSyntax` capability whenever the feature is advertised, even when the id matches |
| `SyntaxIdLsl.CheckSyntaxIdSettles` | indra/newview/llsyntaxid.cpp:129-163 | repeating the check against the same region reports no change and keeps id and URL |
| `SyntaxIdLsl.SyntaxIdLSL.SyntaxIdChanged` | indra/newview/llsyntaxid.cpp:129-163 | the method's result, new id and new URL are those of `CheckSyntaxId` on the old id and URL; nothing else changes |
| `SyntaxIdLsl.SyntaxIdLSL.BuildFullFileSpec` | indra/newview/llsyntaxid.cpp:119-124 | the stored full file spec becomes `FullFileSpec` of the stored id |
| `SyntaxIdLsl.SyntaxIdLSL.Valid` | indra/newview/llsyntaxid.cpp:168-175 | the invariant (downloads target cache files, every in-flight file has its GET) implies that every in-flight file is a cache file |
| `SyntaxIdLsl.SyntaxIdLSL.KeywordFetchInProgress` | indra/newview/llsyntaxid.cpp:296-299 | true exactly when some file spec is in flight |
| `SyntaxIdLsl.SyntaxIdLSL.FetchKeywordsFile` | indra/newview/llsyntaxid.cpp:168-175 | the file spec is appended to the in-flight list and a GET to the stored capability URL is recorded for it; a fetch is then in progress; the invariant is kept for a cache-directory spec |
| `SyntaxIdLsl.SyntaxIdLSL.LoadKeywordsIntoLLSD` | indra/newview/llsyntaxid.cpp:269-294 | the document is always replaced by what the current spec's file holds (empty if absent or unparsable, and stored even when its version is unsupported), and the signal fires exactly once |
| `SyntaxIdLsl.SyntaxIdLSL.LoadDefaultKeywordsIntoLLSD` | indra/newview/llsyntaxid.cpp:253-258 | the id becomes null, the spec becomes the bundled default file, that file's document is loaded and the signal fires once |
| `SyntaxIdLsl.SyntaxIdLSL.Initialize` | indra/newview/llsyntaxid.cpp:181-217 | a null id or an empty URL loads the default (id null afterwards); otherwise the spec is the id's cache file, which is loaded if it exists and otherwise fetched (in-flight list and GETs grow by that one spec, document and signal untouched) |
| `SyntaxIdLsl.SyntaxIdLSL.constructor` | indra/newview/llsyntaxid.cpp:108-117 | loads the bundled default (signal fired once), then checks the region: a non-null advertised id leaves exactly that id's cache file in flight with one GET to the region's capability |
| `SyntaxIdLsl.SyntaxIdLSL.HandleRegionChanged` | indra/newview/llsyntaxid.cpp:301-308 | corrected: no reported change, no other effect; a change to a non-null id fetches that id's cache file; a change to the null id loads the default; the files it adds to the in-flight list and to the GETs are exactly those of `RegionChangedFetch`; the invariant is kept |
| `SyntaxIdLsl.SyntaxIdLSL.HandleRegionChangedAsWritten` | indra/newview/llsyntaxid.cpp:301-308 | as written: any reported change rebuilds the spec from the new id and fetches it; the files it adds to the in-flight list and to the GETs are exactly those of `RegionChangedFetchAsWritten` |
| `SyntaxIdLsl.RegionChangedFetch` | indra/newview/llsyntaxid.cpp:301-308 | the corrected fetch fetches only cache-directory files; where it fetches, it fetches what the code as written does; where only the code as written fetches, that fetch is the bundled default file |
| `SyntaxIdLsl.NullAdvertisedIdFetchesDefaultFile` | indra/newview/llsyntaxid.cpp:301-308 | as written, a region advertising the null id after a non-null one makes the fetch (and so, through its ensures, `HandleRegionChangedAsWritten`) target the bundled default file's spec |
| `SyntaxIdLsl.NullIdOverwritesBundledFileScenario` | indra/newview/llsyntaxid.cpp:57-92 | starting from an object that fetched a non-null id, a region that then advertises the null id makes `HandleRegionChangedAsWritten` issue a GET for the bundled default file and break the invariant; a supported reply to that GET leaves the bundled file holding the fetched document |
| `SyntaxIdLsl.SyntaxIdLSL.HandleCapsReceived` | indra/newview/llsyntaxid.cpp:310-319 | corrected: for a non-null region id equal to the current region's id the syntax id and URL are re-checked; otherwise nothing changes; it never fetches, loads or signals |
| `SyntaxIdLsl.SyntaxIdLSL.HandleCapsReceivedAsWritten` | indra/newview/llsyntaxid.cpp:310-319 | as written: the same effect, but callable only when the region id is null or the agent has a region |
| `SyntaxIdLsl.CapsRegionMatches` | indra/newview/llsyntaxid.cpp:310-319 | the corrected test holds only for a non-null id of an existing current region, and agrees with the as-written test wherever that one is defined |
| `SyntaxIdLsl.CapsReceivedWithoutRegion` | indra/newview/llsyntaxid.cpp:310-319 | a non-null region id with no current region is outside what the as-written handler can evaluate |
| `SyntaxIdLsl.SyntaxIdLSL.HandleFileFetched` | indra/newview/llsyntaxid.cpp:321-325 | the in-flight list loses every occurrence of the file and keeps the rest; the file is no longer in flight; the keywords are reloaded from the current spec and the signal fires once; a valid state stays valid |
| `InflightList.WithoutMembers` | indra/newview/llsyntaxid.cpp:323 | an entry survives the removal exactly when it was present and is not the removed spec |
| `InflightList.WithoutCounts` | indra/newview/llsyntaxid.cpp:323 | the removed spec has no occurrences left; every other entry keeps its number of occurrences |
| `InflightList.WithoutAppend` | indra/newview/llsyntaxid.cpp:323 | removal distributes over concatenation, so the survivors keep their relative order |
| `InflightList.WithoutAbsent` | indra/newview/llsyntaxid.cpp:323 | removing a spec that is not in flight leaves the list as it was |
| `InflightList.WithoutIdempotent` | indra/newview/llsyntaxid.cpp:323 | removing the same spec twice is removing it once |
| `SyntaxIdLsl.SyntaxIdLSL.CacheFile` | indra/newview/llsyntaxid.cpp:80-92 | the responder's file now holds the fetched document; no other file changes |
| `SyntaxIdLsl.SyntaxIdLSL.FetchResponderResult` | indra/newview/llsyntaxid.cpp:57-78 | a map of a supported version is cached at the responder's file, leaves the in-flight list and the keywords are reloaded (signal once); when the current spec is that file, the keywords are the fetched document; a non-map or unsupported reply changes nothing, so the file stays in flight; from a valid state the state stays valid and no application-settings file is overwritten |

## Left out

- The HTTP client itself, the 30-second timeout and the asynchronous delivery of replies. A GET is a recorded `HttpGet`. Replies are delivered by calling the responder methods, in any order and any number of times.
- `errorWithContent` (lines 50-55) only logs. `FetchResponderError` therefore has an empty body and no frame, and it has no row above because it changes nothing.
- LLSD XML serialisation and parsing.
  - The disk holds parsed documents, and caching a document and reading it back gives the same document.
  - A file that does not parse reads as the empty document; what the parser leaves behind on failure is not modelled.
  - A failed write of the cache file is not modelled.
- The LLSD library's value kinds real, date, URI and binary are not modelled.
- `Llsd.AsInteger` on a string reads only an optional minus sign followed by decimal digits. Any other string, and any value outside the signed 32-bit range, reads as 0. The library instead reads such strings as floating-point numbers and truncates them, for example "2.0".
- `Llsd.AsUuid` on a string accepts only the 36-character dashed form, with digits in either case. Other forms give the null id.
- Callback wiring is not modelled:
  - the region-changed callback registration (line 115);
  - the caps-received callback registration in `syntaxIdChanged` (line 158);
  - `addSyntaxIDCallback` (lines 327-330).
  The callbacks are explicit method calls, and the signal's subscribers are reduced to the count of notifications.
- `gAgent` and `gDirUtilp` are globals. The region is a parameter, and path expansion is the pairing of a directory with a name.
- Logging.
- `mFilePath` (line 111) is set and never read in this file.
- The second null test of the id inside `initialize` (line 193) always succeeds, so its else branch is not modelled.
- `llsyntaxid.h`, which declares `setKeywordsXml` and `getInstance`, is not part of this model:
  - `setKeywordsXml` is taken to assign the document and nothing else;
  - the singleton is the one `SyntaxIdLSL` object the responder methods act on.
- `indra/newview/llfloaterpathfindinglinksets.h`: GUI floater declarations with no implementation to model, and float fields.
- `indra/newview/llfloatereditsky.h`: a GUI floater declaration with no logic.

## Findings

| source | as written | input that shows it | evidently intended | confidence | as-written member | corrected member |
|---|---|---|---|---|---|---|
| indra/newview/llsyntaxid.cpp:301-308 | any change reported by `syntaxIdChanged` rebuilds the spec from the new id and fetches it, even when the new id is null | the stored id is non-null, and the region has caps whose `LSLSyntaxId` feature is the null UUID or a string that is not a UUID. The GET then targets `keywords_lsl_default.xml` in the application-settings directory, and a supported reply overwrites the bundled file | a null id means the bundled default, which is loaded and never downloaded, as `initialize` does (lines 183-186) | medium, not executed | `SyntaxIdLsl.SyntaxIdLSL.HandleRegionChangedAsWritten`, shown by `SyntaxIdLsl.NullIdOverwritesBundledFileScenario` | `SyntaxIdLsl.SyntaxIdLSL.HandleRegionChanged` |
| indra/newview/llsyntaxid.cpp:310-319 | `current_region->getRegionID()` is read without testing `current_region`, which `syntaxIdChanged` does test (line 133) | a caps-received callback with a non-null region id while the agent has no region | a missing region means no match, so nothing happens | low, not executed | `SyntaxIdLsl.SyntaxIdLSL.HandleCapsReceivedAsWritten`, shown by `SyntaxIdLsl.CapsReceivedWithoutRegion` | `SyntaxIdLsl.SyntaxIdLSL.HandleCapsReceived` |
