/**
 The program's top level: which of listing, usage error and download a
 command line selects, how much of the catalog the listing shows, and the
 sequence of requests and reports a run produces. The network is not
 modelled: the catalog, manifest and download responses a run would get
 are parameters, and the run's trace records which requests it made.
 */
module Cli {
  import opened Results
  import opened ByteStrings
  import opened Registry
  import opened Catalog
  import opened Table

  /** The command line after flag parsing: how many arguments follow the
      program name, the `-list` flag, and the `-model` and `-params` values. */
  datatype Args = Args(argCount: nat, list: bool, model: Bytes, params: Bytes)

  /** What flag parsing guarantees: with no arguments every flag keeps its
      default, so `-list` is off and `-model` and `-params` are empty. */
  predicate Parsed(a: Args) {
    a.argCount == 0 ==> !a.list && a.model == [] && a.params == []
  }

  datatype Command =
    | ListModels(brief: bool)
    | UsageError
    | Download(model: Bytes, tag: Bytes)

  /** Listing when there are no arguments or `-list` is set (brief exactly
      when there are no arguments); otherwise a usage error unless both
      `-model` and `-params` are non-empty; otherwise a download. */
  function Dispatch(a: Args): (c: Command)
    ensures c.ListModels? <==> a.argCount == 0 || a.list
    ensures c.ListModels? ==> c.brief == (a.argCount == 0)
    ensures c.UsageError? <==> a.argCount > 0 && !a.list && (a.model == [] || a.params == [])
    ensures c.Download? <==> a.argCount > 0 && !a.list && a.model != [] && a.params != []
    ensures c.Download? ==> c.model == a.model && c.tag == a.params
  {
    if a.argCount == 0 || a.list then ListModels(a.argCount == 0)
    else if a.model == [] || a.params == [] then UsageError
    else Download(a.model, a.params)
  }

  /** Rows the brief listing shows at most. */
  const MaxBriefRows: nat := 10

  /** What the listing prints: the models shown, whether with details, and
      how many more the "... and N more" line announces (0: no such line). */
  datatype Listing = Listing(shown: seq<ModelInfo>, showDetails: bool, more: nat)

  /** The brief listing of more than ten models shows the first ten without
      details and announces the rest; every other listing shows all models,
      with details exactly when `-list` was given. */
  function ListingOf(models: seq<ModelInfo>, noArgs: bool, list: bool): (v: Listing)
    ensures v.shown <= models
    ensures |v.shown| + v.more == |models|
    ensures noArgs ==> |v.shown| <= MaxBriefRows
    ensures v.more > 0 <==> noArgs && |models| > MaxBriefRows
    ensures v.more > 0 ==> |v.shown| == MaxBriefRows && !v.showDetails
    ensures v.more == 0 ==> v.showDetails == list
  {
    if noArgs && |models| > MaxBriefRows then
      Listing(models[..MaxBriefRows], false, |models| - MaxBriefRows)
    else
      Listing(models, list, 0)
  }

  /** Why a run exits with status 1. */
  datatype Failure =
    | CatalogFailed
    | ModelOrParamsMissing
    | ManifestFailed
    | DigestNotFound
    | DownloadFailed

  /** What a run does, in order: requests it makes and what it reports. */
  datatype Effect =
    | FetchCatalog
    | ShowTable(table: Layout)
    | ShowMore(count: nat)
    | ShowUsage(brief: bool)
    | FetchManifest(url: Bytes)
    | DownloadBlob(url: Bytes, filename: Bytes)
    | Fail(reason: Failure)

  predicate IsRequest(e: Effect) {
    e.FetchCatalog? || e.FetchManifest? || e.DownloadBlob?
  }

  datatype Outcome = Outcome(effects: seq<Effect>, exitCode: int)

  /** The listing branch: fetch the catalog, show the table, announce the
      hidden rows if any, and show the usage hints. */
  function ListRun(brief: bool, list: bool, catalog: Result<seq<ModelInfo>, Bytes>): (o: Outcome)
    ensures |o.effects| >= 2 && o.effects[0] == FetchCatalog
    ensures forall k :: 0 <= k < |o.effects| - 1 ==> !o.effects[k].Fail?
    ensures forall k :: 0 < k < |o.effects| ==> !IsRequest(o.effects[k])
    ensures o.exitCode == (if catalog.Failure? then 1 else 0)
    ensures o.effects[|o.effects| - 1].Fail? <==> catalog.Failure?
  {
    match catalog
    case Failure(_) => Outcome([FetchCatalog, Fail(CatalogFailed)], 1)
    case Success(models) =>
      var v := ListingOf(models, brief, list);
      Outcome([FetchCatalog, ShowTable(TableOf(v.shown, v.showDetails))]
                + (if v.more > 0 then [ShowMore(v.more)] else [])
                + [ShowUsage(brief)], 0)
  }

  /** The download branch: fetch the manifest, pick the digest, and stream
      the blob into the output file. */
  function DownloadRun(model: Bytes, tag: Bytes, manifest: Result<Manifest, Bytes>,
                       download: Result<(), Bytes>): (o: Outcome)
    ensures |o.effects| >= 2 && o.effects[0] == FetchManifest(ManifestUrl(model, tag))
    ensures forall k :: 0 <= k < |o.effects| - 1 ==> !o.effects[k].Fail?
    ensures o.exitCode == (if o.effects[|o.effects| - 1].Fail? then 1 else 0)
    ensures forall k :: 1 <= k < |o.effects| ==> !o.effects[k].FetchCatalog? && !o.effects[k].FetchManifest?
    ensures o.effects[1].DownloadBlob? <==> manifest.Success? && ModelDigest(manifest.value.layers) != []
    ensures forall k :: 2 <= k < |o.effects| ==> !o.effects[k].DownloadBlob?
    ensures o.effects[1].DownloadBlob? ==>
              && o.effects[1].url == BlobUrl(model, ModelDigest(manifest.value.layers))
              && o.effects[1].filename == OutputFilename(model, tag)
    // Each way the download can fail ends the run with its own reason and status 1;
    // it succeeds exactly when the manifest names a digest and the blob arrives.
    ensures manifest.Failure? ==>
              o == Outcome([FetchManifest(ManifestUrl(model, tag)), Fail(ManifestFailed)], 1)
    ensures manifest.Success? && ModelDigest(manifest.value.layers) == [] ==>
              o == Outcome([FetchManifest(ManifestUrl(model, tag)), Fail(DigestNotFound)], 1)
    ensures manifest.Success? && ModelDigest(manifest.value.layers) != [] && download.Failure? ==>
              |o.effects| == 3 && o.effects[2] == Fail(DownloadFailed)
    ensures o.exitCode == (if manifest.Success? && ModelDigest(manifest.value.layers) != []
                              && download.Success? then 0 else 1)
  {
    var fetch := FetchManifest(ManifestUrl(model, tag));
    match manifest
    case Failure(_) => Outcome([fetch, Fail(ManifestFailed)], 1)
    case Success(m) =>
      var digest := ModelDigest(m.layers);
      if digest == [] then Outcome([fetch, Fail(DigestNotFound)], 1)
      else
        var get := DownloadBlob(BlobUrl(model, digest), OutputFilename(model, tag));
        if download.Failure? then Outcome([fetch, get, Fail(DownloadFailed)], 1)
        else Outcome([fetch, get], 0)
  }

  /** A run whose command line is `a`, where fetching the catalog would
      give `catalog`, fetching the manifest would give `manifest`, and
      streaming the blob would end in `download`. */
  function Run(a: Args, catalog: Result<seq<ModelInfo>, Bytes>, manifest: Result<Manifest, Bytes>,
               download: Result<(), Bytes>): (o: Outcome)
    requires Parsed(a)
    // A run stops at its first failure and exits with status 1 exactly when it failed.
    ensures o.effects != []
    ensures forall k :: 0 <= k < |o.effects| - 1 ==> !o.effects[k].Fail?
    ensures o.exitCode == (if o.effects[|o.effects| - 1].Fail? then 1 else 0)
    // A usage error makes no request at all.
    ensures Dispatch(a).UsageError? ==>
              o.exitCode == 1 && forall k :: 0 <= k < |o.effects| ==> !IsRequest(o.effects[k])
    // A listing starts by fetching the catalog and fails exactly when that fetch fails.
    ensures Dispatch(a).ListModels? ==>
              o.effects[0] == FetchCatalog && o.exitCode == (if catalog.Failure? then 1 else 0)
    // A download fails exactly when the manifest cannot be fetched, names no
    // model digest, or the blob cannot be streamed.
    ensures Dispatch(a).Download? ==>
              o.exitCode == (if manifest.Success? && ModelDigest(manifest.value.layers) != []
                                && download.Success? then 0 else 1)
    // Listing never touches the registry.
    ensures Dispatch(a).ListModels? ==>
              forall k :: 0 <= k < |o.effects| ==> !o.effects[k].FetchManifest? && !o.effects[k].DownloadBlob?
    // A blob is downloaded only after its manifest was fetched, from the URL of the
    // first model layer's digest, into `<model>:<params>.gguf`.
    ensures forall k :: 0 <= k < |o.effects| && o.effects[k].DownloadBlob? ==>
              && k == 1
              && o.effects[0] == FetchManifest(ManifestUrl(a.model, a.params))
              && manifest.Success?
              && ModelDigest(manifest.value.layers) != []
              && o.effects[k].url == BlobUrl(a.model, ModelDigest(manifest.value.layers))
              && o.effects[k].filename == OutputFilename(a.model, a.params)
    // ... and it is downloaded whenever the command asks for it and the manifest names a digest.
    ensures Dispatch(a).Download? && manifest.Success? && ModelDigest(manifest.value.layers) != [] ==>
              |o.effects| >= 2 && o.effects[1].DownloadBlob?
  {
    match Dispatch(a)
    case ListModels(brief) => ListRun(brief, a.list, catalog)
    case UsageError => Outcome([ShowUsage(false), Fail(ModelOrParamsMissing)], 1)
    case Download(model, tag) => DownloadRun(model, tag, manifest, download)
  }

  /** Run without arguments on a catalog of more than ten models, the
      program shows the first ten, without details, then announces the rest. */
  lemma BriefListingShowsTen(a: Args, models: seq<ModelInfo>, manifest: Result<Manifest, Bytes>,
                             download: Result<(), Bytes>)
    requires Parsed(a) && a.argCount == 0 && |models| > MaxBriefRows
    ensures Run(a, Success(models), manifest, download)
              == Outcome([FetchCatalog, ShowTable(TableOf(models[..10], false)),
                          ShowMore(|models| - 10), ShowUsage(true)], 0)
  {
  }

  /** Otherwise a listing shows every model, with details exactly under `-list`. */
  lemma FullListingShowsAll(a: Args, models: seq<ModelInfo>, manifest: Result<Manifest, Bytes>,
                            download: Result<(), Bytes>)
    requires Parsed(a) && (a.argCount == 0 || a.list)
    requires !(a.argCount == 0 && |models| > MaxBriefRows)
    ensures Run(a, Success(models), manifest, download)
              == Outcome([FetchCatalog, ShowTable(TableOf(models, a.list)), ShowUsage(a.argCount == 0)], 0)
  {
  }

  /** Without arguments the program writes no file and fails only when the
      catalog cannot be fetched. */
  lemma NoArgumentsNeverDownload(a: Args, catalog: Result<seq<ModelInfo>, Bytes>,
                                 manifest: Result<Manifest, Bytes>, download: Result<(), Bytes>)
    requires Parsed(a) && a.argCount == 0
    ensures var o := Run(a, catalog, manifest, download);
            && (forall k :: 0 <= k < |o.effects| ==> !o.effects[k].DownloadBlob?)
            && o.exitCode == (if catalog.Failure? then 1 else 0)
  {
  }

  /** `-model llama2 -params 7b` against a manifest whose one model layer has
      digest `sha256:abc` fetches that blob into `llama2:7b.gguf`
      (the three lemmas after it spell the strings out). */
  lemma DownloadExample(download: Result<(), Bytes>)
    ensures var a := Args(4, false, Ascii("llama2"), Ascii("7b"));
            var m := Manifest([Layer(ModelMediaType, Ascii("sha256:abc"))]);
            var o := Run(a, Failure([]), Success(m), download);
            o.effects[..2] == [FetchManifest(ManifestUrl(Ascii("llama2"), Ascii("7b"))),
                               DownloadBlob(BlobUrl(Ascii("llama2"), Ascii("sha256:abc")),
                                            OutputFilename(Ascii("llama2"), Ascii("7b")))]
  {
    var m := Manifest([Layer(ModelMediaType, Ascii("sha256:abc"))]);
    assert ModelDigest(m.layers) == Ascii("sha256:abc");
  }

  /** The example's manifest URL, spelled out. */
  lemma ExampleManifestUrl()
    ensures ManifestUrl(Ascii("llama2"), Ascii("7b")) == LibraryPrefix + Ascii("llama2/manifests/7b")
  {
    assert "llama2/manifests/7b" == "llama2" + "/manifests/" + "7b";
    AsciiAppend("llama2", "/manifests/");
    AsciiAppend("llama2/manifests/", "7b");
  }

  /** The example's blob URL, spelled out. */
  lemma ExampleBlobUrl()
    ensures BlobUrl(Ascii("llama2"), Ascii("sha256:abc")) == LibraryPrefix + Ascii("llama2/blobs/sha256:abc")
  {
    assert "llama2/blobs/sha256:abc" == "llama2" + "/blobs/" + "sha256:abc";
    AsciiAppend("llama2", "/blobs/");
    AsciiAppend("llama2/blobs/", "sha256:abc");
  }

  /** The example's output file name, spelled out. */
  lemma ExampleFilename()
    ensures OutputFilename(Ascii("llama2"), Ascii("7b")) == Ascii("llama2:7b.gguf")
  {
    assert "llama2:7b.gguf" == "llama2" + ":" + "7b" + ".gguf";
    AsciiAppend("llama2", ":");
    AsciiAppend("llama2:", "7b");
    AsciiAppend("llama2:7b", ".gguf");
  }

  /** A first model layer with an empty digest ends the run as "not found",
      even though a later model layer has a digest. */
  lemma EmptyFirstDigestExample(download: Result<(), Bytes>)
    ensures var a := Args(4, false, Ascii("llama2"), Ascii("7b"));
            var m := Manifest([Layer(ModelMediaType, []), Layer(ModelMediaType, Ascii("sha256:abc"))]);
            Run(a, Failure([]), Success(m), download)
              == Outcome([FetchManifest(ManifestUrl(Ascii("llama2"), Ascii("7b"))), Fail(DigestNotFound)], 1)
  {
  }

  /** `-model llama2` alone is a usage error that requests nothing. */
  lemma MissingParamsExample(catalog: Result<seq<ModelInfo>, Bytes>, manifest: Result<Manifest, Bytes>,
                             download: Result<(), Bytes>)
    ensures Run(Args(2, false, Ascii("llama2"), []), catalog, manifest, download)
              == Outcome([ShowUsage(false), Fail(ModelOrParamsMissing)], 1)
  {
  }
}
