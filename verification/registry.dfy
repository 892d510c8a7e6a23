/**
 The download pipeline's pure rules: which manifest layer names the model
 blob, and the manifest URL, blob URL and output file name built from the
 user's model name and tag.
 */
module Registry {
  import opened Results
  import opened ByteStrings

  /** One entry of a manifest's `layers` array, already decoded from JSON. */
  datatype Layer = Layer(mediaType: Bytes, digest: Bytes)

  datatype Manifest = Manifest(layers: seq<Layer>)

  /** The media type that marks the layer holding the model weights. */
  const ModelMediaType: Bytes := Ascii("application/vnd.ollama.image.model")

  /** Every registry URL starts with the library path of the registry host. */
  const LibraryPrefix: Bytes := Ascii("https://registry.ollama.ai/v2/library/")
  const ManifestsSegment: Bytes := Ascii("/manifests/")
  const BlobsSegment: Bytes := Ascii("/blobs/")
  const GgufSuffix: Bytes := Ascii(".gguf")
  const Slash: byte := 47
  const Colon: byte := 58

  predicate IsModelLayer(l: Layer) {
    l.mediaType == ModelMediaType
  }

  predicate NoModelLayerBefore(layers: seq<Layer>, i: int)
    requires 0 <= i <= |layers|
  {
    forall j :: 0 <= j < i ==> !IsModelLayer(layers[j])
  }

  /** The position of the first model layer in manifest order, if any. */
  function FirstModelLayer(layers: seq<Layer>): (r: Option<nat>)
    ensures r.None? <==> NoModelLayerBefore(layers, |layers|)
    ensures r.Some? ==> r.value < |layers| && IsModelLayer(layers[r.value])
                        && NoModelLayerBefore(layers, r.value)
  {
    if |layers| == 0 then None
    else if IsModelLayer(layers[0]) then Some(0)
    else match FirstModelLayer(layers[1..])
      case None => None
      case Some(k) => Some(k + 1)
  }

  /** The digest the program downloads: that of the first model layer, or
      the empty string, which the program reads as "not found". */
  function ModelDigest(layers: seq<Layer>): (d: Bytes)
    ensures NoModelLayerBefore(layers, |layers|) ==> d == []
    ensures forall i :: 0 <= i < |layers| && IsModelLayer(layers[i]) && NoModelLayerBefore(layers, i)
                        ==> d == layers[i].digest
  {
    match FirstModelLayer(layers)
    case None => []
    case Some(i) => layers[i].digest
  }

  /** The scan in the program's own shape: walk the layers in order and stop
      at the first model layer, whatever its digest. */
  method ScanForModelDigest(layers: seq<Layer>) returns (digest: Bytes)
    ensures digest == ModelDigest(layers)
  {
    digest := [];
    var i := 0;
    while i < |layers|
      invariant 0 <= i <= |layers|
      invariant NoModelLayerBefore(layers, i)
      invariant digest == []
    {
      if layers[i].mediaType == ModelMediaType {
        digest := layers[i].digest;
        break;
      }
      i := i + 1;
    }
  }

  /** Once a model layer is reached, the layers after it never matter. */
  lemma {:induction false} LaterLayersIgnored(before: seq<Layer>, l: Layer, after: seq<Layer>)
    requires NoModelLayerBefore(before, |before|)
    requires IsModelLayer(l)
    ensures ModelDigest(before + [l] + after) == l.digest
  {
    var layers := before + [l] + after;
    assert layers[|before|] == l;
    assert NoModelLayerBefore(layers, |before|) by {
      forall j | 0 <= j < |before| ensures !IsModelLayer(layers[j]) {
        assert layers[j] == before[j];
      }
    }
  }

  /** "Not found" happens exactly when no layer is a model layer or the
      first one carries an empty digest; a later model layer with a
      non-empty digest does not rescue the second case. */
  lemma DigestNotFoundIff(layers: seq<Layer>)
    ensures ModelDigest(layers) == [] <==>
              (NoModelLayerBefore(layers, |layers|)
               || exists i :: 0 <= i < |layers| && IsModelLayer(layers[i])
                              && NoModelLayerBefore(layers, i) && layers[i].digest == [])
  {
    var f := FirstModelLayer(layers);
    if f.Some? {
      assert IsModelLayer(layers[f.value]) && NoModelLayerBefore(layers, f.value);
    }
  }

  /** The URL of a manifest: library prefix, model name, `/manifests/`, tag. */
  function ManifestUrl(model: Bytes, tag: Bytes): Bytes {
    LibraryPrefix + model + ManifestsSegment + tag
  }

  /** The URL of a blob: library prefix, model name, `/blobs/`, digest. */
  function BlobUrl(model: Bytes, digest: Bytes): Bytes {
    LibraryPrefix + model + BlobsSegment + digest
  }

  /** The local file name: model name, `:`, tag, `.gguf`. */
  function OutputFilename(model: Bytes, tag: Bytes): Bytes {
    model + [Colon] + tag + GgufSuffix
  }

  /** Cuts `path` at its first byte that starts `segment` and checks that
      `segment` follows there: `name + segment + rest` gives `(name, rest)`. */
  function SplitAtSegment(path: Bytes, segment: Bytes): Option<(Bytes, Bytes)>
    requires segment != []
  {
    match IndexOf(path, segment[0])
    case None => None
    case Some(k) =>
      if HasPrefix(path[k..], segment) then Some((path[..k], path[k + |segment|..])) else None
  }

  lemma SplitAtSegmentRoundTrip(name: Bytes, segment: Bytes, rest: Bytes)
    requires segment != [] && segment[0] !in name
    ensures SplitAtSegment(name + segment + rest, segment) == Some((name, rest))
  {
    var path := name + segment + rest;
    assert path == name + [segment[0]] + (segment[1..] + rest);
    IndexOfAfter(name, segment[0], segment[1..] + rest);
    assert path[|name|..] == segment + rest;
    assert path[..|name|] == name;
    assert path[|name| + |segment|..] == rest;
  }

  /** Reads `LibraryPrefix + name + segment + rest` back into `(name, rest)`. */
  function ParseRegistryUrl(url: Bytes, segment: Bytes): Option<(Bytes, Bytes)>
    requires segment != []
  {
    if HasPrefix(url, LibraryPrefix) then SplitAtSegment(url[|LibraryPrefix|..], segment) else None
  }

  function ParseManifestUrl(url: Bytes): Option<(Bytes, Bytes)> {
    ParseRegistryUrl(url, ManifestsSegment)
  }

  function ParseBlobUrl(url: Bytes): Option<(Bytes, Bytes)> {
    ParseRegistryUrl(url, BlobsSegment)
  }

  /** Reads `model:tag.gguf` back into `(model, tag)`, cutting at the first colon. */
  function ParseOutputFilename(name: Bytes): Option<(Bytes, Bytes)> {
    if !HasSuffix(name, GgufSuffix) then None
    else
      var stem := name[..|name| - |GgufSuffix|];
      match IndexOf(stem, Colon)
      case None => None
      case Some(k) => Some((stem[..k], stem[k + 1..]))
  }

  lemma RegistryUrlRoundTrip(name: Bytes, segment: Bytes, rest: Bytes)
    requires segment != [] && segment[0] !in name
    ensures ParseRegistryUrl(LibraryPrefix + name + segment + rest, segment) == Some((name, rest))
  {
    var url := LibraryPrefix + name + segment + rest;
    assert url == LibraryPrefix + (name + segment + rest);
    assert url[..|LibraryPrefix|] == LibraryPrefix;
    assert url[|LibraryPrefix|..] == name + segment + rest;
    SplitAtSegmentRoundTrip(name, segment, rest);
  }

  /** A manifest URL names its model and tag unambiguously when the model
      name has no slash. */
  lemma ManifestUrlRoundTrip(model: Bytes, tag: Bytes)
    requires Slash !in model
    ensures ParseManifestUrl(ManifestUrl(model, tag)) == Some((model, tag))
  {
    RegistryUrlRoundTrip(model, ManifestsSegment, tag);
  }

  /** A blob URL names its model and digest unambiguously when the model
      name has no slash. */
  lemma BlobUrlRoundTrip(model: Bytes, digest: Bytes)
    requires Slash !in model
    ensures ParseBlobUrl(BlobUrl(model, digest)) == Some((model, digest))
  {
    RegistryUrlRoundTrip(model, BlobsSegment, digest);
  }

  /** The output file name gives back model and tag when the model name has no colon. */
  lemma {:induction false} OutputFilenameRoundTrip(model: Bytes, tag: Bytes)
    requires Colon !in model
    ensures ParseOutputFilename(OutputFilename(model, tag)) == Some((model, tag))
  {
    var name := OutputFilename(model, tag);
    var stem := model + [Colon] + tag;
    assert name == stem + GgufSuffix;
    assert name[|name| - |GgufSuffix|..] == GgufSuffix;
    assert name[..|name| - |GgufSuffix|] == stem;
    IndexOfAfter(model, Colon, tag);
    assert stem[..|model|] == model;
    assert stem[|model| + 1..] == tag;
  }

  /** Two downloads whose model names have no colon write the same file only
      when model and tag are both the same. */
  lemma OutputFilenameInjective(m1: Bytes, t1: Bytes, m2: Bytes, t2: Bytes)
    requires Colon !in m1 && Colon !in m2
    requires OutputFilename(m1, t1) == OutputFilename(m2, t2)
    ensures m1 == m2 && t1 == t2
  {
    OutputFilenameRoundTrip(m1, t1);
    OutputFilenameRoundTrip(m2, t2);
  }

  /** With a colon in the model name the file name is ambiguous:
      model `a:b` with tag `c` and model `a` with tag `b:c` share `a:b:c.gguf`. */
  lemma OutputFilenameCollision()
    ensures OutputFilename(Ascii("a:b"), Ascii("c")) == OutputFilename(Ascii("a"), Ascii("b:c"))
  {
    assert Ascii("a:b") + [Colon] + Ascii("c") == Ascii("a") + [Colon] + Ascii("b:c");
  }
}
