# ggufDownloader in Dafny

ggufDownloader is a command-line tool. It lists the models published on the
Ollama website, and it downloads one model's weights from the Ollama registry
into a local `.gguf` file. Almost all of `gguf.go` is input and output. This
project lifts out the decision rules that sit inside that I/O, states them as
pure Dafny functions, and proves what they guarantee.

- `results.dfy`, module `Results`: the `Option` and `Result` values used for
  "not found" and for failed responses.
- `bytes.dfy`, module `ByteStrings`: Go strings as byte sequences. It covers
  `strings.TrimSpace`, `strings.Join` and `strings.Repeat`, plus prefix and
  first-index search.
- `registry.dfy`, module `Registry`: manifest layers and the choice of the
  model digest. It also builds the manifest URL, the blob URL and the output
  file name, and gives each an inverse parser with a round-trip proof.
- `catalog.dfy`, module `Catalog`: the clean-up of text scraped from the
  catalog page. Each field is trimmed. Empty size and capability entries are
  dropped, and so are records without a name. Document order is kept.
- `table.dfy`, module `Table`: the arithmetic of the listing table. It covers
  the name-column width, the separator length and the truncation of long
  size and capability lists.
- `cli.dfy`, module `Cli`: the choice between listing, usage error and
  download. It also covers the ten-row cap of the brief listing and a whole
  run as a trace of requests and reports. The network is a parameter: the
  responses a run would get are inputs, and the trace shows which requests
  were made.

Strings are `seq<byte>`. String literals are encoded with `ByteStrings.Ascii`; every
literal the program uses is 7-bit ASCII. Lengths, slices and truncation are
counted in bytes, as Go counts them.

Behaviour of `gguf.go` that is easy to misread:

- The download fails as "not found" in two cases: no layer has the model
  media type, or the FIRST such layer has an empty digest. The scan stops at
  the first model layer whatever its digest holds, so a later model layer
  never rescues the run (`Registry.DigestNotFoundIff`,
  `Cli.EmptyFirstDigestExample`).
- `-list` wins over `-model`/`-params`: any command line with `-list` set
  lists models and never downloads.
- The brief listing caps the table at ten rows only when the catalog has more
  than ten models. A shorter catalog is shown in full.
- Any argument at all leaves the brief no-argument listing, including a
  stray positional argument or `-list=false`. Without `-list`, a run then needs both `-model`
  and `-params`, or it ends in a usage error.

## Model

| member | source | states |
|---|---|---|
| Registry.FirstModelLayer | gguf.go:303-309 | the position found is the first layer, in manifest order, whose media type is `application/vnd.ollama.image.model`; None exactly when no layer has that media type |
| Registry.ModelDigest | gguf.go:303-314 | the digest used is that of the first model layer, or empty ("not found") when no layer is a model layer |
| Registry.ScanForModelDigest | gguf.go:303-309 | the loop that breaks at the first model layer computes exactly the first-match digest |
| Registry.LaterLayersIgnored | gguf.go:304-308 | once a model layer is reached, the layers after it never change the digest |
| Registry.DigestNotFoundIff | gguf.go:303-314 | "not found" exactly when no layer matches, or the first matching layer's digest is empty |
| Registry.ManifestUrlRoundTrip | gguf.go:45 | the manifest URL is the library prefix, the model, `/manifests/` and the tag; model and tag can be read back from it when the model has no slash |
| Registry.BlobUrlRoundTrip | gguf.go:316 | the blob URL is the library prefix, the model, `/blobs/` and the digest; model and digest can be read back from it when the model has no slash |
| Registry.OutputFilenameRoundTrip | gguf.go:317 | the file name is `<model>:<tag>.gguf`; model and tag can be read back from it when the model has no colon |
| Registry.OutputFilenameInjective | gguf.go:317 | two downloads whose model names have no colon write to the same file only when model and tag are the same |
| Registry.OutputFilenameCollision | gguf.go:317 | with a colon in the model name two different downloads share a file name (`a:b`+`c` and `a`+`b:c`) |
| ByteStrings.TrimSpaceShape | gguf.go:116-146 | a trimmed field is the infix of the raw text with only white space around it, and is empty exactly when the text is all white space |
| ByteStrings.TrimSpaceFixesTrimmed | gguf.go:124 | a text with no white space at either end is left unchanged by trimming, so trimming twice changes nothing |
| ByteStrings.Join | gguf.go:224 | the joined list's length is the sum of the entries' lengths plus one separator between each pair of neighbours, and it starts with the first entry |
| ByteStrings.JoinPlacesParts | gguf.go:224-233 | entry `i` sits right after the first `i` entries and `i` separators, every entry but the first is preceded by the separator, and the last entry ends the joined text, so every byte of the join is fixed |
| Catalog.CollectTexts | gguf.go:123-136 | the span loop (trim each match, append it when non-empty) builds exactly the filtered list |
| Catalog.KeepNonEmptyTrimmed | gguf.go:123-136 | the size and capability lists hold only non-empty texts without surrounding white space, and are no longer than the matches |
| Catalog.KeepNonEmptyTrimmedMembers | gguf.go:123-136 | a text is in the list exactly when it is the non-empty trim of some match |
| Catalog.KeepNonEmptyTrimmedAppend | gguf.go:123-136 | the filter keeps document order: filtering a concatenation concatenates the filtered parts |
| Catalog.ExtractIsListed | gguf.go:112-146 | a record whose name trims to something non-empty has a clean name, trimmed fields and clean lists |
| Catalog.ListedModelsMembers | gguf.go:111-151 | a record is in the catalog exactly when it is the record of some list item and its trimmed name is non-empty |
| Catalog.ListedModelsAreClean | gguf.go:111-151 | every catalog record has a non-empty trimmed name, trimmed fields and lists of clean texts |
| Catalog.ListedModelsAppend | gguf.go:110-151 | the catalog keeps page order: the items of a concatenation give the concatenated catalogs |
| Catalog.ListedModelsKeepsNamed | gguf.go:148-150 | when every item has a name, every item's record is listed, in order |
| Table.WidenForNames | gguf.go:192-196 | the width loop ends with the larger of the start width and the longest name plus 3 |
| Table.NameWidth | gguf.go:186-196 | the name column is at least 20 wide and at least 3 wider than every name, and it is 20 or some name's length plus 3 |
| Table.Separator | gguf.go:212-215 | the separator is all dashes, name width plus 30 long, plus 70 more in detail mode |
| Table.Truncate | gguf.go:225-227 | a string longer than width - 3 becomes its first width - 6 bytes and "...", exactly width - 3 long; a shorter one is unchanged |
| Table.TruncateIdempotent | gguf.go:225-227 | truncating a truncated cell changes nothing |
| Table.ListCell | gguf.go:233-236 | a joined, truncated list cell always leaves at least three blanks in its column |
| Table.ListCellShape | gguf.go:224-236 | a list whose joined form has at most 27 bytes is shown in full; a longer one shows its first 24 bytes and "...", 27 in all; capability cells are cut exactly like size cells |
| Table.TableOf | gguf.go:184-247 | one row per model in order; the name column is `NameWidth` (max of 20 and the longest name plus 3) and the separator spans the shown columns; the sizes cell is the joined, truncated parameter list; in detail mode the row carries the joined, truncated capabilities, the pull count and the update date, otherwise no details |
| Cli.Dispatch | gguf.go:256-295 | listing exactly with no arguments or `-list`; otherwise a usage error exactly when `-model` or `-params` is empty; otherwise a download of that model and tag |
| Cli.ListingOf | gguf.go:268-278 | the listing shows a prefix of the models and announces the rest; the brief view shows at most 10, and hides models only when there are more than 10; details exactly under `-list` when nothing is hidden |
| Cli.ListRun | gguf.go:257-287 | a listing fetches only the catalog and exits 1 exactly when that fetch fails |
| Cli.DownloadRun | gguf.go:297-325 | a download fetches the manifest first; a failed manifest fetch ends the run with ManifestFailed and status 1, a manifest with no model digest with DigestNotFound and status 1, a failed stream with DownloadFailed; the blob is streamed exactly when a digest is found, from that digest's blob URL into `<model>:<tag>.gguf`, and the run exits 0 exactly when the manifest names a digest and the stream succeeds |
| Cli.Run | gguf.go:249-326 | a run stops at its first failure and exits 1 exactly then; a listing starts with the catalog fetch and exits 1 exactly when that fetch fails; a usage error makes no request and exits 1; listing never touches the registry; a download exits 0 exactly when the manifest names a digest and the stream succeeds, and streams exactly when asked for and a digest exists |
| Cli.BriefListingShowsTen | gguf.go:268-275 | without arguments and with more than 10 models, the first 10 are shown without details and `len(models) - 10` more are announced |
| Cli.FullListingShowsAll | gguf.go:276-285 | in every other listing all models are shown, with details exactly under `-list` |
| Cli.NoArgumentsNeverDownload | gguf.go:256-287 | without arguments no file is written, and the exit status is 1 only when the catalog fetch fails |
| Cli.DownloadExample | gguf.go:297-317 | `-model llama2 -params 7b` against a manifest whose one model layer has digest `sha256:abc` requests that blob into `llama2:7b.gguf` |
| Cli.ExampleBlobUrl | gguf.go:316 | that blob URL is `https://registry.ollama.ai/v2/library/llama2/blobs/sha256:abc` |
| Cli.ExampleManifestUrl | gguf.go:45 | that manifest URL is `https://registry.ollama.ai/v2/library/llama2/manifests/7b` |
| Cli.ExampleFilename | gguf.go:317 | that file name is `llama2:7b.gguf` |
| Cli.MissingParamsExample | gguf.go:289-295 | `-model llama2` without `-params` shows the usage examples and fails before any request |
| Cli.EmptyFirstDigestExample | gguf.go:303-314 | a first model layer with an empty digest ends the run as "not found" although a later model layer has a digest |

## Left out

- HTTP requests, status checks and transport errors (`fetchManifest`, `downloadFile`, `fetchAvailableModels`). These are I/O against remote hosts. `Cli.Run` takes the response of each request as a parameter.
- JSON decoding of the manifest. The model starts from an already-decoded `Registry.Manifest`.
- HTML parsing and goquery's CSS selectors. They are library code tied to the site's markup. The model starts from the raw text each selector matched (`Catalog.RawItem`).
- File creation, `io.Copy` streaming, the progress bar, and the partial file a failed stream leaves behind. These are filesystem and terminal I/O. The download is one `DownloadBlob` effect, and its success or failure is a parameter.
- Colours, `%-*s` padding, the usage texts and the wording of messages. These are presentation. The trace records which usage text is shown (brief or examples) and why a run failed, not the words printed.
- Go's `flag` package: parsing, its built-in `-help`, and its exit status 2 on a malformed flag. Dispatch works on the values after parsing.
- `os.Exit`. The exit status is a field of `Cli.Outcome`.
- ByteStrings.TrimSpace: strips only the six ASCII white-space bytes (tab, line feed, vertical tab, form feed, carriage return, space). Go's `strings.TrimSpace` also strips the multi-byte UTF-8 encodings of the other Unicode white-space characters (U+0085, U+00A0, U+2000 to U+200A and others). Strings here are bytes, with no Unicode claims.
- Byte slicing that splits a UTF-8 character (the truncation at 24 bytes can do this). The model counts bytes, as Go does, and makes no claim about the validity of the text it produces.
