# onnx-pwa-demo core, modelled in Dafny

This project models the core of onnx-pwa-demo, a progressive web app that runs
ONNX segmentation models (Choroidalyzer) in the browser. It models five parts:

- **Model download** (`utils.js`, `caching.js`). `downloadFileWithChunking`
  streams a response body into a `Uint8Array` sized by `Content-Length` and
  reports progress to a callback. The `utils.js` version grows its buffer when
  the header under-reports and truncates the buffer at the end. The
  `caching.js` version keeps a fixed buffer. Both fall back to reading the whole
  body when the header is missing, zero or not a number.
- **Cache Storage helpers** (`caching.js`). `modelIsCached` and `clearCaches`
  are modelled over a map from cache names to caches.
- **Service worker** (`service-worker.js`). The `install`, `activate` and
  `fetch` handlers are modelled as pure functions over that storage. The
  network is a parameter: a map from URL to response, and a missing URL means
  the fetch rejected.
- **Image helpers** (`utils.js`). `resizeWithSquarePadding` is modelled by its
  padding arithmetic. `htmlTableToCSV` is modelled by the text it writes. A
  CSV reader serves as its partner for the round trip.
- **Choroidalyzer UNet** (`choroidalyzer_to_onnx/model.py`), modelled by
  tensor shapes and channel counts:
  - `PadIfNecessary`: its pad amounts, unpad slices and stored state;
  - the channel schedule parsed from an `int`, a string such as `"32_doublemax-256"` or a list;
  - `UpBlock`'s validation and channel arithmetic;
  - the wiring in `UNet.__init__`;
  - the skip stack and the halving and doubling of extents in `UNet.forward`.

Modules:

| file | module | models |
|---|---|---|
| common.dfy | `Common` | `Option`, `Result`, bytes, Python exceptions, `2 ** d`, division facts, `join` |
| decimal.dfy | `Decimal` | decimal digit strings and their canonical rendering |
| http.dfy | `Http` | a fetch outcome, ECMAScript `parseInt(s, 10)`, the `totalSize` test |
| growing_download.dfy | `GrowingDownload` | `downloadFileWithChunking` of `utils.js` |
| fixed_download.dfy | `FixedDownload` | `downloadFileWithChunking` of `caching.js` |
| cache_storage.dfy | `Caches` | `caches.open`, `modelIsCached`, `clearCaches` |
| service_worker.dfy | `ServiceWorker` | the three event handlers |
| square_padding.dfy | `SquarePadding` | the pads of `resizeWithSquarePadding` |
| csv.dfy | `Csv` | `htmlTableToCSV` and a CSV reader |
| unet_padding.dfy | `UNetPadding` | `PadIfNecessary` |
| unet_channels.dfy | `UNetChannels` | Python `str.split`, `int()`, channel schedules, `UpBlock`, `UNet.__init__` |
| unet_forward.dfy | `UNetForward` | `UNet.forward` on shapes |

Behaviour of the code worth knowing:

- A download with a non-success HTTP status is not an error. `fetch` only
  rejects on a network failure, and the body of the error page is what is
  downloaded.
- The progress reported by the `utils.js` download is not monotone. Growing
  the buffer lowers the fraction (`GrowingDownload.ProgressCanDecrease`).
- The `caching.js` download does not grow its buffer. A body longer than the
  header throws a `RangeError` from `Uint8Array.set`. A shorter body leaves
  trailing zeros in the buffer.
- `install` uses `cache.addAll`, which is all-or-nothing. A single missing,
  non-OK or partial (206) resource caches nothing.
- `caching.js` keeps the model only in Cache Storage (caching.js:49-51).

## Model

| member | source | states |
|---|---|---|
| Http.DeclaredSize | utils.js:15-19 | A missing header selects the whole-body path; a chosen chunked size is never zero |
| Http.ParseInt | utils.js:16 | NaN exactly when no digit follows the leading white space and optional sign; a negative value only after a minus sign |
| Http.ParseIntRender | utils.js:16 | `parseInt` reads a decimal number followed by non-digit text as that number |
| Http.ParseIntNegative | utils.js:16 | a leading minus sign negates the number |
| Http.ParseIntNoDigits | utils.js:16 | a header with no digits is NaN |
| Http.ParseIntSkipsSpace | utils.js:16 | leading white space is skipped |
| Http.DeclaredSizeOfRendered | utils.js:16-19 | a rendered nonzero length selects the chunked path with exactly that size, and 0 selects the whole-body path |
| Http.PaddedHeader | utils.js:16-19 | `" 42 bytes"` is read as 42 |
| Http.NegativeHeader | utils.js:16-19 | `"-5"` is truthy, so the chunked path is taken with a negative size |
| Http.ZeroHeader | utils.js:16-19 | `"0"` and `""` select the whole-body path |
| Http.NonNumericHeader | utils.js:16-19 | a non-numeric header selects the whole-body path |
| Http.TenMegabyteHeader | caching.js:15-18 | a 10 MiB header is read exactly |
| GrowingDownload.Grow | utils.js:30-34 | the new capacity holds the chunk, stays the same when the chunk fits, and otherwise is the larger of 1.25 times the old capacity (truncated) and exactly what is needed |
| GrowingDownload.Reports | utils.js:30-43 | one progress value per chunk, never above 1, over a capacity never below the starting one |
| GrowingDownload.Append | utils.js:30-37 | one loop turn keeps the bytes already received and writes the chunk after them |
| GrowingDownload.Receive | utils.js:30-43 | one loop turn appends the chunk after the bytes received so far, in a buffer grown by `Grow` when needed, and the value reported is the first of the pending reports |
| GrowingDownload.Stream | utils.js:19-48 | the returned bytes are exactly the concatenated chunks, whatever the header claimed; the reports are the modelled progress values |
| GrowingDownload.Download | utils.js:13-54 | a rejected fetch throws; the whole-body path returns the body; the chunked path returns the concatenated chunks |
| GrowingDownload.ReportsShape | utils.js:41-43 | one report per chunk, each in [0, 1], its numerator the bytes received so far |
| GrowingDownload.ProgressCanDecrease | utils.js:30-42 | growing the buffer can make a later report smaller than an earlier one |
| GrowingDownload.UnderReportedLength | utils.js:29-42 | with `Content-Length: 2` and chunks of 3 and 4 bytes, the buffer grows to exactly the bytes received each time, so both reports are 1 (3/3, then 7/7) |
| FixedDownload.Reports | caching.js:28-34 | one progress value per chunk, each over the declared size |
| FixedDownload.FitCount | caching.js:24-30 | the longest prefix of chunks that fits in the buffer |
| FixedDownload.Stream | caching.js:18-36 | a body within the header's size is returned zero-padded to it; a longer body throws RangeError; progress is reported for the chunks written before the throw |
| FixedDownload.Receive | caching.js:28-34 | a chunk that fits is written right after the bytes already received, the rest of the buffer stays zero, the offset grows by its length and one progress report is added |
| FixedDownload.NextChunk | caching.js:24-28 | the chunk after the fitting prefix is the one that overflows, and then the body is longer than the buffer |
| FixedDownload.Download | caching.js:13-42 | the three paths: rejected fetch, whole body, fixed buffer |
| FixedDownload.ReportsShape | caching.js:32-34 | one report per chunk: the bytes received so far over the declared size |
| FixedDownload.DownloadProgress | caching.js:24-35 | the reports never decrease and stay in [0, 1] |
| FixedDownload.FiveEqualChunks | caching.js:24-35 | five 2 MiB chunks of a 10 MiB file report 1/5 to 5/5 |
| Caches.Open | service-worker.js:24 | opening a cache adds it empty if it is absent and changes nothing else |
| Caches.ModelIsCached | caching.js:49-51 | true exactly when some cache holds an entry for the model path, whatever order the caches are searched in |
| Caches.ClearCaches | caching.js:56-68 | a clean run deletes every cache and logs no error; a failing delete leaves that cache and logs an error; a failure to list deletes nothing and logs an error |
| Caches.NothingCachedAfterClear | caching.js:49-68 | after a clean `clearCaches` no model is reported as cached |
| Caches.CachedAfterStore | caching.js:49-51 | storing a response under the model path makes `modelIsCached` true; opening a cache does not change it |
| ServiceWorker.PutThenMatch | service-worker.js:64-71 | after a put of a GET response other than a 206 that does not fail, `match` finds that response under its URL; other URLs keep their answers; a rejected put changes no answer; only GET requests match |
| ServiceWorker.AddAll | service-worker.js:25 | `cache.addAll` stores every URL exactly when every URL answers OK and not 206, each under the network's answer, leaving other entries alone; otherwise it stores nothing |
| ServiceWorker.Install | service-worker.js:20-28 | install succeeds exactly when every shell resource, with root-relative paths resolved against the worker's origin, answers OK and not 206; it then caches all of them under their resolved URLs; otherwise the opened cache gains nothing; other caches are untouched |
| ServiceWorker.PartialResponseFailsInstall | service-worker.js:20-28 | a 206 answer for any shell resource fails the install and stores nothing new |
| ServiceWorker.ShellEntryForms | service-worker.js:2-18 | every shell entry is root-relative or an absolute `https:` URL |
| ServiceWorker.ShellIsIntercepted | service-worker.js:2-18 | from an `http:` or `https:` origin, every resolved shell entry is a URL the fetch handler intercepts |
| ServiceWorker.InstalledResourceServedOffline | service-worker.js:20-77 | after a successful install, an intercepted request for an installed resource is answered offline with the response fetched at install time, and no cache changes |
| ServiceWorker.InstalledShellServedOffline | service-worker.js:2-77 | after a successful install from an `http:` or `https:` origin, the whole shell, the same-origin pages included, is served offline from the cache |
| ServiceWorker.Activate | service-worker.js:30-43 | only the current cache generation survives, with its contents unchanged |
| ServiceWorker.ActivationPreservesAnswers | service-worker.js:30-80 | activation changes no response and leaves only the current generation |
| ServiceWorker.NetworkFirst | service-worker.js:61-78 | the network answer is returned and stored; without network the cached entry is returned, else a 503 |
| ServiceWorker.HandleFetch | service-worker.js:45-80 | only `http:` and `https:` URLs are intercepted; only the current generation is created or changed |
| ServiceWorker.HttpsNeedsItsOwnTest | service-worker.js:47 | `https:` URLs are intercepted through their own test, and other schemes are ignored |
| ServiceWorker.OnnxHitSkipsNetwork | service-worker.js:55-59 | a cached `.onnx` file requested over `http:` or `https:` is served from the cache without using the network, changing no cache |
| ServiceWorker.NetworkFirstUnlessOnnxHit | service-worker.js:51-78 | every intercepted request except an `.onnx` file the current generation can answer goes network-first |
| ServiceWorker.OnlineRefreshesEntry | service-worker.js:61-72 | online, a GET request that is not for an `.onnx` file gets the live response, which replaces any cached entry for its URL and is what a later offline request gets |
| ServiceWorker.CacheWriteDoesNotAffectResponse | service-worker.js:64-72 | a failed cache write does not change the response |
| ServiceWorker.OnlyCurrentGenerationIsRead | service-worker.js:52-77 | the response depends only on the current generation |
| ServiceWorker.OnnxCachedAfterFirstFetch | service-worker.js:55-72 | an `.onnx` file fetched once over `http:` or `https:` is served from the cache afterwards, even offline |
| ServiceWorker.OfflineWithCachedEntry | service-worker.js:73-77 | offline, an intercepted GET request with a cached entry gets that entry |
| ServiceWorker.OfflineWithoutEntry | service-worker.js:73-78 | offline, an intercepted GET request with nothing cached gets a 503 "Service Unavailable" |
| SquarePadding.SquarePads | utils.js:265-270 | the pads make the image square, pad only the shorter side, and split evenly with the extra row or column at the bottom or right |
| SquarePadding.SquarePadsUnique | utils.js:265-270 | these properties determine the pads |
| SquarePadding.SquareImageUnpadded | utils.js:265-270 | a square image is not padded |
| Csv.ToCsvAsWritten | utils.js:202-209 | a missing table produces no text |
| Csv.ToCsv | utils.js:202-209 | the corrected export produces no text only for a missing table |
| Csv.RoundTrip | utils.js:206-209 | the corrected export reads back as the table, for any table without empty rows |
| Csv.ParseRowText | utils.js:207-208 | a row of quoted cells joined by commas reads back as the cells |
| Csv.ParseTableText | utils.js:207-209 | rows joined by line feeds read back as the rows |
| Csv.ReplaceFirstQuote | utils.js:208 | a cell without quotes is unchanged; a cell with quotes gains exactly one |
| Csv.QuoteCellAsWritten | utils.js:208 | the field is wrapped in quotes; a cell without quotes sits unchanged between them; a cell with quotes gains exactly one inner quote |
| Csv.ReplaceFirstDoublesFirst | utils.js:208 | a cell with quotes becomes the text before its first quote, one extra quote, then the rest from that first quote on: only the first quote is doubled |
| Csv.AsWrittenDoublesFirst | utils.js:208 | the exported field of a cell with quotes is an opening quote, the text before the cell's first quote, an extra quote, the rest of the cell, and a closing quote |
| Csv.AsWrittenAgreesUpToOneQuote | utils.js:208 | the source's quoting is correct exactly for cells holding at most one quote |
| Csv.AsWrittenBreaksRoundTrip | utils.js:208 | the cell `a"b"c` exports as a field that no CSV reader accepts |
| UNetPadding.PadExtent | choroidalyzer_to_onnx/model.py:120-121 | the padding brings an extent to a multiple of `2 ** depth`, is less than that, and is zero exactly for multiples |
| UNetPadding.PadExtentLeast | choroidalyzer_to_onnx/model.py:120-121 | no smaller padding reaches a multiple |
| UNetPadding.GetPadAmt | choroidalyzer_to_onnx/model.py:118-124 | both padded extents are multiples of `2 ** depth`, the padding is split evenly with the extra row or column at the bottom or right, and divisible extents are not padded |
| UNetPadding.GetUnpadLoc | choroidalyzer_to_onnx/model.py:126-136 | the slices start after the top and left padding and span the original height and width |
| UNetPadding.PySlice | choroidalyzer_to_onnx/model.py:147 | a Python slice clamps to the sequence and is exact when in range |
| UNetPadding.PadPlane | choroidalyzer_to_onnx/model.py:142 | zero padding keeps the plane rectangular and grows it by the pad amounts |
| UNetPadding.ApplyLoc | choroidalyzer_to_onnx/model.py:147 | slicing a rectangular plane gives a rectangular plane; with slices inside the plane, the result is exactly that window |
| UNetPadding.UnpadAfterPad | choroidalyzer_to_onnx/model.py:126-147 | slicing with the unpad slices undoes the padding |
| UNetPadding.UnpadBeforePad | choroidalyzer_to_onnx/model.py:144-147 | `unpad` on a new module raises ValueError whatever the input |
| UNetPadding.Measure | choroidalyzer_to_onnx/model.py:138-141 | the amounts `pad` computes make both extents multiples of `2 ** depth`, and the unpad slices select exactly the original extent inside the padded one |
| UNetPadding.Unpad | choroidalyzer_to_onnx/model.py:144-147 | unpad raises ValueError exactly when `pad` was never called |
| UNetPadding.PadAsWritten | choroidalyzer_to_onnx/model.py:138-142 | the amounts are stored on the first call and reused unchanged afterwards |
| UNetPadding.FirstPadIsCorrect | choroidalyzer_to_onnx/model.py:138-147 | on a fresh module, pad reaches a multiple and unpad gives back the input |
| UNetPadding.StalePaddingOnSecondShape | choroidalyzer_to_onnx/model.py:138-147 | at depth 1, a 3-row input and then a 4-row input: the second is padded to 5 rows, which is not a multiple of 2, and unpadded to 3 rows |
| UNetPadding.Pad | choroidalyzer_to_onnx/model.py:108 | every call pads to a multiple of `2 ** depth`, adding less than `2 ** depth` |
| UNetPadding.PadUnpadRoundTrip | choroidalyzer_to_onnx/model.py:108 | with the corrected pad, unpad after pad gives back the input for every call |
| UNetChannels.Split | choroidalyzer_to_onnx/model.py:172 | `str.split(sep)` gives at least one piece, none holding the separator |
| UNetChannels.JoinSplit | choroidalyzer_to_onnx/model.py:172 | joining the pieces gives back the string |
| UNetChannels.SplitJoin | choroidalyzer_to_onnx/model.py:172 | splitting a join of separator-free pieces gives back the pieces |
| UNetChannels.PyInt | choroidalyzer_to_onnx/model.py:173 | `int()` fails only with ValueError |
| UNetChannels.PyIntRender | choroidalyzer_to_onnx/model.py:173 | `int()` reads a rendered number, signed or not, as that number |
| UNetChannels.PyIntNoDigits | choroidalyzer_to_onnx/model.py:173 | a string without digits raises ValueError |
| UNetChannels.StripNothing | choroidalyzer_to_onnx/model.py:173 | stripping does not change a string without surrounding white space |
| UNetChannels.StripIsSlice | choroidalyzer_to_onnx/model.py:173 | stripping removes only leading and trailing characters |
| UNetChannels.Channels | choroidalyzer_to_onnx/model.py:168-184 | every accepted schedule has `depth + 1` entries; an int doubles; a list of the wrong length fails its assertion |
| UNetChannels.ParseSchedule | choroidalyzer_to_onnx/model.py:171-182 | a string without exactly one `_` raises ValueError; errors are ValueError or IndexError |
| UNetChannels.Doubling | choroidalyzer_to_onnx/model.py:170 | `depth + 1` entries, starting at `c`, each twice the one before |
| UNetChannels.Constant | choroidalyzer_to_onnx/model.py:176-177 | `depth + 1` entries, starting at `c`, each equal to the one before |
| UNetChannels.Capped | choroidalyzer_to_onnx/model.py:178-180 | `depth + 1` entries, each the smaller of the cap and the doubling entry |
| UNetChannels.Strategy | choroidalyzer_to_onnx/model.py:174-182 | succeeds exactly for `double`, `same`, or `doublemax` followed by a dash and an integer; raises IndexError exactly for `doublemax` without a dash; otherwise ValueError |
| UNetChannels.DoublingRecurrence | choroidalyzer_to_onnx/model.py:170 | the doubling schedule starts at `c` and each level doubles the previous one |
| UNetChannels.CappedShape | choroidalyzer_to_onnx/model.py:178-180 | the capped schedule never exceeds the cap, equals doubling below it, and does not decrease |
| UNetChannels.RenderedSchedules | choroidalyzer_to_onnx/model.py:171-180 | `"c_double"`, `"c_same"` and `"c_doublemax-m"` give the doubling, constant and capped schedules |
| UNetChannels.RejectedSchedules | choroidalyzer_to_onnx/model.py:178-182 | an unknown strategy raises ValueError, and `doublemax` without a dash raises IndexError |
| UNetChannels.UnderscoreCount | choroidalyzer_to_onnx/model.py:172 | zero or two underscores raise ValueError |
| UNetChannels.NewUpBlock | choroidalyzer_to_onnx/model.py:58-88 | accepted exactly for the three up types, else ValueError; the upsampled channels are half the input; a missing or zero skip width becomes that half; `conv1` takes upsampled plus skip channels |
| UNetChannels.BuildUps | choroidalyzer_to_onnx/model.py:204-212 | block `j` is the up block of level `depth - 1 - j`; the first unknown up type raises |
| UNetChannels.BuildNet | choroidalyzer_to_onnx/model.py:195-221 | construction fails exactly when there is an up block and the up type is unknown |
| UNetChannels.NewUNet | choroidalyzer_to_onnx/model.py:151-221 | a schedule error propagates; otherwise construction fails exactly for a positive depth with an unknown up type |
| UNetChannels.NewUNetWired | choroidalyzer_to_onnx/model.py:195-212 | every constructed network chains its channel counts; its skip widths match exactly when no zero-channel level sits under a level of two or more channels |
| UNetChannels.DoublingUpBlocks | choroidalyzer_to_onnx/model.py:66-72 | with a doubling schedule each up block halves its input to the skip width, and `conv1` takes twice its output |
| UNetForward.HalveIsDivision | choroidalyzer_to_onnx/model.py:40-47 | `Halve`, the extent after `k` poolings by 2, is the extent divided by `2 ** k`, rounding down |
| UNetForward.FitsIffDivisible | choroidalyzer_to_onnx/model.py:231-238 | a positive extent survives every pooling and upsampling exactly when it is a multiple of `2 ** depth` |
| UNetForward.FitsAsChecked | choroidalyzer_to_onnx/model.py:231-238 | both extents fit exactly when every pooling leaves something and every pooled level is even, the conditions the encoder and decoder meet |
| UNetForward.Encode | choroidalyzer_to_onnx/model.py:227-233 | the skip stack holds level `k`'s output at position `k`, with `channels[k]` channels and the extent halved `k` times; it fails exactly when a pooled extent is below 2 |
| UNetForward.Decode | choroidalyzer_to_onnx/model.py:234-238 | the up blocks pop the levels deepest first; they succeed exactly when every pooled extent is even and the skip widths match, ending at the input's extent with `channels[0]` channels |
| UNetForward.Forward | choroidalyzer_to_onnx/model.py:223-244 | an empty height or width raises RuntimeError; otherwise, without dynamic padding, forward succeeds exactly when the skip widths match and both extents are multiples of `2 ** depth`; with it, exactly when the skip widths match; the output has the input's height and width |
| UNetForward.OddHeightNeedsPadding | choroidalyzer_to_onnx/model.py:223-244 | a 3-by-4 input to a depth-1 network succeeds with dynamic padding and fails without |

## Left out

- Promises, `await` and event-loop ordering are left out. Every handler runs to completion atomically. The `waitUntil` cache write finishes before the next event.
- The network, `fetch` and the response body are parameters. These are a map from URL to response and a sequence of chunks. A read error in the middle of the stream and a `null` body are not modelled.
- Progress fractions are exact rationals. The floating-point division and the `* 1.25` product are not rounded. `GrowingDownload.Grow` takes the integer part of `* 1.25`, as the `Uint8Array` constructor truncates.
- `parseInt` is modelled for decimal digits. Values beyond 2^53, where a double loses precision, are not distinguished.
- Python `int()` accepts ASCII digits only. Unicode decimal digits and `_` digit separators are not modelled.
- Request matching uses the URL string as the key. URL normalisation, query-string options and `Vary` headers are not modelled.
- Shell entries are resolved against the worker's origin only when they start with `/`. Other relative forms (`./x`, `x`) would resolve against the worker's directory and are not modelled. The shell list has none.
- `modelIsCached` looks the model path up as given. A relative `onnxPath`, which the browser resolves against the page's URL, is not resolved.
- `cache.addAll` of a list with duplicate URLs is not modelled. The shell list has none.
- The `console.log` messages, `skipWaiting` and `clients.claim` are not modelled. The `console.warn` calls (utils.js:50, caching.js:38, utils.js:203) are not modelled either, and neither is the `console.error` of the fetch handler when a cache write fails (service-worker.js:69). The one `console.error` of `clearCaches` is modelled, as `Cleared.errorLogged`. Creating the `Blob` and the download link in `htmlTableToCSV` is not modelled either.
- Bilinear resizing is not modelled, and neither are the tensor values of `resizeWithSquarePadding`. Only its pad arithmetic is.
- Convolution, normalisation, activation and upsampling arithmetic are not modelled. The UNet is modelled by channel counts and extents only.
- `kernel_size` other than 3, `conv_kwargs`, residual connections and `extra_out_conv` are not modelled. With `padding=1` only kernel size 3 keeps the extent. The other options change no channel count or extent.
- The input tensor's channel count and the batch axis are not modelled. The unpad slices are modelled on the height and width axes. On the batch and channel axes `slice(None)` keeps everything.
- `depth` is a natural number. With a negative depth, `range(depth + 1)` is empty, so every int or string schedule is empty and `channels[0]` raises IndexError at choroidalyzer_to_onnx/model.py:195. A list schedule fails the length assertion below −1, and at −1 must be empty, so it raises the same IndexError. These error paths are not modelled.
- `count_parameters` and `DownBlock.__repr__` / `UpBlock.__repr__` are not modelled.
- `models.js`, `index.js` and `ONNXModel.js` are not part of this model. They drive the user interface and the ONNX runtime.
- UNetChannels.Channels: a string or list schedule with negative or zero entries is accepted as Python accepts it. The torch layers that would reject such counts are not modelled.
- ServiceWorker.Activate: every delete succeeds. A rejected `caches.delete` (service-worker.js:36) would reject the promise given to `waitUntil`, so the old cache would survive and the activation would fail. That path is not modelled.
- UNetForward.Forward: a fresh padding module is used for every call, which is the corrected `pad`. The as-written `pad` is `UNetPadding.PadAsWritten`.

## Findings

| source | as written | input that shows it | evidently intended | confidence | as-written member | corrected member |
|---|---|---|---|---|---|---|
| utils.js:208 | `replace('"', '""')` with a string pattern doubles only the first quote of a cell | a cell holding `a"b"c` exports as `"a""b"c"`, which a CSV reader rejects | every quote doubled, so the file reads back as the table | not executed | Csv.AsWrittenBreaksRoundTrip | Csv.RoundTrip |
| choroidalyzer_to_onnx/model.py:138-142 | `pad` computes the pad amounts and unpad slices on the first call only and reuses them for every later input | at depth 1, a 3-row input and then a 4-row input: the second is padded to 5 rows, not a multiple of 2, and unpadded to 3 rows | amounts recomputed for each input, so every padded extent is a multiple of `2 ** depth` and unpad restores the input | not executed | UNetPadding.StalePaddingOnSecondShape | UNetPadding.PadUnpadRoundTrip |
