# deno-epub: a Dafny model of the EPUB assembly core

This project models the in-memory assembly logic of deno-epub, a Deno library that builds an
EPUB 2 book from a title, options and a list of HTML chapters. It also models the library's
small text-to-EPUB command. Each source file of the core is one Dafny module:

- `AssetTable` (util/html.ts, `imgSrc`): the shared image table. The class `ImageTable` holds the
  `images` array as a sequence field, and its method `ImgSrc` is the find-or-push.
- `HtmlParse` (util/html-parse.ts, `fixHTML`): the attribute allow-list pass and the `img` pass.
  The document is a sequence of elements in document order, each with its attributes in order.
- `HtmlNormalize` (util/html.ts, `normalizeHTML`): `fixHTML`, then the `<body>`/`</body>` strip.
- `Other` (util/other.ts): `uuid` filling its template from supplied random nibbles, and the
  `retryFetch` loop over a network given as the outcome of each attempt.
- `Epub` (epub.ts): class `EPub` with its `files` and log lines as fields. Its methods cover the
  constructor, `generateTemplateFiles`, `downloadAllFonts`, `downloadAllImages`, `makeCover`,
  `render` and `genEpub`. Each method is proved against a specification function, and the
  properties of the book are proved about those functions.
- `Opf` (templates/epub2/content.opf.ejs.ts): what the OPF 2.0.1 package document lists. This is
  the cover `meta`, the manifest items (section 2.3 of OPF 2.0.1) and the spine idrefs
  (section 2.4).
- `Cmd` (cmd.ts): `encodeContent` as its chain of replaces, and the chapter loop of `toEpub`.
- `Mod` (mod.ts): the default export's choice between a title and an options object, and the
  folding of extra boolean and number arguments into `verbose` and `version`.

Foreign pieces are parameters of the model:

- the template engine: `Renderer`, a job to its text, or nothing when it rejects;
- the bundled stylesheet: `css`;
- the network: `Network`, the outcome of the n-th attempt to fetch a URL;
- the MIME helpers: `Mime`;
- `Math.random`: nibbles;
- the DOM serialiser;
- the zip writer.

`Promise.all` waves are modelled as sequential passes. A wave keeps its submission order and
rejects when any of its downloads rejects.

## Model

| member | source | states |
|---|---|---|
| Other.NatToString | util/other.ts:28 | `${n}` prints a non-empty string of decimal digits, one digit exactly when `n` is below 10 |
| Other.NatToStringValue | util/other.ts:28 | Those digits are the decimal notation of `n`: their value is `n`, with no leading zero |
| Other.NatToStringInjective | util/other.ts:28 | Different numbers print differently, so attempt numbers, warning indices and manifest ids built from them name their numbers |
| Other.HexDigit | util/other.ts:14 | `toString(16)` of a nibble is a lower-case hex digit |
| Other.Fill | util/other.ts:11-15 | The template fill keeps the length; each `x` becomes a lower-case hex digit, each `y` one of `8 9 a b`, every other character stays |
| Other.Uuid | util/other.ts:10-15 | `uuid()` has length 36 and hyphens at 8, 13, 18 and 23. It has `4` at 14 and a variant digit at 19; every other position is a lower-case hex digit |
| Other.TemplateAt | util/other.ts:11 | The template string, position by position: eight `x`, `-`, four `x`, `-4`, three `x`, `-y`, three `x`, `-`, twelve `x` |
| Other.Retried | util/other.ts:17-35 | Definition: what `retryFetch` settles to, the outcome of the deciding attempt |
| Other.RetryMessage | util/other.ts:28 | Definition: the message for a caught attempt, numbered from 1, "time" or "times" |
| Other.FirstSuccessFrom | util/other.ts:23-34 | The first successful attempt from `i` on, or the last attempt; every attempt before it failed |
| Other.DecidingAttempt | util/other.ts:23-34 | The attempt whose outcome `retryFetch` reports: at most the last one, all before it failed, and it succeeded unless it is the last |
| Other.RetryLog | util/other.ts:27-30 | One retry message per caught attempt, numbered `i+1`, with "time" for the first and "times" after it |
| Other.RetryFetch | util/other.ts:17-35 | The retry loop makes between 1 and `max(retry-1,0)+1` attempts and returns the first success. Only the final attempt's failure escapes, and the log is one message per caught attempt |
| Other.SingleAttempt | util/other.ts:23-34 | With `retry <= 1` exactly one attempt is made and its outcome, failure included, is the result |
| Other.OnlyLastFailureEscapes | util/other.ts:23-34 | `retryFetch` fails iff every attempt up to and including the last one failed |
| AssetTable.IndexOf | util/html.ts:19 | Position of the first occurrence of a character, or the length when there is none |
| AssetTable.LineEnd | util/html.ts:19 | Position of the first line terminator at or after `from`, where `.*` stops |
| AssetTable.StripQuery | util/html.ts:19 | `url.replace(/\?.*/, "")`: a URL without `?` is unchanged, and a single-line URL is cut at its first `?` |
| AssetTable.NewImage | util/html.ts:19-27 | A new entry carries the URL it was created for and the fresh id |
| AssetTable.FindIndex | util/html.ts:16 | `find` by URL: the first matching entry, or past the end when none matches |
| AssetTable.Insert | util/html.ts:15-30 | After `imgSrc(url)` the table has an entry for `url` |
| AssetTable.InsertKnown | util/html.ts:16-18 | A URL already in the table leaves the table unchanged |
| AssetTable.InsertNew | util/html.ts:18-31 | A new URL appends exactly one entry (url, next id, media type, extension) and the returned path is that entry's |
| AssetTable.InsertKeepsDistinct | util/html.ts:16-29 | One `imgSrc` call keeps the table's URLs pairwise distinct |
| AssetTable.InsertAll | util/html.ts:15-30 | Definition: the table after `imgSrc` has been called on each URL in turn |
| AssetTable.InsertAllKeepsDistinct | util/html.ts:15-30 | After any sequence of `imgSrc` calls the table's URLs are pairwise distinct |
| AssetTable.InsertAllExtends | util/html.ts:29 | Existing entries are never moved or changed; the table only grows at the end |
| AssetTable.InsertAllConcat | util/html.ts:15-30 | Calls for `a` then `b` give the same table as the calls for `a + b` |
| AssetTable.SamePathLater | util/html.ts:15-32 | Once a URL is in the table, every later call for it returns the same path, whichever chapter makes it |
| AssetTable.InsertAllOrder | util/html.ts:16-29 | The table lists the URLs in order of first occurrence, each once |
| AssetTable.UrlsInsert | util/html.ts:16-29 | One call adds the URL to the table's URL list iff it was not there |
| AssetTable.QueryIgnored | util/html.ts:19-26 | Two URLs that differ only by a query string get the same media type and extension |
| AssetTable.ExtensionDefault | util/html.ts:26 | When the type lookup has no answer the extension is `""` |
| AssetTable.ImageTable.ImgSrc | util/html.ts:15-32 | `imgSrc` as the method on the table. A known URL leaves `images` unchanged; a new one pushes one entry. It returns the path of the URL's entry |
| HtmlNormalize.OpenLength | util/html.ts:36 | The first alternative of the regex matches `<body>` or the namespaced `<body …>` at position 0, or nothing |
| HtmlNormalize.CloseLength | util/html.ts:36 | The second alternative matches `</body>` at the end only, and never overlaps the opening match |
| HtmlNormalize.StripBody | util/html.ts:35-38 | The result is the input between the two matches; input with neither tag is unchanged |
| HtmlNormalize.OpenPlain | util/html.ts:36 | A plain `<body>` prefix is matched whole |
| HtmlNormalize.OpenNs | util/html.ts:36 | A namespaced `<body xmlns=…>` prefix is matched whole |
| HtmlNormalize.UnwrapPlain | util/html.ts:35-38 | Stripping `<body>` + x + `</body>` gives x back |
| HtmlNormalize.UnwrapNs | util/html.ts:35-38 | Stripping the namespaced `<body …>` + x + `</body>` gives x back |
| HtmlNormalize.OnlyClose | util/html.ts:36 | A trailing `</body>` without an opening tag is removed and nothing else is |
| HtmlNormalize.NormalizeHTML | util/html.ts:34-39 | `normalizeHTML` emits `fixHTML`'s warnings, updates the image table as `fixHTML` does, and returns the serialised markup stripped |
| HtmlParse.Names | util/html-parse.ts:14 | `Object.keys(element.attributes)`: the attribute names, in order |
| HtmlParse.GetAttr | util/html-parse.ts:31-34 | `getAttribute` finds a value iff an attribute has that name, and the value is that attribute's |
| HtmlParse.RemoveAttr | util/html-parse.ts:22 | `removeAttribute` keeps exactly the attributes with another name |
| HtmlParse.SetAttr | util/html-parse.ts:34 | `setAttribute` makes the name read back as the value. It leaves every other name's value alone and adds no other attribute |
| HtmlParse.FilterAllowed | util/html-parse.ts:13-25 | The first pass keeps exactly the allowed attributes |
| HtmlParse.Dropped | util/html-parse.ts:15-22 | The removed names are exactly the names outside the allow-list |
| HtmlParse.DropWarningsMessages | util/html-parse.ts:19-21 | One warning per removed attribute, naming the chapter index and the attribute, in visiting order |
| HtmlParse.AttrPass | util/html-parse.ts:13-25 | The first pass keeps every element in place and cleans each one |
| HtmlParse.KeepStep | util/html-parse.ts:14-23 | Visiting a disallowed name removes it; visiting an allowed one changes nothing |
| HtmlParse.KeepNothingVisited | util/html-parse.ts:14 | Before the loop the attributes are as parsed |
| HtmlParse.KeepVisitedAll | util/html-parse.ts:14-24 | Once every name has been visited, what is left is exactly the allowed attributes |
| HtmlParse.ChapterWarnings | util/html-parse.ts:13-25 | Definition: the first pass's warnings for a sequence of elements, element by element |
| HtmlParse.StripStep | util/html-parse.ts:14-23 | One turn of the inner loop: an allowed name changes nothing; another is removed with one warning |
| HtmlParse.StripElement | util/html-parse.ts:14-24 | The inner loop leaves the allowed attributes and emits the warnings for the others |
| HtmlParse.StripAttributes | util/html-parse.ts:13-25 | The outer loop applies the first pass to every element in document order, with the warnings in order |
| HtmlParse.AltFilled | util/html-parse.ts:30 | Definition: the value `||=` leaves, the placeholder for a missing or empty `alt`, the old value otherwise |
| HtmlParse.WithAlt | util/html-parse.ts:30 | `alt ||= "image-placeholder"`: a missing or empty `alt` becomes exactly `"image-placeholder"` and a non-empty one is kept. The tag and every other attribute keep their values, and no attribute other than `alt` is added |
| HtmlParse.Rewritten | util/html-parse.ts:30-34 | A kept `img` has its `src` set to the callback's path and its `alt` filled in as `||=` does; every other attribute keeps its value |
| HtmlParse.FixImg | util/html-parse.ts:28-36 | Definition: one turn of the `img` loop, what replaces the element and the table afterwards |
| HtmlParse.ImgPass | util/html-parse.ts:28-36 | Definition: the `img` loop over the document, threading the image table |
| HtmlParse.FixImgCases | util/html-parse.ts:28-36 | A non-`img` is untouched; an `img` without `src` is removed; otherwise the callback runs on its `src` and the element is rewritten |
| HtmlParse.ImgPassTable | util/html-parse.ts:28-35 | The callback runs once per `img` with a `src`, in document order, so the table is built in discovery order |
| HtmlParse.ImgPassOthers | util/html-parse.ts:28-36 | The second pass leaves every other element in place and in order |
| HtmlParse.ImgPassImgs | util/html-parse.ts:30-34 | The `img` elements that remain are exactly those that had a `src`, in order. Each is its original rewritten: `src` is its own URL's path in the final table, `alt` is filled in as `||=` does, and every other attribute is kept |
| HtmlParse.FixImgAllowed | util/html-parse.ts:30-34 | After the first pass, an `img` step leaves only allowed attributes plus `alt` |
| HtmlParse.WithAltNames | util/html-parse.ts:30 | Filling in `alt` adds no name besides `alt` |
| HtmlParse.SetAttrNames | util/html-parse.ts:34 | Rewriting an allowed attribute keeps every name allowed |
| HtmlParse.ImgPassAllowed | util/html-parse.ts:13-36 | After both passes every element carries only allowed attributes, plus `alt` on an `img` |
| HtmlParse.RewriteImages | util/html-parse.ts:28-36 | The `img` loop, calling `ImgSrc` on the shared table, produces the second pass and its table |
| HtmlParse.FixHTML | util/html-parse.ts:7-39 | `fixHTML` gives the body's inner markup, or the whole document when there is no body. It emits the first pass's warnings and updates the table as the passes do |
| Epub.Pages | epub.ts:95-106 | Definition: one page job per chapter, in content order |
| Epub.Jobs | epub.ts:87-158 | `generateTemplateFiles` order: style.css, each chapter, container.xml, content.opf, toc.ncx, toc.xhtml, then cover.xhtml iff there is a cover |
| Epub.JobsCount | epub.ts:90-157 | Five files besides the chapters, six with a cover; the cover page is rendered iff there is a cover |
| Epub.Produce | epub.ts:87-158 | Definition: the template stage, the jobs rendered and pushed in order until one rejects |
| Epub.ProduceFiles | epub.ts:87-158 | The pushed files are those of the jobs before the first rendering that rejects, each named by its job, in order. The stage resolves iff none rejected |
| Epub.ProduceUnique | epub.ts:87-158 | The files and flag of a template stage are determined by those properties |
| Epub.ProduceConcat | epub.ts:87-158 | Running `a + b` runs `a`, then `b` only if all of `a` rendered |
| Epub.ProduceAll | epub.ts:87-158 | The stage resolves iff every job renders |
| Epub.JobsSplit | epub.ts:87-158 | The job list gives the same files as the method's three steps: stylesheet, chapter loop, container and package files |
| Epub.RenderedSplit | epub.ts:58-69 | `render` is the template stage, then, only if it resolved, the download stages |
| Epub.FontResources | epub.ts:193-196 | Definition: each font is fetched from its URL into `OEBPS/fonts/<filename>`, in `fonts` order |
| Epub.ImageResources | epub.ts:229-234 | Definition: each image is fetched from its URL into `OEBPS/images/<id>.<extension>`, in table order |
| Epub.Waves | epub.ts:163-197 | Definition: the batch loop, one wave pushed per turn once it resolves, the first rejecting wave ending the stage |
| Epub.Stage | epub.ts:160-236 | Definition: a download stage, nothing for an empty list, the waves otherwise |
| Epub.WavesLength | epub.ts:163-197 | A download stage writes at most one file per resource, and resolves iff it wrote all of them |
| Epub.WavesAt | epub.ts:203-234 | File `k` of a stage is what resource `k` delivered, under its name, whatever the completion order |
| Epub.WavesFailure | epub.ts:163-197 | A stage that rejects wrote whole waves only, and the next wave is the one that rejected |
| Epub.WavesStep | epub.ts:163-169 | After a wave resolves the loop goes on at `i + batchSize` |
| Epub.WavesFiles | epub.ts:163-197 | A stage's files in full: bounded, in resource order, complete iff it resolves, whole waves otherwise |
| Epub.WavesAll | epub.ts:163-197 | A stage resolves iff every one of its downloads delivers |
| Epub.WavesRejects | epub.ts:182-190 | A stage that rejects has a download that failed without being tolerated |
| Epub.IgnoreNeverRejects | epub.ts:182-190 | With `ignoreFailedDownloads` a stage always resolves and writes one file per resource, empty for a failed one |
| Epub.WavesCover | epub.ts:163-169 | For `batchSize >= 1` the slices cover every resource exactly once, in order, each holding 1 to `batchSize` of them |
| Epub.OutputsFrom | epub.ts:193-196 | A resolved wave pushes its resources' files in submission order |
| Epub.FilesAreOutputs | epub.ts:193-196 | A full set of delivered files for a wave is that wave's output |
| Epub.FilesStopped | epub.ts:168-192 | One download that rejects makes the whole `Promise.all` reject |
| Epub.CoverOnce | epub.ts:238-257 | The cover stage writes `OEBPS/cover.<ext>` iff there is a cover. A failed download gives an empty file whatever `ignoreFailedDownloads` says |
| Epub.Rendered | epub.ts:58-69 | Definition: the files `render` pushes and whether it resolves, templates, fonts, images, cover, a rejecting stage ending it |
| Epub.RenderLog | epub.ts:58-69 | Definition: the stage messages `render` logs, up to the first stage that rejects |
| Epub.RenderedAll | epub.ts:58-69 | When `render` resolves every stage resolved, and the files are the templates', fonts', images' and cover's, in that order |
| Epub.RenderedNames | epub.ts:58-69 | When `render` resolves, the file names are the template files, the font files, the image files, then the cover file if any |
| Epub.ProducedNames | epub.ts:87-158 | A resolved template stage writes one file per job, named by the job |
| Epub.StageNames | epub.ts:160-236 | A resolved download stage writes one file per resource, named by it, in order |
| Epub.FontNames | epub.ts:194 | A resolved font stage's files are named `OEBPS/fonts/<filename>` in font order |
| Epub.ImageNames | epub.ts:231 | A resolved image stage's files are named `OEBPS/images/<id>.<extension>` in table order |
| Epub.EPub.constructor | epub.ts:31-56 | Log sinks follow `verbose`, the book id is a `uuid()`, and `cover` is `image/jpeg`/`jpg` iff the options name a cover. No files have been written yet |
| Epub.EPub.Log | epub.ts:27 | `this.log` appends one information line and writes no file |
| Epub.EPub.GenerateTemplateFiles | epub.ts:87-158 | The method pushes exactly the template stage's files after the existing ones, and reports whether it resolved |
| Epub.EPub.RenderChapters | epub.ts:95-106 | The chapter loop pushes one rendered page per chapter, stopping at the first that rejects |
| Epub.EPub.RenderPackageFiles | epub.ts:118-157 | The package, NCX, TOC page and, with a cover, cover page are pushed in that order, stopping at the first that rejects |
| Epub.EPub.Fetch | epub.ts:170-190 | One download delivers the fetched data, or `""` when a failure is tolerated. It rejects iff the failure is not tolerated |
| Epub.EPub.FetchWave | epub.ts:168-192 | `Promise.all` over a wave resolves iff every download delivers, and then to their files in submission order |
| Epub.EPub.DownloadInWaves | epub.ts:163-197 | The batch loop pushes exactly the stage's files and reports whether it resolved |
| Epub.EPub.DownloadAllFonts | epub.ts:160-198 | `downloadAllFonts` pushes the font stage's files, and logs "No fonts to download" iff there are none |
| Epub.EPub.DownloadAllImages | epub.ts:200-236 | `downloadAllImages` pushes the image stage's files for the table the chapters filled, and logs "No images to download" iff it is empty |
| Epub.EPub.MakeCover | epub.ts:238-258 | `makeCover` pushes the cover file iff there is a cover. It logs the caught attempts and a warning if the download failed |
| Epub.EPub.FinishCover | epub.ts:65-67 | The cover stage of `render` with its messages |
| Epub.EPub.ImageStage | epub.ts:63-67 | Images, then the cover only if the images resolved |
| Epub.EPub.Download | epub.ts:61-67 | Fonts, then images and cover only if the fonts resolved |
| Epub.EPub.Render | epub.ts:58-69 | `render` pushes exactly the files of the specification `Rendered` and logs the stage messages in order |
| Epub.EPub.GenEpub | epub.ts:71-85 | `genEpub` yields the zip of the files iff `render` resolves, and then logs "Done" last |
| Opf.ImageItems | templates/epub2/content.opf.ejs.ts:33-35 | Definition: one item per image, in table order, with id `image_<index>` and href `images/<id>.<extension>` |
| Opf.ChapterItems | templates/epub2/content.opf.ejs.ts:37-39 | Definition: one item per chapter, in content order, with id `content_<index>_<id>` and the chapter's filename |
| Opf.FontItems | templates/epub2/content.opf.ejs.ts:41-43 | Definition: one item per font, in font order, with id `font_<index>` and href `fonts/<filename>` |
| Opf.SpineIds | templates/epub2/content.opf.ejs.ts:46-58 | Definition: each spine idref is its ref's id: `toc`, or the chapter's manifest id |
| Opf.SpineRefs | templates/epub2/content.opf.ejs.ts:46-58 | Definition: the spine, the `beforeToc` chapters, `toc`, then the other chapters |
| Opf.GroupRange | templates/epub2/content.opf.ejs.ts:47-57 | One spine loop lists only chapters of its side, in strictly increasing content order |
| Opf.GroupCount | templates/epub2/content.opf.ejs.ts:47-57 | One spine loop lists each chapter of its side exactly once and nothing else |
| Opf.GroupSizes | templates/epub2/content.opf.ejs.ts:47-57 | The two spine loops together list as many refs as there are chapters |
| Opf.SpineOnce | templates/epub2/content.opf.ejs.ts:46-58 | The spine has one ref per chapter plus `toc`: every chapter exactly once, `toc` exactly once, and every ref names a real chapter |
| Opf.SpineOrder | templates/epub2/content.opf.ejs.ts:46-58 | The spine is the `beforeToc` chapters in order, then `toc`, then the other chapters in order |
| Opf.Manifest | templates/epub2/content.opf.ejs.ts:24-44 | Definition: the manifest in template order |
| Opf.Package | templates/epub2/content.opf.ejs.ts:17-58 | Definition: what the template lists, the cover flag, the manifest and the spine idrefs |
| Opf.ManifestParts | templates/epub2/content.opf.ejs.ts:24-44 | The manifest is the fixed items, the cover item, the images, the chapters, then the fonts |
| Opf.ImageAt | templates/epub2/content.opf.ejs.ts:34 | Image `k` sits after the fixed and cover items |
| Opf.ChapterAt | templates/epub2/content.opf.ejs.ts:38 | Chapter `k` sits after the images |
| Opf.FontAt | templates/epub2/content.opf.ejs.ts:42 | Font `k` sits after the chapters |
| Opf.ManifestLayout | templates/epub2/content.opf.ejs.ts:24-44 | The full manifest layout: `ncx`, `toc` and `css` always, then the `image_cover` item iff a cover, then images, chapters and fonts by index |
| Opf.OnlyCoverId | templates/epub2/content.opf.ejs.ts:24-44 | No item but the cover item has the id `image_cover` |
| Opf.ImageIdNotCover | templates/epub2/content.opf.ejs.ts:34 | An image's id `image_<index>` never equals `image_cover` |
| Opf.CoverIff | templates/epub2/content.opf.ejs.ts:17-31 | The cover `meta` and the `image_cover` item are present iff there is a cover |
| Opf.RefItem | templates/epub2/content.opf.ejs.ts:38-55 | Each spine ref has a manifest item with its id |
| Opf.SpineInManifest | templates/epub2/content.opf.ejs.ts:46-58 | Every spine idref names a manifest item, since chapters use the same `content_<index>_<id>` formula in both |
| Opf.ManifestNamed | templates/epub2/content.opf.ejs.ts:24-44 | Every manifest href, under `OEBPS/`, is the name of a template file or of a downloaded font, image or cover |
| Opf.ItemNamed | templates/epub2/content.opf.ejs.ts:24-44 | The same for one manifest item |
| Opf.FixedNamed | templates/epub2/content.opf.ejs.ts:25-27 | `toc.ncx`, `toc.xhtml` and `style.css` are files the template stage writes |
| Opf.FixedHrefs | templates/epub2/content.opf.ejs.ts:25-27 | The fixed hrefs under `OEBPS/` are the names of the NCX, TOC page and stylesheet jobs |
| Opf.CoverNamed | templates/epub2/content.opf.ejs.ts:30 | The cover item's href is the file `makeCover` writes |
| Opf.CoverHref | templates/epub2/content.opf.ejs.ts:30 | `cover.<extension>` under `OEBPS/` is `makeCover`'s file name |
| Opf.ImageNamed | templates/epub2/content.opf.ejs.ts:34 | An image item's href is a file the image stage writes |
| Opf.ImageHref | templates/epub2/content.opf.ejs.ts:34 | An image's href is the path `imgSrc` returned for it, and under `OEBPS/` the name `downloadAllImages` writes |
| Opf.ChapterNamed | templates/epub2/content.opf.ejs.ts:38 | A chapter item's href is a chapter file the template stage writes |
| Opf.PageNamed | templates/epub2/content.opf.ejs.ts:38 | A chapter's filename under `OEBPS/` is among the template stage's file names |
| Opf.FontNamed | templates/epub2/content.opf.ejs.ts:42 | A font item's href is a file the font stage writes |
| Opf.FontHref | templates/epub2/content.opf.ejs.ts:42 | `fonts/<filename>` under `OEBPS/` is `downloadAllFonts`'s file name |
| Opf.ManifestInArchive | templates/epub2/content.opf.ejs.ts:24-44 | When `render` resolves, every manifest item is a file of the archive |
| Cmd.EscapeChain | cmd.ts:43-47 | Definition: the five replaces of `encodeContent`, `&` first |
| Cmd.EncodeContent | cmd.ts:42-50 | Definition: `encodeContent`, the escapes, then the line-break replace, then the `rep` deletion |
| Cmd.ReplaceConcat | cmd.ts:43 | A one-character global replace distributes over concatenation |
| Cmd.EscapeChar | cmd.ts:43-47 | Each character's escape holds none of `< > " '` |
| Cmd.Escaped | cmd.ts:43-47 | Escaping character by character leaves none of `< > " '` |
| Cmd.EscapeChainConcat | cmd.ts:43-47 | The five replaces distribute over concatenation |
| Cmd.EscapeChainOne | cmd.ts:43-47 | On one character the five replaces give exactly that character's entity |
| Cmd.EscapeAmp | cmd.ts:43-47 | `&` becomes `&amp;`, which no later replace touches |
| Cmd.EscapeLt | cmd.ts:43-47 | `<` becomes `&lt;`, which no later replace touches |
| Cmd.EscapeGt | cmd.ts:43-47 | `>` becomes `&gt;`, which no later replace touches |
| Cmd.EscapeQuot | cmd.ts:43-47 | `"` becomes `&quot;`, which no later replace touches |
| Cmd.EscapeApos | cmd.ts:43-47 | `'` becomes `&apos;` |
| Cmd.ReplaceOne | cmd.ts:43 | A replace on one character gives the entity or the character |
| Cmd.ReplaceAbsent | cmd.ts:44-47 | A replace of a character that does not occur changes nothing |
| Cmd.EscapeChainPerChar | cmd.ts:43-47 | Because `&` goes first, the chain escapes every character exactly once. Introduced entities are not escaped again, and existing entity text gets its `&` escaped |
| Cmd.EscapedPlain | cmd.ts:43-47 | Text without `& < > " '` is not changed by escaping |
| Cmd.SpaceRun | cmd.ts:48 | The maximal white space prefix: all `\s`, and followed by a character that is not |
| Cmd.Piece | cmd.ts:48 | What a run becomes holds no line break |
| Cmd.BreakLines | cmd.ts:48 | After the line-break replace no `\r` or `\n` remains |
| Cmd.BreakStep | cmd.ts:48 | The replace takes the first character, or the whole white space run the text starts with, then goes on |
| Cmd.BreakConcat | cmd.ts:48 | A match never reaches across a character that is not white space |
| Cmd.BreakRun | cmd.ts:48 | A maximal white space run holding a line break becomes exactly one `<br />` |
| Cmd.KeepRun | cmd.ts:48 | A maximal white space run without a line break stays as it is |
| Cmd.BreakPlain | cmd.ts:48 | Text without line breaks is unchanged by the replace |
| Cmd.StripInvisible | cmd.ts:49 | The `rep` replace deletes exactly the characters of its class. Nothing of the class is left, the other characters survive, and text without any is unchanged |
| Cmd.StripConcat | cmd.ts:49 | The deletion distributes over concatenation |
| Cmd.TaggedShape | cmd.ts:43-49 | Text made of `<br />` tags and non-markup characters has every `<` and `>` inside a `<br />` and no quotes |
| Cmd.TaggedBreakLines | cmd.ts:48 | On escaped text the line-break replace adds only `<br />` tags |
| Cmd.TaggedStrip | cmd.ts:49 | The deletion keeps that structure |
| Cmd.EncodeContentSafe | cmd.ts:42-50 | `encodeContent` leaves no raw markup except whole `<br />` tags, and no line break or character of `rep`'s class |
| Cmd.EncodePlain | cmd.ts:42-50 | Plain text without markup, `&`, line breaks or invisible characters is returned unchanged |
| Cmd.SplitChapters | cmd.ts:21-29 | The loop as written gives `max(n-1, 0)` chapters for `n` headings. Chapter `k` is titled by heading `k` and holds the encoded text from heading `k` up to heading `k+1` |
| Cmd.Spans | cmd.ts:22 | Definition: the texts of those chapters, by index |
| Cmd.SpansTile | cmd.ts:21-29 | The chapter texts tile the text from the first heading to the last; nothing before the first or from the last on is kept |
| Cmd.LastChapterLost | cmd.ts:21-29 | As written, text after the last heading is in no chapter |
| Cmd.SplitAllChapters | cmd.ts:21-29 | The loop with the last chapter kept: one chapter per heading, the last running to the end of the text |
| Cmd.SpansToEnd | cmd.ts:22 | Definition: the texts of those chapters, by index |
| Cmd.SpansToEndTile | cmd.ts:21-29 | With the last chapter kept, the chapters tile all the text from the first heading on |
| Mod.Options.constructor | mod.ts:34 | A title becomes the options `{ title }` with nothing else set |
| Mod.Prepare | mod.ts:33-40 | A string gives fresh options with that title. An object is used as-is, is mutated rather than copied, and keeps its title. Then the extra arguments are applied left to right |
| Mod.Apply | mod.ts:37-40 | Definition: one extra argument, a boolean sets `verbose`, anything else sets `version` |
| Mod.Fold | mod.ts:37-40 | Definition: the extra arguments applied from left to right |
| Mod.FlagWins | mod.ts:37-40 | The last boolean argument decides `verbose` |
| Mod.NoFlagKeeps | mod.ts:37-40 | Without a boolean argument `verbose` keeps its value |
| Mod.NumWins | mod.ts:37-40 | The last number argument decides `version` |
| Mod.NoNumKeeps | mod.ts:37-40 | Without a number argument `version` keeps its value |
| Mod.FoldSplit | mod.ts:37-40 | The arguments are applied left to right: a later group is applied on top of an earlier one |

## Left out

- Parsing and serialising HTML (deno-dom). A chapter is a list of elements with attribute lists. Serialisation is a function parameter, and whether `attributes.alt ||=` reaches the real DOM is the library's business.
- The template engine, the bundled assets (`fetchFileContent`) and the XML text of the templates. Rendering is a parameter that gives a job's text or rejects. The OPF model keeps what the template's loops and conditions decide, not its text.
- The zip writer (`create`) is a parameter. UTF-8 encoding by `TextEncoder` is not modelled: text payloads stay strings.
- The network and timeouts (`fetchable`, util/fetchable.ts is not part of this model). A network is the outcome of each attempt.
- Concurrency of `Promise.all`. Each wave is a sequential pass with the same result order and the same rejection.
- Epub.EPub.DownloadInWaves: does not record the per-download "Downloaded …" lines, whose interleaving depends on completion order. It does not record the warnings of tolerated failures or the retry messages of font and image downloads either (the cover's are recorded). Its `lines` are stated unchanged.
- Epub.EPub.DownloadInWaves: requires `batchSize >= 1`, because with 0 the source loop never advances.
- Epub.EPub.GenEpub: the `DEV` bundle step and `console.error` on failure are not modelled.
- `validateAndNormalizeOptions`, `validateAndNormalizeChapters` (util/mod.ts, util/validate.ts) and `allowedAttributes` (util/constants.ts) are not part of this model. Normalised options, normalised chapters and the allow-list are inputs.
- Opf.ManifestInArchive: assumes each chapter's `href` is `OEBPS/` + its `filename`, as the chapter normaliser sets them.
- Attribute names are not required to be unique within an element, which a DOM attribute map guarantees; on parsed input they are, and `GetAttr` and `RemoveAttr` then read and remove the one attribute of that name.
- A `Network` gives the same outcome to every fetch of the same URL and attempt number, across stages; real fetches (say of a cover URL that is also a chapter image) are independent.
- The MIME helpers (`extensionsFromMimetype`, `lookup`) are function parameters. An absent media type prints as `""` in the manifest.
- Other.Uuid: `Math.random` is replaced by supplied nibbles, so ids are not proved unique. Uniqueness is only probable.
- Cmd.EncodeContent: JavaScript strings are UTF-16. The model works on Unicode scalar values, so characters above U+FFFF (surrogate pairs in the source) are outside `rep`'s range in both.
- Cmd.SplitChapters: the heading regex engine is not modelled. The matches are given as increasing (position, title) pairs.
- `encodeEpub`, `basename`, `Deno.writeFile`, `Deno.readTextFileSync` and the command-line block of cmd.ts are not modelled.
- Mod.Prepare: the `ow` validation and `new EPub(options, content).genEpub()` are not modelled. JavaScript numbers are integers here.
- Logging formats: `warn` receives the reason as a second argument, which is not recorded.

## Findings

| source | as written | input that shows it | evidently intended | confidence | as-written member | corrected member |
|---|---|---|---|---|---|---|
| cmd.ts:21-29 | The chapter loop ends at the last heading, so the text from the last heading to the end is never made a chapter. With a single heading no chapter is produced | A text with two headings, "第1章 A\n…\n第2章 B\n…\n", gives one chapter; the chapter "B" and its text are dropped | One chapter per heading, the last running to the end of the text | high; not executed | Cmd.LastChapterLost | Cmd.SplitAllChapters |
