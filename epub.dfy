/**
 * epub.ts, class `EPub`: the object that collects the files of the book.
 *
 * The template engine, the bundled assets, the zip writer and the network
 * are parameters: `render` gives the text of a template job (or `None` when
 * the engine rejects), `css` is the bundled stylesheet, `net` the outcome of
 * each fetch attempt and `zip` the archive writer. `Promise.all` runs the
 * downloads of a wave concurrently but resolves to its results in submission
 * order, and rejects as soon as one of them rejects; the model takes each
 * wave as a sequential pass with the same outcome.
 */
module Epub {
  import opened Wrappers
  import opened Other
  import opened AssetTable

  // ---------------------------------------------------------------------------
  // Data
  // ---------------------------------------------------------------------------

  /** `options.verbose`: a flag, or a callback receiving the level as its first argument. */
  datatype Verbose = Flag(on: bool) | Callback

  /** Where `log` and `warn` send their messages. */
  datatype Sink = Console | Discard | ToCallback

  datatype Level = Info | Warning

  /** One call of `this.log` (`Info`) or `this.warn` (`Warning`). */
  datatype Line = Line(level: Level, text: string)

  datatype Font = Font(url: string, filename: string, mediaType: string)

  /** The validated options; `cover` is the empty string when no cover was given. */
  datatype NormOptions = NormOptions(
    title: string,
    lang: string,
    verbose: Verbose,
    cover: string,
    fonts: seq<Font>,
    batchSize: nat,
    retryTimes: int,
    ignoreFailedDownloads: bool)

  /** A validated chapter, its markup already through `normalizeHTML`. */
  datatype NormChapter = NormChapter(id: string, title: string, href: string, filename: string, beforeToc: bool, data: string)

  datatype Cover = Cover(mediaType: string, extension: string)

  /** One entry of `this.files`. */
  datatype OutFile = OutFile(name: string, data: Payload)

  // ---------------------------------------------------------------------------
  // generateTemplateFiles
  // ---------------------------------------------------------------------------

  /** The files `generateTemplateFiles` writes, each with where its text comes from. */
  datatype Job = StyleSheet | Page(chapter: NormChapter) | Container | Package | Ncx | TocPage | CoverPage

  type Renderer = Job -> Option<string>

  /** `META-INF/container.xml`: the literal of epub.ts with every whitespace run collapsed to one space. */
  const ContainerXml: string :=
    "<?xml version=\"1.0\" encoding=\"UTF-8\" ?> <container version=\"1.0\" "
    + "xmlns=\"urn:oasis:names:tc:opendocument:xmlns:container\"> <rootfiles> "
    + "<rootfile full-path=\"OEBPS/content.opf\" media-type=\"application/oebps-package+xml\"/> "
    + "</rootfiles> </container>"

  function JobName(job: Job): string {
    match job
    case StyleSheet => "OEBPS/style.css"
    case Page(chapter) => chapter.href
    case Container => "META-INF/container.xml"
    case Package => "OEBPS/content.opf"
    case Ncx => "OEBPS/toc.ncx"
    case TocPage => "OEBPS/toc.xhtml"
    case CoverPage => "OEBPS/cover.xhtml"
  }

  /** The contents of a job's file, or `None` when rendering it rejects. */
  function JobData(job: Job, css: string, render: Renderer): Option<Payload> {
    match job
    case StyleSheet => Some(Text(css))
    case Container => Some(Text(ContainerXml))
    case _ => if render(job).Some? then Some(Text(render(job).value)) else None
  }

  function Pages(content: seq<NormChapter>): (jobs: seq<Job>)
    ensures |jobs| == |content| && forall k :: 0 <= k < |content| ==> jobs[k] == Page(content[k])
  {
    seq(|content|, k requires 0 <= k < |content| => Page(content[k]))
  }

  /** The template jobs after the chapters and the container: package, NCX, TOC page, and the cover page iff there is a cover. */
  function TailJobs(hasCover: bool): seq<Job> {
    [Package, Ncx, TocPage] + (if hasCover then [CoverPage] else [])
  }

  /** The order of `generateTemplateFiles`: stylesheet, chapters, container, then the tail jobs. */
  function Jobs(content: seq<NormChapter>, hasCover: bool): (jobs: seq<Job>)
    ensures |jobs| == |content| + 2 + |TailJobs(hasCover)|
    ensures jobs[0] == StyleSheet
    ensures forall k :: 0 <= k < |content| ==> jobs[k + 1] == Page(content[k])
    ensures jobs[|content| + 1] == Container
    ensures forall j :: 0 <= j < |TailJobs(hasCover)| ==> jobs[|content| + 2 + j] == TailJobs(hasCover)[j]
  {
    [StyleSheet] + Pages(content) + [Container] + TailJobs(hasCover)
  }

  /** Five jobs besides the chapters, six with a cover; the cover page is rendered iff there is a cover. */
  lemma JobsCount(content: seq<NormChapter>, hasCover: bool)
    ensures |Jobs(content, hasCover)| == |content| + 5 + (if hasCover then 1 else 0)
    ensures CoverPage in Jobs(content, hasCover) <==> hasCover
  {
    var jobs := Jobs(content, hasCover);
    if hasCover {
      assert jobs[|jobs| - 1] == CoverPage;
    } else {
      forall i | 0 <= i < |jobs| ensures jobs[i] != CoverPage {
        if 0 < i <= |content| {
          assert jobs[i] == Page(content[i - 1]);
        } else if i > |content| + 1 {
          assert jobs[i] == TailJobs(hasCover)[i - |content| - 2];
        }
      }
    }
  }

  /**
   * The files pushed by running `jobs` in order until one rejects, and
   * whether all of them ran: every job before the first rejection gives one
   * file, named by the job, in order.
   */
  function Produce(jobs: seq<Job>, css: string, render: Renderer): (seq<OutFile>, bool) {
    if jobs == [] then ([], true)
    else
      match JobData(jobs[0], css, render)
      case None => ([], false)
      case Some(data) =>
        var rest := Produce(jobs[1..], css, render);
        ([OutFile(JobName(jobs[0]), data)] + rest.0, rest.1)
  }

  /** The files come from the jobs before the first rejection, and all jobs ran iff none rejected. */
  lemma {:induction false} ProduceFiles(jobs: seq<Job>, css: string, render: Renderer)
    ensures var r := Produce(jobs, css, render);
      && ProducedPrefix(jobs, css, render, r.0)
      && (r.1 <==> |r.0| == |jobs|)
      && (!r.1 ==> JobData(jobs[|r.0|], css, render).None?)
  {
    if jobs != [] && JobData(jobs[0], css, render).Some? {
      ProduceFiles(jobs[1..], css, render);
      var rest := Produce(jobs[1..], css, render);
      var r := Produce(jobs, css, render);
      assert r.0 == [OutFile(JobName(jobs[0]), JobData(jobs[0], css, render).value)] + rest.0;
      forall k | 1 <= k < |r.0|
        ensures JobData(jobs[k], css, render).Some? && r.0[k] == OutFile(JobName(jobs[k]), JobData(jobs[k], css, render).value)
      {
        assert r.0[k] == rest.0[k - 1] && jobs[k] == jobs[1..][k - 1];
      }
    }
  }

  /** `Produce` is the only pair of files and flag with the properties its contract states. */
  lemma {:induction false} ProduceUnique(jobs: seq<Job>, css: string, render: Renderer, files: seq<OutFile>, ok: bool)
    requires |files| <= |jobs|
    requires forall k :: 0 <= k < |files| ==>
      JobData(jobs[k], css, render).Some? && files[k] == OutFile(JobName(jobs[k]), JobData(jobs[k], css, render).value)
    requires ok <==> |files| == |jobs|
    requires !ok ==> JobData(jobs[|files|], css, render).None?
    ensures Produce(jobs, css, render) == (files, ok)
  {
    if jobs != [] && files != [] {
      ProduceUnique(jobs[1..], css, render, files[1..], ok);
      assert files == [files[0]] + files[1..];
    }
  }

  /** `files` are the files of the first `|files|` jobs, each of which rendered. */
  predicate ProducedPrefix(jobs: seq<Job>, css: string, render: Renderer, files: seq<OutFile>) {
    && |files| <= |jobs|
    && forall k :: 0 <= k < |files| ==>
         JobData(jobs[k], css, render).Some? && files[k] == OutFile(JobName(jobs[k]), JobData(jobs[k], css, render).value)
  }

  lemma ProducedSnoc(jobs: seq<Job>, css: string, render: Renderer, files: seq<OutFile>, data: Payload)
    requires ProducedPrefix(jobs, css, render, files) && |files| < |jobs|
    requires JobData(jobs[|files|], css, render) == Some(data)
    ensures ProducedPrefix(jobs, css, render, files + [OutFile(JobName(jobs[|files|]), data)])
  {
  }

  /** Running the jobs stops at the first one that rejects. */
  lemma ProducedStop(jobs: seq<Job>, css: string, render: Renderer, files: seq<OutFile>)
    requires ProducedPrefix(jobs, css, render, files) && |files| < |jobs|
    requires JobData(jobs[|files|], css, render).None?
    ensures Produce(jobs, css, render) == (files, false)
  {
    ProduceUnique(jobs, css, render, files, false);
  }

  lemma ProducedDone(jobs: seq<Job>, css: string, render: Renderer, files: seq<OutFile>)
    requires ProducedPrefix(jobs, css, render, files) && |files| == |jobs|
    ensures Produce(jobs, css, render) == (files, true)
  {
    ProduceUnique(jobs, css, render, files, true);
  }

  /** Running `a + b` runs `a`, then `b` if all of `a` rendered. */
  lemma {:induction false} ProduceConcat(a: seq<Job>, b: seq<Job>, css: string, render: Renderer)
    ensures Produce(a + b, css, render) ==
      if Produce(a, css, render).1
      then (Produce(a, css, render).0 + Produce(b, css, render).0, Produce(b, css, render).1)
      else Produce(a, css, render)
  {
    if a == [] {
      assert a + b == b && [] + Produce(b, css, render).0 == Produce(b, css, render).0;
    } else {
      assert (a + b)[0] == a[0] && (a + b)[1..] == a[1..] + b;
      ProduceConcat(a[1..], b, css, render);
      if JobData(a[0], css, render).Some? {
        var head := [OutFile(JobName(a[0]), JobData(a[0], css, render).value)];
        var rest := Produce(a[1..], css, render);
        if rest.1 {
          assert head + (rest.0 + Produce(b, css, render).0) == (head + rest.0) + Produce(b, css, render).0;
        }
      }
    }
  }

  /** `generateTemplateFiles` stage by stage: the stylesheet, the chapters, then the container and the tail jobs. */
  function TemplateFiles(content: seq<NormChapter>, hasCover: bool, css: string, render: Renderer): (seq<OutFile>, bool) {
    var pages := Produce(Pages(content), css, render);
    var tail := Produce(TailJobs(hasCover), css, render);
    if !pages.1 then ([OutFile("OEBPS/style.css", Text(css))] + pages.0, false)
    else ([OutFile("OEBPS/style.css", Text(css))] + pages.0 + [OutFile("META-INF/container.xml", Text(ContainerXml))] + tail.0, tail.1)
  }

  lemma JobsSplit(content: seq<NormChapter>, hasCover: bool, css: string, render: Renderer)
    ensures Produce(Jobs(content, hasCover), css, render) == TemplateFiles(content, hasCover, css, render)
  {
    var rest := [Container] + TailJobs(hasCover);
    JobsShape(content, hasCover);
    ProduceCons(StyleSheet, Pages(content) + rest, css, render);
    ProduceConcat(Pages(content), rest, css, render);
    ProduceCons(Container, TailJobs(hasCover), css, render);
    var pages := Produce(Pages(content), css, render);
    if pages.1 {
      var style := OutFile("OEBPS/style.css", Text(css));
      var container := OutFile("META-INF/container.xml", Text(ContainerXml));
      var tail := Produce(TailJobs(hasCover), css, render);
      AppendAssoc(pages.0, [container], tail.0);
      Regroup3([style], pages.0, [container], tail.0);
    }
  }

  lemma JobsShape(content: seq<NormChapter>, hasCover: bool)
    ensures Jobs(content, hasCover) == [StyleSheet] + (Pages(content) + ([Container] + TailJobs(hasCover)))
  {
    AppendAssoc([StyleSheet], Pages(content), [Container]);
    Regroup3([StyleSheet], Pages(content), [Container], TailJobs(hasCover));
    AppendAssoc(Pages(content), [Container], TailJobs(hasCover));
  }

  /** A job that renders puts its file in front of the files of the jobs after it. */
  lemma ProduceCons(job: Job, rest: seq<Job>, css: string, render: Renderer)
    requires JobData(job, css, render).Some?
    ensures Produce([job] + rest, css, render) ==
      ([OutFile(JobName(job), JobData(job, css, render).value)] + Produce(rest, css, render).0, Produce(rest, css, render).1)
  {
    assert ([job] + rest)[0] == job && ([job] + rest)[1..] == rest;
  }

  /** Moving a wave's files from the pending part to the written part keeps their concatenation. */
  lemma PushKeeps<T>(written: seq<T>, out: seq<T>, rest: seq<T>, pending: seq<T>, total: seq<T>)
    requires written + pending == total && pending == out + rest
    ensures written + out + rest == total
  {
    AppendAssoc(written, out, rest);
  }

  lemma AppendAssoc<T>(a: seq<T>, b: seq<T>, c: seq<T>)
    ensures a + (b + c) == a + b + c
  {
  }

  /** `render` is the templates, then, if they resolved, the downloads. */
  lemma RenderedSplit(o: NormOptions, content: seq<NormChapter>, images: seq<Image>, cover: Option<Cover>,
                      css: string, render: Renderer, net: Network)
    requires o.batchSize >= 1 || (|o.fonts| == 0 && |images| == 0)
    ensures var t := Produce(Jobs(content, cover.Some?), css, render);
      var d := Downloaded(o, images, cover, net);
      Rendered(o, content, images, cover, css, render, net) == if !t.1 then t else (t.0 + d.0, d.1)
  {
    var t := Produce(Jobs(content, cover.Some?), css, render);
    var f := Stage(FontResources(o.fonts), o, net);
    var m := Stage(ImageResources(images), o, net);
    var c := CoverFiles(cover, o.cover, o.retryTimes, net);
    AppendAssoc(t.0, f.0, m.0);
    AppendAssoc(t.0, f.0 + m.0, c);
    AppendAssoc(f.0, m.0, c);
    AppendAssoc(t.0, f.0, m.0 + c);
  }

  lemma Regroup3<T>(x: seq<T>, a: seq<T>, b: seq<T>, c: seq<T>)
    ensures x + a + b + c == x + (a + b + c)
  {
  }

  /** Every job renders iff the whole list is produced. */
  lemma ProduceAll(jobs: seq<Job>, css: string, render: Renderer)
    ensures Produce(jobs, css, render).1 <==> forall k :: 0 <= k < |jobs| ==> JobData(jobs[k], css, render).Some?
  {
    ProduceFiles(jobs, css, render);
  }

  // ---------------------------------------------------------------------------
  // Batched downloads
  // ---------------------------------------------------------------------------

  /** Something to download and the file it is written to. */
  datatype Resource = Resource(url: string, name: string)

  function FontFile(font: Font): string {
    "OEBPS/fonts/" + font.filename
  }

  function ImageFile(image: Image): string {
    "OEBPS/images/" + image.id + "." + image.extension
  }

  function FontResources(fonts: seq<Font>): (rs: seq<Resource>)
    ensures |rs| == |fonts|
    ensures forall k :: 0 <= k < |fonts| ==> rs[k] == Resource(fonts[k].url, FontFile(fonts[k]))
  {
    seq(|fonts|, k requires 0 <= k < |fonts| => Resource(fonts[k].url, FontFile(fonts[k])))
  }

  function ImageResources(images: seq<Image>): (rs: seq<Resource>)
    ensures |rs| == |images|
    ensures forall k :: 0 <= k < |images| ==> rs[k] == Resource(images[k].url, ImageFile(images[k]))
  {
    seq(|images|, k requires 0 <= k < |images| => Resource(images[k].url, ImageFile(images[k])))
  }

  /** What `retryFetch` makes of each URL, given the network and the retry count. */
  type Fetcher = string -> FetchOutcome

  function Retrying(net: Network, retry: int): Fetcher {
    url => Retried(net, url, retry)
  }

  /**
   * What one download contributes: the fetched data, the empty payload when
   * the failure is tolerated, `None` when it rejects.
   */
  function Delivered(r: Resource, ignore: bool, fetch: Fetcher): Option<Payload> {
    match fetch(r.url)
    case Fetched(data) => Some(data)
    case Failed(_) => if ignore then Some(EmptyPayload) else None
  }

  predicate AllDelivered(ws: seq<Resource>, ignore: bool, fetch: Fetcher) {
    forall k :: 0 <= k < |ws| ==> Delivered(ws[k], ignore, fetch).Some?
  }

  /** The files of a wave that resolved, in submission order. */
  function Outputs(ws: seq<Resource>, ignore: bool, fetch: Fetcher): (out: seq<OutFile>)
    requires AllDelivered(ws, ignore, fetch)
  {
    seq(|ws|, k requires 0 <= k < |ws| => OutFile(ws[k].name, Delivered(ws[k], ignore, fetch).value))
  }

  /** `slice(i, i + size)`. */
  function Wave(rs: seq<Resource>, i: nat, size: nat): seq<Resource>
    requires i <= |rs|
  {
    if i + size <= |rs| then rs[i..i + size] else rs[i..]
  }

  /**
   * The loop `for (i = start; i < length; i += size)`: each wave's files are
   * pushed once the wave resolved; the first wave that rejects ends the stage.
   */
  function Waves(rs: seq<Resource>, size: nat, i: nat, ignore: bool, fetch: Fetcher): (seq<OutFile>, bool)
    requires size >= 1
    decreases |rs| - i
  {
    if i >= |rs| then ([], true)
    else
      var wave := Wave(rs, i, size);
      if !AllDelivered(wave, ignore, fetch) then ([], false)
      else
        var rest := Waves(rs, size, i + size, ignore, fetch);
        (Outputs(wave, ignore, fetch) + rest.0, rest.1)
  }

  /** The waves, as `slice` cuts them. */
  function WaveList(rs: seq<Resource>, size: nat, i: nat): seq<seq<Resource>>
    requires size >= 1
    decreases |rs| - i
  {
    if i >= |rs| then [] else [Wave(rs, i, size)] + WaveList(rs, size, i + size)
  }

  /** A stage writes at most one file per resource, and succeeds iff it wrote all of them. */
  lemma {:induction false} WavesLength(rs: seq<Resource>, size: nat, i: nat, ignore: bool, fetch: Fetcher)
    requires size >= 1 && i <= |rs|
    ensures var r := Waves(rs, size, i, ignore, fetch);
      |r.0| <= |rs| - i && (r.1 <==> |r.0| == |rs| - i)
    decreases |rs| - i
  {
    if i < |rs| && AllDelivered(Wave(rs, i, size), ignore, fetch) {
      if i + size < |rs| {
        WavesLength(rs, size, i + size, ignore, fetch);
      }
    }
  }

  /** `file` is what resource `j` delivered, under its name. */
  predicate FileOf(rs: seq<Resource>, j: nat, file: OutFile, ignore: bool, fetch: Fetcher) {
    j < |rs| && Delivered(rs[j], ignore, fetch).Some? && file == OutFile(rs[j].name, Delivered(rs[j], ignore, fetch).value)
  }

  /** File `k` of `files` is what resource `i + k` delivered. */
  predicate FilesFrom(rs: seq<Resource>, i: nat, files: seq<OutFile>, ignore: bool, fetch: Fetcher) {
    && i + |files| <= |rs|
    && forall k :: 0 <= k < |files| ==> FileOf(rs, i + k, files[k], ignore, fetch)
  }

  lemma FilesFromConcat(rs: seq<Resource>, i: nat, a: seq<OutFile>, b: seq<OutFile>, ignore: bool, fetch: Fetcher)
    requires FilesFrom(rs, i, a, ignore, fetch) && FilesFrom(rs, i + |a|, b, ignore, fetch)
    ensures FilesFrom(rs, i, a + b, ignore, fetch)
  {
    forall k | 0 <= k < |a + b| ensures FileOf(rs, i + k, (a + b)[k], ignore, fetch) {
      if k < |a| {
        assert (a + b)[k] == a[k];
      } else {
        assert (a + b)[k] == b[k - |a|] && FileOf(rs, i + |a| + (k - |a|), b[k - |a|], ignore, fetch);
      }
    }
  }

  /** The files of a resolved wave are its resources'. */
  lemma OutputsFrom(rs: seq<Resource>, i: nat, size: nat, ignore: bool, fetch: Fetcher)
    requires i <= |rs| && AllDelivered(Wave(rs, i, size), ignore, fetch)
    ensures FilesFrom(rs, i, Outputs(Wave(rs, i, size), ignore, fetch), ignore, fetch)
  {
    var wave := Wave(rs, i, size);
    var out := Outputs(wave, ignore, fetch);
    forall k | 0 <= k < |out| ensures FileOf(rs, i + k, out[k], ignore, fetch) {
      assert wave[k] == rs[i + k];
    }
  }

  /** A full list of delivered files for a wave is that wave's output. */
  lemma FilesAreOutputs(ws: seq<Resource>, out: seq<OutFile>, ignore: bool, fetch: Fetcher)
    requires FilesFrom(ws, 0, out, ignore, fetch) && |out| == |ws|
    ensures AllDelivered(ws, ignore, fetch) && out == Outputs(ws, ignore, fetch)
  {
    forall k | 0 <= k < |ws| ensures Delivered(ws[k], ignore, fetch).Some? && out[k] == OutFile(ws[k].name, Delivered(ws[k], ignore, fetch).value) {
      assert FileOf(ws, 0 + k, out[k], ignore, fetch);
    }
  }

  /** A wave with an undelivered resource is not resolved. */
  lemma FilesStopped(ws: seq<Resource>, k: nat, ignore: bool, fetch: Fetcher)
    requires k < |ws| && Delivered(ws[k], ignore, fetch).None?
    ensures !AllDelivered(ws, ignore, fetch)
  {
  }

  /** One step of the loop: a wave that resolves is followed by the rest of the stage. */
  lemma WavesUnfold(rs: seq<Resource>, size: nat, i: nat, ignore: bool, fetch: Fetcher)
    requires size >= 1 && i < |rs|
    ensures var rest := Waves(rs, size, i + size, ignore, fetch);
      Waves(rs, size, i, ignore, fetch) ==
        if AllDelivered(Wave(rs, i, size), ignore, fetch)
        then (Outputs(Wave(rs, i, size), ignore, fetch) + rest.0, rest.1)
        else ([], false)
  {
  }

  /** One resolved turn of the batch loop: pushing the wave's files keeps what is left to push in step. */
  lemma WavesPush(rs: seq<Resource>, size: nat, i: nat, ignore: bool, fetch: Fetcher,
                  written: seq<OutFile>, out: seq<OutFile>, pending: seq<OutFile>, total: seq<OutFile>)
    requires size >= 1 && i < |rs|
    requires AllDelivered(Wave(rs, i, size), ignore, fetch) && out == Outputs(Wave(rs, i, size), ignore, fetch)
    requires pending == Waves(rs, size, i, ignore, fetch).0 && written + pending == total
    ensures Waves(rs, size, i + size, ignore, fetch).1 == Waves(rs, size, i, ignore, fetch).1
    ensures written + out + Waves(rs, size, i + size, ignore, fetch).0 == total
  {
    WavesUnfold(rs, size, i, ignore, fetch);
    PushKeeps(written, out, Waves(rs, size, i + size, ignore, fetch).0, pending, total);
  }

  lemma WavesAtStep(rs: seq<Resource>, size: nat, i: nat, ignore: bool, fetch: Fetcher)
    requires size >= 1 && i < |rs| && AllDelivered(Wave(rs, i, size), ignore, fetch)
    requires i + size <= |rs| ==> FilesFrom(rs, i + size, Waves(rs, size, i + size, ignore, fetch).0, ignore, fetch)
    ensures FilesFrom(rs, i, Waves(rs, size, i, ignore, fetch).0, ignore, fetch)
  {
    WavesUnfold(rs, size, i, ignore, fetch);
    var rest := Waves(rs, size, i + size, ignore, fetch);
    var out := Outputs(Wave(rs, i, size), ignore, fetch);
    OutputsFrom(rs, i, size, ignore, fetch);
    if i + size > |rs| {
      assert rest.0 == [];
    }
    FilesFromConcat(rs, i, out, rest.0, ignore, fetch);
  }

  /** The files of a stage are its resources', in order. */
  lemma {:induction false} WavesAt(rs: seq<Resource>, size: nat, i: nat, ignore: bool, fetch: Fetcher)
    requires size >= 1 && i <= |rs|
    ensures FilesFrom(rs, i, Waves(rs, size, i, ignore, fetch).0, ignore, fetch)
    decreases |rs| - i
  {
    if i < |rs| && AllDelivered(Wave(rs, i, size), ignore, fetch) {
      if i + size <= |rs| {
        WavesAt(rs, size, i + size, ignore, fetch);
      }
      WavesAtStep(rs, size, i, ignore, fetch);
    } else {
      assert Waves(rs, size, i, ignore, fetch).0 == [];
    }
  }

  /** `n` is a whole number of waves of `size`. */
  predicate WholeWaves(n: nat, size: nat)
    requires size >= 1
    decreases n
  {
    n == 0 || (size <= n && WholeWaves(n - size, size))
  }

  /**
   * A stage that fails wrote a whole number of waves and stopped at the wave
   * after them, one that did not resolve.
   */
  lemma {:induction false} WavesFailure(rs: seq<Resource>, size: nat, i: nat, ignore: bool, fetch: Fetcher)
    requires size >= 1 && i <= |rs|
    requires !Waves(rs, size, i, ignore, fetch).1
    ensures var n := |Waves(rs, size, i, ignore, fetch).0|;
      && i + n < |rs|
      && WholeWaves(n, size)
      && !AllDelivered(Wave(rs, i + n, size), ignore, fetch)
    decreases |rs| - i
  {
    var wave := Wave(rs, i, size);
    WavesUnfold(rs, size, i, ignore, fetch);
    if AllDelivered(wave, ignore, fetch) {
      var j := i + size;
      WavesStep(rs, size, i, ignore, fetch);
      WavesFailure(rs, size, j, ignore, fetch);
      var m := |Waves(rs, size, j, ignore, fetch).0|;
      assert WholeWaves(size + m, size) by {
        assert (size + m) - size == m;
      }
      assert i + |Waves(rs, size, i, ignore, fetch).0| == j + m;
    } else {
      assert i + |Waves(rs, size, i, ignore, fetch).0| == i;
    }
  }

  /** After a wave that resolves, the stage goes on at the next wave. */
  lemma WavesStep(rs: seq<Resource>, size: nat, i: nat, ignore: bool, fetch: Fetcher)
    requires size >= 1 && i < |rs| && AllDelivered(Wave(rs, i, size), ignore, fetch)
    ensures Waves(rs, size, i, ignore, fetch).1 == Waves(rs, size, i + size, ignore, fetch).1
    ensures i + size < |rs| ==> |Waves(rs, size, i, ignore, fetch).0| == size + |Waves(rs, size, i + size, ignore, fetch).0|
    ensures i + size >= |rs| ==> Waves(rs, size, i, ignore, fetch).1
  {
    WavesUnfold(rs, size, i, ignore, fetch);
  }

  /**
   * A download stage writes one file per resource, in order, up to the first
   * wave that rejects (none of whose files is written); it succeeds iff it
   * wrote every file.
   */
  lemma WavesFiles(rs: seq<Resource>, size: nat, i: nat, ignore: bool, fetch: Fetcher)
    requires size >= 1 && i <= |rs|
    ensures var r := Waves(rs, size, i, ignore, fetch);
      && |r.0| <= |rs| - i
      && FilesFrom(rs, i, r.0, ignore, fetch)
      && (r.1 <==> |r.0| == |rs| - i)
      && (!r.1 ==> WholeWaves(|r.0|, size)
                   && !AllDelivered(Wave(rs, i + |r.0|, size), ignore, fetch))
  {
    var r := Waves(rs, size, i, ignore, fetch);
    WavesLength(rs, size, i, ignore, fetch);
    WavesAt(rs, size, i, ignore, fetch);
    if !r.1 {
      WavesFailure(rs, size, i, ignore, fetch);
    }
  }

  /** A stage succeeds iff every one of its downloads delivers. */
  lemma WavesAll(rs: seq<Resource>, size: nat, i: nat, ignore: bool, fetch: Fetcher)
    requires size >= 1 && i <= |rs|
    ensures Waves(rs, size, i, ignore, fetch).1 <==>
      forall k :: i <= k < |rs| ==> Delivered(rs[k], ignore, fetch).Some?
  {
    var r := Waves(rs, size, i, ignore, fetch);
    if r.1 {
      WavesLength(rs, size, i, ignore, fetch);
      WavesAt(rs, size, i, ignore, fetch);
      forall k | i <= k < |rs| ensures Delivered(rs[k], ignore, fetch).Some? {
        assert FileOf(rs, i + (k - i), r.0[k - i], ignore, fetch);
      }
    } else {
      WavesRejects(rs, size, i, ignore, fetch);
    }
  }

  lemma WavesRejects(rs: seq<Resource>, size: nat, i: nat, ignore: bool, fetch: Fetcher)
    requires size >= 1 && i <= |rs|
    requires !Waves(rs, size, i, ignore, fetch).1
    ensures exists k :: i <= k < |rs| && Delivered(rs[k], ignore, fetch).None?
  {
    WavesFailure(rs, size, i, ignore, fetch);
    WaveUndelivered(rs, i + |Waves(rs, size, i, ignore, fetch).0|, size, ignore, fetch);
  }

  lemma WaveUndelivered(rs: seq<Resource>, j: nat, size: nat, ignore: bool, fetch: Fetcher)
    requires j <= |rs| && !AllDelivered(Wave(rs, j, size), ignore, fetch)
    ensures exists k :: j <= k < |rs| && Delivered(rs[k], ignore, fetch).None?
  {
    var w := Wave(rs, j, size);
    var k :| 0 <= k < |w| && Delivered(w[k], ignore, fetch).None?;
    assert w[k] == rs[j + k];
  }

  /** With `ignoreFailedDownloads` every download delivers, so the stage always succeeds. */
  lemma IgnoreNeverRejects(rs: seq<Resource>, size: nat, fetch: Fetcher)
    requires size >= 1
    ensures Waves(rs, size, 0, true, fetch).1
    ensures Waves(rs, size, 0, true, fetch).0 == Outputs(rs, true, fetch)
  {
    WavesAll(rs, size, 0, true, fetch);
    WavesFiles(rs, size, 0, true, fetch);
  }

  function Flatten(wss: seq<seq<Resource>>): seq<Resource> {
    if wss == [] then [] else wss[0] + Flatten(wss[1..])
  }

  /** The waves cover every resource exactly once, in order; each holds between 1 and `size` of them. */
  lemma {:induction false} WavesCover(rs: seq<Resource>, size: nat, i: nat)
    requires size >= 1 && i <= |rs|
    ensures Flatten(WaveList(rs, size, i)) == rs[i..]
    ensures forall w :: w in WaveList(rs, size, i) ==> 1 <= |w| <= size
    decreases |rs| - i
  {
    if i < |rs| {
      var j := Min(i + size, |rs|);
      var w := Wave(rs, i, size);
      var tail := WaveList(rs, size, i + size);
      assert w == rs[i..j];
      assert tail == WaveList(rs, size, j);
      WavesCover(rs, size, j);
      assert WaveList(rs, size, i) == [w] + tail;
      FlattenCons(w, tail);
      SliceSplit(rs, i, j);
    }
  }

  lemma FlattenCons(w: seq<Resource>, wss: seq<seq<Resource>>)
    ensures Flatten([w] + wss) == w + Flatten(wss)
  {
    assert ([w] + wss)[1..] == wss;
  }

  lemma SliceSplit<T>(s: seq<T>, i: nat, j: nat)
    requires i <= j <= |s|
    ensures s[i..] == s[i..j] + s[j..]
  {
  }

  // ---------------------------------------------------------------------------
  // makeCover
  // ---------------------------------------------------------------------------

  function CoverFile(cover: Cover): string {
    "OEBPS/cover." + cover.extension
  }

  /** The cover's contents: the fetched data, or the empty payload whatever `ignoreFailedDownloads` says. */
  function CoverData(url: string, retry: int, net: Network): Payload {
    match Retried(net, url, retry)
    case Fetched(data) => data
    case Failed(_) => EmptyPayload
  }

  function CoverFiles(cover: Option<Cover>, url: string, retry: int, net: Network): seq<OutFile> {
    if cover.None? then [] else [OutFile(CoverFile(cover.value), CoverData(url, retry, net))]
  }

  /** What `makeCover` logs: the caught attempts, then a warning if the download failed. */
  function CoverLines(cover: Option<Cover>, url: string, retry: int, net: Network): seq<Line> {
    if cover.None? then [Line(Info, "No cover to download")]
    else
      Infos(RetryLog(url, DecidingAttempt(net, url, retry)))
      + (if Retried(net, url, retry).Failed? then [Line(Warning, "Warning (cover " + url + "): Download failed")] else [])
  }

  /** The cover stage writes one file iff there is a cover, and never rejects. */
  lemma CoverOnce(cover: Option<Cover>, url: string, retry: int, net: Network)
    ensures |CoverFiles(cover, url, retry, net)| == if cover.Some? then 1 else 0
    ensures cover.Some? ==> CoverFiles(cover, url, retry, net)[0].name == "OEBPS/cover." + cover.value.extension
    ensures Retried(net, url, retry).Failed? && cover.Some? ==> CoverFiles(cover, url, retry, net)[0].data == EmptyPayload
  {
  }

  // ---------------------------------------------------------------------------
  // render
  // ---------------------------------------------------------------------------

  /** A download stage: nothing for an empty list, otherwise the waves. */
  function Stage(rs: seq<Resource>, o: NormOptions, net: Network): (seq<OutFile>, bool)
    requires |rs| > 0 ==> o.batchSize >= 1
  {
    if |rs| == 0 then ([], true) else Waves(rs, o.batchSize, 0, o.ignoreFailedDownloads, Retrying(net, o.retryTimes))
  }

  /** The stages of `render` after the fonts: images, then the cover. */
  function ImagesAndCover(o: NormOptions, images: seq<Image>, cover: Option<Cover>, net: Network): (seq<OutFile>, bool)
    requires o.batchSize >= 1 || |images| == 0
  {
    var m := Stage(ImageResources(images), o, net);
    if !m.1 then m else (m.0 + CoverFiles(cover, o.cover, o.retryTimes, net), true)
  }

  /** The stages of `render` after the templates: fonts, images, cover. */
  function Downloaded(o: NormOptions, images: seq<Image>, cover: Option<Cover>, net: Network): (seq<OutFile>, bool)
    requires o.batchSize >= 1 || (|o.fonts| == 0 && |images| == 0)
  {
    var f := Stage(FontResources(o.fonts), o, net);
    if !f.1 then f
    else
      var r := ImagesAndCover(o, images, cover, net);
      (f.0 + r.0, r.1)
  }

  /** The message logged when a stage has nothing to download. */
  function Notice(empty: bool, text: string): seq<Line> {
    if empty then [Line(Info, text)] else []
  }

  function CoverStageLog(o: NormOptions, cover: Option<Cover>, net: Network): seq<Line> {
    [Line(Info, "Making cover...")] + CoverLines(cover, o.cover, o.retryTimes, net) + [Line(Info, "Finishing up...")]
  }

  function ImageStageLog(o: NormOptions, images: seq<Image>, cover: Option<Cover>, net: Network): seq<Line>
    requires o.batchSize >= 1 || |images| == 0
  {
    [Line(Info, "Downloading images...")] + Notice(|images| == 0, "No images to download")
    + (if Stage(ImageResources(images), o, net).1 then CoverStageLog(o, cover, net) else [])
  }

  function DownloadLog(o: NormOptions, images: seq<Image>, cover: Option<Cover>, net: Network): seq<Line>
    requires o.batchSize >= 1 || (|o.fonts| == 0 && |images| == 0)
  {
    [Line(Info, "Downloading fonts...")] + Notice(|o.fonts| == 0, "No fonts to download")
    + (if Stage(FontResources(o.fonts), o, net).1 then ImageStageLog(o, images, cover, net) else [])
  }

  /**
   * What `render` logs, besides the progress of single downloads: each
   * stage's message before it runs, up to the first stage that rejects.
   */
  function RenderLog(o: NormOptions, content: seq<NormChapter>, images: seq<Image>, cover: Option<Cover>,
                     css: string, render: Renderer, net: Network): seq<Line>
    requires o.batchSize >= 1 || (|o.fonts| == 0 && |images| == 0)
  {
    [Line(Info, "Generating Template Files...")]
    + (if Produce(Jobs(content, cover.Some?), css, render).1 then DownloadLog(o, images, cover, net) else [])
  }

  /**
   * The files `render` pushes and whether it resolves: templates, fonts,
   * images, cover; a stage that rejects ends it.
   */
  function Rendered(o: NormOptions, content: seq<NormChapter>, images: seq<Image>, cover: Option<Cover>,
                    css: string, render: Renderer, net: Network): (seq<OutFile>, bool)
    requires o.batchSize >= 1 || (|o.fonts| == 0 && |images| == 0)
  {
    var t := Produce(Jobs(content, cover.Some?), css, render);
    if !t.1 then t
    else
      var f := Stage(FontResources(o.fonts), o, net);
      if !f.1 then (t.0 + f.0, false)
      else
        var m := Stage(ImageResources(images), o, net);
        if !m.1 then (t.0 + f.0 + m.0, false)
        else (t.0 + f.0 + m.0 + CoverFiles(cover, o.cover, o.retryTimes, net), true)
  }

  function Names(files: seq<OutFile>): (ns: seq<string>)
    ensures |ns| == |files| && forall k :: 0 <= k < |files| ==> ns[k] == files[k].name
  {
    seq(|files|, k requires 0 <= k < |files| => files[k].name)
  }

  function JobNames(jobs: seq<Job>): (ns: seq<string>)
    ensures |ns| == |jobs| && forall k :: 0 <= k < |jobs| ==> ns[k] == JobName(jobs[k])
  {
    seq(|jobs|, k requires 0 <= k < |jobs| => JobName(jobs[k]))
  }

  lemma NamesConcat(a: seq<OutFile>, b: seq<OutFile>)
    ensures Names(a + b) == Names(a) + Names(b)
  {
  }

  /**
   * When `render` resolves, the files are, in order: one per template job,
   * one per font named `OEBPS/fonts/<filename>`, one per image named
   * `OEBPS/images/<id>.<extension>`, and the cover iff there is one.
   */
  lemma RenderedNames(o: NormOptions, content: seq<NormChapter>, images: seq<Image>, cover: Option<Cover>,
                      css: string, render: Renderer, net: Network)
    requires o.batchSize >= 1 || (|o.fonts| == 0 && |images| == 0)
    requires Rendered(o, content, images, cover, css, render, net).1
    ensures Names(Rendered(o, content, images, cover, css, render, net).0) ==
      JobNames(Jobs(content, cover.Some?))
      + FontFiles(o.fonts) + ImageFiles(images)
      + (if cover.Some? then [CoverFile(cover.value)] else [])
  {
    var t := Produce(Jobs(content, cover.Some?), css, render);
    var f := Stage(FontResources(o.fonts), o, net);
    var m := Stage(ImageResources(images), o, net);
    var c := CoverFiles(cover, o.cover, o.retryTimes, net);
    RenderedAll(o, content, images, cover, css, render, net);
    ProducedNames(Jobs(content, cover.Some?), css, render);
    FontNames(o.fonts, o, net);
    ImageNames(images, o, net);
    CoverNames(cover, o.cover, o.retryTimes, net);
    NamesConcat4(t.0, f.0, m.0, c);
  }

  /** When `render` resolves, every stage resolved and the archive holds all their files. */
  lemma RenderedAll(o: NormOptions, content: seq<NormChapter>, images: seq<Image>, cover: Option<Cover>,
                    css: string, render: Renderer, net: Network)
    requires o.batchSize >= 1 || (|o.fonts| == 0 && |images| == 0)
    requires Rendered(o, content, images, cover, css, render, net).1
    ensures Produce(Jobs(content, cover.Some?), css, render).1
    ensures Stage(FontResources(o.fonts), o, net).1 && Stage(ImageResources(images), o, net).1
    ensures Rendered(o, content, images, cover, css, render, net).0 ==
      Produce(Jobs(content, cover.Some?), css, render).0 + Stage(FontResources(o.fonts), o, net).0
      + Stage(ImageResources(images), o, net).0 + CoverFiles(cover, o.cover, o.retryTimes, net)
  {
  }

  lemma CoverNames(cover: Option<Cover>, url: string, retry: int, net: Network)
    ensures Names(CoverFiles(cover, url, retry, net)) == if cover.Some? then [CoverFile(cover.value)] else []
  {
  }

  lemma NamesConcat4(a: seq<OutFile>, b: seq<OutFile>, c: seq<OutFile>, d: seq<OutFile>)
    ensures Names(a + b + c + d) == Names(a) + Names(b) + Names(c) + Names(d)
  {
    NamesConcat(a + b + c, d);
    NamesConcat(a + b, c);
    NamesConcat(a, b);
  }

  lemma ProducedNames(jobs: seq<Job>, css: string, render: Renderer)
    requires Produce(jobs, css, render).1
    ensures Names(Produce(jobs, css, render).0) == JobNames(jobs)
  {
    ProduceFiles(jobs, css, render);
  }

  /** A stage that succeeds writes its resources' files, in order. */
  lemma StageNames(rs: seq<Resource>, o: NormOptions, net: Network)
    requires |rs| > 0 ==> o.batchSize >= 1
    requires Stage(rs, o, net).1
    ensures |Names(Stage(rs, o, net).0)| == |rs|
    ensures forall k :: 0 <= k < |rs| ==> Names(Stage(rs, o, net).0)[k] == rs[k].name
  {
    if |rs| > 0 {
      var fetch := Retrying(net, o.retryTimes);
      WavesLength(rs, o.batchSize, 0, o.ignoreFailedDownloads, fetch);
      WavesAt(rs, o.batchSize, 0, o.ignoreFailedDownloads, fetch);
      var files := Stage(rs, o, net).0;
      forall k | 0 <= k < |rs| ensures files[k].name == rs[k].name {
        assert FileOf(rs, 0 + k, files[k], o.ignoreFailedDownloads, fetch);
      }
    }
  }

  /** The names of the font files, in `fonts` order. */
  function FontFiles(fonts: seq<Font>): (ns: seq<string>)
    ensures |ns| == |fonts| && forall k :: 0 <= k < |fonts| ==> ns[k] == FontFile(fonts[k])
  {
    seq(|fonts|, k requires 0 <= k < |fonts| => FontFile(fonts[k]))
  }

  /** The names of the image files, in `images` order. */
  function ImageFiles(images: seq<Image>): (ns: seq<string>)
    ensures |ns| == |images| && forall k :: 0 <= k < |images| ==> ns[k] == ImageFile(images[k])
  {
    seq(|images|, k requires 0 <= k < |images| => ImageFile(images[k]))
  }

  /** A font stage that succeeds writes `OEBPS/fonts/<filename>` for each font, in order. */
  lemma FontNames(fonts: seq<Font>, o: NormOptions, net: Network)
    requires |fonts| > 0 ==> o.batchSize >= 1
    requires Stage(FontResources(fonts), o, net).1
    ensures Names(Stage(FontResources(fonts), o, net).0) == FontFiles(fonts)
  {
    StageNames(FontResources(fonts), o, net);
  }

  /** An image stage that succeeds writes `OEBPS/images/<id>.<extension>` for each image, in order. */
  lemma ImageNames(images: seq<Image>, o: NormOptions, net: Network)
    requires |images| > 0 ==> o.batchSize >= 1
    requires Stage(ImageResources(images), o, net).1
    ensures Names(Stage(ImageResources(images), o, net).0) == ImageFiles(images)
  {
    StageNames(ImageResources(images), o, net);
  }

  // ---------------------------------------------------------------------------
  // The class
  // ---------------------------------------------------------------------------

  function Infos(messages: seq<string>): (lines: seq<Line>)
    ensures |lines| == |messages| && forall k :: 0 <= k < |messages| ==> lines[k] == Line(Info, messages[k])
  {
    seq(|messages|, k requires 0 <= k < |messages| => Line(Info, messages[k]))
  }

  class EPub {
    const options: NormOptions
    const content: seq<NormChapter>
    const uuid: string
    /** `this.images`, filled by `imgSrc` while the chapters were normalised. */
    const table: ImageTable
    const cover: Option<Cover>
    const sink: Sink
    /** `this.files`. */
    var files: seq<OutFile>
    /** Every call of `this.log` and `this.warn`, in order. */
    var lines: seq<Line>

    /**
     * The constructor, given the validated options and chapters (the
     * validators are not part of this model) and the draws of `uuid()`.
     */
    constructor (options: NormOptions, content: seq<NormChapter>, table: ImageTable, draws: seq<Nibble>)
      ensures this.options == options && this.content == content && this.table == table
      ensures sink == match options.verbose
        case Flag(on) => if on then Console else Discard
        case Callback => ToCallback
      ensures uuid == Uuid(draws)
      ensures cover == if options.cover != "" then Some(Cover("image/jpeg", "jpg")) else None
      ensures files == [] && lines == []
    {
      this.options := options;
      match options.verbose {
        case Flag(on) =>
          sink := if on then Console else Discard;
        case Callback =>
          sink := ToCallback;
      }
      uuid := Uuid(draws);
      this.content := content;
      this.table := table;
      var mediaType, extension := "image/jpeg", "jpg";
      if options.cover != "" && mediaType != "" && extension != "" {
        cover := Some(Cover(mediaType, extension));
      } else {
        cover := None;
      }
      files := [];
      lines := [];
    }

    method Log(text: string)
      modifies this
      ensures files == old(files) && lines == old(lines) + [Line(Info, text)]
    {
      lines := lines + [Line(Info, text)];
    }

    /** `generateTemplateFiles`; `ok` is false when a template rejects. */
    method GenerateTemplateFiles(css: string, render: Renderer) returns (ok: bool)
      modifies this
      ensures lines == old(lines)
      ensures (files, ok) == (old(files) + Produce(Jobs(content, cover.Some?), css, render).0,
                              Produce(Jobs(content, cover.Some?), css, render).1)
    {
      JobsSplit(content, cover.Some?, css, render);
      ghost var pages := Produce(Pages(content), css, render);
      ghost var tail := Produce(TailJobs(cover.Some?), css, render);
      ghost var style := OutFile("OEBPS/style.css", Text(css));
      ghost var container := OutFile("META-INF/container.xml", Text(ContainerXml));
      files := files + [OutFile("OEBPS/style.css", Text(css))];
      ok := RenderChapters(css, render);
      AppendAssoc(old(files), [style], pages.0);
      if ok {
        files := files + [OutFile("META-INF/container.xml", Text(ContainerXml))];
        ok := RenderPackageFiles(css, render);
        AppendAssoc(old(files), [style] + pages.0, [container]);
        AppendAssoc(old(files), [style] + pages.0 + [container], tail.0);
      }
    }

    /** The loop over `this.content` in `generateTemplateFiles`. */
    method RenderChapters(css: string, render: Renderer) returns (ok: bool)
      modifies this
      ensures lines == old(lines)
      ensures (files, ok) == (old(files) + Produce(Pages(content), css, render).0, Produce(Pages(content), css, render).1)
    {
      ghost var jobs := Pages(content);
      ghost var out: seq<OutFile> := [];
      var k := 0;
      while k < |content|
        invariant 0 <= k <= |content|
        invariant lines == old(lines)
        invariant files == old(files) + out && |out| == k
        invariant ProducedPrefix(jobs, css, render, out)
      {
        var rendered := render(Page(content[k]));
        if rendered.None? {
          ProducedStop(jobs, css, render, out);
          return false;
        }
        ProducedSnoc(jobs, css, render, out, Text(rendered.value));
        out := out + [OutFile(content[k].href, Text(rendered.value))];
        files := files + [OutFile(content[k].href, Text(rendered.value))];
        k := k + 1;
      }
      ProducedDone(jobs, css, render, out);
      ok := true;
    }

    /** The package document, the NCX, the table of contents and, with a cover, the cover page. */
    method RenderPackageFiles(css: string, render: Renderer) returns (ok: bool)
      modifies this
      ensures lines == old(lines)
      ensures (files, ok) == (old(files) + Produce(TailJobs(cover.Some?), css, render).0,
                              Produce(TailJobs(cover.Some?), css, render).1)
    {
      var tail := TailJobs(cover.Some?);
      ghost var out: seq<OutFile> := [];
      var j := 0;
      while j < |tail|
        invariant 0 <= j <= |tail|
        invariant lines == old(lines)
        invariant files == old(files) + out && |out| == j
        invariant ProducedPrefix(tail, css, render, out)
      {
        var rendered := render(tail[j]);
        if rendered.None? {
          ProducedStop(tail, css, render, out);
          return false;
        }
        ProducedSnoc(tail, css, render, out, Text(rendered.value));
        out := out + [OutFile(JobName(tail[j]), Text(rendered.value))];
        files := files + [OutFile(JobName(tail[j]), Text(rendered.value))];
        j := j + 1;
      }
      ProducedDone(tail, css, render, out);
      ok := true;
    }

    /**
     * One element of the `map` inside a wave: `retryFetch`, then, with
     * `ignoreFailedDownloads`, the `catch` that turns a failure into `""`.
     */
    method Fetch(r: Resource, net: Network) returns (d: Option<Payload>)
      ensures d == Delivered(r, options.ignoreFailedDownloads, Retrying(net, options.retryTimes))
      ensures d.None? <==> !options.ignoreFailedDownloads && Retried(net, r.url, options.retryTimes).Failed?
    {
      var result, attempts, log := RetryFetch(r.url, options.retryTimes, net);
      if result.Fetched? {
        d := Some(result.data);
      } else if options.ignoreFailedDownloads {
        d := Some(EmptyPayload);
      } else {
        d := None;
      }
    }

    /** One `Promise.all` over a wave: its files in order, or `false` when one download rejects. */
    method FetchWave(wave: seq<Resource>, net: Network) returns (out: seq<OutFile>, ok: bool)
      ensures ok == AllDelivered(wave, options.ignoreFailedDownloads, Retrying(net, options.retryTimes))
      ensures ok ==> out == Outputs(wave, options.ignoreFailedDownloads, Retrying(net, options.retryTimes))
    {
      ghost var ignore, fetch := options.ignoreFailedDownloads, Retrying(net, options.retryTimes);
      out := [];
      ok := true;
      var k := 0;
      while k < |wave|
        invariant 0 <= k <= |wave|
        invariant ok ==> FilesFrom(wave, 0, out, ignore, fetch) && |out| == k
        invariant !ok ==> !AllDelivered(wave, ignore, fetch)
      {
        var d := Fetch(wave[k], net);
        if d.None? {
          FilesStopped(wave, k, ignore, fetch);
          ok := false;
        } else if ok {
          out := out + [OutFile(wave[k].name, d.value)];
        }
        k := k + 1;
      }
      if ok {
        FilesAreOutputs(wave, out, ignore, fetch);
      }
    }

    /**
     * The batched loop of `downloadAllFonts` and `downloadAllImages`: one
     * `Promise.all` per slice of `batchSize`, whose files are pushed in
     * slice order once it resolves; a slice that rejects ends the stage.
     */
    method DownloadInWaves(rs: seq<Resource>, net: Network) returns (ok: bool)
      requires options.batchSize >= 1
      modifies this
      ensures lines == old(lines)
      ensures var w := Waves(rs, options.batchSize, 0, options.ignoreFailedDownloads, Retrying(net, options.retryTimes));
        files == old(files) + w.0 && ok == w.1
    {
      var size := options.batchSize;
      ghost var ignore, fetch := options.ignoreFailedDownloads, Retrying(net, options.retryTimes);
      ghost var all := Waves(rs, size, 0, ignore, fetch);
      ghost var total := old(files) + all.0;
      ghost var pending := all.0;
      var i: nat := 0;
      while i < |rs|
        invariant lines == old(lines)
        invariant Waves(rs, size, i, ignore, fetch) == (pending, all.1)
        invariant files + pending == total
        decreases |rs| - i
      {
        var out, delivered := FetchWave(Wave(rs, i, size), net);
        if !delivered {
          WavesUnfold(rs, size, i, ignore, fetch);
          return false;
        }
        WavesPush(rs, size, i, ignore, fetch, files, out, pending, total);
        files := files + out;
        pending := Waves(rs, size, i + size, ignore, fetch).0;
        i := i + size;
      }
      ok := true;
    }

    /** `downloadAllFonts`. */
    method DownloadAllFonts(net: Network) returns (ok: bool)
      requires options.batchSize >= 1 || |options.fonts| == 0
      modifies this
      ensures (files, ok) == (old(files) + Stage(FontResources(options.fonts), options, net).0,
                              Stage(FontResources(options.fonts), options, net).1)
      ensures lines == old(lines) + (if |options.fonts| == 0 then [Line(Info, "No fonts to download")] else [])
    {
      if |options.fonts| == 0 {
        Log("No fonts to download");
        assert files == old(files) + [];
        return true;
      }
      ok := DownloadInWaves(FontResources(options.fonts), net);
    }

    /** `downloadAllImages`, over the image table the chapters filled. */
    method DownloadAllImages(net: Network) returns (ok: bool)
      requires options.batchSize >= 1 || |table.images| == 0
      modifies this
      ensures (files, ok) == (old(files) + Stage(ImageResources(table.images), options, net).0,
                              Stage(ImageResources(table.images), options, net).1)
      ensures lines == old(lines) + (if |table.images| == 0 then [Line(Info, "No images to download")] else [])
    {
      if |table.images| == 0 {
        Log("No images to download");
        assert files == old(files) + [];
        return true;
      }
      ok := DownloadInWaves(ImageResources(table.images), net);
    }

    /** `makeCover`: a failed download is logged and written as an empty file whatever the options say. */
    method MakeCover(net: Network)
      modifies this
      ensures files == old(files) + CoverFiles(cover, options.cover, options.retryTimes, net)
      ensures lines == old(lines) + CoverLines(cover, options.cover, options.retryTimes, net)
    {
      if cover.None? {
        Log("No cover to download");
        return;
      }
      var result, attempts, log := RetryFetch(options.cover, options.retryTimes, net);
      lines := lines + Infos(log);
      var data := EmptyPayload;
      if result.Fetched? {
        data := result.data;
      } else {
        lines := lines + [Line(Warning, "Warning (cover " + options.cover + "): Download failed")];
      }
      files := files + [OutFile(CoverFile(cover.value), data)];
    }

    /** The last stage of `render`: the cover, then the closing message. */
    method FinishCover(net: Network)
      modifies this
      ensures files == old(files) + CoverFiles(cover, options.cover, options.retryTimes, net)
      ensures lines == old(lines) + CoverStageLog(options, cover, net)
    {
      Log("Making cover...");
      MakeCover(net);
      Log("Finishing up...");
      Regroup3(old(lines), [Line(Info, "Making cover...")], CoverLines(cover, options.cover, options.retryTimes, net),
               [Line(Info, "Finishing up...")]);
    }

    /** The images stage of `render` and, if it resolves, the cover stage. */
    method ImageStage(net: Network) returns (ok: bool)
      requires options.batchSize >= 1 || |table.images| == 0
      modifies this
      ensures (files, ok) == (old(files) + ImagesAndCover(options, table.images, cover, net).0,
                              ImagesAndCover(options, table.images, cover, net).1)
      ensures lines == old(lines) + ImageStageLog(options, table.images, cover, net)
    {
      Log("Downloading images...");
      ok := DownloadAllImages(net);
      ghost var rest: seq<Line> := [];
      if ok {
        ghost var m := Stage(ImageResources(table.images), options, net).0;
        FinishCover(net);
        rest := CoverStageLog(options, cover, net);
        AppendAssoc(old(files), m, CoverFiles(cover, options.cover, options.retryTimes, net));
      }
      Regroup3(old(lines), [Line(Info, "Downloading images...")], Notice(|table.images| == 0, "No images to download"), rest);
    }

    /** The download stages of `render`, each logged before it runs. */
    method Download(net: Network) returns (ok: bool)
      requires options.batchSize >= 1 || (|options.fonts| == 0 && |table.images| == 0)
      modifies this
      ensures (files, ok) == (old(files) + Downloaded(options, table.images, cover, net).0,
                              Downloaded(options, table.images, cover, net).1)
      ensures lines == old(lines) + DownloadLog(options, table.images, cover, net)
    {
      Log("Downloading fonts...");
      ok := DownloadAllFonts(net);
      ghost var rest: seq<Line> := [];
      if ok {
        ghost var f := Stage(FontResources(options.fonts), options, net).0;
        ok := ImageStage(net);
        rest := ImageStageLog(options, table.images, cover, net);
        AppendAssoc(old(files), f, ImagesAndCover(options, table.images, cover, net).0);
      }
      Regroup3(old(lines), [Line(Info, "Downloading fonts...")], Notice(|options.fonts| == 0, "No fonts to download"), rest);
    }

    /** `render`: the templates, then the downloads; `ok` is false when a stage rejects. */
    method Render(css: string, render: Renderer, net: Network) returns (ok: bool)
      requires options.batchSize >= 1 || (|options.fonts| == 0 && |table.images| == 0)
      modifies this
      ensures (files, ok) == (old(files) + Rendered(options, content, table.images, cover, css, render, net).0,
                              Rendered(options, content, table.images, cover, css, render, net).1)
      ensures lines == old(lines) + RenderLog(options, content, table.images, cover, css, render, net)
    {
      RenderedSplit(options, content, table.images, cover, css, render, net);
      Log("Generating Template Files...");
      ok := GenerateTemplateFiles(css, render);
      if ok {
        ghost var t := Produce(Jobs(content, cover.Some?), css, render).0;
        ok := Download(net);
        AppendAssoc(old(files), t, Downloaded(options, table.images, cover, net).0);
        AppendAssoc(old(lines), [Line(Info, "Generating Template Files...")], DownloadLog(options, table.images, cover, net));
      }
    }

    /** `genEpub`: the archive of the files once `render` resolves; `None` when it rejects. */
    method GenEpub(css: string, render: Renderer, net: Network, zip: seq<OutFile> -> seq<bv8>)
      returns (archive: Option<seq<bv8>>)
      requires options.batchSize >= 1 || (|options.fonts| == 0 && |table.images| == 0)
      modifies this
      ensures var r := Rendered(options, content, table.images, cover, css, render, net);
        && (archive.Some? <==> r.1)
        && (archive.Some? ==> archive.value == zip(old(files) + r.0) && |lines| > 0 && lines[|lines| - 1] == Line(Info, "Done"))
        && files == old(files) + r.0
    {
      var ok := Render(css, render, net);
      if !ok {
        return None;
      }
      archive := Some(zip(files));
      Log("Done");
    }
  }
}
