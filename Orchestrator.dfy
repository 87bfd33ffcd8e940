/**
 * The database scraper orchestrator's control flow: the phase a resumed run starts from, the
 * phases a run then goes through, the checkpoint guard, which scraped files are sent for
 * processing, with which content type and in what order, and the batches they are processed in.
 * The phase bodies themselves (URL extraction, downloads, scraping) belong to other components.
 */
module Orchestrator {
  import opened Wrappers
  import opened Text
  import opened Seqs
  import opened Batching

  datatype Phase = UrlExtraction | PdfDownload | HtmlScraping | ContentProcessing | Completed

  /** The position of a phase in the pipeline. */
  function Rank(p: Phase): nat {
    match p
    case UrlExtraction => 0
    case PdfDownload => 1
    case HtmlScraping => 2
    case ContentProcessing => 3
    case Completed => 4
  }

  /** The phase a finished phase hands over to. */
  function Next(p: Phase): (q: Phase)
    requires p != Completed
    ensures Rank(q) == Rank(p) + 1
  {
    match p
    case UrlExtraction => PdfDownload
    case PdfDownload => HtmlScraping
    case HtmlScraping => ContentProcessing
    case ContentProcessing => Completed
  }

  /**
   * The record counts a resumed run reads: extracted URLs, successful PDF downloads, successful
   * HTML scrapes and stored courses.
   */
  datatype Records = Records(urls: nat, pdfs: nat, html: nat, courses: nat)

  /** The phase the stored records and the count of pages still waiting to be scraped point to. */
  function PhaseFor(r: Records, pending: nat): Phase {
    if r.courses > 0 && r.html > 0 && r.pdfs > 0 && pending == 0 then Completed
    else if r.html > 0 && r.pdfs > 0 && pending == 0 then ContentProcessing
    else if pending > 0 then HtmlScraping
    else if r.pdfs > 0 then HtmlScraping
    else if r.urls > 0 then PdfDownload
    else UrlExtraction
  }

  /** Each resume phase, characterised by the counts alone rather than by the order of the tests. */
  lemma PhaseForSpec(r: Records, pending: nat)
    ensures PhaseFor(r, pending) == Completed
      <==> r.courses > 0 && r.html > 0 && r.pdfs > 0 && pending == 0
    ensures PhaseFor(r, pending) == ContentProcessing
      <==> r.courses == 0 && r.html > 0 && r.pdfs > 0 && pending == 0
    ensures PhaseFor(r, pending) == HtmlScraping
      <==> pending > 0 || (r.pdfs > 0 && r.html == 0)
    ensures PhaseFor(r, pending) == PdfDownload
      <==> pending == 0 && r.pdfs == 0 && r.urls > 0
    ensures PhaseFor(r, pending) == UrlExtraction
      <==> pending == 0 && r.pdfs == 0 && r.urls == 0
  {
  }

  /**
   * The phase a resumed run starts from: `recorded` is None when reading the counts failed,
   * `pending` is None when the pending-pages query failed; either failure starts over.
   */
  function ResumePhase(recorded: Option<Records>, pending: Option<nat>): Phase {
    if recorded.Some? && pending.Some? then PhaseFor(recorded.value, pending.value)
    else UrlExtraction
  }

  /** A failed read always starts over, and a database with no pending work and no downloads starts from the URLs or the downloads. */
  lemma ResumePhaseSpec(recorded: Option<Records>, pending: Option<nat>)
    ensures recorded.None? || pending.None? ==> ResumePhase(recorded, pending) == UrlExtraction
    ensures ResumePhase(recorded, pending) != UrlExtraction
      ==> recorded.Some? && pending.Some? && (recorded.value.urls > 0 || recorded.value.pdfs > 0 || pending.value > 0)
  {
    if recorded.Some? && pending.Some? {
      PhaseForSpec(recorded.value, pending.value);
    }
  }

  /** The phases a run that finds itself at `p` goes through, in order. */
  function PhasesFrom(p: Phase): seq<Phase>
    decreases 4 - Rank(p)
  {
    if p == Completed then [] else [p] + PhasesFrom(Next(p))
  }

  /** From `p`, exactly the phases from `p` up to content processing run, each once, in pipeline order. */
  lemma {:induction false} PhasesFromSpec(p: Phase)
    ensures |PhasesFrom(p)| == 4 - Rank(p)
    ensures forall k :: 0 <= k < |PhasesFrom(p)| ==> Rank(PhasesFrom(p)[k]) == Rank(p) + k
    ensures Completed !in PhasesFrom(p)
    decreases 4 - Rank(p)
  {
    if p != Completed {
      PhasesFromSpec(Next(p));
    }
  }

  /** A scraped page ready for processing: its markdown file and the type of the URL it came from (None when unset). */
  datatype HtmlRow = HtmlRow(path: String, urlType: Option<String>)

  /** A file on disk as the processing phase finds it: its size, or None when it is missing. */
  datatype StoredFile<R> = StoredFile(row: R, size: Option<nat>)

  /** A file sent for processing, with its content type. */
  type Job = (String, String)

  /** Smallest sizes, in bytes, a PDF and a scraped page must exceed to be processed. */
  const MinPdfSize: nat := 1024
  const MinPageSize: nat := 100

  /** The file exists and is larger than `min` bytes. */
  predicate Usable<R>(min: nat, f: StoredFile<R>) {
    f.size.Some? && f.size.value > min
  }

  /** The rows of the usable files, in order. */
  function UsableRows<R>(files: seq<StoredFile<R>>, min: nat): (r: seq<R>)
  {
    if files == [] then []
    else (if Usable(min, files[0]) then [files[0].row] else []) + UsableRows(files[1..], min)
  }

  predicate IsSyllabusRow(r: HtmlRow) {
    r.urlType == Some("syllabus")
  }

  function PdfJob(path: String): Job {
    (path, "pdf")
  }

  function HtmlJob(r: HtmlRow): Job {
    (r.path, if IsSyllabusRow(r) then "syllabus_md" else "course_page_md")
  }

  /** The processing jobs registered, in registration order: the PDFs, then the pages. */
  function Jobs(pdfs: seq<String>, html: seq<HtmlRow>): seq<Job> {
    MapSeq(pdfs, PdfJob) + MapSeq(html, HtmlJob)
  }

  /** The order files are processed in: PDFs, then syllabus pages, then course pages. */
  function ProcessingOrder(pdfs: seq<String>, html: seq<HtmlRow>): seq<Job> {
    MapSeq(pdfs, PdfJob) + MapSeq(Filter(html, IsSyllabusRow), HtmlJob)
      + MapSeq(Filter(html, Not(IsSyllabusRow)), HtmlJob)
  }

  /** The position of a content type in the processing order. */
  function TypeRank(contentType: String): nat {
    if contentType == "pdf" then 0 else if contentType == "syllabus_md" then 1 else 2
  }

  /** A page is typed as a syllabus exactly when its URL is a syllabus URL, and as a course page otherwise. */
  lemma HtmlJobSpec(r: HtmlRow)
    ensures HtmlJob(r).0 == r.path
    ensures HtmlJob(r).1 == "syllabus_md" <==> r.urlType == Some("syllabus")
    ensures HtmlJob(r).1 == "course_page_md" <==> r.urlType != Some("syllabus")
  {
  }

  /** Splitting a mapped prefix by a test keeps every image, each as often as before. */
  lemma {:induction false} MapPartition<A, B>(s: seq<A>, i: nat, p: A -> bool, f: A -> B)
    requires i <= |s|
    ensures multiset(MapSeq(Filter(s[..i], p), f)) + multiset(MapSeq(Filter(s[..i], Not(p)), f))
      == multiset(MapSeq(s[..i], f))
    decreases i
  {
    if i > 0 {
      var j := i - 1;
      MapPartition(s, j, p, f);
      MapFilterStep(s, j, p, f);
      MapFilterStep(s, j, Not(p), f);
      MapSeqStep(s, j, f);
      PartitionStep(MapSeq(Filter(s[..j], p), f), MapSeq(Filter(s[..j], Not(p)), f), MapSeq(s[..j], f), f(s[j]), p(s[j]));
    }
  }

  /** One more element, added to exactly one side of a split, keeps the split a partition. */
  lemma PartitionStep<B>(yes: seq<B>, no: seq<B>, all: seq<B>, y: B, side: bool)
    requires multiset(yes) + multiset(no) == multiset(all)
    ensures multiset(yes + if side then [y] else []) + multiset(no + if side then [] else [y]) == multiset(all + [y])
  {
  }

  /** Every job of a filtered page list carries the content type its pages share. */
  lemma PageJobTypes(html: seq<HtmlRow>, p: HtmlRow -> bool, contentType: String)
    requires forall r: HtmlRow :: p(r) ==> HtmlJob(r).1 == contentType
    ensures forall k :: 0 <= k < |MapSeq(Filter(html, p), HtmlJob)| ==> MapSeq(Filter(html, p), HtmlJob)[k].1 == contentType
  {
    var kept := Filter(html, p);
    forall k | 0 <= k < |kept| ensures HtmlJob(kept[k]).1 == contentType {
      assert p(kept[k]);
    }
  }

  /** The rank of the `k`th job of the processing order: 0 in the PDF part, 1 in the syllabus part, 2 after. */
  lemma OrderRank(pdfs: seq<String>, html: seq<HtmlRow>, k: nat)
    requires k < |ProcessingOrder(pdfs, html)|
    ensures var syllabusEnd := |pdfs| + |Filter(html, IsSyllabusRow)|;
      TypeRank(ProcessingOrder(pdfs, html)[k].1) == if k < |pdfs| then 0 else if k < syllabusEnd then 1 else 2
  {
    var first := MapSeq(pdfs, PdfJob);
    var syllabus := MapSeq(Filter(html, IsSyllabusRow), HtmlJob);
    var pages := MapSeq(Filter(html, Not(IsSyllabusRow)), HtmlJob);
    var order := first + syllabus + pages;
    assert ProcessingOrder(pdfs, html) == order;
    if k < |first| {
      assert order[k] == first[k];
    } else if k < |first| + |syllabus| {
      PageJobTypes(html, IsSyllabusRow, "syllabus_md");
      assert order[k] == syllabus[k - |first|];
    } else {
      PageJobTypes(html, Not(IsSyllabusRow), "course_page_md");
      assert order[k] == pages[k - |first| - |syllabus|];
    }
  }

  /**
   * The processing order is a reordering of the registered jobs, and it processes every PDF
   * before every syllabus page and every syllabus page before every course page.
   */
  lemma ProcessingOrderSpec(pdfs: seq<String>, html: seq<HtmlRow>)
    ensures multiset(ProcessingOrder(pdfs, html)) == multiset(Jobs(pdfs, html))
    ensures forall a, b :: 0 <= a < b < |ProcessingOrder(pdfs, html)| ==>
              TypeRank(ProcessingOrder(pdfs, html)[a].1) <= TypeRank(ProcessingOrder(pdfs, html)[b].1)
  {
    MapPartition(html, |html|, IsSyllabusRow, HtmlJob);
    assert html[..|html|] == html;
    var order := ProcessingOrder(pdfs, html);
    forall a, b | 0 <= a < b < |order| ensures TypeRank(order[a].1) <= TypeRank(order[b].1) {
      OrderRank(pdfs, html, a);
      OrderRank(pdfs, html, b);
    }
  }

  /** Splits the pages into the syllabus jobs and the course-page jobs, keeping their order. */
  method SplitPages(html: seq<HtmlRow>) returns (syllabus: seq<Job>, pages: seq<Job>)
    ensures syllabus == MapSeq(Filter(html, IsSyllabusRow), HtmlJob)
    ensures pages == MapSeq(Filter(html, Not(IsSyllabusRow)), HtmlJob)
  {
    syllabus, pages := [], [];
    for i := 0 to |html|
      invariant syllabus == MapSeq(Filter(html[..i], IsSyllabusRow), HtmlJob)
      invariant pages == MapSeq(Filter(html[..i], Not(IsSyllabusRow)), HtmlJob)
    {
      MapFilterStep(html, i, IsSyllabusRow, HtmlJob);
      MapFilterStep(html, i, Not(IsSyllabusRow), HtmlJob);
      if html[i].urlType == Some("syllabus") {
        syllabus := syllabus + [(html[i].path, "syllabus_md")];
      } else {
        pages := pages + [(html[i].path, "course_page_md")];
      }
    }
    assert html[..|html|] == html;
  }

  /** Number of successful results and their summed cost over `jobs`; `outcome` gives the cost of a success and None for a failure. */
  function Tally(jobs: seq<Job>, outcome: Job -> Option<int>): (nat, int) {
    if jobs == [] then (0, 0)
    else
      var t := Tally(jobs[..|jobs| - 1], outcome);
      var o := outcome(jobs[|jobs| - 1]);
      if o.Some? then (t.0 + 1, t.1 + o.value) else t
  }

  function Succeeded(outcome: Job -> Option<int>): Job -> bool {
    (j: Job) => outcome(j).Some?
  }

  /** The success count is the number of jobs that succeed. */
  lemma {:induction false} TallyCount(jobs: seq<Job>, outcome: Job -> Option<int>)
    ensures Tally(jobs, outcome).0 == |Filter(jobs, Succeeded(outcome))|
    decreases |jobs|
  {
    if jobs != [] {
      var init := jobs[..|jobs| - 1];
      TallyCount(init, outcome);
      assert jobs == init + [jobs[|jobs| - 1]];
      FilterAppend(init, [jobs[|jobs| - 1]], Succeeded(outcome));
    }
  }

  /** Tallies of consecutive parts add up, so the order of the phases and batches does not change the totals. */
  lemma {:induction false} TallyAppend(a: seq<Job>, b: seq<Job>, outcome: Job -> Option<int>)
    ensures Tally(a + b, outcome).0 == Tally(a, outcome).0 + Tally(b, outcome).0
    ensures Tally(a + b, outcome).1 == Tally(a, outcome).1 + Tally(b, outcome).1
    decreases |b|
  {
    if b == [] {
      assert a + b == a;
    } else {
      var init := b[..|b| - 1];
      TallyAppend(a, init, outcome);
      assert (a + b)[..|a + b| - 1] == a + init;
    }
  }

  /** The collection phases (those before content processing) a run from `start` goes through, in order. */
  function CollectionFrom(start: Phase): seq<Phase>
    decreases 4 - Rank(start)
  {
    if start == ContentProcessing || start == Completed then [] else [start] + CollectionFrom(Next(start))
  }

  /** The collection phase lists, written out. */
  lemma CollectionListed()
    ensures CollectionFrom(HtmlScraping) == [HtmlScraping]
    ensures CollectionFrom(PdfDownload) == [PdfDownload, HtmlScraping]
    ensures CollectionFrom(UrlExtraction) == [UrlExtraction, PdfDownload, HtmlScraping]
  {
    assert CollectionFrom(HtmlScraping) == [HtmlScraping] + CollectionFrom(ContentProcessing);
    assert CollectionFrom(PdfDownload) == [PdfDownload] + CollectionFrom(HtmlScraping);
    assert CollectionFrom(UrlExtraction) == [UrlExtraction] + CollectionFrom(PdfDownload);
  }

  /** A run goes through its collection phases and then, unless already completed, content processing. */
  lemma {:induction false} PhasesFromSplit(start: Phase)
    ensures PhasesFrom(start) == CollectionFrom(start) + (if start == Completed then [] else [ContentProcessing])
    decreases 4 - Rank(start)
  {
    if start != Completed && start != ContentProcessing {
      PhasesFromSplit(Next(start));
    }
  }

  /** A run that finds itself at `start` goes through phase `p`: `p` is a real phase no earlier than `start`. */
  predicate Runs(start: Phase, p: Phase) {
    p != Completed && Rank(start) <= Rank(p)
  }

  /** The phases a run from `start` goes through are exactly those `Runs` names. */
  lemma {:induction false} PhasesFromMembers(start: Phase, p: Phase)
    ensures p in PhasesFrom(start) <==> Runs(start, p)
    decreases 4 - Rank(start)
  {
    if start != Completed {
      PhasesFromMembers(Next(start), p);
    }
  }

  /**
   * What the steps outside this model report to the pipeline: the number of URLs the extractor
   * found, the PDFs downloaded, the pages scraped, the files the processing phase finds with the
   * outcome of each job (its cost, or None when it fails), and the number of current courses the
   * finalisation counts (None when that query fails).
   */
  datatype PhaseResults = PhaseResults(urlsFound: nat, downloaded: nat, scraped: nat,
                                       pdfFiles: seq<StoredFile<String>>, htmlFiles: seq<StoredFile<HtmlRow>>,
                                       outcome: Job -> Option<int>, currentCourses: Option<nat>)

  /** The processing phase finds at least one usable PDF or page. */
  predicate HasContent(res: PhaseResults) {
    UsableRows(res.pdfFiles, MinPdfSize) != [] || UsableRows(res.htmlFiles, MinPageSize) != []
  }

  /** The processed count and the cost the processing phase records: the tally over its processing order. */
  function ContentTally(res: PhaseResults): (nat, int) {
    Tally(ProcessingOrder(UsableRows(res.pdfFiles, MinPdfSize), UsableRows(res.htmlFiles, MinPageSize)), res.outcome)
  }

  /**
   * The processed count and cost go from `before` to `after` in the processing phase: they become
   * the tally when some file is usable, and stay as they were otherwise.
   */
  predicate ContentRecorded(res: PhaseResults, before: (nat, int), after: (nat, int)) {
    if HasContent(res) then after == ContentTally(res) else after == before
  }

  class Pipeline {
    const enableResume: bool
    const batchSize: nat
    var phase: Phase
    var urlsExtracted: nat
    var pdfsDownloaded: nat
    var pagesScraped: nat
    var coursesProcessed: nat
    var processingCost: int
    var lastCheckpoint: Option<int>

    constructor (enableResume: bool, batchSize: nat)
      ensures this.enableResume == enableResume && this.batchSize == batchSize
      ensures phase == UrlExtraction && lastCheckpoint == None
      ensures urlsExtracted == 0 && pdfsDownloaded == 0 && pagesScraped == 0
      ensures coursesProcessed == 0 && processingCost == 0
    {
      this.enableResume := enableResume;
      this.batchSize := batchSize;
      phase := UrlExtraction;
      urlsExtracted, pdfsDownloaded, pagesScraped, coursesProcessed := 0, 0, 0, 0;
      processingCost := 0;
      lastCheckpoint := None;
    }

    /**
     * Reads the progress recorded in the database: the counts update the statistics when they
     * could be read, and the phase becomes the resume phase.
     */
    method LoadProgress(recorded: Option<Records>, pending: Option<nat>)
      modifies this
      ensures phase == ResumePhase(recorded, pending)
      ensures recorded.Some? ==>
                urlsExtracted == recorded.value.urls && pdfsDownloaded == recorded.value.pdfs
                && pagesScraped == recorded.value.html && coursesProcessed == recorded.value.courses
      ensures recorded.None? ==>
                urlsExtracted == old(urlsExtracted) && pdfsDownloaded == old(pdfsDownloaded)
                && pagesScraped == old(pagesScraped) && coursesProcessed == old(coursesProcessed)
      ensures processingCost == old(processingCost) && lastCheckpoint == old(lastCheckpoint)
    {
      if recorded.None? {
        phase := UrlExtraction;
        return;
      }
      var r := recorded.value;
      urlsExtracted, pdfsDownloaded, pagesScraped, coursesProcessed := r.urls, r.pdfs, r.html, r.courses;
      if pending.None? {
        phase := UrlExtraction;
        return;
      }
      var waiting := pending.value;
      if r.courses > 0 && r.html > 0 && r.pdfs > 0 && waiting == 0 {
        phase := Completed;
      } else if r.html > 0 && r.pdfs > 0 && waiting == 0 {
        phase := ContentProcessing;
      } else if waiting > 0 {
        phase := HtmlScraping;
      } else if r.pdfs > 0 {
        phase := HtmlScraping;
      } else if r.urls > 0 {
        phase := PdfDownload;
      } else {
        phase := UrlExtraction;
      }
    }

    /** Records a checkpoint at time `now`; does nothing when resuming is switched off. */
    method SaveProgress(now: int)
      modifies this
      ensures enableResume ==> lastCheckpoint == Some(now)
      ensures !enableResume ==> lastCheckpoint == old(lastCheckpoint)
      ensures phase == old(phase) && urlsExtracted == old(urlsExtracted) && pdfsDownloaded == old(pdfsDownloaded)
      ensures pagesScraped == old(pagesScraped) && coursesProcessed == old(coursesProcessed)
      ensures processingCost == old(processingCost)
    {
      if !enableResume {
        return;
      }
      lastCheckpoint := Some(now);
    }

    /**
     * Runs the pipeline: when resuming, the phase comes from the recorded progress; then the
     * phases run from there and the pipeline is finalised. `ran` lists the phases that ran.
     */
    method RunCompletePipeline(recorded: Option<Records>, pending: Option<nat>, res: PhaseResults, now: int)
      returns (ran: seq<Phase>)
      requires batchSize > 0
      modifies this
      ensures ran == PhasesFrom(if enableResume then ResumePhase(recorded, pending) else old(phase))
      ensures phase == Completed
      ensures enableResume && ran != [] ==> lastCheckpoint == Some(now)
      ensures !enableResume || ran == [] ==> lastCheckpoint == old(lastCheckpoint)
      ensures urlsExtracted == if UrlExtraction in ran then res.urlsFound
                               else if enableResume && recorded.Some? then recorded.value.urls
                               else old(urlsExtracted)
      ensures pdfsDownloaded == if PdfDownload in ran then res.downloaded
                                else if enableResume && recorded.Some? then recorded.value.pdfs
                                else old(pdfsDownloaded)
      ensures pagesScraped == if HtmlScraping in ran then res.scraped
                              else if enableResume && recorded.Some? then recorded.value.html
                              else old(pagesScraped)
      ensures processingCost == if ContentProcessing in ran && HasContent(res) then ContentTally(res).1
                                else old(processingCost)
      ensures coursesProcessed == if res.currentCourses.Some? then res.currentCourses.value
                                  else if ContentProcessing in ran && HasContent(res) then ContentTally(res).0
                                  else if enableResume && recorded.Some? then recorded.value.courses
                                  else old(coursesProcessed)
    {
      if enableResume {
        LoadProgress(recorded, pending);
      }
      ghost var start := phase;
      ran := RunPhases(res, now);
      PhasesFromMembers(start, UrlExtraction);
      PhasesFromMembers(start, PdfDownload);
      PhasesFromMembers(start, HtmlScraping);
      PhasesFromMembers(start, ContentProcessing);
      Finalize(res.currentCourses);
    }

    /**
     * The phase steps of the pipeline: each phase runs if the pipeline is at it, records its
     * statistic and hands over to the next, with a checkpoint after each. `ran` lists the
     * phases that ran.
     */
    method RunPhases(res: PhaseResults, now: int) returns (ran: seq<Phase>)
      requires batchSize > 0
      modifies this
      ensures ran == PhasesFrom(old(phase))
      ensures phase == Completed
      ensures enableResume && ran != [] ==> lastCheckpoint == Some(now)
      ensures !enableResume || ran == [] ==> lastCheckpoint == old(lastCheckpoint)
      ensures urlsExtracted == if Runs(old(phase), UrlExtraction) then res.urlsFound else old(urlsExtracted)
      ensures pdfsDownloaded == if Runs(old(phase), PdfDownload) then res.downloaded else old(pdfsDownloaded)
      ensures pagesScraped == if Runs(old(phase), HtmlScraping) then res.scraped else old(pagesScraped)
      ensures Runs(old(phase), ContentProcessing) ==>
                ContentRecorded(res, (old(coursesProcessed), old(processingCost)), (coursesProcessed, processingCost))
      ensures !Runs(old(phase), ContentProcessing) ==>
                coursesProcessed == old(coursesProcessed) && processingCost == old(processingCost)
    {
      ghost var start := phase;
      ghost var before := (coursesProcessed, processingCost);
      var first := RunCollectionPhases(res, now);
      assert (coursesProcessed, processingCost) == before;
      var last := ContentPhase(res, now);
      ran := first + last;
      PhasesFromSplit(start);
    }

    /**
     * The collection phases, URL extraction, download and scraping, each run if the pipeline is
     * at it; `ran` lists those that ran.
     */
    method RunCollectionPhases(res: PhaseResults, now: int) returns (ran: seq<Phase>)
      modifies this
      ensures ran == CollectionFrom(old(phase))
      ensures phase == if old(phase) == Completed then Completed else ContentProcessing
      ensures lastCheckpoint == if ran != [] && enableResume then Some(now) else old(lastCheckpoint)
      ensures urlsExtracted == if Runs(old(phase), UrlExtraction) then res.urlsFound else old(urlsExtracted)
      ensures pdfsDownloaded == if Runs(old(phase), PdfDownload) then res.downloaded else old(pdfsDownloaded)
      ensures pagesScraped == if Runs(old(phase), HtmlScraping) then res.scraped else old(pagesScraped)
      ensures coursesProcessed == old(coursesProcessed) && processingCost == old(processingCost)
    {
      var r1 := RunPhase(UrlExtraction, res, now);
      var r2 := RunPhase(PdfDownload, res, now);
      var r3 := RunPhase(HtmlScraping, res, now);
      ran := r1 + r2 + r3;
      CollectionListed();
    }

    /**
     * One collection phase (URL extraction, download or scraping): when the pipeline is at phase
     * `p`, runs it, records the statistic that phase sets, hands over to the next phase and takes
     * a checkpoint, and `ran` is `[p]`; otherwise nothing changes and `ran` is empty.
     */
    method RunPhase(p: Phase, res: PhaseResults, now: int) returns (ran: seq<Phase>)
      requires p == UrlExtraction || p == PdfDownload || p == HtmlScraping
      modifies this
      ensures ran == if old(phase) == p then [p] else []
      ensures phase == if old(phase) == p then Next(p) else old(phase)
      ensures lastCheckpoint == if old(phase) == p && enableResume then Some(now) else old(lastCheckpoint)
      ensures urlsExtracted == if old(phase) == p == UrlExtraction then res.urlsFound else old(urlsExtracted)
      ensures pdfsDownloaded == if old(phase) == p == PdfDownload then res.downloaded else old(pdfsDownloaded)
      ensures pagesScraped == if old(phase) == p == HtmlScraping then res.scraped else old(pagesScraped)
      ensures coursesProcessed == old(coursesProcessed) && processingCost == old(processingCost)
    {
      if phase != p {
        return [];
      }
      match p {
        case UrlExtraction => urlsExtracted := res.urlsFound;
        case PdfDownload => pdfsDownloaded := res.downloaded;
        case HtmlScraping => pagesScraped := res.scraped;
      }
      phase := Next(p);
      SaveProgress(now);
      ran := [p];
    }

    /**
     * The content-processing phase step: when the pipeline is at it, processes the files, records
     * the processed count and the cost, completes the pipeline and takes a checkpoint, and `ran`
     * is `[ContentProcessing]`; otherwise nothing changes and `ran` is empty.
     */
    method ContentPhase(res: PhaseResults, now: int) returns (ran: seq<Phase>)
      requires batchSize > 0
      modifies this
      ensures ran == if old(phase) == ContentProcessing then [ContentProcessing] else []
      ensures phase == if old(phase) == ContentProcessing then Completed else old(phase)
      ensures lastCheckpoint == if old(phase) == ContentProcessing && enableResume then Some(now) else old(lastCheckpoint)
      ensures urlsExtracted == old(urlsExtracted) && pdfsDownloaded == old(pdfsDownloaded)
              && pagesScraped == old(pagesScraped)
      ensures old(phase) == ContentProcessing ==>
                ContentRecorded(res, (old(coursesProcessed), old(processingCost)), (coursesProcessed, processingCost))
      ensures old(phase) != ContentProcessing ==>
                coursesProcessed == old(coursesProcessed) && processingCost == old(processingCost)
    {
      if phase != ContentProcessing {
        return [];
      }
      ContentStep(res, now);
      phase := Completed;
      SaveProgress(now);
      ran := [ContentProcessing];
    }

    /** The content-processing phase over the files and outcomes `res` reports. */
    method ContentStep(res: PhaseResults, now: int)
      requires batchSize > 0
      modifies this
      ensures ContentRecorded(res, (old(coursesProcessed), old(processingCost)), (coursesProcessed, processingCost))
      ensures phase == old(phase) && urlsExtracted == old(urlsExtracted) && pdfsDownloaded == old(pdfsDownloaded)
              && pagesScraped == old(pagesScraped)
      ensures !enableResume || !HasContent(res) ==> lastCheckpoint == old(lastCheckpoint)
    {
      var _, _ := RunContentProcessing(res.pdfFiles, res.htmlFiles, res.outcome, now);
    }

    /**
     * Finalisation: the processed count becomes the number of current courses in the database;
     * when that query fails, the error is logged and nothing changes.
     */
    method Finalize(currentCourses: Option<nat>)
      modifies this
      ensures coursesProcessed == if currentCourses.Some? then currentCourses.value else old(coursesProcessed)
      ensures phase == old(phase) && urlsExtracted == old(urlsExtracted) && pdfsDownloaded == old(pdfsDownloaded)
      ensures pagesScraped == old(pagesScraped) && processingCost == old(processingCost)
      ensures lastCheckpoint == old(lastCheckpoint)
    {
      if currentCourses.Some? {
        coursesProcessed := currentCourses.value;
      }
    }

    /**
     * Processes `files` in consecutive batches of `batchSize`, with a checkpoint after each
     * batch; returns the number of successes, their summed cost and the batches as index ranges.
     */
    method ProcessFileBatch(files: seq<Job>, outcome: Job -> Option<int>, now: int)
      returns (successful: nat, cost: int, batches: seq<(nat, nat)>)
      requires batchSize > 0
      modifies this
      ensures (successful, cost) == Tally(files, outcome)
      ensures batches == Batches(|files|, batchSize, 0)
      ensures enableResume && files != [] ==> lastCheckpoint == Some(now)
      ensures !enableResume || files == [] ==> lastCheckpoint == old(lastCheckpoint)
      ensures phase == old(phase) && urlsExtracted == old(urlsExtracted) && pdfsDownloaded == old(pdfsDownloaded)
      ensures pagesScraped == old(pagesScraped) && coursesProcessed == old(coursesProcessed)
      ensures processingCost == old(processingCost)
    {
      successful, cost, batches := 0, 0, [];
      var n := |files|;
      var i := 0;
      while i < n
        invariant i <= n
        invariant batches + Batches(n, batchSize, i) == Batches(n, batchSize, 0)
        invariant successful == Tally(files[..i], outcome).0 && cost == Tally(files[..i], outcome).1
        invariant i > 0 ==> (enableResume ==> lastCheckpoint == Some(now))
        invariant i == 0 || !enableResume ==> lastCheckpoint == old(lastCheckpoint)
        invariant phase == old(phase) && urlsExtracted == old(urlsExtracted) && pdfsDownloaded == old(pdfsDownloaded)
        invariant pagesScraped == old(pagesScraped) && coursesProcessed == old(coursesProcessed)
        invariant processingCost == old(processingCost)
        decreases n - i
      {
        var end := if i + batchSize < n then i + batchSize else n;
        successful, cost := RunBatch(files, outcome, i, end, successful, cost);
        BatchesFrom(n, batchSize, i);
        assert (batches + [(i, end)]) + Batches(n, batchSize, end) == batches + Batches(n, batchSize, i);
        batches := batches + [(i, end)];
        SaveProgress(now);
        i := end;
      }
      assert files[..n] == files;
    }

    /** One batch, `files[i..end]`, added to the tally of the files before it. */
    method RunBatch(files: seq<Job>, outcome: Job -> Option<int>, i: nat, end: nat, successful0: nat, cost0: int)
      returns (successful: nat, cost: int)
      requires i <= end <= |files| && successful0 == Tally(files[..i], outcome).0 && cost0 == Tally(files[..i], outcome).1
      ensures successful == Tally(files[..end], outcome).0 && cost == Tally(files[..end], outcome).1
    {
      successful, cost := successful0, cost0;
      for j := i to end
        invariant successful == Tally(files[..j], outcome).0 && cost == Tally(files[..j], outcome).1
      {
        assert files[..j + 1][..j] == files[..j];
        var result := outcome(files[j]);
        if result.Some? {
          successful := successful + 1;
          cost := cost + result.value;
        }
      }
    }

    /** Processes the PDFs, then the syllabus pages, then the course pages, each list in its own batches. */
    method ProcessInOrder(pdfJobs: seq<Job>, syllabus: seq<Job>, pages: seq<Job>, outcome: Job -> Option<int>, now: int)
      returns (successful: nat, cost: int)
      requires batchSize > 0
      modifies this
      ensures (successful, cost) == Tally(pdfJobs + syllabus + pages, outcome)
      ensures phase == old(phase) && coursesProcessed == old(coursesProcessed) && processingCost == old(processingCost)
      ensures urlsExtracted == old(urlsExtracted) && pdfsDownloaded == old(pdfsDownloaded)
              && pagesScraped == old(pagesScraped)
      ensures enableResume && pdfJobs + syllabus + pages != [] ==> lastCheckpoint == Some(now)
      ensures !enableResume || pdfJobs + syllabus + pages == [] ==> lastCheckpoint == old(lastCheckpoint)
    {
      successful, cost := 0, 0;
      if pdfJobs != [] {
        var s, c, _ := ProcessFileBatch(pdfJobs, outcome, now);
        successful, cost := successful + s, cost + c;
      }
      if syllabus != [] {
        var s, c, _ := ProcessFileBatch(syllabus, outcome, now);
        successful, cost := successful + s, cost + c;
      }
      if pages != [] {
        var s, c, _ := ProcessFileBatch(pages, outcome, now);
        successful, cost := successful + s, cost + c;
      }
      TallyAppend(pdfJobs, syllabus, outcome);
      TallyAppend(pdfJobs + syllabus, pages, outcome);
    }

    /**
     * The content-processing phase: keeps the files that exist and are large enough, registers
     * a job for each, then processes the PDFs, the syllabus pages and the course pages, in that
     * order, and records the number of successes and their cost. Does nothing when no file is left.
     */
    method RunContentProcessing(pdfFiles: seq<StoredFile<String>>, htmlFiles: seq<StoredFile<HtmlRow>>,
                                outcome: Job -> Option<int>, now: int) returns (jobs: seq<Job>, order: seq<Job>)
      requires batchSize > 0
      modifies this
      ensures var pdfs := UsableRows(pdfFiles, MinPdfSize);
        var html := UsableRows(htmlFiles, MinPageSize);
        if pdfs == [] && html == [] then
          jobs == [] && order == []
          && coursesProcessed == old(coursesProcessed) && processingCost == old(processingCost)
        else
          jobs == Jobs(pdfs, html) && order == ProcessingOrder(pdfs, html)
          && (coursesProcessed, processingCost) == Tally(order, outcome)
      ensures phase == old(phase) && urlsExtracted == old(urlsExtracted) && pdfsDownloaded == old(pdfsDownloaded)
              && pagesScraped == old(pagesScraped)
      ensures enableResume && (UsableRows(pdfFiles, MinPdfSize) != [] || UsableRows(htmlFiles, MinPageSize) != []) ==>
                lastCheckpoint == Some(now)
      ensures !enableResume || (UsableRows(pdfFiles, MinPdfSize) == [] && UsableRows(htmlFiles, MinPageSize) == []) ==>
                lastCheckpoint == old(lastCheckpoint)
    {
      var pdfs := UsableRows(pdfFiles, MinPdfSize);
      var html := UsableRows(htmlFiles, MinPageSize);
      if |pdfs| + |html| == 0 {
        return [], [];
      }
      jobs := Jobs(pdfs, html);
      var pdfJobs := MapSeq(pdfs, PdfJob);
      var syllabus, pages := SplitPages(html);
      order := pdfJobs + syllabus + pages;
      assert |syllabus| + |pages| == |html| by {
        FilterPartition(html, IsSyllabusRow);
      }
      var successful, cost := ProcessInOrder(pdfJobs, syllabus, pages, outcome, now);
      processingCost := cost;
      coursesProcessed := successful;
    }
  }
}
