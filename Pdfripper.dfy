/**
 * The extractor of pdfripper: configuration defaulting (NewExtractor), the
 * page count read from the text `pdfinfo` prints (getTotalPages), and the
 * fan-out that hands pages 1..N to a bounded pool of workers through a
 * buffered channel and keeps the first error a worker records (ExtractPages).
 *
 * The external programs are parameters: `pdfinfo` is its captured standard
 * output (None when it could not run or exited abnormally) and `fails(k)` says
 * whether `pdftotext` failed for page k. The workers run one after another,
 * each processing a received page to completion before receiving the next.
 */
module Pdfripper {
  import opened Wrappers
  import opened GoStrings
  import opened GoStrconv
  import opened GoFilepath
  import opened Channels

  /** The configuration of one extraction run. */
  datatype Extractor = Extractor(pdfFile: string, outputDir: string, processCount: int)

  /** The errors the extractor reports, one per error the Go code returns. */
  datatype ExtractError =
    | EmptyPdfPath                  // "input PDF file must be specified"
    | MkdirFailed(dir: string)      // "creating output directory"
    | PdfInfoFailed                 // "running pdfinfo"
    | BadPagesCount(field: string)  // "parsing pages count"
    | NoPagesLine                   // "could not determine number of pages"
    | PageFailed(page: int)         // "extracting page %d"

  /** What ExtractPages does: return nil, return an error, or panic. */
  datatype Outcome = Ok | Err(error: ExtractError) | Panic

  // ---------------------------------------------------------------------------
  // NewExtractor

  /** The output directory used when none is given: the PDF's base name without its final extension. */
  function DefaultOutputDir(pdfFile: string): (dir: string)
    ensures dir + Ext(Base(pdfFile)) == Base(pdfFile)
    ensures '.' !in Base(pdfFile) ==> dir == Base(pdfFile)
  {
    var base := Base(pdfFile);
    NoDotNoExt(base);
    base[..|base| - |Ext(base)|]
  }

  /** "doc.pdf" gives "doc", "a.tar.gz" gives "a.tar": only the final extension goes. */
  lemma DefaultOutputDirDropsLastExtension(pdfFile: string, stem: string, x: string)
    requires Base(pdfFile) == stem + ['.'] + x
    requires '.' !in x && Separator !in x
    ensures DefaultOutputDir(pdfFile) == stem
  {
    StemOf(Base(pdfFile), stem, x);
  }

  /** Cutting the extension off `stem.x` leaves `stem`. */
  lemma StemOf(base: string, stem: string, x: string)
    requires base == stem + ['.'] + x
    requires '.' !in x && Separator !in x
    ensures base[..|base| - |Ext(base)|] == stem
  {
    ExtOf(stem, x);
    assert |base| - |Ext(base)| == |stem|;
  }

  /**
   * NewExtractor: rejects an empty PDF path; an empty output directory becomes
   * DefaultOutputDir; the directory must then be created (`mkdirAll` says
   * whether os.MkdirAll succeeds for it); a process count below 1 becomes the
   * CPU count `numCPU`.
   */
  function NewExtractor(pdfFile: string, outputDir: string, processCount: int,
                        numCPU: int, mkdirAll: string -> bool): (r: Result<Extractor, ExtractError>)
    requires numCPU >= 1
    ensures pdfFile == [] ==> r == Failure(EmptyPdfPath)
    ensures pdfFile != [] ==> var dir := if outputDir == [] then DefaultOutputDir(pdfFile) else outputDir;
      && (r.Success? <==> mkdirAll(dir))
      && (r.Failure? ==> r.error == MkdirFailed(dir))
      && (r.Success? ==> r.value.pdfFile == pdfFile && r.value.outputDir == dir)
    ensures r.Success? ==> r.value.processCount >= 1
    ensures r.Success? && processCount >= 1 ==> r.value.processCount == processCount
    ensures r.Success? && processCount < 1 ==> r.value.processCount == numCPU
  {
    if pdfFile == [] then Failure(EmptyPdfPath)
    else
      var dir := if outputDir == [] then DefaultOutputDir(pdfFile) else outputDir;
      if !mkdirAll(dir) then Failure(MkdirFailed(dir))
      else
        var count := if processCount < 1 then numCPU else processCount;
        Success(Extractor(pdfFile, dir, count))
  }

  // ---------------------------------------------------------------------------
  // getTotalPages

  /** A line that decides the page count: it starts with "Pages:" and has at least two fields. */
  predicate IsPagesLine(line: string) {
    "Pages:" <= line && |Fields(line)| >= 2
  }

  /** The count a deciding line gives: its second field read by Atoi. */
  function PagesCount(line: string): (r: Result<int, ExtractError>)
    requires IsPagesLine(line)
    ensures r.Success? <==> Atoi(Fields(line)[1]).Some?
    ensures r.Success? ==> r.value == Atoi(Fields(line)[1]).value
    ensures r.Failure? ==> r.error == BadPagesCount(Fields(line)[1])
  {
    var field := Fields(line)[1];
    match Atoi(field)
    case Some(n) => Success(n)
    case None => Failure(BadPagesCount(field))
  }

  /** The scan of getTotalPages over the lines of the pdfinfo output, first to last. */
  function ScanPages(lines: seq<string>): (r: Result<int, ExtractError>)
    ensures r.Failure? ==> r.error == NoPagesLine || r.error.BadPagesCount?
  {
    if lines == [] then Failure(NoPagesLine)
    else if IsPagesLine(lines[0]) then PagesCount(lines[0])
    else ScanPages(lines[1..])
  }

  /** No line of the output decides the count. */
  predicate NoDecidingLine(lines: seq<string>) {
    forall j :: 0 <= j < |lines| ==> !IsPagesLine(lines[j])
  }

  /** Line i is the first line that decides the count. */
  predicate FirstDeciding(lines: seq<string>, i: int) {
    && 0 <= i < |lines|
    && IsPagesLine(lines[i])
    && forall j :: 0 <= j < i ==> !IsPagesLine(lines[j])
  }

  /**
   * getTotalPages, given what running pdfinfo produced: a pdfinfo failure is
   * reported as such; otherwise the first deciding line gives the count, and
   * "no pages line" is reported exactly when no line decides.
   */
  function GetTotalPages(pdfinfo: Option<string>): (r: Result<int, ExtractError>)
    ensures pdfinfo.None? ==> r == Failure(PdfInfoFailed)
    ensures pdfinfo.Some? ==> (r == Failure(NoPagesLine) <==> NoDecidingLine(SplitLines(pdfinfo.value)))
    ensures pdfinfo.Some? ==> var lines := SplitLines(pdfinfo.value);
      forall i :: FirstDeciding(lines, i) ==> r == PagesCount(lines[i])
  {
    if pdfinfo.None? then Failure(PdfInfoFailed)
    else
      var lines := SplitLines(pdfinfo.value);
      ScanPagesNoLine(lines);
      ScanPagesDecided(lines);
      ScanPages(lines)
  }

  /**
   * The first deciding line alone decides the result, whatever follows it:
   * later lines are never consulted.
   */
  lemma {:induction false} ScanPagesFirstDeciding(lines: seq<string>, i: nat)
    requires i < |lines| && IsPagesLine(lines[i])
    requires forall j :: 0 <= j < i ==> !IsPagesLine(lines[j])
    ensures ScanPages(lines) == PagesCount(lines[i])
    ensures ScanPages(lines) == ScanPages(lines[..i + 1])
  {
    if i > 0 {
      ScanPagesFirstDeciding(lines[1..], i - 1);
      assert lines[..i + 1][1..] == lines[1..][..i];
    }
  }

  /** ScanPagesFirstDeciding for every candidate line at once. */
  lemma ScanPagesDecided(lines: seq<string>)
    ensures forall i :: FirstDeciding(lines, i) ==> ScanPages(lines) == PagesCount(lines[i])
  {
    forall i | FirstDeciding(lines, i)
      ensures ScanPages(lines) == PagesCount(lines[i])
    {
      ScanPagesFirstDeciding(lines, i);
    }
  }

  /** "could not determine number of pages" is reported exactly when no line decides. */
  lemma {:induction false} ScanPagesNoLine(lines: seq<string>)
    ensures ScanPages(lines) == Failure(NoPagesLine) <==> NoDecidingLine(lines)
  {
    if lines != [] {
      ScanPagesNoLine(lines[1..]);
      if !IsPagesLine(lines[0]) {
        assert forall j :: 1 <= j < |lines| ==> lines[j] == lines[1..][j - 1];
      }
    }
  }

  /** On pdfinfo output written as newline-free lines, getTotalPages scans exactly those lines. */
  lemma GetTotalPagesOfLines(lines: seq<string>)
    requires |lines| >= 1
    requires forall k :: 0 <= k < |lines| ==> '\n' !in lines[k]
    ensures GetTotalPages(Some(JoinLines(lines))) == ScanPages(lines)
  {
    SplitJoinLines(lines);
  }

  /**
   * A line "Pages:", white space, a value, then nothing or white space and
   * anything: the line decides the count, the value is its second field, and
   * further fields are ignored.
   */
  lemma PagesLineFields(space: char, moreSpace: string, value: string, tail: string)
    requires IsSpace(space) && AllSpace(moreSpace)
    requires IsWord(value)
    requires tail == [] || IsSpace(tail[0])
    ensures var line := "Pages:" + [space] + (moreSpace + (value + tail));
      && Fields(line) == ["Pages:", value] + Fields(tail)
      && IsPagesLine(line)
  {
    var rest := moreSpace + (value + tail);
    ValueThenTail(moreSpace, value, tail);
    LabelThenSpace(space, rest);
    assert ["Pages:"] + ([value] + Fields(tail)) == ["Pages:", value] + Fields(tail);
  }

  lemma ValueThenTail(gap: string, value: string, tail: string)
    requires AllSpace(gap) && IsWord(value)
    requires tail == [] || IsSpace(tail[0])
    ensures Fields(gap + (value + tail)) == [value] + Fields(tail)
  {
    FieldsPastSpace(gap, value + tail);
    FieldsOfWordThen(value, tail);
  }

  lemma LabelThenSpace(c: char, rest: string)
    requires IsSpace(c)
    ensures "Pages:" <= "Pages:" + [c] + rest
    ensures Fields("Pages:" + [c] + rest) == ["Pages:"] + Fields(rest)
  {
    LabelIsOneField();
    FieldsSplitAtSpace("Pages:", c, rest);
  }

  lemma LabelIsOneField()
    ensures Fields("Pages:") == ["Pages:"]
  {
    FieldsOfWord("Pages:");
  }

  lemma {:induction false} FieldsPastSpace(gap: string, s: string)
    requires AllSpace(gap)
    ensures Fields(gap + s) == Fields(s)
  {
    if gap != [] {
      assert (gap + s)[1..] == gap[1..] + s;
      FieldsPastSpace(gap[1..], s);
    } else {
      assert gap + s == s;
    }
  }

  /** "Pages: n" with any int n, alone or with trailing fields, yields n. */
  lemma PagesLineCount(n: int, tail: string)
    requires MinInt <= n <= MaxInt
    requires tail == [] || IsSpace(tail[0])
    ensures IsPagesLine("Pages: " + Itoa(n) + tail)
    ensures PagesCount("Pages: " + Itoa(n) + tail) == Success(n)
  {
    assert Itoa(n)[0] == '-' || IsDigit(Itoa(n)[0]);
    assert IsWord(Itoa(n));
    assert "Pages: " + Itoa(n) + tail == "Pages:" + [' '] + ([] + (Itoa(n) + tail));
    PagesLineFields(' ', [], Itoa(n), tail);
    AtoiItoa(n);
  }

  /**
   * On pdfinfo output written as newline-free lines, the count comes from the
   * first deciding line alone.
   */
  lemma GetTotalPagesFirstDeciding(lines: seq<string>, i: nat)
    requires forall k :: 0 <= k < |lines| ==> '\n' !in lines[k]
    requires i < |lines| && IsPagesLine(lines[i])
    requires forall j :: 0 <= j < i ==> !IsPagesLine(lines[j])
    ensures GetTotalPages(Some(JoinLines(lines))) == PagesCount(lines[i])
  {
    GetTotalPagesOfLines(lines);
    ScanPagesFirstDeciding(lines, i);
  }

  /** "Pages: 42" is a deciding line that gives 42. */
  lemma FortyTwoPages()
    ensures IsPagesLine("Pages: 42") && PagesCount("Pages: 42") == Success(42)
  {
    assert Itoa(42) == "42";
    PagesLineCount(42, []);
    assert "Pages: 42" == "Pages: " + Itoa(42) + [];
  }

  /** "abc" after "Pages:" is not a count. */
  lemma NonNumericField()
    ensures IsPagesLine("Pages: abc") && Fields("Pages: abc")[1] == "abc" && Atoi("abc").None?
  {
    assert IsWord("abc");
    PagesLineFields(' ', [], "abc", []);
    assert "Pages: abc" == "Pages:" + [' '] + ([] + ("abc" + []));
    assert !IsDigit('a') && Unsigned("abc") == "abc";
  }

  // ---------------------------------------------------------------------------
  // ExtractPages

  /** The workers launched: the process count, but never more than there are pages. */
  function WorkerCount(processCount: int, totalPages: int): (w: int)
    ensures w <= processCount && w <= totalPages
    ensures w == processCount || w == totalPages
  {
    if processCount > totalPages then totalPages else processCount
  }

  /** The file page k is written to: `page_<k>.txt` in the output directory, k in unpadded decimal. */
  function PageFile(outputDir: string, page: int): (path: string)
    ensures var name := "page_" + Itoa(page) + ".txt";
      && |name| <= |path| && path[|path| - |name|..] == name
      && (outputDir == [] ==> path == name)
      && (outputDir != [] ==>
            |path| == |outputDir| + 1 + |name| && path[..|outputDir|] == outputDir && path[|outputDir|] == Separator)
  {
    Join(outputDir, "page_" + Itoa(page) + ".txt")
  }

  /** A page file sits directly in the output directory: its base name is `page_<k>.txt`. */
  lemma PageFileBase(outputDir: string, page: int)
    ensures Base(PageFile(outputDir, page)) == "page_" + Itoa(page) + ".txt"
  {
    var name := "page_" + Itoa(page) + ".txt";
    assert name[0] == 'p';
    assert Separator !in name by {
      assert Separator !in Itoa(page) by {
        assert forall i :: 0 <= i < |Itoa(page)| ==> Itoa(page)[i] == '-' || IsDigit(Itoa(page)[i]);
      }
    }
    BaseOfJoin(outputDir, name);
  }

  /** No two pages share an output file. */
  lemma PageFileInjective(outputDir: string, j: int, k: int)
    requires PageFile(outputDir, j) == PageFile(outputDir, k)
    ensures j == k
  {
    var nj := "page_" + Itoa(j) + ".txt";
    var nk := "page_" + Itoa(k) + ".txt";
    var p := PageFile(outputDir, j);
    assert |nj| == |nk| by {
      if outputDir != [] {
        assert p == outputDir + [Separator] + nj;
        assert p == outputDir + [Separator] + nk;
      }
    }
    assert nj == nk;
    assert Itoa(j) == nj[5..|nj| - 4] == nk[5..|nk| - 4] == Itoa(k);
    ItoaInjective(j, k);
  }

  /** The files pdftotext is asked to write for the given pages, one each, in order. */
  function PageFiles(outputDir: string, pages: seq<int>): (files: seq<string>)
    ensures |files| == |pages|
  {
    if pages == [] then []
    else PageFiles(outputDir, pages[..|pages| - 1]) + [PageFile(outputDir, pages[|pages| - 1])]
  }

  /** The i-th file named is the file of the i-th page. */
  lemma {:induction false} PageFilesAt(outputDir: string, pages: seq<int>, i: nat)
    requires i < |pages|
    ensures PageFiles(outputDir, pages)[i] == PageFile(outputDir, pages[i])
  {
    if i < |pages| - 1 {
      PageFilesAt(outputDir, pages[..|pages| - 1], i);
    }
  }

  /** The page numbers 1..n in ascending order: what the producer sends. */
  function PageRange(n: nat): (pages: seq<int>)
    ensures |pages| == n
    ensures forall i :: 0 <= i < n ==> pages[i] == i + 1
  {
    if n == 0 then [] else PageRange(n - 1) + [n]
  }

  /** Every page 1..n is sent exactly once, and nothing else is. */
  lemma {:induction false} PageRangeExactlyOnce(n: nat, p: int)
    ensures multiset(PageRange(n))[p] == if 1 <= p <= n then 1 else 0
  {
    if n > 0 {
      PageRangeExactlyOnce(n - 1, p);
    }
  }

  /** The files written for pages 1..n are pairwise distinct: no page overwrites another's output. */
  lemma PageFilesDistinct(outputDir: string, n: nat)
    ensures var files := PageFiles(outputDir, PageRange(n));
      forall i, j :: 0 <= i < j < |files| ==> files[i] != files[j]
  {
    var files := PageFiles(outputDir, PageRange(n));
    forall i, j | 0 <= i < j < |files|
      ensures files[i] != files[j]
    {
      PageFilesAt(outputDir, PageRange(n), i);
      PageFilesAt(outputDir, PageRange(n), j);
      if files[i] == files[j] {
        PageFileInjective(outputDir, PageRange(n)[i], PageRange(n)[j]);
      }
    }
  }

  /**
   * The check-and-set a worker makes under the mutex after pdftotext failed
   * on `page` (`failed`): a failure is recorded only while no error is
   * recorded; a recorded error stays.
   */
  function Record(firstErr: Option<int>, page: int, failed: bool): (r: Option<int>)
    ensures firstErr.Some? ==> r == firstErr
    ensures firstErr.None? ==> (r.Some? <==> failed)
    ensures firstErr.None? && r.Some? ==> r.value == page
  {
    if failed && firstErr.None? then Some(page) else firstErr
  }

  /** The error recorded, starting from `firstErr`, once the pages were processed in the given order. */
  function RecordAll(firstErr: Option<int>, pages: seq<int>, fails: int -> bool): Option<int>
  {
    if pages == [] then firstErr
    else
      var last := pages[|pages| - 1];
      Record(RecordAll(firstErr, pages[..|pages| - 1], fails), last, fails(last))
  }

  /** One more page processed: its failure is recorded on top of what came before, and its file named after the others. */
  lemma DrainStep(firstErr: Option<int>, attempted: seq<int>, page: int, outputDir: string, fails: int -> bool)
    ensures RecordAll(firstErr, attempted + [page], fails) == Record(RecordAll(firstErr, attempted, fails), page, fails(page))
    ensures PageFiles(outputDir, attempted + [page]) == PageFiles(outputDir, attempted) + [PageFile(outputDir, page)]
  {
    assert (attempted + [page])[..|attempted|] == attempted;
  }

  /** The error ExtractPages returns after the pages were processed in the given order. */
  function FirstFailure(pages: seq<int>, fails: int -> bool): Option<int>
  {
    RecordAll(None, pages, fails)
  }

  /** No error is recorded exactly when no processed page failed. */
  lemma {:induction false} FirstFailureNoneIff(pages: seq<int>, fails: int -> bool)
    ensures FirstFailure(pages, fails).None? <==> forall i :: 0 <= i < |pages| ==> !fails(pages[i])
  {
    if pages != [] {
      var init := pages[..|pages| - 1];
      FirstFailureNoneIff(init, fails);
      assert forall i :: 0 <= i < |init| ==> init[i] == pages[i];
    }
  }

  /** A recorded error names a page that was processed and genuinely failed. */
  lemma {:induction false} FirstFailureGenuine(pages: seq<int>, fails: int -> bool)
    requires FirstFailure(pages, fails).Some?
    ensures FirstFailure(pages, fails).value in pages
    ensures fails(FirstFailure(pages, fails).value)
  {
    var init := pages[..|pages| - 1];
    if FirstFailure(init, fails).Some? {
      FirstFailureGenuine(init, fails);
      assert pages == init + [pages[|pages| - 1]];
    }
  }

  /** Once recorded, an error is never overwritten by later pages, failing or not. */
  lemma {:induction false} FirstFailureSetOnce(done: seq<int>, later: seq<int>, fails: int -> bool)
    requires FirstFailure(done, fails).Some?
    ensures FirstFailure(done + later, fails) == FirstFailure(done, fails)
  {
    if later != [] {
      var all := done + later;
      assert all[..|all| - 1] == done + later[..|later| - 1];
      FirstFailureSetOnce(done, later[..|later| - 1], fails);
    } else {
      assert done + later == done;
    }
  }

  /** The `firstErr` variable of ExtractPages with the mutex that guards it, shared by the workers. */
  class ErrorSlot {
    var err: Option<int>

    constructor ()
      ensures err == None
    {
      err := None;
    }

    /** A worker reports that pdftotext failed on `page`. */
    method ReportFailure(page: int)
      modifies this
      ensures old(err).Some? ==> err == old(err)
      ensures old(err).None? ==> err == Some(page)
    {
      if err == None {
        err := Some(page);
      }
    }
  }

  /** The producer: send the page numbers 1..totalPages in order, then close the channel. */
  method Produce(pages: PageChannel, totalPages: nat)
    requires pages.Valid() && !pages.closed && pages.Contents == [] && pages.capacity == totalPages
    modifies pages, pages.buf
    ensures pages.Valid() && pages.closed && pages.Contents == PageRange(totalPages)
  {
    var i := 1;
    while i <= totalPages
      invariant 1 <= i <= totalPages + 1
      invariant pages.Valid() && !pages.closed && pages.capacity == totalPages
      invariant pages.Contents == PageRange(i - 1)
    {
      pages.Send(i);
      i := i + 1;
    }
    pages.Close();
  }

  /**
   * One iteration of a worker: name the page's output file, run pdftotext on
   * the page (`fails(page)` says whether it fails), and report a failure.
   */
  method ProcessPage(slot: ErrorSlot, outputDir: string, page: int, fails: int -> bool)
    returns (outputFile: string)
    modifies slot
    ensures outputFile == PageFile(outputDir, page)
    ensures slot.err == Record(old(slot.err), page, fails(page))
  {
    outputFile := PageFile(outputDir, page);
    if fails(page) {
      slot.ReportFailure(page);
    }
  }

  /** Receiving the front of queued[n..] extends the taken prefix queued[..n] by one. */
  lemma TakeNext(queued: seq<int>, taken: seq<int>, page: int)
    requires |taken| < |queued| && taken == queued[..|taken|] && page == queued[|taken|]
    ensures taken + [page] == queued[..|taken| + 1]
    ensures queued[|taken|..][1..] == queued[|taken| + 1..]
  {
  }

  /**
   * One worker goroutine: receive pages until the channel is closed and
   * empty, run pdftotext on each (`fails` tells whether that run fails),
   * report each failure, and keep going. `attempted` lists the pages this
   * worker took, in order, and `targets` the output file it named for each.
   */
  method Worker(pages: PageChannel, slot: ErrorSlot, outputDir: string, fails: int -> bool)
    returns (attempted: seq<int>, targets: seq<string>)
    requires pages.Valid() && pages.closed
    modifies pages, slot
    ensures pages.Valid() && pages.closed && pages.Contents == []
    ensures attempted == old(pages.Contents)
    ensures targets == PageFiles(outputDir, attempted)
    ensures slot.err == RecordAll(old(slot.err), attempted, fails)
  {
    ghost var queued := pages.Contents;
    ghost var err0 := slot.err;
    attempted, targets := [], [];
    while true
      invariant pages.Valid() && pages.closed
      invariant |attempted| <= |queued|
      invariant attempted == queued[..|attempted|]
      invariant pages.Contents == queued[|attempted|..]
      invariant targets == PageFiles(outputDir, attempted)
      invariant slot.err == RecordAll(err0, attempted, fails)
      decreases |pages.Contents|
    {
      var page, ok := pages.Receive();
      if !ok {
        assert attempted == queued;
        break;
      }
      TakeNext(queued, attempted, page);
      var outputFile := ProcessPage(slot, outputDir, page, fails);
      DrainStep(err0, attempted, page, outputDir, fails);
      attempted, targets := attempted + [page], targets + [outputFile];
    }
  }

  /**
   * Launch `workerCount` workers on a closed channel and wait for them all.
   * They run one after another: the first takes every queued page, the others
   * find the channel empty.
   */
  method LaunchWorkers(pages: PageChannel, slot: ErrorSlot, outputDir: string, workerCount: int, fails: int -> bool)
    returns (attempted: seq<int>, targets: seq<string>)
    requires pages.Valid() && pages.closed
    modifies pages, slot
    ensures pages.Valid() && pages.closed
    ensures pages.Contents == if workerCount >= 1 then [] else old(pages.Contents)
    ensures attempted == if workerCount >= 1 then old(pages.Contents) else []
    ensures targets == PageFiles(outputDir, attempted)
    ensures slot.err == RecordAll(old(slot.err), attempted, fails)
  {
    ghost var queued, err0 := pages.Contents, slot.err;
    attempted, targets := [], [];
    var w := 0;
    while w < workerCount
      invariant w == 0 || w <= workerCount
      invariant pages.Valid() && pages.closed
      invariant w == 0 ==> pages.Contents == queued && attempted == [] && targets == [] && slot.err == err0
      invariant w > 0 ==> pages.Contents == [] && attempted == queued
      invariant w > 0 ==> targets == PageFiles(outputDir, attempted)
      invariant w > 0 ==> slot.err == RecordAll(err0, attempted, fails)
    {
      var mine, mineTargets := Worker(pages, slot, outputDir, fails);
      assert attempted + mine == if w == 0 then mine else attempted;
      assert targets + mineTargets == if w == 0 then mineTargets else targets;
      attempted, targets := attempted + mine, targets + mineTargets;
      w := w + 1;
    }
  }

  /**
   * The fan-out of ExtractPages once the page count is known: a channel of
   * capacity totalPages is filled with 1..totalPages and closed, and the
   * launched workers drain it. The workers run one after another: the first
   * takes every page, the others find the channel closed and empty.
   * `attempted` lists the pages pdftotext was run on, in order, and
   * `targets` the file it was asked to write for each. With no
   * worker launched (a process count below 1 in an Extractor not built by
   * NewExtractor), nothing is drained and nil returned.
   */
  method RunWorkers(e: Extractor, totalPages: int, fails: int -> bool)
    returns (firstErr: Option<int>, attempted: seq<int>, targets: seq<string>)
    requires totalPages >= 0
    ensures attempted == if WorkerCount(e.processCount, totalPages) >= 1 then PageRange(totalPages) else []
    ensures targets == PageFiles(e.outputDir, attempted)
    ensures forall i, j :: 0 <= i < j < |targets| ==> targets[i] != targets[j]
    ensures firstErr == FirstFailure(attempted, fails)
    ensures firstErr.None? <==> forall i :: 0 <= i < |attempted| ==> !fails(attempted[i])
    ensures firstErr.Some? ==> firstErr.value in attempted && fails(firstErr.value)
  {
    var pages := new PageChannel(totalPages);
    var slot := new ErrorSlot();
    var workerCount := WorkerCount(e.processCount, totalPages);
    Produce(pages, totalPages);

    attempted, targets := LaunchWorkers(pages, slot, e.outputDir, workerCount, fails);
    if attempted != [] {
      PageFilesDistinct(e.outputDir, totalPages);
    }
    firstErr := slot.err;
    FirstFailureNoneIff(attempted, fails);
    if firstErr.Some? {
      FirstFailureGenuine(attempted, fails);
    }
  }

  /**
   * Extractor.ExtractPages: read the page count from pdfinfo's output, then run
   * the fan-out. A count error is returned before any page is attempted; a
   * negative count makes `make(chan int, n)` panic; otherwise the result is the
   * first recorded page failure, or Ok when no attempted page failed.
   */
  method ExtractPages(e: Extractor, pdfinfo: Option<string>, fails: int -> bool)
    returns (outcome: Outcome, attempted: seq<int>, targets: seq<string>)
    ensures var count := GetTotalPages(pdfinfo);
      count.Failure? ==> outcome == Err(count.error) && attempted == [] && targets == []
    ensures var count := GetTotalPages(pdfinfo);
      count.Success? && count.value < 0 ==> outcome == Panic && attempted == [] && targets == []
    ensures targets == PageFiles(e.outputDir, attempted)
    ensures var count := GetTotalPages(pdfinfo);
      count.Success? && count.value >= 0 ==>
        && attempted == (if WorkerCount(e.processCount, count.value) >= 1 then PageRange(count.value) else [])
        && (outcome == Ok <==> forall i :: 0 <= i < |attempted| ==> !fails(attempted[i]))
        && (outcome != Ok ==> outcome.Err? && outcome.error.PageFailed?
                              && outcome.error.page in attempted && fails(outcome.error.page))
  {
    var count := GetTotalPages(pdfinfo);
    if count.Failure? {
      return Err(count.error), [], [];
    }
    var totalPages := count.value;
    if totalPages < 0 {
      return Panic, [], [];
    }
    var firstErr;
    firstErr, attempted, targets := RunWorkers(e, totalPages, fails);
    outcome := if firstErr.None? then Ok else Err(PageFailed(firstErr.value));
  }
}
