# pdfripper extractor, modelled in Dafny

pdfripper splits a PDF into one text file per page. It asks `pdfinfo` for the
page count, then hands the page numbers 1..N to a bounded pool of workers
through a buffered channel. Each worker runs `pdftotext -f k -l k` to write
`page_k.txt` into the output directory. The run returns the first error a
worker records, or nil.

The model covers `pdfripper/extractor.go`:

- **`NewExtractor`** applies the defaults: the output directory is named after
  the PDF without its final extension, and the worker count defaults to the
  CPU count.
- **`getTotalPages`** is the page-count parser: split on newlines, find the
  first `Pages:` line with at least two fields, and read the second field
  with `strconv.Atoi`.
- **`ExtractPages`** does the fan-out:
  - the channel of capacity N is filled with 1..N and closed;
  - `min(ProcessCount, N)` workers drain it;
  - a mutex-guarded, set-once record keeps the first failure.

The Go library functions it relies on are modelled on their own. Each
function, together with its lemmas, pins down the result in the cases the
extractor uses:

- `strings.Split`, `strings.Join`, `strings.Fields` and `unicode.IsSpace`
  (`GoStrings`);
- `strconv.Atoi` and `strconv.Itoa` on a 64-bit `int` (`GoStrconv`);
- `filepath.Base`, `filepath.Ext` and `filepath.Join` with '/' as the
  separator (`GoFilepath`);
- the buffered channel, modelled as a class over a ring buffer (`Channels`).

The external world becomes parameters:

- `pdfinfo` is its captured output, or `None` when running it failed.
- `fails(k)` says whether `pdftotext` failed on page k.
- `mkdirAll(dir)` says whether `os.MkdirAll` succeeds.
- `numCPU` is `runtime.NumCPU()`.

The workers of `ExtractPages` are `Worker` calls made one after another over
the shared channel and the shared `ErrorSlot`, which stands for `firstErr`
and its mutex. The first call drains every page; the later ones find the
channel closed and empty.

## Model

| member | source | states |
|---|---|---|
| Pdfripper.DefaultOutputDir | pdfripper/extractor.go:30-34 | the default directory followed by `Ext(Base(pdf))` is exactly `Base(pdf)`; a base name without '.' is kept whole |
| Pdfripper.DefaultOutputDirDropsLastExtension | pdfripper/extractor.go:30-34 | when the base name is `stem.x` (x holds no '.' and no '/'), the default directory is `stem`, so only the final extension is dropped |
| Pdfripper.NewExtractor | pdfripper/extractor.go:25-49 | an empty PDF path is rejected first; the directory is the given one or the default; success holds iff MkdirAll succeeds on that directory, and a MkdirAll failure is reported for that directory; the process count is the given one when at least 1 and the CPU count otherwise, so it is always at least 1 |
| Pdfripper.PagesCount | pdfripper/extractor.go:62-68 | on a deciding line, the count is Atoi of the second field; when Atoi rejects that field, the error is a parse error that carries the field |
| Pdfripper.ScanPages | pdfripper/extractor.go:60-72 | the line scan fails only with "no pages line" or with a parse error of a count field |
| Pdfripper.GetTotalPages | pdfripper/extractor.go:52-72 | a pdfinfo failure is reported as such; otherwise, over the newline-split output, "could not determine number of pages" is returned iff no line starts with "Pages:" and has two or more fields, and when such a line exists, the first one alone gives the result (Atoi of its second field, or that field's parse error) |
| Pdfripper.ScanPagesFirstDeciding | pdfripper/extractor.go:60-69 | the first line that starts with "Pages:" and has two or more fields decides the result alone, whatever lines follow it |
| Pdfripper.ScanPagesDecided | pdfripper/extractor.go:60-69 | for every line that is the first deciding one, the scan's result is that line's count or parse error |
| Pdfripper.ScanPagesNoLine | pdfripper/extractor.go:60-72 | "could not determine number of pages" is returned iff no line is a deciding line |
| Pdfripper.GetTotalPagesOfLines | pdfripper/extractor.go:59-72 | for output made of newline-free lines joined by newlines, getTotalPages scans exactly those lines |
| Pdfripper.GetTotalPagesFirstDeciding | pdfripper/extractor.go:59-69 | on such output, the count is the one the first deciding line gives |
| Pdfripper.PagesLineFields | pdfripper/extractor.go:61-63 | "Pages:", white space, a value, then nothing or white space and more: the line decides, its fields are "Pages:", the value, then the fields of the rest |
| Pdfripper.PagesLineCount | pdfripper/extractor.go:61-68 | the line "Pages: n" (optionally followed by white space and more) decides and yields n, for every n in the 64-bit range |
| Pdfripper.FortyTwoPages | pdfripper/extractor.go:61-68 | "Pages: 42" decides and yields 42 |
| Pdfripper.NonNumericField | pdfripper/extractor.go:62-66 | "Pages: abc" decides, its second field is "abc", and Atoi rejects that field, so a parse error results |
| Pdfripper.WorkerCount | pdfripper/extractor.go:89-92 | the number of workers is the minimum of the process count and the page count |
| Pdfripper.PageFile | pdfripper/extractor.go:100 | the file for page k is exactly `page_<k>.txt` when the output directory is empty, and otherwise the directory, one separator, then `page_<k>.txt` |
| Pdfripper.PageFileBase | pdfripper/extractor.go:100 | the base name of page k's file is `page_<k>.txt`: the file sits directly in the output directory |
| Pdfripper.PageFileInjective | pdfripper/extractor.go:100 | two pages never share an output file |
| Pdfripper.PageFilesAt | pdfripper/extractor.go:99-100 | the i-th file named by a worker loop is the file of the i-th page it received |
| Pdfripper.PageFilesDistinct | pdfripper/extractor.go:100 | the files named for pages 1..N are pairwise distinct, so no page's output overwrites another's |
| Pdfripper.PageRange | pdfripper/extractor.go:118-120 | the producer's sequence has N entries and its i-th entry is page i+1 |
| Pdfripper.PageRangeExactlyOnce | pdfripper/extractor.go:118-120 | the producer sends every page 1..N exactly once and nothing else |
| Pdfripper.Record | pdfripper/extractor.go:105-109 | a recorded error is never replaced; with none recorded, a page's failure is recorded as that page and a success records nothing |
| Pdfripper.FirstFailureNoneIff | pdfripper/extractor.go:104-110 | no error is recorded iff no processed page failed |
| Pdfripper.FirstFailureGenuine | pdfripper/extractor.go:104-110 | a recorded error names a page that was processed and genuinely failed |
| Pdfripper.FirstFailureSetOnce | pdfripper/extractor.go:106-108 | once an error is recorded, no later page changes it |
| Pdfripper.ErrorSlot.constructor | pdfripper/extractor.go:86-87 | no error is recorded at the start |
| Pdfripper.ErrorSlot.ReportFailure | pdfripper/extractor.go:105-109 | under the lock, a failure is stored only when no error is stored yet |
| Pdfripper.Produce | pdfripper/extractor.go:117-121 | the channel ends up closed and holding exactly 1..N in ascending order |
| Pdfripper.ProcessPage | pdfripper/extractor.go:100-111 | one loop iteration names the page's file `PageFile(dir, k)` and records a pdftotext failure only when no error is recorded yet |
| Pdfripper.Worker | pdfripper/extractor.go:97-114 | a worker takes every queued page in order until the channel is closed and empty, keeps going after failures, names `PageFile(dir, k)` for each page k it takes, and leaves the error slot as recording each of its failures in turn |
| Pdfripper.LaunchWorkers | pdfripper/extractor.go:94-115 | with at least one worker launched, every queued page is attempted once, in order, each with its page file, and the channel is left closed and empty; with none, nothing is attempted, and the channel and the error slot are untouched |
| Pdfripper.RunWorkers | pdfripper/extractor.go:84-124 | with at least one worker, pages 1..N are each attempted once, in order, page k writing `PageFile(dir, k)`, and no two pages write the same file; with none, nothing is attempted; the error returned is the one the sequential schedule records, `FirstFailure` of the pages in channel order, which is the lowest failing page; so it is nil iff no attempted page failed, and otherwise names an attempted page that failed |
| Pdfripper.ExtractPages | pdfripper/extractor.go:76-124 | a page-count error is returned before any page is attempted; a negative count panics in `make`; otherwise pages and files are as for RunWorkers, the result is Ok iff no attempted page failed, and otherwise a page error naming an attempted page that failed; it does not say which failing page |
| GoStrings.Fields | pdfripper/extractor.go:62 | every field is non-empty and free of white space |
| GoStrings.FieldsOfWord | pdfripper/extractor.go:62 | a word alone is one field |
| GoStrings.FieldsOfSpace | pdfripper/extractor.go:62 | white space alone holds no field |
| GoStrings.FieldsOfWordThen | pdfripper/extractor.go:62 | a leading word followed by white space or nothing is the first field, and the rest are the fields after it |
| GoStrings.FieldsSplitAtSpace | pdfripper/extractor.go:62 | splitting at any white-space character splits the fields in the same place |
| GoStrings.SplitLines | pdfripper/extractor.go:59 | there is always at least one piece, and no piece holds a newline |
| GoStrings.JoinSplitLines | pdfripper/extractor.go:59 | joining the pieces with newlines gives back the text |
| GoStrings.SplitJoinLines | pdfripper/extractor.go:59 | splitting newline-free lines joined with newlines gives back the lines |
| GoStrconv.Atoi | pdfripper/extractor.go:64 | a value results iff the text is an optional sign followed by decimal digits whose value fits a 64-bit int; that value is the result, and a negative result was written with '-' |
| GoStrconv.Itoa | pdfripper/extractor.go:100 | the text starts with '-' exactly for a negative number; the digits after it are non-empty, have no leading zero unless the number is 0, and denote the number's magnitude |
| GoStrconv.AtoiItoa | pdfripper/extractor.go:64 | Atoi reads back what Itoa writes, for every 64-bit int |
| GoStrconv.ItoaInjective | pdfripper/extractor.go:100 | distinct numbers print as distinct decimals |
| GoStrconv.DecimalDigitsValue | pdfripper/extractor.go:100 | the printed digits denote the number printed |
| GoFilepath.Base | pdfripper/extractor.go:31 | the base of "" is "."; a path made only of separators has base "/"; otherwise the base is the last element once trailing separators are dropped, so it is non-empty and holds no separator, and a path without a separator is its own base |
| GoFilepath.Ext | pdfripper/extractor.go:32-33 | the extension is a suffix of the path; when non-empty, it starts with '.' and holds no other '.' and no separator; it is empty only when the last element has no '.' |
| GoFilepath.NoDotNoExt | pdfripper/extractor.go:32 | a path without '.' has no extension |
| GoFilepath.ExtOf | pdfripper/extractor.go:32 | the extension of `stem.x`, where x holds no '.' and no separator, is `.x` |
| GoFilepath.Join | pdfripper/extractor.go:100 | joining onto an empty directory gives the name itself; otherwise the result is the directory, one separator, then the name, and nothing else |
| GoFilepath.LastElementAfterSeparator | pdfripper/extractor.go:100 | after a separator, a separator-free name is the last element of the path |
| GoFilepath.BaseOfJoin | pdfripper/extractor.go:100 | Base takes back out the non-empty, separator-free name that Join put into a directory |
| Channels.PageChannel.constructor | pdfripper/extractor.go:84 | `make(chan int, n)`: an open, empty channel with capacity n |
| Channels.PageChannel.Send | pdfripper/extractor.go:119 | the value joins the back of the queue; the channel stays open |
| Channels.PageChannel.Close | pdfripper/extractor.go:121 | the channel becomes closed and the queued values stay |
| Channels.PageChannel.Receive | pdfripper/extractor.go:99 | takes the oldest queued value; on a closed, empty channel, returns the zero value with ok false and changes nothing |

## Left out

- Running `pdfinfo` and `pdftotext`, and their arguments, are replaced by the `pdfinfo` output parameter and the `fails` oracle. The error texts are reduced to the `ExtractError` constructors.
- `os.MkdirAll` is the `mkdirAll` oracle, and `runtime.NumCPU()` is the `numCPU` parameter, taken to be at least 1.
- The `fmt.Printf` progress lines ("Total pages", "Saved page") are not modelled.
- Goroutines, `sync.WaitGroup` and the mutex are not modelled as concurrency. Workers run one after another and never interleave, so the model does not capture which worker takes which page, the order in which pages finish, or which failure is recorded first under a real schedule.
- RunWorkers: its contract states what the sequential schedule records: the first failure in channel order, which is the lowest failing page. Go does not guarantee this. With two or more goroutines, a later page's failure can be recorded first. Only the weaker promise that ExtractPages makes holds for Go under every schedule: the error is nil iff no attempted page failed, and otherwise names an attempted page that failed.
- Blocking is not modelled. `Send` requires room in the buffer and `Receive` requires a value or a closed channel; the producer never blocks, because the capacity equals the page count.
- `make(chan int, n)` with a huge n can fail allocation; this is not modelled. A negative n is modelled as `Panic`.
- An Extractor built without NewExtractor can have a process count below 1. Then no worker starts, the buffered pages are never read, and nil is returned. This is modelled as written.
- GoFilepath.Join: `filepath.Clean` of the joined path (removing `.`, `..` and doubled separators) is not modelled.
- Go strings are byte sequences, while the model's strings are sequences of Unicode scalar values. pdfinfo output that is not valid UTF-8 cannot be expressed, and `unicode.IsSpace` and `strings.Fields` are modelled on whole characters rather than on decoded runes.
- Windows volume names and '\\' separators in `filepath` are not modelled.
- GoStrconv.Atoi: the syntax and range error kinds are merged into one `None`. The extractor wraps either kind the same way.
- `cmd/main.go` (flag parsing and the command-line entry point) is not part of this model.
