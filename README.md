# gotee: a verified model of the replication core

gotee is a `tee` clone written in Go. It reads standard input in chunks and
copies each chunk to every destination file given on the command line, and,
unless `-S` is given, to standard output as well. The repository holds two
drafts of the program, gotee.go and tee.go. Each declares its own `main`,
`fileWriter` and `container`, so the model gives each one its own module.

The model has four modules:

- `Io` (io.dfy) models what both drafts take from Go's `os`, `bufio` and `io`
  packages.
  - The file system is a map from path to bytes.
  - `os.Stat`, `os.Create` and `os.OpenFile` are functions over that map, and
    whether each call fails is an input.
  - A `bufio.Writer` is a `BufState`: the bytes the file holds, the bytes still
    buffered, and the writer's sticky error. Once a Flush fails, every later
    Write and Flush of that writer returns the error and does nothing.
  - A read of standard input is one `(chunk, err)` pair from a finite script.
    When the script is used up, every further read returns no bytes and
    `io.EOF`.
- `Destinations` (destinations.dfy) holds what the two drafts share:
  - the opening rule of `newFileWriter`, and the method that takes its steps
    (mode, Stat, Create, OpenFile);
  - the construction loop of `main`, which skips paths containing `*` and
    paths that fail to open.
- `GoTee` (gotee.dfy) models gotee.go:
  - `fileWriter`, a class whose fields are its buffered file, its one-way
    `active` flag and whether its file is closed;
  - `container`, a class whose field is the `fileWriters` slice;
  - the per-chunk fan-out of `main`, the line-mode record write, the block
    read loop, and the shutdown that closes every writer.
- `Tee` (tee.dfy) models tee.go:
  - writers whose errors are only printed, never returned;
  - the container of `savers`;
  - the read loop, which writes a chunk that arrives with `io.EOF` before it
    stops;
  - the uncoloured path of `colour`.

Failures are total functions given as inputs:

- `faults(i)` says which system calls fail when argument i is opened.
- `fails(k, i)` says whether writer i's flush of chunk k fails.
- `stop(k)` (gotee.go only) is the interrupt flag as the block loop sees it
  before read k.

Every stateful operation is a method over objects of the classes above. Its
contract ties the new state to a function of the old state:

- one chunk: `Deliver` and `FanOut` in gotee.go, `WriteThrough` and `WriteEach`
  in tee.go;
- the whole stream: `RunAll` and `WriteRun`;
- the chunks the read loop forwards: `Forwarded`.

The lemmas then prove what the program promises about those functions:

- no loss and no reordering for a healthy writer;
- the prefix held by a failing writer;
- failure isolation between writers;
- monotone deactivation;
- the stop rules of both read loops;
- the opening rule;
- argument order of the writers, and that globbing paths are never opened;
- exit status 1 for an empty writer set.

## Model

| member | source | states |
|---|---|---|
| Io.WriteThrough | gotee.go:121-131 | `write` (Write, then Flush) succeeds exactly when the writer has no sticky error and the file accepts the bytes, or there is nothing to send. On success the file grows by exactly the chunk and nothing stays buffered. On failure the file is unchanged and the writer keeps the error. |
| Io.FirstFailure | tee.go:71-78 | The index of the first chunk whose flush fails: no earlier chunk fails, and the chunk there is non-empty and fails. |
| Io.WriteAllPrefix | tee.go:71-78 | A writer given every chunk in turn holds its start content followed by exactly the chunks before its first failed flush. It is in error exactly when some flush failed, and it never keeps bytes buffered without an error. |
| Destinations.OpenRule | gotee.go:84-114 | A writer is made exactly when the open succeeds. It starts from the old content when the path exists and append is on, and from nothing otherwise. The file is truncated or created unless it is appended to, and a failed Create leaves the store unchanged. |
| Destinations.OpenDestination | gotee.go:84-115 | The steps of `newFileWriter` agree with the opening rule. The handle is positioned at the end of what the file holds, so later writes go after it. |
| Destinations.Build | gotee.go:305-314 | The shared construction loop of both drafts, as a function of the first n arguments. It adds at most one writer per argument, and no file that existed disappears. |
| Destinations.BuildOrder | gotee.go:305-314 | Writers come in argument order, at most one per argument. An argument gets a writer exactly when it has no `*` and opening it succeeds in the store the earlier arguments left; a failed open gives no writer. In particular a path whose system calls all succeed always gets one. |
| Destinations.GlobPathsUntouched | tee.go:203-206 | Whatever the other arguments are, a path containing `*` is never created, truncated or changed by the construction loop. |
| Destinations.AllGlobsOpenNothing | gotee.go:305-309 | When every argument contains `*`, no writer is made and no file is touched. |
| Destinations.BuildStarts | tee.go:203-214 | Each writer starts from the content its file held before the run when append is on and the file existed, and from nothing otherwise, even when a path is named twice. No other file gains content. |
| GoTee.FileWriter.constructor | gotee.go:108-115 | A new writer is active, open, and has a clean buffer over the file's content. |
| GoTee.FileWriter.Write | gotee.go:121-131 | The result and the new buffer are those of `WriteThrough`. A successful write adds exactly the chunk to the file, and the writer stays balanced (no bytes buffered without an error). |
| GoTee.FileWriter.Flush | gotee.go:343 | The extra Flush after `write` does nothing to a balanced writer: its buffer is empty, or its sticky error is set and it refuses. |
| GoTee.FileWriter.Close | gotee.go:134-139 | `close` flushes, then marks the file closed. Since every write already flushed, the buffer and the stored bytes are unchanged. |
| GoTee.NewFileWriter | gotee.go:81-118 | Returns an active fresh writer over the content given by the opening rule, or no writer exactly when the rule says the open fails. The store changes as the rule says. |
| GoTee.Container.constructor | gotee.go:147-152 | A new container holds no writers. |
| GoTee.Container.AddFileWriter | gotee.go:155-164 | A writer that opens is appended at the end of the slice as a fresh writer. A failed open returns no writer and leaves the slice unchanged. |
| GoTee.CloseAll | gotee.go:175-179 | Closing all writers keeps every writer, marks each one closed, and changes neither its bytes nor its `active` flag. |
| GoTee.Container.Close | gotee.go:175-179 | Every writer in the slice is closed, active or not, and nothing else about any writer changes. |
| GoTee.Deliver | gotee.go:340-347 | One writer's part of the fan-out, on states. An inactive writer is unchanged. A writer still active afterwards was active and holds its old bytes plus the chunk, with nothing buffered. A writer switched off keeps its bytes and carries the error. Closing is never touched. |
| GoTee.FanOut | gotee.go:339-347 | The fan-out of one chunk, on states. No writer is dropped, inactive writers are unchanged, and every writer still active holds its old bytes plus the chunk. |
| GoTee.Offer | gotee.go:340-347 | One writer's turn in the fan-out. An inactive writer is untouched. An active writer is written and flushed, and stays active exactly when its write succeeded. |
| GoTee.SendToWriters | gotee.go:339-348 | After the fan-out of one chunk, each writer, in slice order, is in the state `Deliver` gives it. A failing writer does not stop the others, and the slice itself is unchanged. |
| GoTee.WriteRecord | gotee.go:285-300 | In line mode each active writer is given the record followed by exactly one newline. A healthy active writer's file grows by exactly that. |
| GoTee.ActiveMirrorsError | gotee.go:341-346 | Across the stream a writer's `active` flag is the negation of its buffered writer's sticky error. Its bytes are those of a plain buffered writer given every chunk. |
| GoTee.WriterHoldsPrefix | gotee.go:339-348 | A new writer ends holding its start content followed by every chunk up to its first failed write. It is still active exactly when no write failed. |
| GoTee.HealthyWriterGetsEveryChunk | gotee.go:339-348 | A writer that never fails ends active, holding its start content followed by every chunk in read order, with an empty buffer. |
| GoTee.NeverReactivated | gotee.go:341-346 | Once a writer is inactive it is never written or changed again by later chunks. |
| GoTee.FailureIsolation | gotee.go:339-348 | What becomes of writer i depends only on writer i's own failures, whatever the other writers' failures are. |
| GoTee.HealthyWriterMirrorsStdout | gotee.go:339-360 | After the run and the shutdown, a writer that never failed is active and closed, and holds its start content followed by exactly the chunks standard output was given. |
| GoTee.EndsBlockLoop | gotee.go:323-337 | The loop ends at read k when `stop` is set, and once the input is used up. A read without an error never ends the loop, even one of no bytes. |
| GoTee.Forwarded | gotee.go:323-337 | The chunks the block loop sends on from read k, which come from reads within the input. |
| GoTee.ForwardedStopRule | gotee.go:323-337 | Every chunk sent on is `buf[0:n]` of its read, in read order. No read before the last one ends the loop. The read after the last one does: `stop` is set, a non-EOF error, or no bytes with `io.EOF`. |
| GoTee.ForwardedAt | gotee.go:323-337 | After k chunks have been sent on, read k ends the loop exactly when all chunks have been sent. Otherwise read k is the next chunk. |
| GoTee.BuildWriters | gotee.go:305-314 | The construction loop makes fresh writers, exactly those of the shared construction rule, in argument order, over the start contents it gives. |
| GoTee.SendChunk | gotee.go:339-348 | One iteration's fan-out moves every writer from its state after the chunks so far to its state after one chunk more, and keeps the slice. |
| GoTee.BlockLoop | gotee.go:320-355 | After the block loop, `count` is the number of chunks forwarded. Standard output received exactly their concatenation when `stdoutFlag` is set, and nothing otherwise. Every writer is in the state the whole stream gives it. |
| GoTee.Replicate | gotee.go:320-360 | As for the loop, and afterwards every writer is closed. |
| GoTee.Run | gotee.go:245-360 | No arguments gives status 0 (printHelp) with no writers. An empty writer set gives status 1 before any read, with nothing written. Otherwise the status is 0, standard output is every chunk (or nothing under `-S`), and every writer is closed in its stream state. |
| Tee.FileWriter.constructor | tee.go:59-67 | A new saver has a clean buffer over its file's content. |
| Tee.FileWriter.Write | tee.go:71-78 | Write, then Flush, with errors only printed. A saver without an error that is not refused gains exactly the chunk, and a saver in error is left exactly as it was. |
| Tee.FileWriter.Close | tee.go:81-85 | `close` only flushes, and since every write already flushed, the saver is unchanged. The file is never closed. |
| Tee.NewFileWriter | tee.go:32-68 | Returns a fresh saver over the content given by the opening rule, or no saver exactly when the rule says the open fails. |
| Tee.Container.constructor | tee.go:93-98 | A new container holds no savers. |
| Tee.Container.AddFileWriter | tee.go:101-103 | The saver is appended at the end of the slice, and no other saver changes. |
| Tee.WriteEach | tee.go:106-110 | One chunk given to every saver, on states. No saver is dropped. Each one either holds its old bytes plus the chunk with nothing buffered, or keeps its old bytes and carries the error. |
| Tee.Container.Write | tee.go:106-110 | Every saver, in slice order, is given the chunk, and none is dropped whatever its errors. |
| Tee.Container.Close | tee.go:113-117 | Every saver is flushed, and none changes. |
| Tee.WriterHoldsPrefix | tee.go:231-235 | No saver is ever dropped. Each saver ends holding its start content followed by the chunks before its first failed flush. A saver that never fails holds every chunk, which is exactly what standard output was given. |
| Tee.StopsBeforeWrite | tee.go:223-230 | Once the input is used up the loop stops before writing. A read of some bytes with `io.EOF` does not stop it before writing. |
| Tee.Forwarded | tee.go:222-241 | The chunks the read loop copies from read k, which come from reads within the input. |
| Tee.ForwardedStopRule | tee.go:222-241 | The loop stops without writing on a non-EOF error or on a read of no bytes. A read of some bytes with `io.EOF` is still copied, and then the loop stops. Every chunk copied is `buf[0:n]` of its read, in read order, and every chunk but the last came without an error. |
| Tee.ForwardedAt | tee.go:222-241 | After k chunks have been copied, the last one without an error, read k stops the loop before writing exactly when all chunks have been copied. Otherwise read k is the next chunk, and it is the last one if it came with `io.EOF`. |
| Tee.BuildSavers | tee.go:201-214 | Paths with a `*` and paths that fail to open are skipped. The rest become fresh savers in argument order, over the start contents of the shared construction rule. |
| Tee.WriteChunk | tee.go:232-235 | One iteration's writes move every saver from its state after the chunks so far to its state after one chunk more, and keep the slice. |
| Tee.ReadLoop | tee.go:220-241 | `count` is the number of chunks copied, and standard output received exactly their concatenation. Every saver is in the state the whole stream gives it. |
| Tee.Replicate | tee.go:220-245 | As for the loop, followed by the final flush of every saver, which changes nothing. |
| Tee.Run | tee.go:183-245 | No arguments gives status 0 (printHelp). An empty saver set gives status 1 before any read. Otherwise the status is 0, standard output is every chunk copied, and every saver is in its stream state. |
| Tee.Join | tee.go:121 | `strings.Join(input, " ")`: the result starts with the first part, and its length is the parts' lengths plus one separator between each two. |
| Tee.ReplaceDoubleSpaces | tee.go:122 | `strings.Replace(s, "  ", " ", -1)` never lengthens the string, and changes it exactly when it holds two spaces in a row. |
| Tee.IndexOfDoubleSpace | tee.go:122 | `strings.Index(s, "  ")` is the first position of two spaces, or -1 exactly when there are none. |
| Tee.Colour | tee.go:119-141 | The result is left to gchalk exactly when colour is on and the code is one of the four colours. |
| Tee.ReplaceIsLeftToRightScan | tee.go:122 | Go's Index-driven `strings.Replace(s, "  ", " ", -1)` equals a left-to-right scan that collapses each non-overlapping pair of spaces into one. |
| Tee.ReplaceDropsOnlySpaces | tee.go:122 | The replacement drops only spaces: every other character survives, in order. The result is at least half and at most all of the input's length. |
| Tee.UncolouredText | tee.go:119-126 | Without styling, `colour` returns the inputs joined by one space, with each double space collapsed in one left-to-right pass. |

## Left out

- Interrupt handling: the goroutines at gotee.go:55-71 and tee.go:170-178 race with the main loop, so they are concurrency and process control. In gotee.go the handler's effect on the loop is modelled as the `stop(k)` input. Its own flush, close and `os.Exit(0)` are not modelled.
- Flag parsing, the `-h` flag, the text printed by `printHelp`, and `os.Exit`: these are command-line plumbing. Only the exit status is modelled.
- The character-device test of standard input (gotee.go:257-258, tee.go:193-199): `Run` models the piped-input path only. In gotee.go the test is inverted, so piped input skips the line-mode branch. In tee.go a terminal gives "No input" and status 0.
- The line-mode loop (gotee.go:273-301): it never stops at `io.EOF`, so only its record write is modelled (`WriteRecord`). Its `isPrefix` message is a diagnostic. After a read error it falls through to the construction at line 305, which would add a second writer for each path; that is not modelled either.
- gchalk styling (gotee.go:190-201, tee.go:129-140): it is a foreign library, so `Colour` returns `None` for the coloured case. gotee.go's copy of `colour` (gotee.go:181-202) is the same text as tee.go's and is not modelled a second time.
- Diagnostics on standard error, and the `"got"` debug print of gotee.go's `container.write` (gotee.go:167-172): these are output side effects only. `main` never calls that `container.write`, so it is not modelled.
- Writes to standard output never fail in the model, and `readWriter.Flush` is the identity on what was written. Standard output is modelled as the bytes given to it.
- The operating system may accept only part of a write. The model treats each flush as whole, either accepted or refused.
- Two arguments naming the same path share one file in the operating system. In the model each writer keeps its own copy of the content, so writes through one writer are not seen through the other. `BuildStarts` covers the start contents of a repeated path.
- `os.Stat` errors other than "no such file" count as absence of the file, as the code then calls `os.Create`.
- The file handle that `os.Create` returns and the code drops is not modelled; only the handle from `os.OpenFile` is written to.
- The 2048-byte buffer: a chunk is any sequence the read returns, and the model does not require chunks to be at most 2048 bytes.
- Exit status after a read error: the loop breaks and `main` returns normally, so the status is 0, as `Run` says. Without `-i`, SIGINT kills the process by the signal, which is outside the model. With `-i`, gotee.go's handler ends with `os.Exit(0)` (gotee.go:68), and tee.go's handler only prints (tee.go:173-175).
- Tee.Container.AddFileWriter: requires that the saver is not already in the slice, which the source does not demand. `main` only ever adds fresh savers.
- tee_test.go: it calls `newSaver`, which neither draft defines, and asserts nothing beyond opening without error.
