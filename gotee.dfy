/** gotee.go: file writers with a one-way `active` flag, the container that
    holds them, the fan-out of each chunk in `main`, the line-mode record write,
    and `main`'s construction, block read loop and shutdown. */
module GoTee {
  import opened Io
  import opened Destinations

  // ---------------------------------------------------------------------------
  // Writers

  /** The observable part of a fileWriter: its buffered file, its `active` flag,
      and whether its file has been closed. */
  datatype SinkState = SinkState(buf: BufState, active: bool, closed: bool)

  /** A writer as `newFileWriter` returns it, over a file kept at `start`. */
  function FreshSink(start: Bytes): SinkState
  {
    SinkState(FreshBuf(start), true, false)
  }

  class FileWriter {
    var buf: BufState
    var active: bool
    var closed: bool

    function State(): SinkState
      reads this
    {
      SinkState(buf, active, closed)
    }

    ghost predicate Valid()
      reads this
    {
      buf.Settled()
    }

    /** The fields `newFileWriter` sets once its file is open; the handle must be
        positioned at the end of its content. */
    constructor (h: Handle)
      requires h.offset == |h.content|
      ensures Valid() && State() == FreshSink(h.content)
    {
      buf := FreshBuf(h.content);
      active := true;
      closed := false;
    }

    /** `write`: Write to the buffer, returning its error at once, then Flush. */
    method Write(bytes: Bytes, fails: bool) returns (ok: bool)
      requires Valid()
      modifies this`buf
      ensures Valid()
      ensures (buf, ok) == WriteThrough(old(buf), bytes, fails)
      ensures ok ==> buf.stored == old(buf.stored) + bytes
    {
      var w := BufWrite(buf, bytes);
      buf := w.0;
      if !w.1 {
        return false;
      }
      var f := BufFlush(buf, fails);
      buf := f.0;
      ok := f.1;
    }

    /** `writer.Flush()`, as `main` calls it right after each `write`. */
    method Flush(fails: bool) returns (ok: bool)
      modifies this`buf
      ensures (buf, ok) == BufFlush(old(buf), fails)
      ensures old(buf).Settled() ==> buf == old(buf)
    {
      var f := BufFlush(buf, fails);
      buf := f.0;
      ok := f.1;
    }

    /** `close`: Flush, reporting but ignoring its error, then close the file.
        Since every `write` flushes, the final Flush has nothing to send. */
    method Close(fails: bool)
      requires Valid()
      modifies this`buf, this`closed
      ensures Valid() && buf == old(buf) && closed
    {
      var ok := Flush(fails);
      closed := true;
    }
  }

  /** `newFileWriter`: opens the destination by the opening rule and returns an
      active writer positioned after the content the file keeps, or no writer. */
  method NewFileWriter(store: Store, path: Path, append: bool, faults: OpenFaults)
    returns (w: FileWriter?, store': Store)
    ensures var o := OpenRule(store, path, append, faults);
            store' == o.store && (w == null <==> o.start.None?) &&
            (w != null ==> fresh(w) && w.Valid() && w.State() == FreshSink(o.start.value))
  {
    var h;
    h, store' := OpenDestination(store, path, append, faults);
    if h.None? {
      return null, store';
    }
    w := new FileWriter(h.value);
  }

  // ---------------------------------------------------------------------------
  // The container

  ghost function StatesOf(ws: seq<FileWriter>): seq<SinkState>
    reads ws
  {
    seq(|ws|, i requires 0 <= i < |ws| reads ws => ws[i].State())
  }

  /** Every writer closed, nothing else changed. */
  function CloseAll(ss: seq<SinkState>): (r: seq<SinkState>)
    ensures |r| == |ss|
    ensures forall i :: 0 <= i < |ss| ==> r[i].closed && r[i].buf == ss[i].buf && r[i].active == ss[i].active
  {
    seq(|ss|, i requires 0 <= i < |ss| => ss[i].(closed := true))
  }

  class Container {
    var fileWriters: seq<FileWriter>

    /** The writers are distinct objects, each between two writes. */
    ghost predicate Valid()
      reads this, fileWriters
    {
      (forall i, j :: 0 <= i < j < |fileWriters| ==> fileWriters[i] != fileWriters[j]) &&
      (forall i :: 0 <= i < |fileWriters| ==> fileWriters[i].Valid())
    }

    ghost function States(): seq<SinkState>
      reads this, fileWriters
    {
      StatesOf(fileWriters)
    }

    /** `newContainer`. */
    constructor ()
      ensures Valid() && fileWriters == []
    {
      fileWriters := [];
    }

    /** `addFileWriter`: a writer that opens is appended; a failed open leaves the
        slice as it was. */
    method AddFileWriter(store: Store, path: Path, appendToFile: bool, faults: OpenFaults)
      returns (w: FileWriter?, store': Store)
      requires Valid()
      modifies this
      ensures Valid()
      ensures var o := OpenRule(store, path, appendToFile, faults);
              store' == o.store && (w == null <==> o.start.None?) &&
              (w == null ==> fileWriters == old(fileWriters)) &&
              (w != null ==> fresh(w) && fileWriters == old(fileWriters) + [w] &&
                             States() == old(States()) + [FreshSink(o.start.value)])
    {
      w, store' := NewFileWriter(store, path, appendToFile, faults);
      if w == null {
        return;
      }
      fileWriters := fileWriters + [w];
      assert States() == old(States()) + [w.State()];
    }

    /** `close`: every writer is closed, active or not; `fails(i)` is the oracle of
        writer i's final Flush. */
    method Close(fails: nat -> bool)
      requires Valid()
      modifies fileWriters
      ensures Valid() && States() == CloseAll(old(States()))
    {
      for i := 0 to |fileWriters|
        invariant Valid()
        invariant forall j :: 0 <= j < i ==> fileWriters[j].State() == old(fileWriters[j].State()).(closed := true)
        invariant forall j :: i <= j < |fileWriters| ==> fileWriters[j].State() == old(fileWriters[j].State())
      {
        fileWriters[i].Close(fails(i));
      }
    }
  }

  // ---------------------------------------------------------------------------
  // Fan-out

  /** One writer's part of the fan-out: an inactive writer is skipped; an active
      one is written and stays active exactly when the write succeeded. */
  function Deliver(s: SinkState, chunk: Bytes, fails: bool): (r: SinkState)
    ensures r.closed == s.closed
    ensures !s.active ==> r == s
    ensures r.active ==> s.active && r.buf == FreshBuf(s.buf.stored + s.buf.pending + chunk)
    ensures s.active && !r.active ==> r.buf.stored == s.buf.stored && r.buf.err
  {
    if !s.active then s
    else
      var w := WriteThrough(s.buf, chunk, fails);
      SinkState(w.0, w.1, s.closed)
  }

  /** One chunk given to every writer; `fails(i)` is the oracle of writer i. */
  function FanOut(ss: seq<SinkState>, chunk: Bytes, fails: nat -> bool): (r: seq<SinkState>)
    ensures |r| == |ss|
    ensures forall i :: 0 <= i < |ss| && !ss[i].active ==> r[i] == ss[i]
    ensures forall i :: 0 <= i < |ss| && r[i].active ==> ss[i].active && r[i].buf.stored == ss[i].buf.stored + ss[i].buf.pending + chunk
  {
    var r := seq(|ss|, i requires 0 <= i < |ss| => Deliver(ss[i], chunk, fails(i)));
    assert forall i :: 0 <= i < |ss| ==> r[i] == Deliver(ss[i], chunk, fails(i));
    r
  }

  /** One writer's turn in the fan-out of `main`: an active writer is written
      and flushed, and switched off if its write failed. */
  method Offer(w: FileWriter, chunk: Bytes, fails: bool)
    requires w.Valid()
    modifies w
    ensures w.Valid() && w.State() == Deliver(old(w.State()), chunk, fails)
  {
    if w.active {
      var ok := w.Write(chunk, fails);
      var flushed := w.Flush(fails);
      if !ok {
        w.active := false;
      }
    }
  }

  /** The per-chunk loop of `main`: each active writer in index order is written
      and flushed, and one whose write fails is switched off; iteration goes on
      over the rest. */
  method SendToWriters(c: Container, chunk: Bytes, fails: nat -> bool)
    requires c.Valid()
    modifies c.fileWriters
    ensures c.Valid() && c.fileWriters == old(c.fileWriters)
    ensures c.States() == FanOut(old(c.States()), chunk, fails)
  {
    var ws := c.fileWriters;
    ghost var before := c.States();
    var i := 0;
    while i < |ws|
      invariant 0 <= i <= |ws| && c.fileWriters == ws
      invariant forall j :: 0 <= j < |ws| ==> ws[j].Valid()
      invariant forall j :: 0 <= j < i ==> ws[j].State() == Deliver(before[j], chunk, fails(j))
      invariant forall j :: i <= j < |ws| ==> ws[j].State() == before[j]
    {
      Offer(ws[i], chunk, fails(i));
      i := i + 1;
    }
  }

  /** The line-mode record write: every active writer is given the record with
      one newline after it. */
  method WriteRecord(c: Container, input: Bytes, fails: nat -> bool)
    requires c.Valid()
    modifies c.fileWriters
    ensures c.Valid() && c.fileWriters == old(c.fileWriters)
    ensures c.States() == FanOut(old(c.States()), input + [Newline], fails)
    ensures forall i :: 0 <= i < |c.fileWriters| && old(c.States())[i].active && !old(c.States())[i].buf.err && !fails(i)
              ==> c.States()[i].buf.stored == old(c.States())[i].buf.stored + input + [Newline]
  {
    SendToWriters(c, input + [Newline], fails);
  }

  // ---------------------------------------------------------------------------
  // A writer across the whole stream

  /** A writer given every chunk of `chunks`; `fails(k)` is its oracle for chunk k. */
  function DeliverAll(s: SinkState, chunks: seq<Bytes>, fails: nat -> bool): SinkState
  {
    if chunks == [] then s
    else Deliver(DeliverAll(s, chunks[..|chunks| - 1], fails), chunks[|chunks| - 1], fails(|chunks| - 1))
  }

  /** Every writer across the stream; `fails(k, i)` is writer i's oracle for chunk k. */
  function RunAll(init: seq<SinkState>, chunks: seq<Bytes>, fails: (nat, nat) -> bool): seq<SinkState>
  {
    seq(|init|, i requires 0 <= i < |init| => DeliverAll(init[i], chunks, (k: nat) => fails(k, i)))
  }

  /** Giving one more chunk to every writer extends the run by that chunk;
      `now` is every writer's oracle for it. */
  lemma RunAllStep(init: seq<SinkState>, done: seq<Bytes>, chunk: Bytes, fails: (nat, nat) -> bool, now: nat -> bool)
    requires forall i: nat :: now(i) == fails(|done|, i)
    ensures FanOut(RunAll(init, done, fails), chunk, now) == RunAll(init, done + [chunk], fails)
  {
    assert (done + [chunk])[..|done|] == done;
  }

  /** For a writer whose flag starts in step with its buffered writer's error,
      the flag goes on mirroring the sticky error, and the bytes it holds are
      those of a plain buffered writer given every chunk. */
  lemma {:induction false} ActiveMirrorsError(s: SinkState, chunks: seq<Bytes>, fails: nat -> bool)
    requires s.active == !s.buf.err && s.buf.Settled()
    ensures DeliverAll(s, chunks, fails).buf == WriteAll(s.buf, chunks, fails)
    ensures DeliverAll(s, chunks, fails).active == !DeliverAll(s, chunks, fails).buf.err
    ensures DeliverAll(s, chunks, fails).closed == s.closed
  {
    if chunks != [] {
      ActiveMirrorsError(s, chunks[..|chunks| - 1], fails);
    }
  }

  /** A new writer ends holding its start content followed by every chunk up to
      its first failed write, and is still active exactly when none failed. */
  lemma WriterHoldsPrefix(start: Bytes, chunks: seq<Bytes>, fails: nat -> bool)
    ensures DeliverAll(FreshSink(start), chunks, fails).buf.stored
            == start + Concat(chunks[..FirstFailure(chunks, fails)])
    ensures DeliverAll(FreshSink(start), chunks, fails).active <==> FirstFailure(chunks, fails) == |chunks|
  {
    ActiveMirrorsError(FreshSink(start), chunks, fails);
    WriteAllPrefix(start, chunks, fails);
  }

  /** A writer that never fails ends active, holding its start content followed
      by every chunk in read order, with nothing left in its buffer. */
  lemma HealthyWriterGetsEveryChunk(start: Bytes, chunks: seq<Bytes>, fails: nat -> bool)
    requires forall k :: 0 <= k < |chunks| ==> !fails(k)
    ensures DeliverAll(FreshSink(start), chunks, fails) == SinkState(FreshBuf(start + Concat(chunks)), true, false)
  {
    WriterHoldsPrefix(start, chunks, fails);
    ActiveMirrorsError(FreshSink(start), chunks, fails);
    WriteAllPrefix(start, chunks, fails);
    assert chunks[..|chunks|] == chunks;
  }

  /** No code path sets `active` back: once a writer is off after some chunks,
      it is never written or changed again. */
  lemma {:induction false} NeverReactivated(s: SinkState, chunks: seq<Bytes>, fails: nat -> bool, j: nat)
    requires j <= |chunks| && !DeliverAll(s, chunks[..j], fails).active
    ensures DeliverAll(s, chunks, fails) == DeliverAll(s, chunks[..j], fails)
  {
    if j < |chunks| {
      var init := chunks[..|chunks| - 1];
      assert init[..j] == chunks[..j];
      NeverReactivated(s, init, fails, j);
    } else {
      assert chunks[..j] == chunks;
    }
  }

  lemma {:induction false} DeliverAllAgree(s: SinkState, chunks: seq<Bytes>, f: nat -> bool, g: nat -> bool)
    requires forall k :: 0 <= k < |chunks| ==> f(k) == g(k)
    ensures DeliverAll(s, chunks, f) == DeliverAll(s, chunks, g)
  {
    if chunks != [] {
      DeliverAllAgree(s, chunks[..|chunks| - 1], f, g);
    }
  }

  /** Failure isolation: what becomes of writer i depends only on its own
      failures; any other writer failing, or not, leaves it the same. */
  lemma FailureIsolation(init: seq<SinkState>, chunks: seq<Bytes>, f: (nat, nat) -> bool, g: (nat, nat) -> bool, i: nat)
    requires i < |init|
    requires forall k: nat :: f(k, i) == g(k, i)
    ensures RunAll(init, chunks, f)[i] == RunAll(init, chunks, g)[i]
  {
    DeliverAllAgree(init[i], chunks, (k: nat) => f(k, i), (k: nat) => g(k, i));
  }

  // ---------------------------------------------------------------------------
  // main

  /** The loop stops before a read when `stop` is set, and after a read that
      returned an error other than io.EOF, or no bytes together with io.EOF. */
  predicate EndsBlockLoop(script: seq<ReadResult>, stop: nat -> bool, k: nat)
    ensures stop(k) ==> EndsBlockLoop(script, stop, k)
    ensures |script| <= k ==> EndsBlockLoop(script, stop, k)
    ensures !stop(k) && ReadAt(script, k).err == NoErr ==> !EndsBlockLoop(script, stop, k)
  {
    var r := ReadAt(script, k);
    stop(k) || r.err == Failed || (r.chunk == [] && r.err == Eof)
  }

  /** The chunks the block loop sends on from iteration k on: `buf[0:n]` of every
      read before the loop stops, in read order. */
  function Forwarded(script: seq<ReadResult>, stop: nat -> bool, k: nat): (r: seq<Bytes>)
    decreases |script| - k
    ensures r != [] ==> k + |r| <= |script|
  {
    if EndsBlockLoop(script, stop, k) then [] else [script[k].chunk] + Forwarded(script, stop, k + 1)
  }

  /** Every chunk sent on is `buf[0:n]` of its read, in read order, no read
      before the last one ends the loop, and the read after the last one does. */
  lemma {:induction false} ForwardedStopRule(script: seq<ReadResult>, stop: nat -> bool, k: nat)
    decreases |script| - k
    ensures var r := Forwarded(script, stop, k);
            (forall j :: k <= j < k + |r| ==> r[j - k] == script[j].chunk && !EndsBlockLoop(script, stop, j)) &&
            EndsBlockLoop(script, stop, k + |r|)
  {
    var r := Forwarded(script, stop, k);
    if !EndsBlockLoop(script, stop, k) {
      ForwardedStopRule(script, stop, k + 1);
      var rest := Forwarded(script, stop, k + 1);
      assert r == [script[k].chunk] + rest;
      forall j | k < j < k + |r|
        ensures r[j - k] == script[j].chunk
      {
        assert r[j - k] == rest[j - (k + 1)];
      }
      assert k + |r| == (k + 1) + |rest|;
    }
  }

  /** Read k of the loop, reached after k chunks sent on: it ends the loop
      exactly when all chunks have been sent, and otherwise it is the next one. */
  lemma ForwardedAt(script: seq<ReadResult>, stop: nat -> bool, k: nat)
    requires k <= |Forwarded(script, stop, 0)|
    ensures EndsBlockLoop(script, stop, k) <==> k == |Forwarded(script, stop, 0)|
    ensures k < |Forwarded(script, stop, 0)| ==> Forwarded(script, stop, 0)[k] == script[k].chunk
  {
    ForwardedStopRule(script, stop, 0);
    var all := Forwarded(script, stop, 0);
    if k < |all| {
      assert all[k - 0] == script[k].chunk;
    }
  }

  /** Fresh writers over the given start contents. */
  function FreshSinks(starts: seq<Bytes>): seq<SinkState>
  {
    seq(|starts|, j requires 0 <= j < |starts| => FreshSink(starts[j]))
  }

  /** After the run and the shutdown, a writer that never failed is active and
      closed and holds its start content followed by exactly the chunks that
      standard output was given. */
  lemma HealthyWriterMirrorsStdout(starts: seq<Bytes>, chunks: seq<Bytes>, fails: (nat, nat) -> bool, i: nat)
    requires i < |starts|
    requires forall k :: 0 <= k < |chunks| ==> !fails(k, i)
    ensures |CloseAll(RunAll(FreshSinks(starts), chunks, fails))| == |starts|
    ensures CloseAll(RunAll(FreshSinks(starts), chunks, fails))[i] ==
            SinkState(FreshBuf(starts[i] + Concat(chunks)), true, true)
  {
    HealthyWriterGetsEveryChunk(starts[i], chunks, (k: nat) => fails(k, i));
  }

  /** The construction loop of `main`: every argument without a `*` is given to
      `addFileWriter`, in order. */
  method BuildWriters(c: Container, store: Store, args: seq<Path>, appendFlag: bool, faults: nat -> OpenFaults)
    returns (store': Store)
    requires c.Valid() && c.fileWriters == []
    modifies c
    ensures c.Valid() && forall j :: 0 <= j < |c.fileWriters| ==> fresh(c.fileWriters[j])
    ensures var b := Build(store, args, appendFlag, faults, |args|);
            store' == b.store && c.States() == FreshSinks(b.starts)
  {
    store' := store;
    for i := 0 to |args|
      invariant c.Valid() && forall j :: 0 <= j < |c.fileWriters| ==> fresh(c.fileWriters[j])
      invariant Build(store, args, appendFlag, faults, i).store == store'
      invariant c.States() == FreshSinks(Build(store, args, appendFlag, faults, i).starts)
    {
      if '*' in args[i] {
        continue;
      }
      var w;
      ghost var starts := Build(store, args, appendFlag, faults, i).starts;
      w, store' := c.AddFileWriter(store', args[i], appendFlag, faults(i));
      if w != null {
        ghost var next := Build(store, args, appendFlag, faults, i + 1).starts;
        assert next == starts + [next[|starts|]];
        assert FreshSinks(next) == FreshSinks(starts) + [FreshSink(next[|starts|])];
      }
    }
  }

  /** One iteration's fan-out of `buf[0:n]`: the run so far, `done`, grows by
      the chunk. */
  method SendChunk(c: Container, ghost init: seq<SinkState>, ghost done: seq<Bytes>, k: nat, chunk: Bytes,
                   fails: (nat, nat) -> bool)
    requires k == |done| && c.Valid() && c.States() == RunAll(init, done, fails)
    modifies c.fileWriters
    ensures c.Valid() && c.fileWriters == old(c.fileWriters) && c.States() == RunAll(init, done + [chunk], fails)
  {
    var now := (i: nat) => fails(k, i);
    SendToWriters(c, chunk, now);
    RunAllStep(init, done, chunk, fails, now);
  }

  /** The block loop of `main`: read into the 2048-byte buffer until the loop
      stops, send each `buf[0:n]` to the writers and, when `stdoutFlag` is set,
      to standard output. */
  method BlockLoop(c: Container, script: seq<ReadResult>, stop: nat -> bool, fails: (nat, nat) -> bool, stdoutFlag: bool)
    returns (stdout: Bytes, count: nat)
    requires c.Valid()
    modifies c.fileWriters
    ensures c.Valid() && c.fileWriters == old(c.fileWriters)
    ensures var f := Forwarded(script, stop, 0);
            count == |f| && (stdoutFlag ==> stdout == Concat(f)) && (!stdoutFlag ==> stdout == []) &&
            c.States() == RunAll(old(c.States()), f, fails)
  {
    ghost var init := c.States();
    ghost var all := Forwarded(script, stop, 0);
    ghost var done: seq<Bytes> := [];
    stdout, count := [], 0;
    var k := 0;
    while true
      invariant k <= |all| && count == k && done == all[..k]
      invariant c.Valid() && c.fileWriters == old(c.fileWriters)
      invariant stdoutFlag ==> stdout == Concat(done)
      invariant !stdoutFlag ==> stdout == []
      invariant c.States() == RunAll(init, done, fails)
      decreases |all| - k
    {
      ForwardedAt(script, stop, k);
      if stop(k) {
        break;
      }
      var r := ReadAt(script, k);
      if r.err == Failed {
        break;
      }
      if |r.chunk| == 0 && r.err == Eof {
        break;
      }
      SendChunk(c, init, done, k, r.chunk, fails);
      ConcatSnoc(done, r.chunk);
      if stdoutFlag {
        stdout := stdout + r.chunk;
      }
      count := count + 1;
      assert all[..k + 1] == done + [r.chunk];
      done := done + [r.chunk];
      k := k + 1;
    }
    assert done == all;
  }

  /** The block loop of `main` and its shutdown: the loop, then `container.close()`,
      whose final Flush of each writer has nothing to send. */
  method Replicate(c: Container, script: seq<ReadResult>, stop: nat -> bool, fails: (nat, nat) -> bool, stdoutFlag: bool)
    returns (stdout: Bytes, count: nat)
    requires c.Valid()
    modifies c.fileWriters
    ensures c.Valid() && c.fileWriters == old(c.fileWriters)
    ensures var f := Forwarded(script, stop, 0);
            count == |f| && stdout == (if stdoutFlag then Concat(f) else []) &&
            c.States() == CloseAll(RunAll(old(c.States()), f, fails))
  {
    stdout, count := BlockLoop(c, script, stop, fails, stdoutFlag);
    c.Close((i: nat) => fails(count, i));
  }

  /** `main` from the argument check on, for piped standard input: build the
      writers, exit with status 1 if none was made, otherwise copy every chunk
      to the writers and, without `-S`, to standard output, then close every
      writer. `stop(k)` is the interrupt flag as the loop sees it before read k,
      `faults(i)` the oracle for opening argument i, `fails(k, i)` the oracle
      for writer i's flush of chunk k. */
  method Run(store: Store, args: seq<Path>, appendFlag: bool, noStdoutFlag: bool,
             faults: nat -> OpenFaults, script: seq<ReadResult>, stop: nat -> bool,
             fails: (nat, nat) -> bool)
    returns (status: int, stdout: Bytes, count: nat, c: Container, store': Store)
    ensures c.Valid()
    ensures |args| == 0 ==> status == 0 && c.States() == [] && stdout == [] && store' == store
    ensures |args| > 0 ==>
            var b := Build(store, args, appendFlag, faults, |args|);
            store' == b.store &&
            (b.starts == [] ==> status == 1 && count == 0 && stdout == [] && c.States() == []) &&
            (b.starts != [] ==>
               var f := Forwarded(script, stop, 0);
               status == 0 && count == |f| &&
               stdout == (if noStdoutFlag then [] else Concat(f)) &&
               c.States() == CloseAll(RunAll(FreshSinks(b.starts), f, fails)))
  {
    c := new Container();
    if |args| == 0 {
      // printHelp, which exits with status 0
      return 0, [], 0, c, store;
    }
    var stdoutFlag := !noStdoutFlag;
    store' := BuildWriters(c, store, args, appendFlag, faults);
    if |c.fileWriters| == 0 {
      return 1, [], 0, c, store';
    }
    stdout, count := Replicate(c, script, stop, fails, stdoutFlag);
    status := 0;
  }
}
