/** tee.go: the earlier draft. Its writers have no `active` flag and never report
    an error, `close` only flushes, and the read loop copies every chunk to every
    writer and to standard output. Also the uncoloured path of `colour`. */
module Tee {
  import opened Io
  import opened Destinations

  // ---------------------------------------------------------------------------
  // Writers

  class FileWriter {
    var buf: BufState

    ghost predicate Valid()
      reads this
    {
      buf.Settled()
    }

    /** The fields `newFileWriter` sets once its file is open; the handle must be
        positioned at the end of its content. */
    constructor (h: Handle)
      requires h.offset == |h.content|
      ensures Valid() && buf == FreshBuf(h.content)
    {
      buf := FreshBuf(h.content);
    }

    /** `write`: Write, then Flush; each error is only printed, never returned. */
    method Write(bytes: Bytes, fails: bool)
      requires Valid()
      modifies this
      ensures Valid() && buf == WriteThrough(old(buf), bytes, fails).0
      ensures !old(buf.err) && (bytes == [] || !fails) ==> buf.stored == old(buf.stored) + bytes
      ensures old(buf.err) ==> buf == old(buf)
    {
      var w := BufWrite(buf, bytes);
      buf := w.0;
      var f := BufFlush(buf, fails);
      buf := f.0;
    }

    /** `close`: Flush only; the file itself is never closed. Since every `write`
        flushes, there is nothing left to send. */
    method Close(fails: bool)
      requires Valid()
      modifies this
      ensures Valid() && buf == old(buf)
    {
      var f := BufFlush(buf, fails);
      buf := f.0;
    }
  }

  /** `newFileWriter`: the same steps as in gotee.go, without the flag. */
  method NewFileWriter(store: Store, path: Path, append: bool, faults: OpenFaults)
    returns (w: FileWriter?, store': Store)
    ensures var o := OpenRule(store, path, append, faults);
            store' == o.store && (w == null <==> o.start.None?) &&
            (w != null ==> fresh(w) && w.Valid() && w.buf == FreshBuf(o.start.value))
  {
    var h;
    h, store' := OpenDestination(store, path, append, faults);
    if h.None? {
      return null, store';
    }
    w := new FileWriter(h.value);
  }

  // ---------------------------------------------------------------------------
  // The container

  ghost function StatesOf(ws: seq<FileWriter>): seq<BufState>
    reads ws
  {
    seq(|ws|, i requires 0 <= i < |ws| reads ws => ws[i].buf)
  }

  /** One chunk given to every writer; `fails(i)` is the oracle of writer i. */
  function WriteEach(bs: seq<BufState>, chunk: Bytes, fails: nat -> bool): (r: seq<BufState>)
    ensures |r| == |bs|
    ensures forall i :: 0 <= i < |bs| ==>
              r[i] == FreshBuf(bs[i].stored + bs[i].pending + chunk) || (r[i].stored == bs[i].stored && r[i].err)
    ensures forall i :: 0 <= i < |bs| && bs[i].Settled() ==> r[i].Settled()
  {
    var r := seq(|bs|, i requires 0 <= i < |bs| => WriteThrough(bs[i], chunk, fails(i)).0);
    assert forall i :: 0 <= i < |bs| ==> r[i] == WriteThrough(bs[i], chunk, fails(i)).0;
    r
  }

  class Container {
    var savers: seq<FileWriter>

    /** The writers are distinct objects, each between two writes. */
    ghost predicate Valid()
      reads this, savers
    {
      (forall i, j :: 0 <= i < j < |savers| ==> savers[i] != savers[j]) &&
      (forall i :: 0 <= i < |savers| ==> savers[i].Valid())
    }

    ghost function States(): seq<BufState>
      reads this, savers
    {
      StatesOf(savers)
    }

    /** `newContainer`. */
    constructor ()
      ensures Valid() && savers == []
    {
      savers := [];
    }

    /** `addFileWriter`: the writer goes at the end of the slice. */
    method AddFileWriter(s: FileWriter)
      requires Valid() && s.Valid() && s !in savers
      modifies this
      ensures Valid() && savers == old(savers) + [s]
      ensures States() == old(States()) + [s.buf]
    {
      savers := savers + [s];
    }

    /** `write`: every writer, in slice order, is given the chunk; none is ever
        dropped, whatever its errors. */
    method Write(bytes: Bytes, fails: nat -> bool)
      requires Valid()
      modifies savers
      ensures Valid() && States() == WriteEach(old(States()), bytes, fails)
    {
      for i := 0 to |savers|
        invariant Valid()
        invariant forall j :: 0 <= j < i ==> savers[j].buf == WriteThrough(old(savers[j].buf), bytes, fails(j)).0
        invariant forall j :: i <= j < |savers| ==> savers[j].buf == old(savers[j].buf)
      {
        savers[i].Write(bytes, fails(i));
      }
    }

    /** `close`: every writer is flushed; `fails(i)` is the oracle of writer i's Flush. */
    method Close(fails: nat -> bool)
      requires Valid()
      modifies savers
      ensures Valid() && States() == old(States())
    {
      for i := 0 to |savers|
        invariant Valid()
        invariant forall j :: 0 <= j < |savers| ==> savers[j].buf == old(savers[j].buf)
      {
        savers[i].Close(fails(i));
      }
    }
  }

  // ---------------------------------------------------------------------------
  // Writers across the whole stream

  /** Every writer across the stream; `fails(k, i)` is writer i's oracle for chunk k. */
  function WriteRun(init: seq<BufState>, chunks: seq<Bytes>, fails: (nat, nat) -> bool): seq<BufState>
  {
    seq(|init|, i requires 0 <= i < |init| => WriteAll(init[i], chunks, (k: nat) => fails(k, i)))
  }

  /** Giving one more chunk to every writer extends the run by that chunk;
      `now` is every writer's oracle for it. */
  lemma WriteRunStep(init: seq<BufState>, done: seq<Bytes>, chunk: Bytes, fails: (nat, nat) -> bool, now: nat -> bool)
    requires forall i: nat :: now(i) == fails(|done|, i)
    ensures WriteEach(WriteRun(init, done, fails), chunk, now) == WriteRun(init, done + [chunk], fails)
  {
    assert (done + [chunk])[..|done|] == done;
  }

  function FreshBufs(starts: seq<Bytes>): seq<BufState>
  {
    seq(|starts|, j requires 0 <= j < |starts| => FreshBuf(starts[j]))
  }

  /** No writer is ever dropped, and each one ends holding its start content and
      then the chunks up to its first failed flush; a writer that never fails
      holds every chunk, which is exactly what standard output was given. */
  lemma WriterHoldsPrefix(starts: seq<Bytes>, chunks: seq<Bytes>, fails: (nat, nat) -> bool, i: nat)
    requires i < |starts|
    ensures |WriteRun(FreshBufs(starts), chunks, fails)| == |starts|
    ensures var m := FirstFailure(chunks, (k: nat) => fails(k, i));
            WriteRun(FreshBufs(starts), chunks, fails)[i].stored == starts[i] + Concat(chunks[..m])
    ensures (forall k :: 0 <= k < |chunks| ==> !fails(k, i)) ==>
            WriteRun(FreshBufs(starts), chunks, fails)[i] == FreshBuf(starts[i] + Concat(chunks))
  {
    var f := (k: nat) => fails(k, i);
    WriteAllPrefix(starts[i], chunks, f);
    assert chunks[..|chunks|] == chunks;
  }

  // ---------------------------------------------------------------------------
  // main

  /** The loop stops before writing when a read returns an error other than
      io.EOF, or no bytes (even without an error). */
  predicate StopsBeforeWrite(script: seq<ReadResult>, k: nat)
    ensures |script| <= k ==> StopsBeforeWrite(script, k)
    ensures ReadAt(script, k).err == Eof && ReadAt(script, k).chunk != [] ==> !StopsBeforeWrite(script, k)
  {
    var rd := ReadAt(script, k);
    rd.err == Failed || rd.chunk == []
  }

  /** The chunks the read loop copies from iteration k on. */
  function Forwarded(script: seq<ReadResult>, k: nat): (r: seq<Bytes>)
    decreases |script| - k
    ensures r != [] ==> k + |r| <= |script|
  {
    var rd := ReadAt(script, k);
    if StopsBeforeWrite(script, k) then []
    else if rd.err == Eof then [rd.chunk]
    else [rd.chunk] + Forwarded(script, k + 1)
  }

  /** The stop rule of the read loop: every chunk copied is `buf[0:n]` of its
      read, in read order, and came with no error unless it is the last; a read
      of some bytes with io.EOF is still copied, and then the loop stops; and
      after the last chunk copied without an error, the next read stops the loop
      before writing. */
  lemma {:induction false} ForwardedStopRule(script: seq<ReadResult>, k: nat)
    decreases |script| - k
    ensures var r := Forwarded(script, k);
            (r == [] <==> StopsBeforeWrite(script, k)) &&
            (forall j :: k <= j < k + |r| ==> r[j - k] == script[j].chunk && !StopsBeforeWrite(script, j)) &&
            (forall j :: k <= j < k + |r| - 1 ==> script[j].err == NoErr) &&
            (r != [] ==> script[k + |r| - 1].err == Eof || StopsBeforeWrite(script, k + |r|))
  {
    var rd := ReadAt(script, k);
    var r := Forwarded(script, k);
    if !StopsBeforeWrite(script, k) && rd.err != Eof {
      ForwardedStopRule(script, k + 1);
      var rest := Forwarded(script, k + 1);
      assert r == [rd.chunk] + rest;
      forall j | k < j < k + |r|
        ensures r[j - k] == script[j].chunk
      {
        assert r[j - k] == rest[j - (k + 1)];
      }
      assert k + |r| == (k + 1) + |rest|;
    }
  }

  /** Read k of the loop, reached after k chunks copied with no error: it
      stops the loop before writing exactly when all chunks have been copied;
      otherwise it is the next chunk, and it is the last one if it came with
      io.EOF. */
  lemma ForwardedAt(script: seq<ReadResult>, k: nat)
    requires k <= |Forwarded(script, 0)|
    requires 0 < k ==> script[k - 1].err == NoErr
    ensures StopsBeforeWrite(script, k) <==> k == |Forwarded(script, 0)|
    ensures k < |Forwarded(script, 0)| ==>
              Forwarded(script, 0)[k] == script[k].chunk &&
              (script[k].err == Eof ==> k + 1 == |Forwarded(script, 0)|)
  {
    ForwardedStopRule(script, 0);
    var all := Forwarded(script, 0);
    if k < |all| {
      assert all[k - 0] == script[k].chunk;
    }
  }

  /** The construction loop of `main`: paths with a `*` and paths that fail to
      open are skipped; the rest are added in argument order. */
  method BuildSavers(c: Container, store: Store, args: seq<Path>, appendFlag: bool, faults: nat -> OpenFaults)
    returns (store': Store)
    requires c.Valid() && c.savers == []
    modifies c
    ensures c.Valid() && forall j :: 0 <= j < |c.savers| ==> fresh(c.savers[j])
    ensures var b := Build(store, args, appendFlag, faults, |args|);
            store' == b.store && c.States() == FreshBufs(b.starts)
  {
    store' := store;
    for i := 0 to |args|
      invariant c.Valid() && forall j :: 0 <= j < |c.savers| ==> fresh(c.savers[j])
      invariant Build(store, args, appendFlag, faults, i).store == store'
      invariant c.States() == FreshBufs(Build(store, args, appendFlag, faults, i).starts)
    {
      if '*' in args[i] {
        continue;
      }
      var saver;
      saver, store' := NewFileWriter(store', args[i], appendFlag, faults(i));
      if saver == null {
        continue;
      }
      ghost var starts := Build(store, args, appendFlag, faults, i).starts;
      c.AddFileWriter(saver);
      ghost var next := Build(store, args, appendFlag, faults, i + 1).starts;
      assert next == starts + [next[|starts|]];
      assert FreshBufs(next) == FreshBufs(starts) + [FreshBuf(next[|starts|])];
    }
  }

  /** One iteration's `container.write(buf[0:n])`: the run so far, `done`, grows
      by the chunk. */
  method WriteChunk(c: Container, ghost init: seq<BufState>, ghost done: seq<Bytes>, k: nat, chunk: Bytes, fails: (nat, nat) -> bool)
    requires k == |done| && c.Valid() && c.States() == WriteRun(init, done, fails)
    modifies c.savers
    ensures c.Valid() && c.savers == old(c.savers) && c.States() == WriteRun(init, done + [chunk], fails)
  {
    var now := (i: nat) => fails(k, i);
    c.Write(chunk, now);
    WriteRunStep(init, done, chunk, fails, now);
  }

  /** The read loop of `main`: each chunk goes to every writer and then to
      standard output. */
  method ReadLoop(c: Container, script: seq<ReadResult>, fails: (nat, nat) -> bool)
    returns (stdout: Bytes, count: nat)
    requires c.Valid()
    modifies c.savers
    ensures c.Valid() && c.savers == old(c.savers)
    ensures var f := Forwarded(script, 0);
            count == |f| && stdout == Concat(f) && c.States() == WriteRun(old(c.States()), f, fails)
  {
    ghost var init := c.States();
    ghost var all := Forwarded(script, 0);
    ghost var done: seq<Bytes> := [];
    stdout, count := [], 0;
    var k := 0;
    while true
      invariant k <= |all| && count == k && done == all[..k]
      invariant 0 < k ==> script[k - 1].err == NoErr
      invariant c.Valid() && c.savers == old(c.savers)
      invariant stdout == Concat(done)
      invariant c.States() == WriteRun(init, done, fails)
      decreases |all| - k
    {
      ForwardedAt(script, k);
      var r := ReadAt(script, k);
      if r.err == Failed {
        break;
      }
      if |r.chunk| == 0 {
        break;
      }
      WriteChunk(c, init, done, k, r.chunk, fails);
      ConcatSnoc(done, r.chunk);
      stdout := stdout + r.chunk;
      count := count + 1;
      assert all[..k + 1] == done + [r.chunk];
      done := done + [r.chunk];
      if r.err == Eof {
        break;
      }
      k := k + 1;
    }
    assert done == all;
  }

  /** The read loop of `main` and its shutdown: the loop, then `container.close()`,
      whose Flush of each writer has nothing to send. */
  method Replicate(c: Container, script: seq<ReadResult>, fails: (nat, nat) -> bool)
    returns (stdout: Bytes, count: nat)
    requires c.Valid()
    modifies c.savers
    ensures c.Valid() && c.savers == old(c.savers)
    ensures var f := Forwarded(script, 0);
            count == |f| && stdout == Concat(f) && c.States() == WriteRun(old(c.States()), f, fails)
  {
    stdout, count := ReadLoop(c, script, fails);
    c.Close((i: nat) => fails(count, i));
  }

  /** `main` from the argument check on, for piped standard input: build the
      writers, exit with status 1 if none was made, otherwise copy every chunk
      to the writers and to standard output, then flush every writer.
      `faults(i)` is the oracle for opening argument i, `fails(k, i)` the oracle
      for writer i's flush of chunk k. */
  method Run(store: Store, args: seq<Path>, appendFlag: bool, faults: nat -> OpenFaults,
             script: seq<ReadResult>, fails: (nat, nat) -> bool)
    returns (status: int, stdout: Bytes, count: nat, c: Container, store': Store)
    ensures c.Valid()
    ensures |args| == 0 ==> status == 0 && c.States() == [] && stdout == [] && store' == store
    ensures |args| > 0 ==>
            var b := Build(store, args, appendFlag, faults, |args|);
            store' == b.store &&
            (b.starts == [] ==> status == 1 && count == 0 && stdout == [] && c.States() == []) &&
            (b.starts != [] ==>
               var f := Forwarded(script, 0);
               status == 0 && count == |f| && stdout == Concat(f) &&
               c.States() == WriteRun(FreshBufs(b.starts), f, fails))
  {
    c := new Container();
    if |args| == 0 {
      // printHelp, which exits with status 0
      return 0, [], 0, c, store;
    }
    store' := BuildSavers(c, store, args, appendFlag, faults);
    if |c.savers| == 0 {
      return 1, [], 0, c, store';
    }
    stdout, count := Replicate(c, script, fails);
    status := 0;
  }

  // ---------------------------------------------------------------------------
  // colour, without colouring

  const BrightGreen := 0
  const BrightYellow := 1
  const BrightBlue := 2
  const BrightRed := 3
  const NoColour := 4

  /** The combined length of the parts. */
  function TotalLength(parts: seq<string>): nat
  {
    if parts == [] then 0 else |parts[0]| + TotalLength(parts[1..])
  }

  /** `strings.Join(parts, sep)`: the parts in order, one `sep` between each
      two, so the result starts with the first part. */
  function Join(parts: seq<string>, sep: string): (r: string)
    ensures |r| == TotalLength(parts) + if parts == [] then 0 else (|parts| - 1) * |sep|
    ensures parts != [] ==> parts[0] <= r
  {
    if parts == [] then ""
    else if |parts| == 1 then parts[0]
    else parts[0] + sep + Join(parts[1..], sep)
  }

  predicate DoubleSpaceAt(s: string, i: int)
  {
    0 <= i && i + 1 < |s| && s[i] == ' ' && s[i + 1] == ' '
  }

  /** `strings.Index(s, "  ")`: the first position of two spaces, or -1. */
  function IndexOfDoubleSpace(s: string): (i: int)
    ensures -1 <= i < |s|
    ensures i >= 0 ==> DoubleSpaceAt(s, i)
    ensures i >= 0 ==> forall j :: 0 <= j < i ==> !DoubleSpaceAt(s, j)
    ensures i < 0 ==> forall j :: 0 <= j < |s| ==> !DoubleSpaceAt(s, j)
  {
    if |s| < 2 then -1
    else if s[0] == ' ' && s[1] == ' ' then 0
    else
      var j := IndexOfDoubleSpace(s[1..]);
      assert forall t :: 1 <= t < |s| ==> (DoubleSpaceAt(s, t) <==> DoubleSpaceAt(s[1..], t - 1));
      if j < 0 then -1 else j + 1
  }

  /** `strings.Replace(s, "  ", " ", -1)` as Go computes it: find the next
      occurrence with Index, copy up to it, put one space, go on after it. */
  function ReplaceDoubleSpaces(s: string): (r: string)
    decreases |s|
    ensures |r| <= |s|
    ensures r == s <==> IndexOfDoubleSpace(s) < 0
  {
    var i := IndexOfDoubleSpace(s);
    if i < 0 then s else s[..i] + " " + ReplaceDoubleSpaces(s[i + 2..])
  }

  /** The same replacement read one character at a time: two spaces at the
      front become one, and the scan resumes after them. */
  function CollapseScan(s: string): string
    decreases |s|
  {
    if |s| >= 2 && s[0] == ' ' && s[1] == ' ' then " " + CollapseScan(s[2..])
    else if s == [] then []
    else [s[0]] + CollapseScan(s[1..])
  }

  /** `colour(c, input...)`: the inputs joined by one space with two spaces
      replaced by one; with `useColour` set and one of the four colours chosen,
      the string is styled by gchalk, which this model leaves out (`None`). */
  function Colour(useColour: bool, colour: int, input: seq<string>): (r: Option<string>)
    ensures r.None? <==> useColour && BrightGreen <= colour <= BrightRed
  {
    var str := ReplaceDoubleSpaces(Join(input, " "));
    if !useColour then Some(str)
    else if BrightGreen <= colour <= BrightRed then None
    else Some(str)
  }

  lemma {:induction false} ScanSkipsPrefix(s: string, i: nat)
    requires i <= |s|
    requires forall j :: 0 <= j < i ==> !DoubleSpaceAt(s, j)
    ensures CollapseScan(s) == s[..i] + CollapseScan(s[i..])
  {
    if i > 0 {
      assert !DoubleSpaceAt(s, 0);
      assert s[1..][i - 1..] == s[i..];
      assert forall j :: 0 <= j < i - 1 ==> DoubleSpaceAt(s[1..], j) == DoubleSpaceAt(s, j + 1);
      ScanSkipsPrefix(s[1..], i - 1);
      assert s[..i] == [s[0]] + s[1..][..i - 1];
    }
  }

  lemma ScanAtFirstDoubleSpace(s: string, i: nat)
    requires DoubleSpaceAt(s, i)
    requires forall j :: 0 <= j < i ==> !DoubleSpaceAt(s, j)
    ensures CollapseScan(s) == s[..i] + " " + CollapseScan(s[i + 2..])
  {
    ScanSkipsPrefix(s, i);
    var t := s[i..];
    assert t[0] == ' ' && t[1] == ' ' && t[2..] == s[i + 2..];
  }

  /** Go's Index-driven replacement and the character scan agree: the pass
      replaces the non-overlapping double spaces from left to right. */
  lemma {:induction false} ReplaceIsLeftToRightScan(s: string)
    decreases |s|
    ensures ReplaceDoubleSpaces(s) == CollapseScan(s)
  {
    var i := IndexOfDoubleSpace(s);
    if i < 0 {
      ScanSkipsPrefix(s, |s|);
      assert s[..|s|] == s;
      assert s[|s|..] == [];
      assert CollapseScan(s) == s;
    } else {
      ScanAtFirstDoubleSpace(s, i);
      ReplaceIsLeftToRightScan(s[i + 2..]);
    }
  }

  /** The non-space characters of a string, in order. */
  function NonSpaces(s: string): string
  {
    if s == [] then [] else (if s[0] == ' ' then [] else [s[0]]) + NonSpaces(s[1..])
  }

  /** The replacement only ever drops spaces: every other character survives,
      in order, and the result is between half and all of the input's length. */
  lemma {:induction false} ReplaceDropsOnlySpaces(s: string)
    decreases |s|
    ensures NonSpaces(ReplaceDoubleSpaces(s)) == NonSpaces(s)
    ensures |s| <= 2 * |ReplaceDoubleSpaces(s)| && |ReplaceDoubleSpaces(s)| <= |s|
  {
    ReplaceIsLeftToRightScan(s);
    ScanDropsOnlySpaces(s);
  }

  lemma {:induction false} ScanDropsOnlySpaces(s: string)
    decreases |s|
    ensures NonSpaces(CollapseScan(s)) == NonSpaces(s)
    ensures |s| <= 2 * |CollapseScan(s)| && |CollapseScan(s)| <= |s|
  {
    if |s| >= 2 && s[0] == ' ' && s[1] == ' ' {
      ScanDropsOnlySpaces(s[2..]);
      assert s[1..][1..] == s[2..];
      assert (" " + CollapseScan(s[2..]))[1..] == CollapseScan(s[2..]);
    } else if s != [] {
      ScanDropsOnlySpaces(s[1..]);
      assert ([s[0]] + CollapseScan(s[1..]))[1..] == CollapseScan(s[1..]);
    }
  }

  /** Without styling (colour off, or a code outside the four colours), the
      message is the space-joined input with each double space, scanned from
      the left, collapsed to one. */
  lemma UncolouredText(useColour: bool, colour: int, input: seq<string>)
    requires !useColour || colour < BrightGreen || BrightRed < colour
    ensures Colour(useColour, colour, input) == Some(CollapseScan(Join(input, " ")))
  {
    ReplaceIsLeftToRightScan(Join(input, " "));
  }
}
