/** Models of the parts of Go's os, bufio and io packages that both drafts of the
    tee clone rely on: a file store, files opened for writing, a buffered writer
    with a sticky error, and what a read of standard input yields. Failures of the
    operating system are oracle inputs. */
module Io {

  newtype Byte = x: int | 0 <= x < 256
  type Bytes = seq<Byte>
  type Path = string

  /** The file system: each existing path with its content. */
  type Store = map<Path, Bytes>

  const Newline: Byte := 10

  datatype Option<T> = None | Some(value: T)

  // ---------------------------------------------------------------------------
  // Reading standard input

  /** The error part of `n, err := r.Read(buf)`: nil, io.EOF or any other error. */
  datatype ReadErr = NoErr | Eof | Failed

  /** One call of Read: the bytes `buf[0:n]` and the error returned with them. */
  datatype ReadResult = ReadResult(chunk: Bytes, err: ReadErr)

  /** The k-th read of a finite input; once the script is exhausted the reader
      keeps answering `0, io.EOF`, as a reader at the end of its stream does. */
  function ReadAt(script: seq<ReadResult>, k: nat): ReadResult
  {
    if k < |script| then script[k] else ReadResult([], Eof)
  }

  /** The chunks of a stream laid end to end. */
  function Concat(chunks: seq<Bytes>): Bytes
  {
    if chunks == [] then [] else Concat(chunks[..|chunks| - 1]) + chunks[|chunks| - 1]
  }

  lemma ConcatSnoc(chunks: seq<Bytes>, c: Bytes)
    ensures Concat(chunks + [c]) == Concat(chunks) + c
  {
    assert (chunks + [c])[..|chunks|] == chunks;
  }

  // ---------------------------------------------------------------------------
  // Opening files

  /** `os.O_APPEND` or `os.O_CREATE`; both drafts always add `os.O_WRONLY`. */
  datatype Mode = AppendMode | CreateMode

  /** An open *os.File: the file's bytes and the position the next write goes to. */
  datatype Handle = Handle(content: Bytes, offset: nat)

  /** Which of the two system calls of an open attempt fail. */
  datatype OpenFaults = OpenFaults(createFails: bool, openFails: bool)

  /** `os.Stat(path)` returns no error; any Stat error is read as "absent". */
  predicate Stat(store: Store, path: Path)
  {
    path in store
  }

  /** `os.Create(path)`: creates the file, or truncates it when it exists. */
  function Create(store: Store, path: Path, fails: bool): Option<Store>
  {
    if fails then None else Some(store[path := []])
  }

  /** `os.OpenFile(path, mode|os.O_WRONLY, 0644)`. With O_APPEND every write goes to
      the end; otherwise writing starts at offset 0. A missing file is created
      only under O_CREATE. */
  function OpenFile(store: Store, path: Path, mode: Mode, fails: bool): (Store, Option<Handle>)
  {
    if fails then (store, None)
    else if path in store then
      (store, Some(Handle(store[path], if mode == AppendMode then |store[path]| else 0)))
    else if mode == CreateMode then (store[path := []], Some(Handle([], 0)))
    else (store, None)
  }

  // ---------------------------------------------------------------------------
  // bufio.Writer over a file

  /** A bufio.Writer and the file under it: the bytes the file holds, the bytes
      still in the buffer, and the writer's sticky error (once set, every later
      Write and Flush returns it without doing anything). */
  datatype BufState = BufState(stored: Bytes, pending: Bytes, err: bool)
  {
    /** Between calls of `write`, nothing good is left in the buffer. */
    predicate Settled()
    {
      err || pending == []
    }
  }

  /** A writer that has just been opened at the end of `start`. */
  function FreshBuf(start: Bytes): BufState
  {
    BufState(start, [], false)
  }

  /** `writer.Write(p)`: its bytes go to the buffer. */
  function BufWrite(b: BufState, p: Bytes): (BufState, bool)
  {
    if b.err then (b, false) else (b.(pending := b.pending + p), true)
  }

  /** `writer.Flush()`: the buffered bytes move to the file, unless the file
      rejects them (`fails`), which sets the sticky error. An empty buffer never
      reaches the file. */
  function BufFlush(b: BufState, fails: bool): (BufState, bool)
  {
    if b.err then (b, false)
    else if b.pending == [] then (b, true)
    else if fails then (b.(err := true), false)
    else (BufState(b.stored + b.pending, [], false), true)
  }

  /** `fileWriter.write(bytes)` in both drafts: Write, then Flush. It succeeds
      exactly when the writer had no error and the file accepted the bytes (or
      there was nothing to send); on success the file grows by exactly the
      buffered bytes and the chunk, on failure it does not change and the writer
      is left with its sticky error. */
  function WriteThrough(b: BufState, p: Bytes, fails: bool): (r: (BufState, bool))
    ensures r.1 <==> !b.err && (b.pending + p == [] || !fails)
    ensures r.1 ==> r.0 == FreshBuf(b.stored + b.pending + p)
    ensures !r.1 ==> r.0.stored == b.stored && r.0.err
    ensures b.Settled() ==> r.0.Settled()
  {
    var w := BufWrite(b, p);
    if !w.1 then w else BufFlush(w.0, fails)
  }

  /** A writer that is given every chunk of `chunks` in turn; `fails(k)` says
      whether the file rejects the flush of chunk k. */
  function WriteAll(b: BufState, chunks: seq<Bytes>, fails: nat -> bool): BufState
  {
    if chunks == [] then b
    else WriteThrough(WriteAll(b, chunks[..|chunks| - 1], fails), chunks[|chunks| - 1], fails(|chunks| - 1)).0
  }

  /** The index of the first chunk whose flush fails, or |chunks| if none does.
      An empty chunk never fails, since an empty buffer is never flushed. */
  function FirstFailure(chunks: seq<Bytes>, fails: nat -> bool): (m: nat)
    ensures m <= |chunks|
    ensures forall k :: 0 <= k < m ==> chunks[k] == [] || !fails(k)
    ensures m < |chunks| ==> chunks[m] != [] && fails(m)
  {
    if chunks == [] then 0
    else
      var p := FirstFailure(chunks[..|chunks| - 1], fails);
      var last := |chunks| - 1;
      if p < last then p
      else if chunks[last] != [] && fails(last) then last
      else |chunks|
  }

  /** No loss and no reordering: a healthy writer given a stream of chunks holds
      its start content followed by the chunks up to its first failure, and is in
      error exactly when one of its flushes failed. */
  lemma {:induction false} WriteAllPrefix(start: Bytes, chunks: seq<Bytes>, fails: nat -> bool)
    ensures WriteAll(FreshBuf(start), chunks, fails).stored == start + Concat(chunks[..FirstFailure(chunks, fails)])
    ensures WriteAll(FreshBuf(start), chunks, fails).err <==> FirstFailure(chunks, fails) < |chunks|
    ensures WriteAll(FreshBuf(start), chunks, fails).Settled()
  {
    if chunks != [] {
      var n := |chunks| - 1;
      var init, last := chunks[..n], chunks[n];
      WriteAllPrefix(start, init, fails);
      var b := WriteAll(FreshBuf(start), init, fails);
      var r := WriteThrough(b, last, fails(n));
      assert WriteAll(FreshBuf(start), chunks, fails) == r.0;
      var p := FirstFailure(init, fails);
      assert init[..p] == chunks[..p];
      if p < n {
        assert b.err && r.0 == b;
      } else if r.1 {
        assert chunks[..|chunks|] == chunks;
        assert Concat(chunks) == Concat(init) + last;
      } else {
        assert b.pending == [];
      }
    }
  }
}
