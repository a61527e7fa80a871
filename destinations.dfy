/** How both drafts turn destination paths into writers: the opening rule of
    `newFileWriter`, the steps it takes, and the construction loop of `main`. */
module Destinations {
  import opened Io

  /** What an attempt to open a destination leaves behind: the file store after it,
      and the content the new writer starts from, if one was made. */
  datatype OpenOutcome = OpenOutcome(store: Store, start: Option<Bytes>)

  /** The opening rule both drafts intend: a destination starts empty unless it
      already exists and appending was asked for, in which case it keeps its old
      content. A failed `os.Create` leaves the store as it was; a failed
      `os.OpenFile` after a successful `os.Create` leaves the file created or
      truncated. */
  function OpenRule(store: Store, path: Path, append: bool, faults: OpenFaults): (r: OpenOutcome)
    ensures r.start.Some? <==> ((append && path in store) || !faults.createFails) && !faults.openFails
    ensures r.start.Some? ==> path in r.store && r.start.value == r.store[path]
    ensures r.start.Some? ==> r.start.value == if append && path in store then store[path] else []
    ensures append && path in store ==> r.store == store
    ensures !(append && path in store) ==> r.store == if faults.createFails then store else store[path := []]
  {
    var keep := append && path in store;
    if !keep && faults.createFails then OpenOutcome(store, None)
    else
      var s := if keep then store else store[path := []];
      OpenOutcome(s, if faults.openFails then None else Some(s[path]))
  }

  /** The steps of `newFileWriter`, identical in both drafts (gotee.go:84-115,
      tee.go:35-65): choose the mode, Stat the path, Create it when it is missing or
      must be truncated, then OpenFile it. The handle returned is positioned at the
      end of its content, so the writer's bytes go after what the file keeps. */
  method OpenDestination(store: Store, path: Path, append: bool, faults: OpenFaults)
    returns (h: Option<Handle>, store': Store)
    ensures OpenRule(store, path, append, faults) ==
            OpenOutcome(store', if h.Some? then Some(h.value.content) else None)
    ensures h.Some? ==> h.value.offset == |h.value.content|
  {
    var mode := AppendMode;
    if !append {
      mode := CreateMode;
    }
    store' := store;
    if !Stat(store, path) {
      mode := CreateMode;
      var created := Create(store', path, faults.createFails);
      if created.None? {
        return None, store';
      }
      store' := created.value;
    } else if !append {
      var created := Create(store', path, faults.createFails);
      if created.None? {
        return None, store';
      }
      store' := created.value;
    }
    var file := OpenFile(store', path, mode, faults.openFails);
    store' := file.0;
    h := file.1;
  }

  /** What the construction loop of `main` has made of the first n arguments:
      the file store, the start content of every writer added, and the argument
      each came from. */
  datatype Built = Built(store: Store, starts: seq<Bytes>, from: seq<nat>)

  /** Both drafts build their writers alike: an argument with a `*` is skipped,
      any other is opened by the opening rule, and a writer is added for it when
      the open succeeds. */
  function Build(store: Store, args: seq<Path>, append: bool, faults: nat -> OpenFaults, n: nat): (r: Built)
    requires n <= |args|
    ensures |r.starts| == |r.from| <= n
    ensures store.Keys <= r.store.Keys
  {
    if n == 0 then Built(store, [], [])
    else
      var b := Build(store, args, append, faults, n - 1);
      if '*' in args[n - 1] then b
      else
        var o := OpenRule(b.store, args[n - 1], append, faults(n - 1));
        if o.start.None? then b.(store := o.store)
        else Built(o.store, b.starts + [o.start.value], b.from + [n - 1])
  }

  /** Writers come in argument order, one per argument at most; an argument gets
      a writer exactly when it has no `*` and the opening rule, applied to the
      store the earlier arguments left, opens it. In particular a path whose
      system calls all succeed always gets one. */
  lemma {:induction false} BuildOrder(store: Store, args: seq<Path>, append: bool, faults: nat -> OpenFaults, n: nat)
    requires n <= |args|
    ensures var b := Build(store, args, append, faults, n);
            |b.starts| == |b.from| &&
            (forall j :: 0 <= j < |b.from| ==> b.from[j] < n && '*' !in args[b.from[j]]) &&
            (forall a, c :: 0 <= a < c < |b.from| ==> b.from[a] < b.from[c]) &&
            (forall i :: 0 <= i < n ==> (i in b.from <==> Admitted(store, args, append, faults, i))) &&
            (forall i :: 0 <= i < n && '*' !in args[i] && faults(i) == OpenFaults(false, false) ==> i in b.from)
  {
    if n > 0 {
      BuildOrder(store, args, append, faults, n - 1);
      var prev := Build(store, args, append, faults, n - 1);
      var b := Build(store, args, append, faults, n);
      if '*' !in args[n - 1] {
        var o := OpenRule(prev.store, args[n - 1], append, faults(n - 1));
        if o.start.Some? {
          assert b.from == prev.from + [n - 1];
        }
      }
      assert b.from == prev.from || b.from == prev.from + [n - 1];
      forall i | 0 <= i < n
        ensures i in b.from <==> Admitted(store, args, append, faults, i)
      {
        if i < n - 1 {
          assert i in b.from <==> i in prev.from;
        }
      }
    }
  }

  /** Argument i gets a writer: it has no `*`, and the opening rule opens it in
      the store the arguments before it left. */
  predicate Admitted(store: Store, args: seq<Path>, append: bool, faults: nat -> OpenFaults, i: nat)
    requires i < |args|
  {
    '*' !in args[i] && OpenRule(Build(store, args, append, faults, i).store, args[i], append, faults(i)).start.Some?
  }

  /** Paths with a `*` are never opened: whatever the other arguments do, a path
      containing `*` is neither created nor truncated, and keeps its content. */
  lemma {:induction false} GlobPathsUntouched(store: Store, args: seq<Path>, append: bool, faults: nat -> OpenFaults, n: nat)
    requires n <= |args|
    ensures var b := Build(store, args, append, faults, n);
            forall p :: '*' in p ==> (p in b.store <==> p in store) && (p in store ==> b.store[p] == store[p])
  {
    if n > 0 {
      GlobPathsUntouched(store, args, append, faults, n - 1);
    }
  }

  /** If every argument has a `*`, no writer is made and the file store is
      untouched. */
  lemma {:induction false} AllGlobsOpenNothing(store: Store, args: seq<Path>, append: bool, faults: nat -> OpenFaults, n: nat)
    requires n <= |args|
    requires forall i :: 0 <= i < |args| ==> '*' in args[i]
    ensures Build(store, args, append, faults, n) == Built(store, [], [])
  {
    if n > 0 {
      AllGlobsOpenNothing(store, args, append, faults, n - 1);
    }
  }

  /** The content each writer keeps: none without `-a`; with `-a`, exactly what
      the file held before the run (nothing if it did not exist), even when a
      path is named more than once. */
  lemma {:induction false} BuildStarts(store: Store, args: seq<Path>, append: bool, faults: nat -> OpenFaults, n: nat)
    requires n <= |args|
    ensures var b := Build(store, args, append, faults, n);
            |b.starts| == |b.from| &&
            (forall j :: 0 <= j < |b.starts| ==>
               b.from[j] < |args| &&
               b.starts[j] == (if append && args[b.from[j]] in store then store[args[b.from[j]]] else []))
    ensures var b := Build(store, args, append, faults, n);
            store.Keys <= b.store.Keys &&
            (forall p :: p in b.store ==> if append && p in store then b.store[p] == store[p] else b.store[p] == [] || (p in store && b.store[p] == store[p]))
  {
    if n > 0 {
      BuildStarts(store, args, append, faults, n - 1);
    }
  }
}
