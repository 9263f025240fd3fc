/** The backup worker's look at a store directory (`observe`, `unchanged_until` in
    crates/backup/src/disk.rs). A look is three separate reads; between any two of them
    a snapshot may be running in another process. A history of directory states and six
    read positions in it stand for every interleaving. */
module DiskWatch {
  import opened Common

  /** `(len, mtime_nanos)`. */
  type Ident = (nat, nat)

  datatype Snapshot = Snapshot(ident: Ident, bytes: seq<nat>)
  datatype Wal = Wal(ino: nat, len: nat)

  /** The directory, with the identities already spent and, for a snapshot in progress,
      whether it has put its `snapshot.bin` in place yet. */
  datatype Dir = Dir(
    snapshot: Option<Snapshot>, wal: Option<Wal>, intent: bool,
    spentIdents: set<Ident>, spentInos: set<nat>, snapshotPlaced: bool)

  // ---- the worker's side ---------------------------------------------------

  datatype DiskState = DiskState(snapshot: Option<Ident>, walLen: nat, wal: Option<nat>, intentNonempty: bool) {

    predicate UnchangedUntil(after: DiskState) {
      && !intentNonempty
      && !after.intentNonempty
      && snapshot == after.snapshot
      && wal == after.wal
      && after.walLen >= walLen
    }
  }

  function SnapshotIdent(d: Dir): Option<Ident> {
    if d.snapshot.None? then None else Some(d.snapshot.value.ident)
  }

  /** The inode on Unix; other systems report none. */
  function FileIdent(d: Dir, unix: bool): Option<nat> {
    if unix && d.wal.Some? then Some(d.wal.value.ino) else None
  }

  /** Three reads, at three moments of the history. */
  function Observe(h: seq<Dir>, s: nat, w: nat, i: nat, unix: bool): DiskState
    requires s < |h| && w < |h| && i < |h|
  {
    DiskState(SnapshotIdent(h[s]), if h[w].wal.None? then 0 else h[w].wal.value.len, FileIdent(h[w], unix), h[i].intent)
  }

  // ---- the writer's side ---------------------------------------------------

  datatype Write =
    | BeginSnapshot
    | PlaceSnapshot(snapshot: Snapshot)
    | ReplaceWal(wal: Wal)
    | ClearIntent
    | CreateWal(wal: Wal)
    | Append(len: nat)

  /** The intent is set before either file is replaced and cleared after; an identity is
      never used twice; the log only grows between replacements. */
  predicate Allowed(d: Dir, x: Write) {
    match x
    case BeginSnapshot => !d.intent
    case PlaceSnapshot(s) => d.intent && s.ident !in d.spentIdents
    case ReplaceWal(w) => d.intent && w.ino !in d.spentInos
    case ClearIntent => d.intent
    case CreateWal(w) => d.wal.None? && w.ino !in d.spentInos
    case Append(len) => d.wal.Some? && d.wal.value.len <= len
  }

  function After(d: Dir, x: Write): Dir
    requires Allowed(d, x)
  {
    match x
    case BeginSnapshot => d.(intent := true, snapshotPlaced := false)
    case PlaceSnapshot(s) => d.(snapshot := Some(s), spentIdents := d.spentIdents + {s.ident}, snapshotPlaced := true)
    case ReplaceWal(w) => d.(wal := Some(w), spentInos := d.spentInos + {w.ino})
    case ClearIntent => d.(intent := false)
    case CreateWal(w) => d.(wal := Some(w), spentInos := d.spentInos + {w.ino})
    case Append(len) => d.(wal := Some(d.wal.value.(len := len)))
  }

  /** What is in place is spent. */
  ghost predicate Consistent(d: Dir) {
    && (d.snapshot.Some? ==> d.snapshot.value.ident in d.spentIdents)
    && (d.wal.Some? ==> d.wal.value.ino in d.spentInos)
  }

  /** A run of the writer from some directory. `xs[i]` leads from `h[i]` to `h[i + 1]`. */
  ghost predicate History(h: seq<Dir>, xs: seq<Write>) {
    && |h| == |xs| + 1 && Consistent(h[0])
    && forall i :: 0 <= i < |xs| ==> Allowed(h[i], xs[i]) && h[i + 1] == After(h[i], xs[i])
  }

  /** The writer puts the snapshot in place before it replaces the log. */
  ghost predicate SnapshotFirst(h: seq<Dir>, xs: seq<Write>)
    requires History(h, xs)
  {
    forall i :: 0 <= i < |xs| && xs[i].ReplaceWal? ==> h[i].snapshotPlaced
  }

  // ---- what an identity proves ---------------------------------------------

  /** From `d` to a later `e`: the file in place is the old one, or its identity is one that
      was unspent before. */
  ghost predicate Later(d: Dir, e: Dir) {
    && Consistent(d) && Consistent(e)
    && d.spentIdents <= e.spentIdents && d.spentInos <= e.spentInos
    && (e.snapshot == d.snapshot || (e.snapshot.Some? && e.snapshot.value.ident !in d.spentIdents))
    && (SameLog(d.wal, e.wal) || (e.wal.Some? && e.wal.value.ino !in d.spentInos))
  }

  lemma LaterByStep(d: Dir, x: Write)
    requires Consistent(d) && Allowed(d, x)
    ensures Later(d, After(d, x))
  {
  }

  lemma LaterTransitive(d: Dir, e: Dir, f: Dir)
    requires Later(d, e) && Later(e, f)
    ensures Later(d, f)
  {
  }

  lemma {:induction false} Forward(h: seq<Dir>, xs: seq<Write>, i: nat, k: nat)
    requires History(h, xs) && i <= k < |h|
    ensures Later(h[i], h[k])
    decreases k
  {
    if i < k {
      Forward(h, xs, i, k - 1);
      assert h[k] == After(h[k - 1], xs[k - 1]);
      LaterByStep(h[k - 1], xs[k - 1]);
      LaterTransitive(h[i], h[k - 1], h[k]);
    } else if 0 < i {
      Forward(h, xs, i - 1, i - 1);
      assert h[i] == After(h[i - 1], xs[i - 1]);
      LaterByStep(h[i - 1], xs[i - 1]);
    }
  }

  /** The same log file, at least as long. */
  predicate SameLog(a: Option<Wal>, b: Option<Wal>) {
    a == b || (a.Some? && b.Some? && a.value.ino == b.value.ino && a.value.len <= b.value.len)
  }

  lemma SnapshotStood(h: seq<Dir>, xs: seq<Write>, i: nat, k: nat, j: nat)
    requires History(h, xs) && i <= k <= j < |h| && SnapshotIdent(h[i]) == SnapshotIdent(h[j])
    ensures h[k].snapshot == h[i].snapshot
  {
    Forward(h, xs, i, k);
    Forward(h, xs, k, j);
    Forward(h, xs, i, j);
  }

  lemma LogStood(h: seq<Dir>, xs: seq<Write>, i: nat, k: nat, j: nat)
    requires History(h, xs) && i <= k <= j < |h| && FileIdent(h[i], true) == FileIdent(h[j], true)
    ensures SameLog(h[i].wal, h[k].wal)
  {
    Forward(h, xs, i, k);
    Forward(h, xs, k, j);
    Forward(h, xs, i, j);
  }

  // ---- the theorems --------------------------------------------------------

  /** The six reads of two looks, in the order the code makes them. */
  predicate TwoLooks(at: seq<nat>, n: nat) {
    |at| == 6 && (forall i, j :: 0 <= i <= j < 6 ==> at[i] <= at[j]) && at[5] < n
  }

  ghost predicate LooksAgree(h: seq<Dir>, at: seq<nat>, unix: bool)
    requires TwoLooks(at, |h|)
  {
    Observe(h, at[0], at[1], at[2], unix).UnchangedUntil(Observe(h, at[3], at[4], at[5], unix))
  }

  /** `p` and `q` are files of the generation that stood at moment `g`, when no snapshot
      was in progress: that snapshot, and that log, possibly longer. */
  ghost predicate OfGeneration(h: seq<Dir>, g: nat, p: Option<Snapshot>, q: Option<Wal>)
    requires g < |h|
  {
    !h[g].intent && p == h[g].snapshot && SameLog(h[g].wal, q)
  }

  /** On Unix, if the two looks agree, everything read between them is of one generation,
      whatever the writer did between the reads of a single look. */
  lemma UnixReadsAreOneGeneration(h: seq<Dir>, xs: seq<Write>, at: seq<nat>, a: nat, b: nat)
    requires History(h, xs) && TwoLooks(at, |h|) && LooksAgree(h, at, true)
    requires at[2] <= a <= at[3] && at[2] <= b <= at[3]
    ensures OfGeneration(h, at[2], h[a].snapshot, h[b].wal)
  {
    SnapshotStood(h, xs, at[0], a, at[3]);
    SnapshotStood(h, xs, at[0], at[2], at[3]);
    LogStood(h, xs, at[1], at[2], at[4]);
    Forward(h, xs, at[2], b);
    LogStood(h, xs, at[1], b, at[4]);
  }

  // ---- when the looks agree ------------------------------------------------

  ghost predicate SnapshotLeftAlone(xs: seq<Write>, i: nat, j: nat)
    requires j <= |xs|
  {
    forall k :: i <= k < j ==> !xs[k].PlaceSnapshot?
  }

  lemma {:induction false} SnapshotSame(h: seq<Dir>, xs: seq<Write>, i: nat, j: nat)
    requires History(h, xs) && i <= j < |h| && SnapshotLeftAlone(xs, i, j)
    ensures h[i].snapshot == h[j].snapshot
    decreases j
  {
    if i < j {
      SnapshotSame(h, xs, i, j - 1);
      assert Allowed(h[j - 1], xs[j - 1]) && h[j] == After(h[j - 1], xs[j - 1]);
    }
  }

  /** A snapshot put in place can be told from the one before it. */
  lemma NewSnapshotShows(h: seq<Dir>, xs: seq<Write>, i: nat, k: nat, j: nat)
    requires History(h, xs) && i <= k < j < |h| && xs[k].PlaceSnapshot?
    ensures SnapshotIdent(h[i]) != SnapshotIdent(h[j])
  {
    Forward(h, xs, i, k);
    assert Allowed(h[k], xs[k]) && h[k + 1] == After(h[k], xs[k]);
    Forward(h, xs, k + 1, j);
    Forward(h, xs, i, j);
  }

  lemma NewLogShows(h: seq<Dir>, xs: seq<Write>, i: nat, k: nat, j: nat)
    requires History(h, xs) && i <= k < j < |h| && (xs[k].ReplaceWal? || xs[k].CreateWal?)
    ensures FileIdent(h[i], true) != FileIdent(h[j], true)
  {
    Forward(h, xs, i, k);
    assert Allowed(h[k], xs[k]) && h[k + 1] == After(h[k], xs[k]);
    Forward(h, xs, k + 1, j);
    Forward(h, xs, i, j);
  }

  lemma SnapshotShows(h: seq<Dir>, xs: seq<Write>, i: nat, j: nat)
    requires History(h, xs) && i <= j < |h|
    ensures SnapshotIdent(h[i]) == SnapshotIdent(h[j]) <==> SnapshotLeftAlone(xs, i, j)
  {
    if SnapshotLeftAlone(xs, i, j) {
      SnapshotSame(h, xs, i, j);
    } else {
      var k :| i <= k < j && xs[k].PlaceSnapshot?;
      NewSnapshotShows(h, xs, i, k, j);
    }
  }

  /** On Unix the looks agree if and only if no intent stands at either, no snapshot was put in
      place between the two reads of its identity, and no log between the two reads of its
      own. However much the log grew does not matter. */
  lemma LooksAgreeIffOnUnix(h: seq<Dir>, xs: seq<Write>, at: seq<nat>)
    requires History(h, xs) && TwoLooks(at, |h|)
    ensures LooksAgree(h, at, true) <==>
            && !h[at[2]].intent && !h[at[5]].intent
            && SnapshotLeftAlone(xs, at[0], at[3]) && LogLeftAlone(xs, at[1], at[4])
  {
    SnapshotShows(h, xs, at[0], at[3]);
    if LogLeftAlone(xs, at[1], at[4]) {
      LogOnlyGrows(h, xs, at[1], at[4]);
    } else {
      var k :| at[1] <= k < at[4] && (xs[k].ReplaceWal? || xs[k].CreateWal?);
      NewLogShows(h, xs, at[1], k, at[4]);
    }
  }

  function LogLength(d: Dir): nat { if d.wal.None? then 0 else d.wal.value.len }

  /** Elsewhere the log shows only by its length: the looks agree if and only if no intent
      stands at either, no snapshot was put in place, and the log is no shorter. */
  lemma LooksAgreeIffElsewhere(h: seq<Dir>, xs: seq<Write>, at: seq<nat>)
    requires History(h, xs) && TwoLooks(at, |h|)
    ensures LooksAgree(h, at, false) <==>
            && !h[at[2]].intent && !h[at[5]].intent
            && SnapshotLeftAlone(xs, at[0], at[3]) && LogLength(h[at[1]]) <= LogLength(h[at[4]])
  {
    SnapshotShows(h, xs, at[0], at[3]);
  }

  /** A store that is only appended to passes, on every system. */
  lemma AppendsPass(h: seq<Dir>, xs: seq<Write>, at: seq<nat>, unix: bool)
    requires History(h, xs) && TwoLooks(at, |h|) && !h[at[2]].intent && !h[at[5]].intent
    requires forall k :: at[0] <= k < at[5] ==> xs[k].Append?
    ensures LooksAgree(h, at, unix)
  {
    LogOnlyGrows(h, xs, at[1], at[4]);
    LooksAgreeIffOnUnix(h, xs, at);
    LooksAgreeIffElsewhere(h, xs, at);
  }

  // ---- what agreeing looks vouch for ---------------------------------------

  /** No log is put in place between moments `i` and `j`. */
  ghost predicate LogLeftAlone(xs: seq<Write>, i: nat, j: nat)
    requires j <= |xs|
  {
    forall k :: i <= k < j ==> !xs[k].ReplaceWal? && !xs[k].CreateWal?
  }

  lemma {:induction false} LogOnlyGrows(h: seq<Dir>, xs: seq<Write>, i: nat, j: nat)
    requires History(h, xs) && i <= j < |h| && LogLeftAlone(xs, i, j)
    ensures SameLog(h[i].wal, h[j].wal)
    decreases j
  {
    if i < j {
      LogOnlyGrows(h, xs, i, j - 1);
      assert Allowed(h[j - 1], xs[j - 1]) && h[j] == After(h[j - 1], xs[j - 1]);
    }
  }

  /** A log put in place is not the one that stood before. */
  lemma NewLogIsAnother(h: seq<Dir>, xs: seq<Write>, i: nat, k: nat)
    requires History(h, xs) && i <= k < |xs| && (xs[k].ReplaceWal? || xs[k].CreateWal?)
    ensures !SameLog(h[i].wal, h[k + 1].wal)
  {
    Forward(h, xs, i, k);
    assert Allowed(h[k], xs[k]) && h[k + 1] == After(h[k], xs[k]);
  }

  /** Everything read between moments `i` and `j` is of the generation that stood at `i`. */
  ghost predicate OneGeneration(h: seq<Dir>, i: nat, j: nat)
    requires i <= j < |h|
  {
    forall a: nat, b: nat :: i <= a <= j && i <= b <= j ==> OfGeneration(h, i, h[a].snapshot, h[b].wal)
  }

  /** Where the log has no identity, two agreeing looks vouch for what was read between them
      if and only if no log was put in place meanwhile. */
  lemma LooksVouchIffLogLeftAlone(h: seq<Dir>, xs: seq<Write>, at: seq<nat>)
    requires History(h, xs) && TwoLooks(at, |h|) && LooksAgree(h, at, false)
    ensures OneGeneration(h, at[2], at[3]) <==> LogLeftAlone(xs, at[2], at[3])
  {
    var i, j := at[2], at[3];
    if LogLeftAlone(xs, i, j) {
      SnapshotStood(h, xs, at[0], i, j);
      forall a: nat, b: nat | i <= a <= j && i <= b <= j ensures OfGeneration(h, i, h[a].snapshot, h[b].wal) {
        SnapshotStood(h, xs, at[0], a, j);
        LogOnlyGrows(h, xs, i, b);
      }
    } else {
      var k :| i <= k < j && (xs[k].ReplaceWal? || xs[k].CreateWal?);
      NewLogIsAnother(h, xs, i, k);
      assert !OfGeneration(h, i, h[i].snapshot, h[k + 1].wal);
    }
  }

  /** A snapshot-first writer replaces no log while the snapshot stands: from a moment
      without intent, the one in progress has not placed its snapshot yet. */
  lemma {:induction false} SnapshotFirstWaits(h: seq<Dir>, xs: seq<Write>, i: nat, k: nat)
    requires History(h, xs) && SnapshotFirst(h, xs) && i <= k < |h| && !h[i].intent && h[k].snapshot == h[i].snapshot
    ensures h[k].intent ==> !h[k].snapshotPlaced
    decreases k
  {
    if i < k {
      Forward(h, xs, i, k - 1);
      Forward(h, xs, k - 1, k);
      assert Allowed(h[k - 1], xs[k - 1]) && h[k] == After(h[k - 1], xs[k - 1]);
      if h[k - 1].snapshot == h[i].snapshot {
        SnapshotFirstWaits(h, xs, i, k - 1);
      }
    }
  }

  /** So such a writer replaces no log between two agreeing looks, and once a log exists the
      looks vouch. */
  lemma ReadsAreOneGenerationWithoutInodes(h: seq<Dir>, xs: seq<Write>, at: seq<nat>)
    requires History(h, xs) && SnapshotFirst(h, xs) && TwoLooks(at, |h|) && LooksAgree(h, at, false)
    ensures forall k :: at[2] <= k < at[3] ==> !xs[k].ReplaceWal?
    ensures h[at[2]].wal.Some? ==> OneGeneration(h, at[2], at[3])
  {
    var i, j := at[2], at[3];
    SnapshotStood(h, xs, at[0], i, j);
    forall k | i <= k < j ensures !xs[k].ReplaceWal? && (h[i].wal.Some? ==> !xs[k].CreateWal?) {
      assert Allowed(h[k], xs[k]) && (xs[k].ReplaceWal? ==> h[k].snapshotPlaced);
      SnapshotStood(h, xs, at[0], k, j);
      SnapshotFirstWaits(h, xs, i, k);
      Forward(h, xs, i, k);
    }
    LooksVouchIffLogLeftAlone(h, xs, at);
  }

  /** A writer that replaces the log first can slip a new log past two agreeing looks, beside
      the old snapshot; with inodes the same looks disagree. */
  lemma LogFirstDefeatsLooksWithoutInodes() returns (h: seq<Dir>, xs: seq<Write>, at: seq<nat>)
    ensures History(h, xs) && TwoLooks(at, |h|) && LooksAgree(h, at, false) && !LooksAgree(h, at, true)
    ensures at[2] <= 2 <= at[3] && h[at[2]].wal.Some? && !OfGeneration(h, at[2], h[2].snapshot, h[2].wal)
  {
    var s1, s2 := Snapshot((1, 1), [1]), Snapshot((2, 2), [2]);
    xs := [BeginSnapshot, ReplaceWal(Wal(2, 0)), PlaceSnapshot(s2), ClearIntent];
    var d0 := Dir(Some(s1), Some(Wal(1, 0)), false, {(1, 1)}, {1}, false);
    var d1 := After(d0, xs[0]);
    var d2 := After(d1, xs[1]);
    var d3 := After(d2, xs[2]);
    h := [d0, d1, d2, d3, After(d3, xs[3])];
    at := [0, 0, 0, 2, 4, 4];
  }
}
