/** `create_lineage` and `create_parent` (crates/backup/src/disk.rs): write a temporary
    file, sync it, rename it into place, sync the directory. The model keeps, beside what
    programs see, every directory a crash could leave behind. */
module DurableWrite {
  import opened Common

  datatype Inode = Inode(content: string, synced: bool)

  /** The two directory entries involved: the temporary name and the real one. */
  datatype Names = Names(tmp: Option<nat>, file: Option<nat>)

  /** Where a call is. It carries the bytes it is writing. */
  datatype Pc = Idle | Created(bytes: string) | Written(bytes: string) | Synced(bytes: string) | Renamed(bytes: string)

  /** `names` is what programs see. `possible` is every directory that some subset of the
      directory changes since the last directory sync leads to. `base` is what the file held
      when the last durable call returned, `tried` the bytes of the calls since. */
  datatype Disk = Disk(
    inodes: map<nat, Inode>, names: Names, possible: set<Names>, pc: Pc,
    base: Option<string>, tried: set<string>)

  datatype Step =
    | Create(bytes: string, ino: nat)
    | WritePart(content: string)
    | WriteAll
    | SyncFile
    | Rename
    | ReturnOk
    | Fail
    | Crash(names: Names, garbage: map<nat, string>)

  function Link(d: Names, ino: nat): Names { d.(tmp := Some(ino)) }
  function Moved(ino: nat): Names { Names(None, Some(ino)) }

  /** Each unsynced directory change may or may not survive, each independently. */
  function WithChange(possible: set<Names>, changed: set<Names>): set<Names> {
    possible + changed
  }

  function Content(y: Disk, d: Names): Option<string> {
    if d.file.Some? && d.file.value in y.inodes then Some(y.inodes[d.file.value].content) else None
  }

  predicate Legal(y: Disk, step: Step) {
    match step
    case Create(_, ino) => y.pc.Idle? && (y.names.tmp.None? ==> ino !in y.inodes)
    case WritePart(_) => y.pc.Created? && y.names.tmp.Some? && y.names.tmp.value in y.inodes
    case WriteAll => y.pc.Created? && y.names.tmp.Some? && y.names.tmp.value in y.inodes
    case SyncFile => y.pc.Written? && y.names.tmp.Some? && y.names.tmp.value in y.inodes
    case Rename => y.pc.Synced? && y.names.tmp.Some?
    case ReturnOk => y.pc.Renamed?
    case Fail => !y.pc.Idle?
    case Crash(names, garbage) => names in y.possible && y.inodes.Keys <= garbage.Keys
  }

  /** `File::create` truncates the temporary file a crash may have left behind. A crash
      keeps synced contents and replaces unsynced ones by anything at all. */
  function Next(unix: bool, y: Disk, step: Step): Disk
    requires Legal(y, step)
  {
    match step
    case Create(bytes, unused) =>
      var ino := if y.names.tmp.Some? then y.names.tmp.value else unused;
      y.(inodes := y.inodes[ino := Inode("", false)],
         names := Link(y.names, ino),
         possible := WithChange(y.possible, set d | d in y.possible :: Link(d, ino)),
         pc := Created(bytes), tried := y.tried + {bytes})
    case WritePart(content) => y.(inodes := y.inodes[y.names.tmp.value := Inode(content, false)])
    case WriteAll => y.(inodes := y.inodes[y.names.tmp.value := Inode(y.pc.bytes, false)], pc := Written(y.pc.bytes))
    case SyncFile =>
      y.(inodes := y.inodes[y.names.tmp.value := y.inodes[y.names.tmp.value].(synced := true)], pc := Synced(y.pc.bytes))
    case Rename =>
      y.(names := Moved(y.names.tmp.value),
         possible := WithChange(y.possible, {Moved(y.names.tmp.value)}), pc := Renamed(y.pc.bytes))
    case ReturnOk =>
      if unix then y.(possible := {y.names}, pc := Idle, base := Some(y.pc.bytes), tried := {}) else y.(pc := Idle)
    case Fail => y.(pc := Idle)
    case Crash(names, garbage) =>
      y.(inodes := map n | n in y.inodes :: Inode(if y.inodes[n].synced then y.inodes[n].content else garbage[n], true),
         names := names, possible := {names}, pc := Idle)
  }

  function Run(unix: bool, y: Disk, steps: seq<Step>): Option<Disk> {
    if steps == [] then Some(y) else
    var before := Run(unix, y, steps[..|steps| - 1]);
    if before.Some? && Legal(before.value, steps[|steps| - 1])
    then Some(Next(unix, before.value, steps[|steps| - 1])) else None
  }

  // ---- the call itself -----------------------------------------------------

  class Directory {
    const unix: bool
    var y: Disk

    constructor (unix: bool, y: Disk)
      ensures this.unix == unix && this.y == y
    {
      this.unix, this.y := unix, y;
    }

    /** One uninterrupted call: its effects in their order. The file then holds the bytes,
        whole, and on Unix nothing is left that a crash could lose. */
    method CreateFile(bytes: string, ino: nat)
      requires y.pc.Idle? && (y.names.tmp.None? ==> ino !in y.inodes)
      modifies this
      ensures Run(unix, old(y), WholeCall(bytes, ino)) == Some(y)
      ensures y.pc.Idle? && y.names.tmp == None && Content(y, y.names) == Some(bytes)
      ensures Inv(old(y)) ==> Inv(y) && (unix ==> AtRest(y))
    {
      CallRuns(unix, y, bytes, ino);
      CallKeeps(unix, y, bytes, ino);
      y := Next(unix, y, Create(bytes, ino));
      y := Next(unix, y, WriteAll);
      y := Next(unix, y, SyncFile);
      y := Next(unix, y, Rename);
      y := Next(unix, y, ReturnOk);
    }
  }

  function WholeCall(bytes: string, ino: nat): seq<Step> {
    [Create(bytes, ino), WriteAll, SyncFile, Rename, ReturnOk]
  }

  /** The disk when the call is about to return. */
  function BeforeReturn(unix: bool, y: Disk, bytes: string, ino: nat): (z: Disk)
    requires y.pc.Idle? && (y.names.tmp.None? ==> ino !in y.inodes)
    ensures z.pc == Renamed(bytes) && z.names.tmp == None && Content(z, z.names) == Some(bytes)
  {
    Next(unix, Next(unix, Next(unix, Next(unix, y, Create(bytes, ino)), WriteAll), SyncFile), Rename)
  }

  lemma CallRuns(unix: bool, y: Disk, bytes: string, ino: nat)
    requires y.pc.Idle? && (y.names.tmp.None? ==> ino !in y.inodes)
    ensures Run(unix, y, WholeCall(bytes, ino)) == Some(Next(unix, BeforeReturn(unix, y, bytes, ino), ReturnOk))
    ensures Run(unix, y, [Create(bytes, ino), WriteAll, SyncFile, Rename]) == Some(BeforeReturn(unix, y, bytes, ino))
  {
    var y1 := Next(unix, y, Create(bytes, ino));
    var y2 := Next(unix, y1, WriteAll);
    var y3 := Next(unix, y2, SyncFile);
    var s1 := RunExtends(unix, y, [], y, Create(bytes, ino));
    var s2 := RunExtends(unix, y, s1, y1, WriteAll);
    var s3 := RunExtends(unix, y, s2, y2, SyncFile);
    var s4 := RunExtends(unix, y, s3, y3, Rename);
    var s5 := RunExtends(unix, y, s4, BeforeReturn(unix, y, bytes, ino), ReturnOk);
    assert s4 == [Create(bytes, ino), WriteAll, SyncFile, Rename] && s5 == WholeCall(bytes, ino);
  }

  lemma CallKeeps(unix: bool, y: Disk, bytes: string, ino: nat)
    requires y.pc.Idle? && (y.names.tmp.None? ==> ino !in y.inodes)
    ensures var z := Next(unix, BeforeReturn(unix, y, bytes, ino), ReturnOk);
            Inv(y) ==> Inv(z) && (unix ==> AtRest(z))
  {
    if Inv(y) {
      CallRuns(unix, y, bytes, ino);
      EveryRunKeepsInv(unix, y, [Create(bytes, ino), WriteAll, SyncFile, Rename]);
      EveryRunKeepsInv(unix, y, WholeCall(bytes, ino));
      if unix { ReturnsAtRest(BeforeReturn(unix, y, bytes, ino)); }
    }
  }

  lemma RunExtends(unix: bool, y: Disk, steps: seq<Step>, z: Disk, step: Step) returns (longer: seq<Step>)
    requires Run(unix, y, steps) == Some(z) && Legal(z, step)
    ensures longer == steps + [step] && Run(unix, y, longer) == Some(Next(unix, z, step))
  {
    longer := steps + [step];
    assert longer[..|steps|] == steps;
  }

  // ---- what every step keeps -----------------------------------------------

  /** The real name leads to a complete, synced file written by an admissible call. */
  ghost predicate FileWhole(y: Disk, d: Names) {
    && (d.file.Some? ==> d.file.value in y.inodes && y.inodes[d.file.value].synced)
    && (Content(y, d) == y.base || (Content(y, d).Some? && Content(y, d).value in y.tried))
  }

  /** The temporary name never leads to the file in place. */
  ghost predicate TmpApart(y: Disk, d: Names) {
    d.tmp.Some? ==> d.tmp.value in y.inodes && d.tmp != d.file
  }

  ghost predicate CallOk(y: Disk) {
    match y.pc
    case Idle => true
    case Created(b) => y.names.tmp.Some? && b in y.tried
    case Written(b) => y.names.tmp.Some? && b in y.tried && y.names.tmp.value in y.inodes && y.inodes[y.names.tmp.value].content == b
    case Synced(b) => y.names.tmp.Some? && b in y.tried && y.names.tmp.value in y.inodes && y.inodes[y.names.tmp.value] == Inode(b, true)
    case Renamed(b) => Content(y, y.names) == Some(b)
  }

  ghost predicate Inv(y: Disk) {
    && y.names in y.possible
    && (forall d <- y.possible :: FileWhole(y, d) && TmpApart(y, d))
    && (y.names.tmp.Some? ==> forall d <- y.possible :: d.file != y.names.tmp)
    && CallOk(y)
  }

  lemma CreateKeepsInv(unix: bool, y: Disk, step: Step)
    requires Inv(y) && step.Create? && Legal(y, step)
    ensures Inv(Next(unix, y, step))
  {
    var y' := Next(unix, y, step);
    var ino := if y.names.tmp.Some? then y.names.tmp.value else step.ino;
    forall d | d in y.possible ensures FileWhole(y', d) && d.file != Some(ino) && TmpApart(y', d) && FileWhole(y', Link(d, ino)) {
      assert FileWhole(y, d) && TmpApart(y, d);
    }
  }

  /** Writing and syncing touch the temporary file only, which is no file in place. */
  lemma WriteKeepsInv(unix: bool, y: Disk, step: Step)
    requires Inv(y) && (step.WritePart? || step.WriteAll? || step.SyncFile?) && Legal(y, step)
    ensures Inv(Next(unix, y, step))
  {
    var y' := Next(unix, y, step);
    forall d | d in y.possible ensures FileWhole(y', d) && TmpApart(y', d) {
      assert FileWhole(y, d) && TmpApart(y, d);
    }
  }

  lemma RenameKeepsInv(unix: bool, y: Disk)
    requires Inv(y) && Legal(y, Rename)
    ensures Inv(Next(unix, y, Rename))
  {
    var y' := Next(unix, y, Rename);
    forall d | d in y.possible ensures FileWhole(y', d) && TmpApart(y', d) {
      assert FileWhole(y, d) && TmpApart(y, d);
    }
  }

  lemma CrashKeepsInv(unix: bool, y: Disk, step: Step)
    requires Inv(y) && step.Crash? && Legal(y, step)
    ensures Inv(Next(unix, y, step))
  {
    assert FileWhole(y, step.names) && TmpApart(y, step.names);
  }

  lemma StepKeepsInv(unix: bool, y: Disk, step: Step)
    requires Inv(y) && Legal(y, step)
    ensures Inv(Next(unix, y, step))
  {
    match step
    case Create(_, _) => CreateKeepsInv(unix, y, step);
    case WritePart(_) => WriteKeepsInv(unix, y, step);
    case WriteAll => WriteKeepsInv(unix, y, step);
    case SyncFile => WriteKeepsInv(unix, y, step);
    case Rename => RenameKeepsInv(unix, y);
    case ReturnOk =>
      var y' := Next(unix, y, step);
      assert forall d <- y'.possible :: FileWhole(y, d) && TmpApart(y, d);
      assert forall d <- y'.possible :: FileWhole(y', d) && TmpApart(y', d);
    case Fail =>
      var y' := Next(unix, y, step);
      assert forall d <- y'.possible :: FileWhole(y, d) && TmpApart(y, d);
      assert forall d <- y'.possible :: FileWhole(y', d) && TmpApart(y', d);
    case Crash(_, _) => CrashKeepsInv(unix, y, step);
  }

  /** Every sequence of calls and crashes, at whatever point they strike. */
  lemma {:induction false} EveryRunKeepsInv(unix: bool, y: Disk, steps: seq<Step>)
    requires Inv(y)
    ensures var r := Run(unix, y, steps); r.Some? ==> Inv(r.value)
  {
    if steps != [] {
      EveryRunKeepsInv(unix, y, steps[..|steps| - 1]);
      var before := Run(unix, y, steps[..|steps| - 1]);
      if before.Some? && Legal(before.value, steps[|steps| - 1]) {
        StepKeepsInv(unix, before.value, steps[|steps| - 1]);
      }
    }
  }

  /** A directory at rest: nothing unsynced, no call under way. */
  ghost predicate AtRest(y: Disk) {
    && y.pc.Idle? && y.possible == {y.names} && y.tried == {} && y.base == Content(y, y.names)
    && (y.names.file.Some? ==> y.names.file.value in y.inodes && y.inodes[y.names.file.value].synced)
    && TmpApart(y, y.names)
  }

  ghost predicate WasCalledWith(steps: seq<Step>, bytes: string) {
    exists s <- steps :: s.Create? && s.bytes == bytes
  }

  /** What the bookkeeping of `z` says happened in `steps`, starting from `base`. */
  ghost predicate BooksFit(base: Option<string>, z: Disk, steps: seq<Step>) {
    && (forall b <- z.tried :: WasCalledWith(steps, b))
    && (z.base == base || (z.base.Some? && WasCalledWith(steps, z.base.value)))
    && (!z.pc.Idle? ==> WasCalledWith(steps, z.pc.bytes))
  }

  lemma BooksGrow(unix: bool, base: Option<string>, z: Disk, steps: seq<Step>, step: Step)
    requires BooksFit(base, z, steps) && Legal(z, step)
    ensures BooksFit(base, Next(unix, z, step), steps + [step])
  {
    var longer := steps + [step];
    forall b | WasCalledWith(steps, b) ensures WasCalledWith(longer, b) {
      var s :| s in steps && s.Create? && s.bytes == b;
      assert s in longer;
    }
    assert step in longer;
  }

  /** The bookkeeping names nothing but the bytes of calls that were made. */
  lemma {:induction false} BooksAreCalls(unix: bool, y: Disk, steps: seq<Step>)
    requires AtRest(y)
    ensures var r := Run(unix, y, steps); r.Some? ==> BooksFit(y.base, r.value, steps)
  {
    if steps != [] {
      var rest, last := steps[..|steps| - 1], steps[|steps| - 1];
      BooksAreCalls(unix, y, rest);
      assert steps == rest + [last];
      var before := Run(unix, y, rest);
      if before.Some? && Legal(before.value, last) {
        BooksGrow(unix, y.base, before.value, rest, last);
      }
    }
  }

  /** Never a partial file: whatever calls were made and wherever a crash strikes, the file
      holds what it held at first or exactly the bytes of one of the calls; and no older
      content than the last durable call left there. */
  lemma FileIsNeverPartial(unix: bool, y: Disk, steps: seq<Step>)
    requires AtRest(y) && Run(unix, y, steps).Some?
    ensures var z := Run(unix, y, steps).value;
            forall d <- z.possible + {z.names} ::
              && (Content(z, d) == z.base || (Content(z, d).Some? && Content(z, d).value in z.tried))
              && (Content(z, d) == Content(y, y.names) || (Content(z, d).Some? && WasCalledWith(steps, Content(z, d).value)))
  {
    EveryRunKeepsInv(unix, y, steps);
    BooksAreCalls(unix, y, steps);
    var z := Run(unix, y, steps).value;
    assert forall d <- z.possible :: FileWhole(z, d);
  }

  /** On Unix a call that returns leaves nothing to lose: whatever came before it, the
      directory is at rest and holds its bytes. */
  lemma ReturnsAtRest(z: Disk)
    requires Inv(z) && z.pc.Renamed?
    ensures var r := Next(true, z, ReturnOk);
            Inv(r) && AtRest(r) && Content(r, r.names) == Some(z.pc.bytes)
  {
    StepKeepsInv(true, z, ReturnOk);
    assert FileWhole(z, z.names) && TmpApart(z, z.names);
  }

  /** On Unix a call that returned Ok survives every later crash: from then on, through any
      failures, crashes and further calls, finished or cut short, the file holds its bytes
      or exactly those of a later call. */
  lemma OkSurvivesOnUnix(y: Disk, steps: seq<Step>, later: seq<Step>)
    requires AtRest(y) && Run(true, y, steps).Some? && Run(true, y, steps).value.pc.Renamed?
    ensures var z := Run(true, y, steps).value;
            var r := Run(true, Next(true, z, ReturnOk), later);
            r.Some? ==>
              forall d <- r.value.possible + {r.value.names} ::
                Content(r.value, d).Some? && (Content(r.value, d).value == z.pc.bytes || WasCalledWith(later, Content(r.value, d).value))
  {
    var z := Run(true, y, steps).value;
    EveryRunKeepsInv(true, y, steps);
    ReturnsAtRest(z);
    if Run(true, Next(true, z, ReturnOk), later).Some? {
      FileIsNeverPartial(true, Next(true, z, ReturnOk), later);
    }
  }

  /** Elsewhere it need not: without the directory sync the rename itself can be lost. */
  lemma OkCanBeLostElsewhere(bytes: string)
    ensures var y := Disk(map[], Names(None, None), {Names(None, None)}, Idle, None, {});
            && AtRest(y)
            && Run(false, y, WholeCall(bytes, 0)).Some?
            && var z := Run(false, y, WholeCall(bytes, 0)).value;
               && Content(z, z.names) == Some(bytes)
               && Legal(z, Crash(Names(None, None), map[0 := ""]))
               && var w := Next(false, z, Crash(Names(None, None), map[0 := ""]));
                  Content(w, w.names) == None
  {
    var y := Disk(map[], Names(None, None), {Names(None, None)}, Idle, None, {});
    CallRuns(false, y, bytes, 0);
  }

  // ---- what readers see ----------------------------------------------------

  /** Rust's `char::is_whitespace`. */
  predicate IsWhite(c: char) {
    || '\t' <= c <= '\r' || c == ' ' || c == '\U{85}' || c == '\U{A0}' || c == '\U{1680}'
    || '\U{2000}' <= c <= '\U{200A}' || c == '\U{2028}' || c == '\U{2029}' || c == '\U{202F}'
    || c == '\U{205F}' || c == '\U{3000}'
  }

  function Trim(s: string): (r: string)
    ensures r == "" || (!IsWhite(r[0]) && !IsWhite(r[|r| - 1]))
    decreases |s|
  {
    if s == "" then s
    else if IsWhite(s[0]) then Trim(s[1..])
    else if IsWhite(s[|s| - 1]) then Trim(s[..|s| - 1])
    else s
  }

  /** `read_lineage`: the trimmed text, if any is left. */
  function ReadLineage(content: Option<string>): Option<string> {
    if content.None? || Trim(content.value) == "" then None else Some(Trim(content.value))
  }

  /** Blanks, tabs and line ends are white space; no letter, digit or dash of an id is. */
  lemma WhiteSpace(c: char)
    ensures c == ' ' || c == '\t' || c == '\n' || c == '\r' ==> IsWhite(c)
    ensures 'a' <= c <= 'z' || 'A' <= c <= 'Z' || '0' <= c <= '9' || c == '-' || c == '_' ==> !IsWhite(c)
  {
  }

  ghost predicate AllWhite(s: string) { forall i :: 0 <= i < |s| ==> IsWhite(s[i]) }

  /** Trimming cuts white space off both ends and nothing else. */
  lemma {:induction false} TrimCuts(s: string) returns (front: string, back: string)
    ensures AllWhite(front) && AllWhite(back) && s == front + Trim(s) + back
    decreases |s|
  {
    if s == "" {
      front, back := "", "";
    } else if IsWhite(s[0]) {
      var f, b := TrimCuts(s[1..]);
      front, back := [s[0]] + f, b;
      assert s == [s[0]] + s[1..];
    } else if IsWhite(s[|s| - 1]) {
      var f, b := TrimCuts(s[..|s| - 1]);
      front, back := f, b + [s[|s| - 1]];
      assert s == s[..|s| - 1] + [s[|s| - 1]];
    } else {
      front, back := "", "";
    }
  }

  /** A store has no lineage exactly if the file is absent or blank; otherwise it is the part
      of the file between the white space. */
  lemma LineageMeans(content: Option<string>)
    ensures ReadLineage(content).None? <==> content.None? || AllWhite(content.value)
    ensures ReadLineage(content).Some? ==> ReadLineage(content).value == Trim(content.value) && ReadLineage(content).value != ""
  {
    if content.Some? {
      var s := content.value;
      var front, back := TrimCuts(s);
      if Trim(s) == "" {
        assert s == front + back;
      } else {
        assert s[|front|] == Trim(s)[0];
      }
    }
  }

  /** Reading gives back the id that was written if and only if it is not empty and has
      no white space at either end. */
  lemma LineageRoundTrip(id: string)
    ensures ReadLineage(Some(id)) == Some(id) <==> id != "" && !IsWhite(id[0]) && !IsWhite(id[|id| - 1])
  {
  }

  /** After any calls and crashes the store names its previous lineage or exactly the
      trimmed id of one of the calls. */
  lemma LineageIsOldOrNew(unix: bool, y: Disk, steps: seq<Step>)
    requires AtRest(y) && Run(unix, y, steps).Some?
    ensures var z := Run(unix, y, steps).value;
            forall d <- z.possible + {z.names} ::
              || ReadLineage(Content(z, d)) == ReadLineage(Content(y, y.names))
              || exists id :: WasCalledWith(steps, id) && ReadLineage(Content(z, d)) == ReadLineage(Some(id))
  {
    FileIsNeverPartial(unix, y, steps);
    var z := Run(unix, y, steps).value;
    forall d | d in z.possible + {z.names} && Content(z, d) != Content(y, y.names)
      ensures exists id :: WasCalledWith(steps, id) && ReadLineage(Content(z, d)) == ReadLineage(Some(id))
    {
      var id := Content(z, d).value;
      assert WasCalledWith(steps, id) && Content(z, d) == Some(id);
    }
  }

  // ---- the parent record ---------------------------------------------------

  /** Every call writes the encoding of some record, as `create_parent` does. */
  ghost predicate WritesRecords<Record(!new)>(encode: Record -> string, steps: seq<Step>) {
    forall s <- steps :: s.Create? ==> exists r :: s.bytes == encode(r)
  }

  /** `read_parent`: nothing for a file that does not decode. */
  function ReadParent<Record>(decode: string -> Option<Record>, content: Option<string>): Option<Record> {
    if content.None? then None else decode(content.value)
  }

  lemma CalledWithRecord<Record(!new)>(encode: Record -> string, decode: string -> Option<Record>, steps: seq<Step>, bytes: string)
    requires (forall r :: decode(encode(r)) == Some(r)) && WritesRecords(encode, steps) && WasCalledWith(steps, bytes)
    ensures exists r :: WasCalledWith(steps, encode(r)) && decode(bytes) == Some(r)
  {
    var s :| s in steps && s.Create? && s.bytes == bytes;
    var r :| s.bytes == encode(r);
  }

  /** For any encoding that decodes what it encodes: after any calls and crashes the record
      read is the one there was, or exactly that of one of the calls. */
  lemma ParentIsOldOrNew<Record(!new)>(encode: Record -> string, decode: string -> Option<Record>, unix: bool, y: Disk, steps: seq<Step>)
    requires (forall r :: decode(encode(r)) == Some(r)) && WritesRecords(encode, steps)
    requires AtRest(y) && Run(unix, y, steps).Some?
    ensures var z := Run(unix, y, steps).value;
            forall d <- z.possible + {z.names} ::
              || ReadParent(decode, Content(z, d)) == ReadParent(decode, Content(y, y.names))
              || exists r :: WasCalledWith(steps, encode(r)) && ReadParent(decode, Content(z, d)) == Some(r)
  {
    FileIsNeverPartial(unix, y, steps);
    var z := Run(unix, y, steps).value;
    forall d | d in z.possible + {z.names} && Content(z, d) != Content(y, y.names)
      ensures exists r :: WasCalledWith(steps, encode(r)) && ReadParent(decode, Content(z, d)) == Some(r)
    {
      CalledWithRecord(encode, decode, steps, Content(z, d).value);
    }
  }

  /** And on Unix, once a call has returned Ok, its record or exactly that of a later call. */
  lemma ParentSurvivesOnUnix<Record(!new)>(encode: Record -> string, decode: string -> Option<Record>, record: Record,
                                           y: Disk, steps: seq<Step>, later: seq<Step>)
    requires (forall r :: decode(encode(r)) == Some(r)) && WritesRecords(encode, later)
    requires AtRest(y) && Run(true, y, steps).Some? && Run(true, y, steps).value.pc == Renamed(encode(record))
    ensures var r := Run(true, Next(true, Run(true, y, steps).value, ReturnOk), later);
            r.Some? ==>
              forall d <- r.value.possible + {r.value.names} ::
                || ReadParent(decode, Content(r.value, d)) == Some(record)
                || exists q :: WasCalledWith(later, encode(q)) && ReadParent(decode, Content(r.value, d)) == Some(q)
  {
    var z := Run(true, y, steps).value;
    EveryRunKeepsInv(true, y, steps);
    ReturnsAtRest(z);
    if Run(true, Next(true, z, ReturnOk), later).Some? {
      ParentIsOldOrNew(encode, decode, true, Next(true, z, ReturnOk), later);
    }
  }
}
