/** The installer's reader of ustar archives (packaging/npm/install.js) against a writer of
    the "ustar Interchange Format" (the pax utility of POSIX.1-2017). Contents are the
    decompressed bytes. */
module Tarball {
  import opened Common

  type Byte = x: int | 0 <= x < 256
  type Bytes = seq<Byte>

  const BLOCK: nat := 512
  const SLASH: Byte := 47
  const DOT: Byte := 46

  function Zeros(n: nat): (r: Bytes)
    ensures |r| == n && forall i :: 0 <= i < n ==> r[i] == 0
  {
    seq(n, _ => 0)
  }

  predicate AllZero(s: Bytes) { forall i :: 0 <= i < |s| ==> s[i] == 0 }

  /** `Math.ceil(size / 512) * 512`. */
  function RoundUp(size: nat): (r: nat)
    ensures size <= r < size + BLOCK && r % BLOCK == 0
  {
    (size + 511) / 512 * 512
  }

  // ---- the reader ----------------------------------------------------------

  /** Where `.` of the name's pattern would stop: a line terminator, in UTF-8. */
  predicate LineBreakAt(s: Bytes, i: nat)
    requires i < |s|
  {
    s[i] == 10 || s[i] == 13
    || (i + 2 < |s| && s[i] == 0xE2 && s[i + 1] == 0x80 && (s[i + 2] == 0xA8 || s[i + 2] == 0xA9))
  }

  /** The name with `/\0.*$/` cut off: from the first NUL that no line terminator follows. */
  function CutName(field: Bytes): Bytes {
    if field == [] then []
    else if field[0] == 0 && forall i: nat :: 1 <= i < |field| ==> !LineBreakAt(field, i) then []
    else [field[0]] + CutName(field[1..])
  }

  predicate IsBlank(b: Byte) { 9 <= b <= 13 || b == 32 }
  predicate IsOctal(b: Byte) { 48 <= b <= 55 }

  function SkipBlanks(s: Bytes): Bytes {
    if s != [] && IsBlank(s[0]) then SkipBlanks(s[1..]) else s
  }

  /** `parseInt(s, 8) || 0`: the leading octal digits. What `trim` takes from the end of the
      field, `parseInt` would not have read. */
  function ParseOctal(s: Bytes, acc: nat): nat {
    if s == [] || !IsOctal(s[0]) then acc else ParseOctal(s[1..], 8 * acc + (s[0] - 48))
  }

  function EntryName(header: Bytes): Bytes
    requires |header| == BLOCK
  {
    CutName(header[..100])
  }

  function EntrySize(header: Bytes): nat
    requires |header| == BLOCK
  {
    ParseOctal(SkipBlanks(header[124..136]), 0)
  }

  predicate IsRegular(header: Bytes)
    requires |header| == BLOCK
  {
    var flag := if header[156] == 0 then 48 else header[156];
    flag == 48
  }

  predicate Answers(entry: Bytes, name: Bytes) {
    entry == name || entry == [DOT, SLASH] + name
  }

  function Drop(s: Bytes, n: nat): Bytes {
    if n <= |s| then s[n..] else []
  }

  /** What the reader finds from a header on. */
  function Find(rest: Bytes, name: Bytes): Option<Bytes>
    decreases |rest|
  {
    if |rest| < BLOCK || AllZero(rest[..BLOCK]) then None else
    var header, body := rest[..BLOCK], rest[BLOCK..];
    var size := EntrySize(header);
    if IsRegular(header) && Answers(EntryName(header), name) then
      if size > |body| then None else Some(body[..size])
    else Find(Drop(body, RoundUp(size)), name)
  }

  /** `fileFromTarball`. */
  method FileFromTarball(tar: Bytes, name: Bytes) returns (file: Option<Bytes>)
    ensures file == Find(tar, name)
    ensures forall es, tail, n: nat ::
              tar == Truncated(es, tail, n) && WellFormed(es) && EndsArchive(tail) ==>
              file == Expected(es, n, name)
  {
    file := Search(tar, name);
    forall es, tail, n: nat | tar == Truncated(es, tail, n) && WellFormed(es) && EndsArchive(tail)
      ensures file == Expected(es, n, name)
    {
      CutArchive(es, tail, n, name);
    }
  }

  /** One turn of the loop: what is found at this header, or where the next one is. */
  method LookAt(tar: Bytes, at: nat, name: Bytes) returns (next: Option<nat>, file: Option<Bytes>)
    requires at + BLOCK <= |tar|
    ensures next.None? ==> file == Find(Drop(tar, at), name)
    ensures next.Some? ==> next.value > at && Find(Drop(tar, next.value), name) == Find(Drop(tar, at), name)
  {
    var header := tar[at..at + BLOCK];
    ghost var rest := tar[at..];
    assert rest[..BLOCK] == header;
    if AllZero(header) { return None, None; }
    var entry, size := EntryName(header), EntrySize(header);
    var body := at + BLOCK;
    assert rest[BLOCK..] == tar[body..];
    if IsRegular(header) && Answers(entry, name) {
      if body + size > |tar| { return None, None; }
      assert tar[body..][..size] == tar[body..body + size];
      return None, Some(tar[body..body + size]);
    }
    next, file := Some(body + RoundUp(size)), None;
    assert Drop(tar[body..], RoundUp(size)) == Drop(tar, next.value);
  }

  method Search(tar: Bytes, name: Bytes) returns (file: Option<Bytes>)
    ensures file == Find(tar, name)
  {
    var at := 0;
    ghost var goal := Find(tar, name);
    assert Drop(tar, 0) == tar;
    while at + BLOCK <= |tar|
      invariant Find(Drop(tar, at), name) == goal
      decreases |tar| - at
    {
      var next, found := LookAt(tar, at, name);
      if next.None? { return found; }
      at := next.value;
    }
    assert Find(Drop(tar, at), name) == None;
    return None;
  }

  // ---- the writer ----------------------------------------------------------

  /** An entry. `other` holds the header fields the reader does not look at: mode, owner and
      group; then time and checksum; then link name, magic, owner names and device. */
  datatype Entry = Entry(prefix: Bytes, name: Bytes, flag: Byte, terminator: Bytes,
                         other1: Bytes, other2: Bytes, other3: Bytes, body: Bytes)

  function Pow8(w: nat): nat { if w == 0 then 1 else 8 * Pow8(w - 1) }

  /** Zero-filled octal digits, as many as asked. */
  function Octal(n: nat, width: nat): (r: Bytes)
    ensures |r| == width
  {
    if width == 0 then [] else Octal(n / 8, width - 1) + [48 + n % 8]
  }

  ghost predicate NulFree(s: Bytes) { forall i :: 0 <= i < |s| ==> s[i] != 0 }

  ghost predicate Good(e: Entry) {
    && NulFree(e.name) && |e.name| <= 100
    && |e.prefix| <= 155
    && 1 <= |e.terminator| < 12 && (forall i :: 0 <= i < |e.terminator| ==> e.terminator[i] == 0 || e.terminator[i] == 32)
    && |e.body| < Pow8(12 - |e.terminator|)
    && |e.other1| == 24 && |e.other2| == 20 && |e.other3| == 188
  }

  ghost predicate WellFormed(es: seq<Entry>) { forall e <- es :: Good(e) }

  function SizeField(e: Entry): Bytes
    requires |e.terminator| < 12
  {
    Octal(|e.body|, 12 - |e.terminator|) + e.terminator
  }

  function Header(e: Entry): (r: Bytes)
    requires Good(e)
    ensures |r| == BLOCK
  {
    e.name + Zeros(100 - |e.name|) + e.other1 + SizeField(e) + e.other2 + [e.flag] + e.other3
    + e.prefix + Zeros(155 - |e.prefix|) + Zeros(12)
  }

  function EntryBytes(e: Entry): (r: Bytes)
    requires Good(e)
    ensures |r| == BLOCK + RoundUp(|e.body|)
  {
    Header(e) + e.body + Zeros(RoundUp(|e.body|) - |e.body|)
  }

  function Archive(es: seq<Entry>): Bytes
    requires WellFormed(es)
  {
    if es == [] then [] else EntryBytes(es[0]) + Archive(es[1..])
  }

  /** What may follow the entries: a zero block and anything after it, or less than a block. */
  ghost predicate EndsArchive(tail: Bytes) {
    |tail| < BLOCK || AllZero(tail[..BLOCK])
  }

  /** The first `n` bytes of an archive. */
  ghost function Truncated(es: seq<Entry>, tail: Bytes, n: nat): Bytes {
    if !WellFormed(es) then [] else Cut(Archive(es) + tail, n)
  }

  function Cut(all: Bytes, n: nat): Bytes {
    if n <= |all| then all[..n] else all
  }

  predicate Regular(e: Entry) { e.flag == 0 || e.flag == 48 }

  /** The entry the reader is after. */
  predicate Selected(e: Entry, name: Bytes) { Regular(e) && Answers(e.name, name) }

  function Wanted(es: seq<Entry>, name: Bytes): Option<Bytes> {
    if es == [] then None else if Selected(es[0], name) then Some(es[0].body) else Wanted(es[1..], name)
  }

  /** Where the wanted body ends in the archive; 0 if there is none. */
  function WantedEnd(es: seq<Entry>, name: Bytes): nat {
    if Wanted(es, name).None? then 0
    else if Selected(es[0], name) then BLOCK + |es[0].body|
    else BLOCK + RoundUp(|es[0].body|) + WantedEnd(es[1..], name)
  }

  // ---- header fields -------------------------------------------------------

  lemma {:induction false} CutNameInverts(name: Bytes, pad: nat)
    requires NulFree(name)
    ensures CutName(name + Zeros(pad)) == name
  {
    var field := name + Zeros(pad);
    if name == [] {
      assert field == Zeros(pad);
    } else {
      assert field[1..] == name[1..] + Zeros(pad);
      CutNameInverts(name[1..], pad);
    }
  }

  ghost predicate HasLineBreak(s: Bytes) { exists i: nat :: i < |s| && LineBreakAt(s, i) }

  /** Behind a NUL a field may hold anything; it is cut there unless a line terminator follows. */
  lemma {:induction false} CutAtNul(name: Bytes, junk: Bytes)
    requires NulFree(name)
    ensures !HasLineBreak(junk) ==> CutName(name + [0] + junk) == name
    ensures HasLineBreak(junk) ==> name + [0] <= CutName(name + [0] + junk)
  {
    var field := name + [0] + junk;
    if name == [] {
      assert field == [0] + junk && field[1..] == junk;
      assert forall i: nat :: 1 <= i < |field| ==> (LineBreakAt(field, i) <==> LineBreakAt(junk, i - 1));
      if HasLineBreak(junk) {
        var i: nat :| i < |junk| && LineBreakAt(junk, i);
        assert LineBreakAt(field, i + 1);
      }
    } else {
      assert field[1..] == name[1..] + [0] + junk;
      CutAtNul(name[1..], junk);
    }
  }

  /** A field without a NUL is all name. */
  lemma {:induction false} NoNulNoCut(field: Bytes)
    requires NulFree(field)
    ensures CutName(field) == field
  {
    if field != [] { NoNulNoCut(field[1..]); }
  }

  lemma {:induction false} BlanksAreSkipped(blanks: Bytes, rest: Bytes)
    requires forall i :: 0 <= i < |blanks| ==> IsBlank(blanks[i])
    ensures SkipBlanks(blanks + rest) == SkipBlanks(rest)
  {
    if blanks == [] {
      assert blanks + rest == rest;
    } else {
      assert (blanks + rest)[1..] == blanks[1..] + rest;
      BlanksAreSkipped(blanks[1..], rest);
    }
  }

  /** Octal digits are read with any blanks before them and anything that is no such digit
      behind; a field that starts otherwise reads as zero. */
  lemma SizeReads(blanks: Bytes, n: nat, width: nat, rest: Bytes)
    requires forall i :: 0 <= i < |blanks| ==> blanks[i] == 32 || 9 <= blanks[i] <= 13
    requires n < Pow8(width) && (rest == [] || rest[0] < 48 || rest[0] > 55)
    ensures width > 0 ==> ParseOctal(SkipBlanks(blanks + (Octal(n, width) + rest)), 0) == n
    ensures ParseOctal(rest, 0) == 0
  {
    BlanksAreSkipped(blanks, Octal(n, width) + rest);
    OctalDigits(n, width);
    ParseAppends(Octal(n, width), rest, 0);
    if width > 0 { assert (Octal(n, width) + rest)[0] == Octal(n, width)[0]; }
  }

  lemma {:induction false} OctalDigits(n: nat, width: nat)
    requires n < Pow8(width)
    ensures forall i :: 0 <= i < width ==> IsOctal(Octal(n, width)[i])
    ensures ParseOctal(Octal(n, width), 0) == n
  {
    if width > 0 {
      OctalDigits(n / 8, width - 1);
      ParseAppends(Octal(n / 8, width - 1), [48 + n % 8], 0);
      assert ParseOctal([48 + n % 8], n / 8) == 8 * (n / 8) + n % 8;
    }
  }

  lemma {:induction false} ParseAppends(a: Bytes, b: Bytes, acc: nat)
    requires forall i :: 0 <= i < |a| ==> IsOctal(a[i])
    ensures ParseOctal(a + b, acc) == ParseOctal(b, ParseOctal(a, acc))
  {
    if a == [] {
      assert a + b == b;
    } else {
      assert (a + b)[1..] == a[1..] + b;
      ParseAppends(a[1..], b, 8 * acc + (a[0] - 48));
    }
  }

  /** A size written in octal is read back, whatever terminates the field. */
  lemma SizeRoundTrip(e: Entry)
    requires Good(e)
    ensures |SizeField(e)| == 12 && IsOctal(SizeField(e)[0])
    ensures ParseOctal(SkipBlanks(SizeField(e)), 0) == |e.body|
  {
    var digits := Octal(|e.body|, 12 - |e.terminator|);
    OctalDigits(|e.body|, 12 - |e.terminator|);
    assert SizeField(e)[0] == digits[0];
    ParseAppends(digits, e.terminator, 0);
  }

  lemma HeaderLayout(e: Entry)
    requires Good(e)
    ensures Header(e)[..100] == e.name + Zeros(100 - |e.name|)
    ensures Header(e)[124..136] == SizeField(e)
    ensures Header(e)[156] == e.flag
  {
    var a := e.name + Zeros(100 - |e.name|);
    var b := e.other3 + e.prefix + Zeros(155 - |e.prefix|) + Zeros(12);
    assert Header(e) == a + e.other1 + SizeField(e) + e.other2 + [e.flag] + b;
  }

  /** What the reader takes from a header is what the writer put there. */
  lemma HeaderRoundTrip(e: Entry)
    requires Good(e)
    ensures EntryName(Header(e)) == e.name
    ensures EntrySize(Header(e)) == |e.body|
    ensures IsRegular(Header(e)) <==> Regular(e)
    ensures !AllZero(Header(e))
  {
    HeaderLayout(e);
    CutNameInverts(e.name, 100 - |e.name|);
    SizeRoundTrip(e);
    assert Header(e)[124] == Header(e)[124..136][0];
  }

  // ---- the reader inverts the writer ---------------------------------------

  /** One entry, cut after `n` bytes. */
  lemma FindInEntry(e: Entry, rest: Bytes, n: nat, name: Bytes)
    requires Good(e) && n <= |EntryBytes(e) + rest|
    ensures var cut := (EntryBytes(e) + rest)[..n];
            Find(cut, name) ==
            if n < BLOCK then None
            else if !Selected(e, name) then Find(Drop(cut, |EntryBytes(e)|), name)
            else if n < BLOCK + |e.body| then None else Some(e.body)
  {
    var cut := (EntryBytes(e) + rest)[..n];
    if n >= BLOCK {
      HeaderRoundTrip(e);
      assert cut[..BLOCK] == Header(e);
      var body := cut[BLOCK..];
      assert Drop(body, RoundUp(|e.body|)) == Drop(cut, |EntryBytes(e)|);
      if BLOCK + |e.body| <= n {
        assert body == (e.body + Zeros(RoundUp(|e.body|) - |e.body|) + rest)[..n - BLOCK];
        assert body[..|e.body|] == e.body;
      }
    }
  }

  /** What should be found in the first `n` bytes. */
  function Expected(es: seq<Entry>, n: nat, name: Bytes): Option<Bytes> {
    if n < WantedEnd(es, name) then None else Wanted(es, name)
  }

  /** What the first entry decides, given what is found in the bytes after it. */
  function FirstDecides(e: Entry, n: nat, name: Bytes, others: Option<Bytes>): Option<Bytes> {
    if Selected(e, name) then (if n < BLOCK + |e.body| then None else Some(e.body))
    else if n < BLOCK + RoundUp(|e.body|) then None
    else others
  }

  function BytesLeft(e: Entry, n: nat): nat {
    if n < BLOCK + RoundUp(|e.body|) then 0 else n - (BLOCK + RoundUp(|e.body|))
  }

  lemma ExpectedFirst(es: seq<Entry>, n: nat, name: Bytes)
    requires es != []
    ensures Expected(es, n, name) == FirstDecides(es[0], n, name, Expected(es[1..], BytesLeft(es[0], n), name))
  {
  }

  lemma FindFirst(es: seq<Entry>, tail: Bytes, n: nat, name: Bytes)
    requires WellFormed(es) && es != []
    ensures Find(Truncated(es, tail, n), name) ==
            FirstDecides(es[0], n, name, Find(Truncated(es[1..], tail, BytesLeft(es[0], n)), name))
  {
    var m := CutFirst(es, tail, n);
    FindCut(es[0], Archive(es[1..]) + tail, m, n, name, Truncated(es, tail, n), Truncated(es[1..], tail, BytesLeft(es[0], n)));
  }

  /** The same for any cut of an entry and what follows it. */
  lemma FindCut(e: Entry, rest: Bytes, m: nat, n: nat, name: Bytes, cut: Bytes, left: Bytes)
    requires Good(e) && m <= n && m <= |EntryBytes(e) + rest| && (m < n ==> m == |EntryBytes(e) + rest|)
    requires cut == (EntryBytes(e) + rest)[..m]
    requires Drop(cut, |EntryBytes(e)|) == if n < |EntryBytes(e)| then [] else left
    ensures Find(cut, name) == FirstDecides(e, n, name, Find(left, name))
  {
    FindInEntry(e, rest, m, name);
    assert Find([], name) == None;
  }

  /** A cut of the archive is a cut of its first entry and the rest. */
  lemma CutFirst(es: seq<Entry>, tail: Bytes, n: nat) returns (m: nat)
    requires WellFormed(es) && es != []
    ensures var all := EntryBytes(es[0]) + (Archive(es[1..]) + tail);
            m <= n && m <= |all| && (m < n ==> m == |all|) && Truncated(es, tail, n) == all[..m]
    ensures var k := |EntryBytes(es[0])|;
            Drop(Truncated(es, tail, n), k) == if n < k then [] else Truncated(es[1..], tail, n - k)
  {
    var entry, others := EntryBytes(es[0]), Archive(es[1..]);
    Associate(entry, others, tail);
    m := CutSplits(entry, others + tail, n);
  }

  lemma Associate(a: Bytes, b: Bytes, c: Bytes)
    ensures (a + b) + c == a + (b + c)
  {
  }

  lemma CutSplits(entry: Bytes, rest: Bytes, n: nat) returns (m: nat)
    ensures m <= n && m <= |entry + rest| && (m < n ==> m == |entry + rest|) && Cut(entry + rest, n) == (entry + rest)[..m]
    ensures Drop(Cut(entry + rest, n), |entry|) == if n < |entry| then [] else Cut(rest, n - |entry|)
  {
    m := if n <= |entry + rest| then n else |entry + rest|;
  }

  lemma FindInTail(tail: Bytes, n: nat, name: Bytes)
    requires EndsArchive(tail)
    ensures Find(Truncated([], tail, n), name) == None
  {
    var cut := Truncated([], tail, n);
    assert Archive([]) + tail == tail;
    assert |cut| >= BLOCK ==> cut[..BLOCK] == tail[..BLOCK];
  }

  /** However many bytes of the archive there are, the reader returns the whole body of the
      first regular entry of that name when they reach its end, and nothing otherwise. */
  lemma {:induction false} CutArchive(es: seq<Entry>, tail: Bytes, n: nat, name: Bytes)
    requires WellFormed(es) && EndsArchive(tail)
    ensures Find(Truncated(es, tail, n), name) == Expected(es, n, name)
    decreases |es|
  {
    if es == [] {
      FindInTail(tail, n, name);
    } else {
      CutArchive(es[1..], tail, BytesLeft(es[0], n), name);
      FindFirst(es, tail, n, name);
      ExpectedFirst(es, n, name);
    }
  }

  lemma {:induction false} EndInside(es: seq<Entry>, tail: Bytes, name: Bytes)
    requires WellFormed(es)
    ensures WantedEnd(es, name) <= |Archive(es) + tail|
    ensures Wanted(es, name).Some? <==> WantedEnd(es, name) >= BLOCK
    ensures Wanted(es, name).None? <==> WantedEnd(es, name) == 0
  {
    if es != [] {
      EndInside(es[1..], tail, name);
    }
  }

  /** On a whole archive: the first regular entry of that name, or nothing. */
  lemma ReaderInvertsWriter(es: seq<Entry>, tail: Bytes, name: Bytes)
    requires WellFormed(es) && EndsArchive(tail)
    ensures Find(Archive(es) + tail, name) == Wanted(es, name)
  {
    var all := Archive(es) + tail;
    EndInside(es, tail, name);
    CutArchive(es, tail, |all|, name);
    assert all[..|all|] == all;
  }

  // ---- names and paths -----------------------------------------------------

  /** "ustar" and a NUL, behind the link name. */
  const MAGIC: Bytes := [117, 115, 116, 97, 114, 0]

  /** The directory in the prefix field, which is one only where the magic says so. */
  function Directory(e: Entry): Bytes {
    if |e.other3| >= 106 && e.other3[100..106] == MAGIC then e.prefix else []
  }

  /** The path an entry stands for: a long one is split over two header fields. */
  function Path(e: Entry): Bytes {
    if Directory(e) == [] then e.name else Directory(e) + [SLASH] + e.name
  }

  predicate AtTop(e: Entry, name: Bytes) { Regular(e) && Answers(Path(e), name) }

  /** The first entry that passes, or the number of entries. */
  ghost function First(es: seq<Entry>, pass: Entry -> bool): (k: nat)
    ensures k <= |es| && (forall i :: 0 <= i < k ==> !pass(es[i])) && (k < |es| ==> pass(es[k]))
  {
    if es == [] || pass(es[0]) then 0 else 1 + First(es[1..], pass)
  }

  /** A selected entry is a top-level one unless the reader overlooked its prefix. */
  lemma SelectedOrNested(e: Entry, name: Bytes)
    requires SLASH !in name
    ensures AtTop(e, name) <==> Selected(e, name) && (Directory(e) == [] || (Directory(e) == [DOT] && e.name == name))
  {
    if Directory(e) != [] {
      var path, dir := Path(e), Directory(e);
      assert path[|dir|] == SLASH && path[|dir| + 1..] == e.name && path[..|dir|] == dir;
      if path == [DOT, SLASH] + name {
        assert path[2..] == name && |dir| == 1;
      }
      if Directory(e) == [DOT] && e.name == name {
        assert path == [DOT, SLASH] + name;
      }
    }
  }

  /** Which entries the reader takes: regular ones, by type `0` or NUL, whose name field is the
      name itself or the name behind "./". */
  lemma SelectedMeans(e: Entry, name: Bytes)
    ensures Selected(e, name) <==> (e.flag == 0 || e.flag == 48) && (e.name == name || e.name == [46, 47] + name)
    ensures e.flag == 48 && e.name == [46, 47] + name ==> Wanted([e], name) == Some(e.body)
    ensures e.flag == 53 ==> Wanted([e], name) == None
  {
  }

  /** The reader stops at the first top-level file of that name exactly when the first entry
      it selects has no directory in its prefix field. */
  lemma ReadsTopLevelIff(es: seq<Entry>, name: Bytes)
    requires SLASH !in name
    ensures var k := First(es, e => Selected(e, name));
            First(es, e => AtTop(e, name)) == k <==>
            (k < |es| ==> Directory(es[k]) == [] || (Directory(es[k]) == [DOT] && es[k].name == name))
  {
    var k, top := First(es, e => Selected(e, name)), First(es, e => AtTop(e, name));
    forall e: Entry ensures AtTop(e, name) <==> Selected(e, name) && (Directory(e) == [] || (Directory(e) == [DOT] && e.name == name)) {
      SelectedOrNested(e, name);
    }
    if k < |es| && AtTop(es[k], name) {
      assert top <= k;
    }
  }

  lemma {:induction false} WantedIsFirst(es: seq<Entry>, name: Bytes)
    ensures var k := First(es, e => Selected(e, name));
            Wanted(es, name) == if k < |es| then Some(es[k].body) else None
  {
    if es != [] && !Selected(es[0], name) {
      WantedIsFirst(es[1..], name);
      var pass: Entry -> bool := e => Selected(e, name);
      assert First(es, pass) == 1 + First(es[1..], pass);
    }
  }

  /** A file further down can be taken for the top-level one: its directory is in the prefix
      field, which the reader does not look at. */
  lemma NestedFileIsTaken(e: Entry)
    requires Good(e) && Regular(e) && e.name == [109] && Directory(e) == [100]
    ensures Path(e) == [100, SLASH, 109] && !AtTop(e, [109])
    ensures Find(Archive([e]), [109]) == Some(e.body)
  {
    assert WellFormed([e]);
    ReaderInvertsWriter([e], [], [109]);
    assert Archive([e]) + [] == Archive([e]);
    assert Path(e) == [100, SLASH, 109];
    assert ([DOT, SLASH] + [109])[0] == DOT;
  }
}
