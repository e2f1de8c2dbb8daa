/** Writing a bundle, and what a runtime does with the bytes it finds behind itself. */
module Bundle {
  import opened Basics
  import opened Bytes
  import opened BundleFormat
  import opened BundleScan

  // ---- The writer ----

  /** A file being written. */
  class Output {
    var bytes: seq<Byte>

    constructor ()
      ensures bytes == []
    {
      bytes := [];
    }

    method Write(s: seq<Byte>)
      modifies this
      ensures bytes == old(bytes) + s
    {
      bytes := bytes + s;
    }
  }

  /** Copies exactly `n` bytes, in chunks of at most one buffer, or fails if there are fewer. */
  method CopyStream(src: Input, dst: Output, n: nat) returns (ok: bool)
    requires src.pos <= |src.data|
    modifies src, dst
    ensures ok <==> old(src.pos) + n <= |src.data|
    ensures src.pos <= |src.data|
    ensures ok ==> src.pos == old(src.pos) + n && dst.bytes == old(dst.bytes) + src.data[old(src.pos)..src.pos]
  {
    var left := n;
    while left > 0
      invariant 0 <= left <= n && old(src.pos) <= src.pos <= |src.data| && src.pos == old(src.pos) + (n - left)
      invariant dst.bytes == old(dst.bytes) + src.data[old(src.pos)..src.pos]
    {
      var want := if left < BUFFER_SIZE then left else BUFFER_SIZE;
      var got := src.Read(want);
      if got == [] { return false; }
      dst.Write(got);
      Joined(src.data, old(src.pos), src.pos - |got|, src.pos);
      left := left - |got|;
    }
    return true;
  }

  /** The runtime image in the executable that makes a bundle: all of it, or what stands before an old archive. */
  function ImageOf(self: seq<Byte>): Option<seq<Byte>> {
    match ReadTrailer(self)
    case NoTrailer => Some(self)
    case WrongFormat => None
    case Trailer(offset, _) => if offset <= |self| then Some(self[..offset]) else None
  }

  function Created(self: seq<Byte>, es: seq<Entry>): Option<seq<Byte>> {
    match ImageOf(self)
    case None => None
    case Some(image) => Some(Bundle(image, es))
  }

  lemma {:induction false} OneMoreEntry(es: seq<Entry>, e: Entry)
    ensures EntriesBytes(es + [e]) == EntriesBytes(es) + EntryBytes(e)
  {
    if es == [] {
      assert EntriesBytes([e][1..]) == [];
    } else {
      OneMoreEntry(es[1..], e);
      assert (es + [e])[1..] == es[1..] + [e];
    }
  }

  /** One header, and the contents copied behind it. */
  method EmitFile(dst: Output, e: Entry, chunk: nat -> nat) returns (ok: bool)
    modifies dst
    ensures ok && dst.bytes == old(dst.bytes) + EntryBytes(e)
  {
    var f := new Input(e.data, chunk);
    dst.Write(LittleEndian(|e.path|, 4));
    dst.Write(e.path);
    dst.Write(LittleEndian(|e.data|, 8));
    ok := CopyStream(f, dst, |e.data|);
    assert e.data[0..|e.data|] == e.data;
  }

  lemma EntriesUpTo(es: seq<Entry>, count: nat)
    requires count < |es|
    ensures EntriesBytes(es[..count + 1]) == EntriesBytes(es[..count]) + EntryBytes(es[count])
  {
    OneMoreEntry(es[..count], es[count]);
    assert es[..count + 1] == es[..count] + [es[count]];
  }

  method EmitEntries(es: seq<Entry>, chunk: nat -> nat, out: Output)
    modifies out
    ensures out.bytes == old(out.bytes) + EntriesBytes(es)
  {
    var count := 0;
    assert EntriesBytes(es[..0]) == [] && es[..|es|] == es;
    hide EntriesBytes, EntryBytes;
    while count < |es|
      invariant 0 <= count <= |es|
      invariant out.bytes == old(out.bytes) + EntriesBytes(es[..count])
    {
      EntriesUpTo(es, count);
      var ok := EmitFile(out, es[count], chunk);
      count := count + 1;
    }
  }

  method EmitTrailer(offset: nat, count: nat, out: Output)
    modifies out
    ensures out.bytes == old(out.bytes) + TrailerBytes(offset, count)
  {
    hide LittleEndian;
    out.Write(LittleEndian(offset, 8));
    out.Write(LittleEndian(count, 4));
    out.Write(LittleEndian(FORMAT, 4));
    out.Write(MAGIC);
  }

  /** A bundle is written front to back: the image, the head, the entries, the trailer. */
  method Create(self: Input, es: seq<Entry>, chunk: nat -> nat, out: Output) returns (ok: bool)
    requires self.pos == 0 && out.bytes == []
    modifies self, out
    ensures ok <==> Created(self.data, es).Some?
    ensures ok ==> out.bytes == Created(self.data, es).value
  {
    hide EntriesBytes, TrailerBytes, ReadTrailer;
    var offset;
    match ReadTrailer(self.data) {
      case WrongFormat => return false;
      case Trailer(off, _) => offset := off;
      case NoTrailer => offset := |self.data|;
    }
    ok := CopyStream(self, out, offset);
    if !ok { return; }
    assert out.bytes == self.data[..offset];
    out.Write(HEAD);
    EmitEntries(es, chunk, out);
    EmitTrailer(offset, |es|, out);
    return true;
  }

  // ---- The reader ----

  /** What C sees of bytes that may hold a NUL. */
  function CString(s: seq<Byte>): (c: seq<Byte>)
    ensures NulFree(c) && c <= s
  {
    if s == [] || s[0] == 0 then [] else [s[0]] + CString(s[1..])
  }

  predicate HasDotDot(s: seq<Byte>) {
    exists i {:trigger s[i]} :: 0 <= i < |s| - 1 && s[i] == 0x2E && s[i + 1] == 0x2E
  }

  /** The reader takes this path. */
  predicate Legal(path: seq<Byte>) {
    1 <= |path| < 2048 && path[0] != 0x2F && !HasDotDot(CString(path))
  }

  const NAME_LIMIT: nat := 2000

  /** The name under which the entry of this path is unpacked. */
  function UnpackedName(path: seq<Byte>): seq<Byte> {
    var c := CString(path);
    if |c| > NAME_LIMIT then c[..NAME_LIMIT] else c
  }

  datatype Step = Torn | Unpacks(entry: Entry, next: nat)

  /** What the entry at `pos` unpacks to. */
  function UnpackedAt(f: seq<Byte>, pos: nat): Step {
    match HeaderAt(f, pos)
    case None => Torn
    case Some(h) =>
      if !Legal(h.path) || h.end + h.size > |f| then Torn
      else Unpacks(Entry(UnpackedName(h.path), f[h.end..h.end + h.size]), h.end + h.size)
  }

  /** What `count` entries from `pos` on unpack to, or nothing if the archive is torn. */
  function Unpacked(f: seq<Byte>, pos: nat, count: nat): Option<seq<Entry>>
    decreases count
  {
    if count == 0 then Some([]) else
    match UnpackedAt(f, pos)
    case Torn => None
    case Unpacks(e, next) => Behind([e], Unpacked(f, next, count - 1))
  }

  /** What `files` and the rest of an archive unpack to. */
  function Behind(files: seq<Entry>, rest: Option<seq<Entry>>): Option<seq<Entry>> {
    match rest
    case None => None
    case Some(more) => Some(files + more)
  }

  /** How a runtime starts. */
  datatype Startup = Refused | Interpreter | Bundled(files: seq<Entry>)

  ghost function StartupOf(f: seq<Byte>, noArguments: bool): Startup {
    match ReadTrailer(f)
    case NoTrailer => if noArguments && HasBelievedHead(f) then Refused else Interpreter
    case WrongFormat => Refused
    case Trailer(offset, count) =>
      if !HasAt(f, offset, HEAD) then Refused else
      match Unpacked(f, offset + HEAD_LENGTH, count)
      case None => Refused
      case Some(files) => Bundled(files)
  }

  /** Unpacks the entry at `pos`. */
  method UnpackEntry(f: seq<Byte>, pos: nat, chunk: nat -> nat) returns (step: Step)
    ensures step == UnpackedAt(f, pos)
  {
    hide HeaderAt, Legal, UnpackedName;
    var h := HeaderAt(f, pos);
    if h.None? || !Legal(h.value.path) { return Torn; }
    var src := new Input(f, chunk);
    var dst := new Output();
    src.pos := h.value.end;
    var ok := CopyStream(src, dst, h.value.size);
    if !ok { return Torn; }
    return Unpacks(Entry(UnpackedName(h.value.path), dst.bytes), src.pos);
  }

  /** `files` with `e` behind them. */
  function Followed(files: seq<Entry>, e: Entry, ghost rest: Option<seq<Entry>>): (more: seq<Entry>)
    ensures Behind(more, rest) == Behind(files, Behind([e], rest))
  {
    assert rest.Some? ==> files + ([e] + rest.value) == (files + [e]) + rest.value;
    files + [e]
  }

  /** Unpacks `count` entries from `at` on. */
  method UnpackEntries(f: seq<Byte>, at: nat, count: nat, chunk: nat -> nat) returns (r: Option<seq<Entry>>)
    ensures r == Unpacked(f, at, count)
  {
    hide UnpackedAt;
    var pos, files := at, [];
    assert forall rest: seq<Entry> :: [] + rest == rest;
    for i := 0 to count
      invariant Unpacked(f, at, count) == Behind(files, Unpacked(f, pos, count - i))
    {
      var step := UnpackEntry(f, pos, chunk);
      if step.Torn? { return None; }
      files, pos := Followed(files, step.entry, Unpacked(f, step.next, count - i - 1)), step.next;
    }
    assert files + [] == files;
    return Some(files);
  }

  method Start(f: seq<Byte>, noArguments: bool, chunk: nat -> nat) returns (s: Startup)
    ensures s == StartupOf(f, noArguments)
  {
    var t := ReadTrailer(f);
    match t {
      case NoTrailer =>
        if noArguments {
          var file := new Input(f, chunk);
          var found := ScanForHead(file);
          if found { return Refused; }
        }
        return Interpreter;
      case WrongFormat => return Refused;
      case Trailer(offset, count) =>
        if !HasAt(f, offset, HEAD) { return Refused; }
        hide HasAt, Unpacked;
        var files := UnpackEntries(f, offset + HEAD_LENGTH, count, chunk);
        return if files.None? then Refused else Bundled(files.value);
    }
  }

  // ---- Round trip ----

  /** The entry's fields fit the widths the format gives them, and its path is a C string. */
  predicate Fits(e: Entry) {
    |e.path| < U32 && |e.data| < U64 && NulFree(e.path)
  }

  predicate AllFit(es: seq<Entry>) {
    forall i :: 0 <= i < |es| ==> Fits(es[i])
  }

  predicate AllLegal(es: seq<Entry>) {
    forall i :: 0 <= i < |es| ==> Legal(es[i].path)
  }

  function UnpackedEntry(e: Entry): Entry {
    Entry(UnpackedName(e.path), e.data)
  }

  function UnpackedEntries(es: seq<Entry>): (u: seq<Entry>)
    ensures |u| == |es| && forall i :: 0 <= i < |es| ==> u[i] == UnpackedEntry(es[i])
  {
    if es == [] then [] else [UnpackedEntry(es[0])] + UnpackedEntries(es[1..])
  }

  lemma {:induction false} CStringIsWhole(s: seq<Byte>)
    requires NulFree(s)
    ensures CString(s) == s
  {
    if s != [] {
      CStringIsWhole(s[1..]);
    }
  }

  /** An entry that was written reads back. */
  lemma EntryReadsBack(f: seq<Byte>, pos: nat, e: Entry)
    requires HasAt(f, pos, EntryBytes(e)) && Fits(e)
    ensures UnpackedAt(f, pos) == if Legal(e.path) then Unpacks(UnpackedEntry(e), pos + |EntryBytes(e)|) else Torn
  {
    hide Legal, HeaderAt, HeaderBytes, UnpackedName;
    HasParts(f, pos, HeaderBytes(e.path, |e.data|), e.data);
    HeaderReadsBack(f, pos, e.path, |e.data|);
  }

  /** Written entries unpack if and only if every path is legal, and then to the same contents. */
  lemma {:induction false} EntriesReadBack(f: seq<Byte>, pos: nat, es: seq<Entry>)
    requires HasAt(f, pos, EntriesBytes(es)) && AllFit(es)
    ensures Unpacked(f, pos, |es|) == if AllLegal(es) then Some(UnpackedEntries(es)) else None
    decreases |es|
  {
    hide Legal, HasAt, EntryBytes, UnpackedAt;
    if es == [] {
    } else {
      var e, rest := es[0], es[1..];
      HasParts(f, pos, EntryBytes(e), EntriesBytes(rest));
      EntryReadsBack(f, pos, e);
      EntriesReadBack(f, pos + |EntryBytes(e)|, rest);
      assert AllLegal(es) <==> Legal(e.path) && AllLegal(rest) by {
        assert forall i :: 0 < i < |es| ==> es[i] == rest[i - 1];
      }
    }
  }

  /** A bundle starts with the entries it was made from if all their paths are legal, and is refused otherwise. */
  lemma BundleReadsBack(image: seq<Byte>, es: seq<Entry>, noArguments: bool)
    requires |image| < U64 && |es| < U32 && AllFit(es)
    ensures StartupOf(Bundle(image, es), noArguments) == if AllLegal(es) then Bundled(UnpackedEntries(es)) else Refused
  {
    hide HasAt, AllLegal, AllFit, Bundle, EntriesBytes, Unpacked, UnpackedEntries, ReadTrailer;
    BundleParts(image, es);
    EntriesReadBack(Bundle(image, es), |image| + HEAD_LENGTH, es);
  }

  /** The entries come back as they were if and only if no path is longer than a name that is unpacked. */
  lemma NamesSurviveIffShort(es: seq<Entry>)
    requires AllFit(es)
    ensures UnpackedEntries(es) == es <==> forall i :: 0 <= i < |es| ==> |es[i].path| <= NAME_LIMIT
  {
    forall i | 0 <= i < |es| ensures UnpackedEntry(es[i]) == es[i] <==> |es[i].path| <= NAME_LIMIT {
      CStringIsWhole(es[i].path);
    }
    if UnpackedEntries(es) == es {
      forall i | 0 <= i < |es| ensures |es[i].path| <= NAME_LIMIT {
        assert UnpackedEntry(es[i]) == es[i];
      }
    }
  }

  /** A path of 2001 bytes in directories of short names. */
  const LONG_PATH: seq<Byte> := seq(2001, i => if i % 101 == 100 then 0x2F else 0x61)

  /** The path is legal, and what is unpacked has lost its last letter. */
  lemma LongNameIsCut()
    ensures
      var es := [Entry(LONG_PATH, [])];
      && AllFit(es) && AllLegal(es)
      && UnpackedEntries(es) == [Entry(LONG_PATH[..2000], [])] && UnpackedEntries(es) != es
  {
    CStringIsWhole(LONG_PATH);
    assert |LONG_PATH[..2000]| != |LONG_PATH|;
    assert [Entry(LONG_PATH, [])][0] != Entry(LONG_PATH[..2000], []);
  }

  // ---- Bundling from a bundle ----

  /** Bundling from a bundle gives what bundling from its image gives, exactly when the image does not itself end
      in a trailer that names an earlier end. */
  lemma RebundlingIffImageIsBare(image: seq<Byte>, es: seq<Entry>, es': seq<Entry>)
    requires |image| < U64 && |es| < U32
    ensures Created(Bundle(image, es), es') == Created(image, es') <==>
      ReadTrailer(image).NoTrailer? || (ReadTrailer(image).Trailer? && ReadTrailer(image).offset == |image|)
  {
    BundleParts(image, es);
    assert Bundle(image, es)[..|image|] == image;
    assert Created(Bundle(image, es), es') == Some(Bundle(image, es'));
    match ReadTrailer(image) {
      case NoTrailer =>
      case WrongFormat =>
      case Trailer(offset, _) =>
        if offset <= |image| {
          assert |Bundle(image[..offset], es')| == |Bundle(image, es')| - |image| + offset;
          assert image[..|image|] == image;
        }
    }
  }

  // ---- Truncation ----

  /** The head stands nowhere but behind the image. */
  ghost predicate OnlyHead(f: seq<Byte>, image: nat) {
    forall k: nat :: HasAt(f, k, HEAD) ==> k == image
  }

  lemma HasAtInPrefix(f: seq<Byte>, cut: nat, pos: nat, s: seq<Byte>)
    requires cut <= |f|
    ensures HasAt(f[..cut], pos, s) <==> HasAt(f, pos, s) && pos + |s| <= cut
  {
    if pos + |s| <= cut {
      assert f[..cut][pos..pos + |s|] == f[pos..pos + |s|];
    }
  }

  /** What is left of the archive is enough to know it by. */
  predicate Recognizable(image: seq<Byte>, e: Entry, cut: nat) {
    && |image| + HEAD_LENGTH + |HeaderBytes(e.path, |e.data|)| <= cut
    && 1 <= |e.path| <= 2048 && Printable(e.path)
    && |e.data| <= cut
  }

  /** A bundle cut short, and so without its trailer, is refused exactly when the first entry's header survives,
      its path is printable ASCII, and the file left is no smaller than that entry's contents, or when something else
      in what is left looks like the head of an archive. */
  lemma TruncationIsRefusedIff(image: seq<Byte>, es: seq<Entry>, cut: nat)
    requires es != [] && AllFit(es) && cut <= |Bundle(image, es)|
    requires ReadTrailer(Bundle(image, es)[..cut]).NoTrailer?
    ensures
      var left := Bundle(image, es)[..cut];
      StartupOf(left, true)
      == if Recognizable(image, es[0], cut) || (exists k: nat :: k != |image| && Believed(left, k)) then Refused
         else Interpreter
  {
    var f, e, pos := Bundle(image, es), es[0], |image| + HEAD_LENGTH;
    var left, header := f[..cut], HeaderBytes(es[0].path, |es[0].data|);
    BundleParts(image, es);
    HasParts(f, pos, EntryBytes(e), EntriesBytes(es[1..]));
    HasParts(f, pos, header, e.data);
    HasAtInPrefix(f, cut, |image|, HEAD);
    HasAtInPrefix(f, cut, pos, header);
    hide Bundle, HasAt, ReadTrailer, EntriesBytes, EntryBytes;
    if cut < pos + |header| {
      BrokenHeader(f, cut, pos, e.path, |e.data|);
    } else {
      HeaderReadsBack(left, pos, e.path, |e.data|);
    }
    hide HeaderAt;
    assert Believed(left, |image|) <==> Recognizable(image, e, cut);
  }

  /** Where the head stands nowhere else, only the first entry decides. */
  lemma OnlyHeadIsBelieved(f: seq<Byte>, image: nat, cut: nat, k: nat)
    requires OnlyHead(f, image) && cut <= |f| && k != image
    ensures !Believed(f[..cut], k)
  {
    HasAtInPrefix(f, cut, k, HEAD);
  }

  const ACCENTED := Entry([0xC3, 0xA9], [1, 2, 3, 4])

  /** A bundle whose script has a name outside ASCII, cut short in the script: its paths are legal, and what is left
      of it is taken for an interpreter. */
  lemma AccentedTruncationIsNotRefused(image: seq<Byte>)
    requires OnlyHead(Bundle(image, [ACCENTED]), |image|)
    ensures AllFit([ACCENTED]) && AllLegal([ACCENTED])
    ensures |Bundle(image, [ACCENTED])| > |image| + 40
    ensures ReadTrailer(Bundle(image, [ACCENTED])[..|image| + 40]).NoTrailer?
    ensures StartupOf(Bundle(image, [ACCENTED])[..|image| + 40], true) == Interpreter
  {
    CStringIsWhole(ACCENTED.path);
    AccentedByte(image);
    var f, cut := Bundle(image, [ACCENTED]), |image| + 40;
    hide Bundle, OnlyHead, Believed, StartupOf, ReadTrailer;
    NoTrailerBefore(f[..cut]);
    forall k: nat | k != |image| ensures !Believed(f[..cut], k) {
      OnlyHeadIsBelieved(f, |image|, cut, k);
    }
    TruncationIsRefusedIff(image, [ACCENTED], cut);
  }

  /** Where the contents of a single entry stand. */
  lemma ContentsInPlace(image: seq<Byte>, e: Entry)
    ensures HasAt(Bundle(image, [e]), |image| + HEAD_LENGTH + 12 + |e.path|, e.data)
  {
    var f, pos, header := Bundle(image, [e]), |image| + HEAD_LENGTH, HeaderBytes(e.path, |e.data|);
    BundleParts(image, [e]);
    EntriesOfOne(e);
    hide Bundle, HasAt, EntriesBytes, HeaderBytes;
    HasParts(f, pos, header, e.data);
  }

  /** The last byte before the cut. */
  lemma AccentedByte(image: seq<Byte>)
    ensures |Bundle(image, [ACCENTED])| > |image| + 40 && Bundle(image, [ACCENTED])[|image| + 39] == 2
  {
    ContentsInPlace(image, ACCENTED);
    hide Bundle, HasAt;
    var f, pos := Bundle(image, [ACCENTED]), |image| + 38;
    ByteAt(f, pos, ACCENTED.data, 1);
    ByteAt(f, pos, ACCENTED.data, 3);
  }

  lemma NoTrailerBefore(f: seq<Byte>)
    requires f != [] && f[|f| - 1] != MAGIC[7]
    ensures ReadTrailer(f).NoTrailer?
  {
    if |f| >= TRAILER_SIZE {
      assert f[|f| - TRAILER_SIZE..][16..][7] == f[|f| - 1];
    }
  }

  lemma ByteAt(f: seq<Byte>, pos: nat, s: seq<Byte>, i: nat)
    requires HasAt(f, pos, s) && i < |s|
    ensures pos + i < |f| && f[pos + i] == s[i]
  {
    assert f[pos..pos + |s|][i] == f[pos + i];
  }

  lemma EntriesOfOne(e: Entry)
    ensures EntriesBytes([e]) == HeaderBytes(e.path, |e.data|) + e.data
  {
    hide HeaderBytes;
    assert [e][1..] == [] && EntryBytes(e) + [] == EntryBytes(e);
  }

  // ---- Such an image exists ----

  /** The head's first byte is nowhere in these bytes. */
  predicate Unmarked(s: seq<Byte>) {
    HEAD[0] !in s
  }

  lemma {:induction false} SmallIntegersUnmarked(x: nat, n: nat)
    requires x < 0x7F
    ensures Unmarked(LittleEndian(x, n))
  {
    if n > 0 {
      SmallIntegersUnmarked(0, n - 1);
      assert x / 256 == 0 && x % 256 == x;
    }
  }

  /** The first bytes of an ELF executable. */
  const ELF: seq<Byte> := [0x7F, 0x45, 0x4C, 0x46]

  lemma ElfTailUnmarked()
    ensures Unmarked(HeaderBytes(ACCENTED.path, 4)) && Unmarked(ACCENTED.data) && Unmarked(TrailerBytes(4, 1))
  {
    SmallIntegersUnmarked(2, 4);
    SmallIntegersUnmarked(4, 8);
    SmallIntegersUnmarked(1, 4);
    hide LittleEndian;
    assert Unmarked(MAGIC);
  }

  lemma UnmarkedFrom(f: seq<Byte>, from: nat, k: nat)
    requires from <= k < |f| && Unmarked(f[from..])
    ensures f[k] != HEAD[0]
  {
    assert f[k] == f[from..][k - from];
  }

  lemma NoOtherHead(f: seq<Byte>, k: nat)
    requires |f| >= 5 && Unmarked(f[1..4]) && f[2] != HEAD[2] && Unmarked(f[5..]) && k != 4
    ensures !HasAt(f, k, HEAD)
  {
    if 5 <= k < |f| {
      UnmarkedFrom(f, 5, k);
    }
    assert 1 <= k < 4 ==> f[k] == f[1..4][k - 1];
    if HasAt(f, k, HEAD) {
      ByteAt(f, k, HEAD, 0);
      ByteAt(f, k, HEAD, 2);
    }
  }

  lemma ElfParts(f: seq<Byte>, rest: seq<Byte>)
    requires f == ELF + HEAD + rest && Unmarked(rest)
    ensures |f| >= 5 && Unmarked(f[1..4]) && f[2] != HEAD[2] && Unmarked(f[5..])
  {
    assert f[1..4] == ELF[1..];
    assert f[5..] == HEAD[1..] + rest && Unmarked(HEAD[1..]);
  }

  /** The least that an ELF image could be meets the hypothesis of `AccentedTruncationIsNotRefused`. */
  lemma AccentedElf()
    ensures OnlyHead(Bundle(ELF, [ACCENTED]), |ELF|)
  {
    ElfTailUnmarked();
    EntriesOfOne(ACCENTED);
    hide EntriesBytes, HeaderBytes, TrailerBytes, HasAt;
    var header, data, trailer := HeaderBytes(ACCENTED.path, 4), ACCENTED.data, TrailerBytes(4, 1);
    var rest := header + data + trailer;
    var f := Bundle(ELF, [ACCENTED]);
    assert f == ELF + HEAD + rest;
    ElfParts(f, rest);
    forall k: nat | k != 4 ensures !HasAt(f, k, HEAD) {
      NoOtherHead(f, k);
    }
  }
}
