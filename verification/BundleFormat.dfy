/** The bytes of a bundle: little-endian integers, entry headers, entries and the trailer. */
module BundleFormat {
  import opened Basics
  import opened Bytes

  /** Marks the start of the archive: the plaintext of the scrambled constant in the runtime. */
  const HEAD: seq<Byte> :=
    [0x7F, 0x45, 0x49, 0x47, 0x53, 0x2D, 0x42, 0x55, 0x4E, 0x44, 0x4C, 0x45,
     0x2D, 0x41, 0x52, 0x43, 0x48, 0x49, 0x56, 0x45, 0x2D, 0x76, 0x32, 0x00]
  const HEAD_LENGTH: nat := 24

  /** "EIGSBNDL", the last eight bytes of a bundle. */
  const MAGIC: seq<Byte> := [0x45, 0x49, 0x47, 0x53, 0x42, 0x4E, 0x44, 0x4C]
  const FORMAT: nat := 2
  const TRAILER_SIZE: nat := 24

  const U32: nat := 0x1_0000_0000
  const U64: nat := 0x1_0000_0000_0000_0000

  // ---- Integers ----

  function Pow256(n: nat): (p: nat)
    ensures p > 0
  {
    if n == 0 then 1 else 256 * Pow256(n - 1)
  }

  /** The low `n` bytes of `x`, the lowest first. */
  function LittleEndian(x: nat, n: nat): (s: seq<Byte>)
    ensures |s| == n
  {
    if n == 0 then [] else [x % 256] + LittleEndian(x / 256, n - 1)
  }

  function FromLittleEndian(s: seq<Byte>): nat {
    if s == [] then 0 else s[0] + 256 * FromLittleEndian(s[1..])
  }

  lemma {:induction false} IntegersReadBack(x: nat, n: nat)
    requires x < Pow256(n)
    ensures FromLittleEndian(LittleEndian(x, n)) == x
  {
    if n > 0 {
      IntegersReadBack(x / 256, n - 1);
      assert LittleEndian(x, n)[1..] == LittleEndian(x / 256, n - 1);
    }
  }

  /** Byte `i` has the value's digit of weight 256 to the `i`. */
  lemma {:induction false} LittleEndianDigits(x: nat, n: nat, i: nat)
    requires i < n
    ensures LittleEndian(x, n)[i] == x / Pow256(i) % 256
  {
    if i > 0 {
      LittleEndianDigits(x / 256, n - 1, i - 1);
      DividedTwice(x, Pow256(i - 1));
    }
  }

  lemma DividedTwice(x: nat, p: nat)
    requires p > 0
    ensures 256 * p > 0 && x / 256 / p == x / (256 * p)
  {
    var q, r := x / 256, x % 256;
    var a, b := q / p, q % p;
    assert q == a * p + b;
    assert x == a * (256 * p) + (256 * b + r);
    assert 256 * b + r < 256 * p;
    DivisionIsUnique(x, 256 * p, a, 256 * b + r);
  }

  lemma Widths()
    ensures Pow256(4) == U32 && Pow256(8) == U64
  {
    assert Pow256(1) == 256;
    assert Pow256(2) == 0x1_0000;
    assert Pow256(3) == 0x100_0000;
    assert Pow256(5) == 0x100_0000_0000;
    assert Pow256(6) == 0x1_0000_0000_0000;
    assert Pow256(7) == 0x100_0000_0000_0000;
  }

  lemma U32ReadsBack(x: nat)
    requires x < U32
    ensures FromLittleEndian(LittleEndian(x, 4)) == x
  {
    Widths();
    IntegersReadBack(x, 4);
  }

  lemma U64ReadsBack(x: nat)
    requires x < U64
    ensures FromLittleEndian(LittleEndian(x, 8)) == x
  {
    Widths();
    IntegersReadBack(x, 8);
  }

  // ---- Places in a file ----

  /** The bytes of `s` stand at `pos`. */
  predicate HasAt(f: seq<Byte>, pos: nat, s: seq<Byte>) {
    pos + |s| <= |f| && f[pos..pos + |s|] == s
  }

  lemma HasParts(f: seq<Byte>, pos: nat, a: seq<Byte>, b: seq<Byte>)
    ensures HasAt(f, pos, a + b) <==> HasAt(f, pos, a) && HasAt(f, pos + |a|, b)
  {
    if pos + |a| + |b| <= |f| {
      var whole := f[pos..pos + |a + b|];
      assert whole == f[pos..pos + |a|] + f[pos + |a|..pos + |a| + |b|];
      assert whole[..|a|] == f[pos..pos + |a|] && whole[|a|..] == f[pos + |a|..pos + |a| + |b|];
      assert (a + b)[..|a|] == a && (a + b)[|a|..] == b;
    }
  }

  // ---- Entries ----

  /** A path of the archive, without its NUL, and the contents of the file. */
  datatype Entry = Entry(path: seq<Byte>, data: seq<Byte>)

  datatype Header = Header(path: seq<Byte>, size: nat, end: nat)

  function HeaderBytes(path: seq<Byte>, size: nat): (s: seq<Byte>)
    ensures |s| == |path| + 12
  {
    LittleEndian(|path|, 4) + path + LittleEndian(size, 8)
  }

  function EntryBytes(e: Entry): seq<Byte> {
    HeaderBytes(e.path, |e.data|) + e.data
  }

  function EntriesBytes(es: seq<Entry>): seq<Byte> {
    if es == [] then [] else EntryBytes(es[0]) + EntriesBytes(es[1..])
  }

  /** The header that stands at `pos`, if the file does not end before the header does. */
  function HeaderAt(f: seq<Byte>, pos: nat): (h: Option<Header>)
    ensures h.Some? ==> pos + 12 + |h.value.path| == h.value.end <= |f|
  {
    if pos + 4 > |f| then None else
    var plen := FromLittleEndian(f[pos..pos + 4]);
    var end := pos + 4 + plen + 8;
    if end > |f| then None
    else Some(Header(f[pos + 4..end - 8], FromLittleEndian(f[end - 8..end]), end))
  }

  /** A header that was written reads back. */
  lemma HeaderReadsBack(f: seq<Byte>, pos: nat, path: seq<Byte>, size: nat)
    requires HasAt(f, pos, HeaderBytes(path, size)) && |path| < U32 && size < U64
    ensures HeaderAt(f, pos) == Some(Header(path, size, pos + 12 + |path|))
  {
    HasParts(f, pos, LittleEndian(|path|, 4) + path, LittleEndian(size, 8));
    HasParts(f, pos, LittleEndian(|path|, 4), path);
    U32ReadsBack(|path|);
    U64ReadsBack(size);
  }

  /** A header that the file breaks off does not read. */
  lemma BrokenHeader(f: seq<Byte>, cut: nat, pos: nat, path: seq<Byte>, size: nat)
    requires HasAt(f, pos, HeaderBytes(path, size)) && |path| < U32 && cut < pos + 12 + |path|
    ensures HeaderAt(f[..cut], pos).None?
  {
    HasParts(f, pos, LittleEndian(|path|, 4) + path, LittleEndian(size, 8));
    HasParts(f, pos, LittleEndian(|path|, 4), path);
    U32ReadsBack(|path|);
    if pos + 4 <= cut {
      assert f[..cut][pos..pos + 4] == f[pos..pos + 4];
    }
  }

  // ---- The trailer and the whole ----

  function TrailerBytes(offset: nat, count: nat): (s: seq<Byte>)
    ensures |s| == TRAILER_SIZE
  {
    LittleEndian(offset, 8) + LittleEndian(count, 4) + LittleEndian(FORMAT, 4) + MAGIC
  }

  /** The runtime image, the head, the entries and the trailer. */
  function Bundle(image: seq<Byte>, es: seq<Entry>): seq<Byte> {
    image + HEAD + EntriesBytes(es) + TrailerBytes(|image|, |es|)
  }

  datatype Probe = NoTrailer | WrongFormat | Trailer(offset: nat, count: nat)

  /** What the last 24 bytes say. */
  function ReadTrailer(f: seq<Byte>): Probe {
    if |f| < TRAILER_SIZE then NoTrailer else
    var t := f[|f| - TRAILER_SIZE..];
    if t[16..] != MAGIC then NoTrailer
    else if FromLittleEndian(t[12..16]) != FORMAT then WrongFormat
    else Trailer(FromLittleEndian(t[..8]), FromLittleEndian(t[8..12]))
  }

  lemma TrailerReadsBack(f: seq<Byte>, offset: nat, count: nat)
    requires offset < U64 && count < U32
    ensures ReadTrailer(f + TrailerBytes(offset, count)) == Trailer(offset, count)
  {
    var t := TrailerBytes(offset, count);
    var g := f + t;
    assert g[|g| - TRAILER_SIZE..] == t;
    var off, cnt, fmt := LittleEndian(offset, 8), LittleEndian(count, 4), LittleEndian(FORMAT, 4);
    assert t[..8] == off && t[8..12] == cnt && t[12..16] == fmt && t[16..] == MAGIC;
    U64ReadsBack(offset);
    U32ReadsBack(count);
    U32ReadsBack(FORMAT);
  }

  /** Where the parts of a bundle stand. */
  lemma BundleParts(image: seq<Byte>, es: seq<Entry>)
    ensures HasAt(Bundle(image, es), 0, image)
    ensures HasAt(Bundle(image, es), |image|, HEAD)
    ensures HasAt(Bundle(image, es), |image| + HEAD_LENGTH, EntriesBytes(es))
    ensures |image| < U64 && |es| < U32 ==> ReadTrailer(Bundle(image, es)) == Trailer(|image|, |es|)
  {
    var f, t := Bundle(image, es), TrailerBytes(|image|, |es|);
    assert f == (image + HEAD + EntriesBytes(es)) + t;
    if |image| < U64 && |es| < U32 {
      TrailerReadsBack(image + HEAD + EntriesBytes(es), |image|, |es|);
    }
    HasParts(f, 0, image + HEAD + EntriesBytes(es), t);
    HasParts(f, 0, image + HEAD, EntriesBytes(es));
    HasParts(f, 0, image, HEAD);
  }
}
