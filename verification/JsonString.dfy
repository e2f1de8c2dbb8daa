/** JSON string bodies: escapes (section 7 of RFC 8259) to and from NUL-free bytes. */
module JsonString {
  import opened Bytes
  import Utf8

  const QUOTE: Byte := 0x22
  const BACKSLASH: Byte := 0x5C
  const LETTER_U: Byte := 0x75
  const REPLACEMENT: nat := 0xFFFD

  // ---- What the escapes mean ----

  /** The value of a hexadecimal digit; -1 for any other byte. */
  function HexValue(b: Byte): int {
    if 0x30 <= b <= 0x39 then b - 0x30
    else if 0x61 <= b <= 0x66 then b - 0x61 + 10
    else if 0x41 <= b <= 0x46 then b - 0x41 + 10
    else -1
  }

  /** Four hexadecimal digits stand at `p`, before the terminator. */
  predicate HasHex4(s: seq<Byte>, p: nat) {
    p + 4 <= |s| && forall i :: p <= i < p + 4 ==> HexValue(s[i]) >= 0
  }

  function Hex4(s: seq<Byte>, p: nat): (v: nat)
    requires HasHex4(s, p)
    ensures v < 0x1_0000
  {
    var a, b, c, d: int := HexValue(s[p]), HexValue(s[p + 1]), HexValue(s[p + 2]), HexValue(s[p + 3]);
    ((a * 16 + b) * 16 + c) * 16 + d
  }

  predicate IsHigh(u: int) { 0xD800 <= u < 0xDC00 }
  predicate IsLow(u: int) { 0xDC00 <= u < 0xE000 }

  /** An escape `\u` with four digits stands at `p`. */
  predicate HasUnit(s: seq<Byte>, p: nat) {
    p + 6 <= |s| && s[p] == BACKSLASH && s[p + 1] == LETTER_U && HasHex4(s, p + 2)
  }

  /** The escape at `p` is a high surrogate, and a low one follows at once. */
  predicate HasPair(s: seq<Byte>, p: nat) {
    HasUnit(s, p) && IsHigh(Hex4(s, p + 2)) && HasUnit(s, p + 6) && IsLow(Hex4(s, p + 8))
  }

  /** What one-letter escapes stand for; any other byte stands for itself. */
  function Unescaped(b: Byte): Byte {
    if b == 0x6E then 0x0A        // n
    else if b == 0x72 then 0x0D   // r
    else if b == 0x74 then 0x09   // t
    else if b == 0x62 then 0x08   // b
    else if b == 0x66 then 0x0C   // f
    else b
  }

  /** One piece of a string body: the bytes it stands for, where the next piece starts, and
      whether it was one that strict decoding refuses. */
  datatype Piece = Piece(bytes: seq<Byte>, next: nat, refused: bool)

  /** The piece at `p`, which is neither the closing quote nor the end of the text. */
  function PieceAt(s: seq<Byte>, p: nat): (piece: Piece)
    requires p < |s| && s[p] != QUOTE && (s[p] == BACKSLASH ==> p + 1 < |s|)
    ensures p < piece.next <= |s|
  {
    if s[p] != BACKSLASH then Piece([s[p]], p + 1, false)
    else if s[p + 1] != LETTER_U then Piece([Unescaped(s[p + 1])], p + 2, false)
    else if !HasUnit(s, p) then Piece(Utf8.Encode(REPLACEMENT), p + 2, true)
    else if HasPair(s, p) then
      Piece(Utf8.Encode(0x1_0000 + (Hex4(s, p + 2) - 0xD800) * 0x400 + (Hex4(s, p + 8) - 0xDC00)), p + 12, false)
    else
      var u := Hex4(s, p + 2);
      if IsHigh(u) || IsLow(u) || u == 0 then Piece(Utf8.Encode(REPLACEMENT), p + 6, true)
      else Piece(Utf8.Encode(u), p + 6, false)
  }

  /** A decoded body: its bytes, the position after it, whether strict decoding refuses it, and
      whether it was closed at all. */
  datatype Body = Body(bytes: seq<Byte>, end: nat, refused: bool, closed: bool)

  function Prepend(front: seq<Byte>, refused: bool, b: Body): Body {
    b.(bytes := front + b.bytes, refused := refused || b.refused)
  }

  /** Decode the body that starts at `p`. */
  function BodyAt(s: seq<Byte>, p: nat): (b: Body)
    requires p <= |s|
    ensures p <= b.end <= |s|
    ensures b.closed ==> p < b.end && s[b.end - 1] == QUOTE
    decreases |s| - p
  {
    if p == |s| then Body([], p, false, false)
    else if s[p] == QUOTE then Body([], p + 1, false, true)
    else if s[p] == BACKSLASH && p + 1 == |s| then Body([], p + 1, false, false)
    else
      var piece := PieceAt(s, p);
      Prepend(piece.bytes, piece.refused, BodyAt(s, piece.next))
  }

  // ---- The decoder ----

  /** A text being read: the position and the two error channels. */
  class Reader {
    const s: seq<Byte>
    var pos: nat
    var err: bool
    var recoverable: bool
    var depth: nat

    ghost predicate Valid()
      reads this
    {
      NulFree(s) && pos <= |s|
    }

    constructor (s: seq<Byte>)
      requires NulFree(s)
      ensures Valid() && this.s == s && pos == 0 && !err && !recoverable && depth == 0
    {
      this.s := s;
      pos, err, recoverable, depth := 0, false, false, 0;
    }

    /** Read four hexadecimal digits after index `at`, stopping at the first byte that is none:
        nothing past the terminator is read. */
    method ReadHex4(at: nat) returns (ok: bool, value: nat)
      requires NulFree(s) && at < |s|
      ensures ok <==> HasHex4(s, at + 1)
      ensures ok ==> value == Hex4(s, at + 1)
    {
      value := 0;
      var i := 1;
      while i <= 4
        invariant 1 <= i <= 5 && at + i <= |s|
        invariant forall k :: at + 1 <= k < at + i ==> HexValue(s[k]) >= 0
        invariant i == 1 ==> value == 0
        invariant i == 2 ==> value == HexValue(s[at + 1])
        invariant i == 3 ==> value == HexValue(s[at + 1]) * 16 + HexValue(s[at + 2])
        invariant i == 4 ==> value == (HexValue(s[at + 1]) * 16 + HexValue(s[at + 2])) * 16 + HexValue(s[at + 3])
        invariant i == 5 ==> HasHex4(s, at + 1) && value == Hex4(s, at + 1)
      {
        var digit := HexValue(At(s, at + i));
        if digit < 0 { return false, 0; }
        value := value * 16 + digit;
        i := i + 1;
      }
      return true, value;
    }

    /** Decode a `\u` escape, the position being on its `u`; it is left on the escape's last byte. */
    method DecodeUnicodeEscape() returns (bytes: seq<Byte>)
      requires Valid() && 0 < pos < |s| && s[pos - 1] == BACKSLASH && s[pos] == LETTER_U
      modifies this`pos, this`recoverable
      ensures var piece := PieceAt(s, old(pos) - 1);
        && bytes == piece.bytes && pos + 1 == piece.next
        && recoverable == (old(recoverable) || piece.refused)
    {
      hide Hex4, HexValue, Utf8.Encode;
      var ok, cp := ReadHex4(pos);
      if !ok {
        recoverable := true;
        return Utf8.Encode(REPLACEMENT);
      }
      pos := pos + 4;
      if IsHigh(cp) {
        var paired, lo := false, 0;
        if At(s, pos + 1) == BACKSLASH {
          if At(s, pos + 2) == LETTER_U {
            paired, lo := ReadHex4(pos + 2);
            paired := paired && IsLow(lo);
          }
        }
        if paired {
          pos := pos + 6;
          return Utf8.Encode(0x1_0000 + (cp - 0xD800) * 0x400 + (lo - 0xDC00));
        }
        recoverable := true;
        return Utf8.Encode(REPLACEMENT);
      } else if IsLow(cp) || cp == 0 {
        recoverable := true;
        return Utf8.Encode(REPLACEMENT);
      }
      return Utf8.Encode(cp);
    }

    /** Decode the piece at the position, unless the text ends inside it; then stop at its end. */
    method DecodePiece() returns (truncated: bool, bytes: seq<Byte>)
      requires Valid() && pos < |s| && s[pos] != QUOTE
      modifies this`pos, this`recoverable
      ensures Valid()
      ensures truncated <==> s[old(pos)] == BACKSLASH && old(pos) + 1 == |s|
      ensures truncated ==> pos == |s| && bytes == [] && recoverable == old(recoverable)
      ensures !truncated ==>
        var piece := PieceAt(s, old(pos));
        && bytes == piece.bytes && pos == piece.next
        && recoverable == (old(recoverable) || piece.refused)
    {
      hide HasUnit, HasPair, Hex4, Utf8.Encode;
      truncated, bytes := false, [];
      if s[pos] == BACKSLASH {
        pos := pos + 1;
        if At(s, pos) == 0 { return true, []; }
        if s[pos] == LETTER_U {
          bytes := DecodeUnicodeEscape();
        } else {
          bytes := [Unescaped(s[pos])];
        }
      } else {
        bytes := [s[pos]];
      }
      pos := pos + 1;
    }

    /** Decode a string body from the byte after its opening quote. */
    method DecodeStringBody() returns (out: seq<Byte>)
      requires Valid()
      modifies this`pos, this`err, this`recoverable
      ensures Valid()
      ensures var b := BodyAt(s, old(pos));
        && out == b.bytes && pos == b.end
        && recoverable == (old(recoverable) || b.refused)
        && err == (old(err) || !b.closed)
    {
      hide PieceAt;
      out := [];
      ghost var refused := false;
      while At(s, pos) != 0 && At(s, pos) != QUOTE
        invariant Valid() && err == old(err) && old(pos) <= pos
        invariant recoverable == (old(recoverable) || refused)
        invariant BodyAt(s, old(pos)) == Prepend(out, refused, BodyAt(s, pos))
        decreases |s| - pos
      {
        ghost var start := pos;
        var truncated, bytes := DecodePiece();
        if truncated { break; }
        BodyStep(s, start, out, refused);
        out := out + bytes;
        refused := refused || PieceAt(s, start).refused;
      }
      if At(s, pos) == QUOTE {
        pos := pos + 1;
      } else {
        err := true;
      }
    }
  }

  lemma BodyStep(s: seq<Byte>, p: nat, out: seq<Byte>, refused: bool)
    requires p < |s| && s[p] != QUOTE && (s[p] == BACKSLASH ==> p + 1 < |s|)
    ensures var piece := PieceAt(s, p);
      Prepend(out, refused, BodyAt(s, p))
      == Prepend(out + piece.bytes, refused || piece.refused, BodyAt(s, piece.next))
  {
    hide PieceAt;
    var piece := PieceAt(s, p);
    var rest := BodyAt(s, piece.next);
    assert out + (piece.bytes + rest.bytes) == (out + piece.bytes) + rest.bytes;
  }

  // ---- What decoding preserves ----

  /** A surrogate pair is one character, of one scalar beyond the basic plane; every other `\u`
      escape is one character too, the replacement character exactly when strict decoding refuses
      it: when it is malformed, an unpaired surrogate, or NUL. */
  lemma UnicodePieces(s: seq<Byte>, p: nat)
    requires p + 1 < |s| && s[p] == BACKSLASH && s[p + 1] == LETTER_U
    ensures var piece := PieceAt(s, p);
      && Utf8.WellFormed(piece.bytes) && NulFree(piece.bytes)
      && Utf8.CharLength(piece.bytes) == |piece.bytes| > 0
      && (HasPair(s, p) ==>
          && !piece.refused && piece.next == p + 12
          && 0x1_0000 <= Utf8.FirstScalar(piece.bytes) < 0x11_0000
          && Utf8.FirstScalar(piece.bytes) == 0x1_0000 + (Hex4(s, p + 2) - 0xD800) * 0x400 + (Hex4(s, p + 8) - 0xDC00))
      && (!HasPair(s, p) ==>
          && (piece.refused <==>
            !HasUnit(s, p) || IsHigh(Hex4(s, p + 2)) || IsLow(Hex4(s, p + 2)) || Hex4(s, p + 2) == 0)
          && piece.next == (if HasUnit(s, p) then p + 6 else p + 2)
          && Utf8.FirstScalar(piece.bytes) == if piece.refused then REPLACEMENT else Hex4(s, p + 2))
  {
    hide Hex4, Utf8.Encode, Utf8.WellFormed, Utf8.CharLength;
    Utf8.EncodeIsOneChar(REPLACEMENT);
    if HasPair(s, p) {
      Utf8.EncodeIsOneChar(0x1_0000 + (Hex4(s, p + 2) - 0xD800) * 0x400 + (Hex4(s, p + 8) - 0xDC00));
    } else if HasUnit(s, p) {
      var u := Hex4(s, p + 2);
      if !IsHigh(u) && !IsLow(u) {
        Utf8.EncodeIsOneChar(u);
      }
    }
  }

  lemma RawPiece(s: seq<Byte>, p: nat)
    requires p < |s| && s[p] != QUOTE && s[p] != BACKSLASH
    ensures BodyAt(s, p).bytes == [s[p]] + BodyAt(s, p + 1).bytes
  {
    hide HasUnit, HasPair;
  }

  /** Bytes that are no ASCII are copied as they are. */
  lemma {:induction false} RawRun(s: seq<Byte>, p: nat, n: nat)
    requires p + n <= |s| && forall i :: p <= i < p + n ==> s[i] >= 0x80
    ensures BodyAt(s, p).bytes == s[p..p + n] + BodyAt(s, p + n).bytes
    decreases n
  {
    hide PieceAt, BodyAt;
    if n > 0 {
      RawRun(s, p + 1, n - 1);
      RawPiece(s, p);
      assert s[p..p + n] == [s[p]] + s[p + 1..p + n];
      assert s[p..p + n] + BodyAt(s, p + n).bytes == [s[p]] + (s[p + 1..p + n] + BodyAt(s, p + n).bytes);
    }
  }

  lemma {:induction false} SkipAscii(s: seq<Byte>, p: nat, n: nat)
    requires p + n <= |s| && Utf8.WellFormed(s[p..]) && forall i :: p <= i < p + n ==> s[i] < 0x80
    ensures Utf8.WellFormed(s[p + n..])
    decreases n
  {
    if n > 0 {
      assert s[p..][0] == s[p] && s[p..][1..] == s[p + 1..];
      SkipAscii(s, p + 1, n - 1);
    }
  }

  /** A character that is no ASCII: where it ends, and that all its bytes are no ASCII. */
  lemma WideChar(s: seq<Byte>, p: nat)
    requires p < |s| && s[p] >= 0x80 && Utf8.WellFormed(s[p..])
    ensures var n := Utf8.CharLength(s[p..]);
      && 2 <= n && p + n <= |s| && (forall i :: p <= i < p + n ==> s[i] >= 0x80)
      && Utf8.WellFormed(s[p..p + n]) && Utf8.WellFormed(s[p + n..])
  {
    var n := Utf8.CharLength(s[p..]);
    assert s[p..][n..] == s[p + n..];
    assert forall i :: 0 <= i < n ==> s[p..][i] == s[p + i];
    var c := s[p..p + n];
    assert forall i :: 0 <= i < n ==> c[i] == s[p..][i];
    assert Utf8.CharLength(c) == n;
    Utf8.OneCharWellFormed(c);
  }

  /** Well-formed text decodes to well-formed text, and what is decoded never holds a NUL. */
  lemma {:induction false} DecodedIsWellFormed(s: seq<Byte>, p: nat)
    requires p <= |s| && NulFree(s) && Utf8.WellFormed(s[p..])
    ensures Utf8.WellFormed(BodyAt(s, p).bytes)
    decreases |s| - p
  {
    hide PieceAt, Utf8.WellFormed, Utf8.CharLength, HasUnit, HasPair;
    if p == |s| || s[p] == QUOTE || (s[p] == BACKSLASH && p + 1 == |s|) {
      Utf8.EmptyWellFormed();
    } else if s[p] >= 0x80 {
      WideRun(s, p);
      DecodedIsWellFormed(s, p + Utf8.CharLength(s[p..]));
    } else if s[p] == BACKSLASH && s[p + 1] >= 0x80 {
      SkipAscii(s, p, 1);
      WideRun(s, p + 1);
      RawPiece(s, p + 1);
      DroppedBackslash(s, p);
      DecodedIsWellFormed(s, p + 1 + Utf8.CharLength(s[p + 1..]));
    } else {
      AsciiRun(s, p);
      DecodedIsWellFormed(s, PieceAt(s, p).next);
    }
  }

  /** Decoding from an ASCII piece is well formed if decoding from after it is. */
  lemma AsciiRun(s: seq<Byte>, p: nat)
    requires p < |s| && s[p] != QUOTE && s[p] < 0x80 && (s[p] == BACKSLASH ==> p + 1 < |s| && s[p + 1] < 0x80)
    requires Utf8.WellFormed(s[p..])
    ensures var next := PieceAt(s, p).next;
      && Utf8.WellFormed(s[next..])
      && (Utf8.WellFormed(BodyAt(s, next).bytes) ==> Utf8.WellFormed(BodyAt(s, p).bytes))
  {
    hide PieceAt, Utf8.WellFormed;
    var piece := PieceAt(s, p);
    AsciiPiece(s, p);
    SkipAscii(s, p, piece.next - p);
    Utf8.WellFormedConcat(piece.bytes, BodyAt(s, piece.next).bytes);
  }

  /** Decoding from a wide character is well formed if decoding from after it is. */
  lemma WideRun(s: seq<Byte>, p: nat)
    requires p < |s| && s[p] >= 0x80 && Utf8.WellFormed(s[p..])
    ensures var n := Utf8.CharLength(s[p..]);
      && 0 < n && p + n <= |s| && Utf8.WellFormed(s[p + n..])
      && (Utf8.WellFormed(BodyAt(s, p + n).bytes) ==> Utf8.WellFormed(BodyAt(s, p).bytes))
  {
    hide PieceAt, BodyAt, Utf8.WellFormed, Utf8.CharLength;
    WideChar(s, p);
    var n := Utf8.CharLength(s[p..]);
    RawRun(s, p, n);
    Utf8.WellFormedConcat(s[p..p + n], BodyAt(s, p + n).bytes);
  }

  /** A backslash before a byte that names no escape is dropped. */
  lemma DroppedBackslash(s: seq<Byte>, p: nat)
    requires p + 1 < |s| && s[p] == BACKSLASH && s[p + 1] >= 0x80
    ensures BodyAt(s, p).bytes == BodyAt(s, p + 1).bytes
  {
    hide HasUnit, HasPair;
    RawPiece(s, p + 1);
  }

  /** A piece that starts with ASCII, and continues with it after a backslash, is ASCII throughout. */
  lemma AsciiPiece(s: seq<Byte>, p: nat)
    requires p < |s| && s[p] != QUOTE && s[p] < 0x80 && (s[p] == BACKSLASH ==> p + 1 < |s| && s[p + 1] < 0x80)
    ensures forall i :: p <= i < PieceAt(s, p).next ==> s[i] < 0x80
    ensures Utf8.WellFormed(PieceAt(s, p).bytes)
  {
    if s[p] == BACKSLASH && s[p + 1] == LETTER_U {
      UnicodePieces(s, p);
    } else {
      Utf8.OneCharWellFormed(PieceAt(s, p).bytes);
    }
  }

  lemma {:induction false} DecodedIsNulFree(s: seq<Byte>, p: nat)
    requires p <= |s| && NulFree(s)
    ensures NulFree(BodyAt(s, p).bytes)
    decreases |s| - p
  {
    hide Utf8.WellFormed, Utf8.Encode;
    if p == |s| || s[p] == QUOTE || (s[p] == BACKSLASH && p + 1 == |s|) {
    } else {
      if s[p] == BACKSLASH && s[p + 1] == LETTER_U {
        UnicodePieces(s, p);
      }
      DecodedIsNulFree(s, PieceAt(s, p).next);
    }
  }

  // ---- The encoder ----

  function HexDigit(v: nat): Byte
    requires v < 16
  {
    if v < 10 then 0x30 + v else 0x61 + (v - 10)
  }

  lemma HexDigitValue(v: nat)
    requires v < 16
    ensures HexValue(HexDigit(v)) == v
  {
  }

  /** One byte of a string, as the encoder writes it. */
  function Escaped(b: Byte): seq<Byte> {
    if b == QUOTE || b == BACKSLASH then [BACKSLASH, b]
    else if b == 0x0A then [BACKSLASH, 0x6E]
    else if b == 0x0D then [BACKSLASH, 0x72]
    else if b == 0x09 then [BACKSLASH, 0x74]
    else if b < 0x20 then [BACKSLASH, LETTER_U, 0x30, 0x30, HexDigit(b / 16), HexDigit(b % 16)]
    else [b]
  }

  function EscapedAll(str: seq<Byte>): seq<Byte> {
    if str == [] then [] else Escaped(str[0]) + EscapedAll(str[1..])
  }

  /** The piece the decoder finds where the encoder wrote byte `b` is that byte. */
  lemma EscapedIsOnePiece(s: seq<Byte>, p: nat, b: Byte)
    requires b != 0 && p + |Escaped(b)| <= |s| && s[p..p + |Escaped(b)|] == Escaped(b)
    ensures s[p] != QUOTE && (s[p] == BACKSLASH ==> p + 1 < |s|)
    ensures PieceAt(s, p) == Piece([b], p + |Escaped(b)|, false)
  {
    var e := Escaped(b);
    assert s[p] == s[p..p + |e|][0] && (|e| > 1 ==> s[p + 1] == s[p..p + |e|][1]);
    if |e| == 6 {
      HexDigitValue(b / 16);
      HexDigitValue(b % 16);
      var w := s[p..p + 6];
      assert s[p] == w[0] && s[p + 1] == w[1] && s[p + 2] == w[2] && s[p + 3] == w[3] && s[p + 4] == w[4] &&
        s[p + 5] == w[5];
      hide HexDigit, Escaped;
      assert HexValue(0x30) == 0;
      assert HasHex4(s, p + 2);
      assert Hex4(s, p + 2) == b / 16 * 16 + b % 16;
    }
  }

  lemma EscapedNonEmpty(b: Byte)
    ensures |Escaped(b)| > 0
  {
  }

  /** `t` stands at `p`. */
  predicate StandsAt(s: seq<Byte>, p: nat, t: seq<Byte>) {
    p + |t| <= |s| && s[p..p + |t|] == t
  }

  lemma StandsParts(s: seq<Byte>, p: nat, a: seq<Byte>, b: seq<Byte>)
    ensures StandsAt(s, p, a + b) <==> StandsAt(s, p, a) && StandsAt(s, p + |a|, b)
  {
    if StandsAt(s, p, a + b) {
      assert s[p..p + |a|] == s[p..p + |a + b|][..|a|];
      assert s[p + |a|..p + |a + b|] == s[p..p + |a + b|][|a|..];
    }
    if StandsAt(s, p, a) && StandsAt(s, p + |a|, b) {
      assert s[p..p + |a + b|] == s[p..p + |a|] + s[p + |a|..p + |a| + |b|];
    }
  }

  lemma StandsByte(s: seq<Byte>, p: nat, t: seq<Byte>, i: nat)
    requires StandsAt(s, p, t) && i < |t|
    ensures s[p + i] == t[i]
  {
    assert s[p..p + |t|][i] == t[i];
  }

  lemma EscapedStart(str: seq<Byte>)
    requires str != []
    ensures |Escaped(str[0])| > 0 && EscapedAll(str) == Escaped(str[0]) + EscapedAll(str[1..])
  {
  }

  /** An encoded string starts with its first byte, encoded. */
  lemma EscapedParts(s: seq<Byte>, p: nat, str: seq<Byte>)
    requires str != [] && StandsAt(s, p, EscapedAll(str))
    ensures var e, rest := Escaped(str[0]), EscapedAll(str[1..]);
      && |e| > 0 && |EscapedAll(str)| == |e| + |rest|
      && StandsAt(s, p, e) && StandsAt(s, p + |e|, rest)
  {
    hide Escaped, EscapedAll, StandsAt;
    EscapedStart(str);
    StandsParts(s, p, Escaped(str[0]), EscapedAll(str[1..]));
  }

  /** Decoding an encoded string gives it back, and stops right after its closing quote. */
  lemma {:induction false} EscapedDecodes(s: seq<Byte>, p: nat, str: seq<Byte>)
    requires NulFree(str)
    requires p + |EscapedAll(str)| < |s| && s[p..p + |EscapedAll(str)|] == EscapedAll(str)
    requires s[p + |EscapedAll(str)|] == QUOTE
    ensures BodyAt(s, p) == Body(str, p + |EscapedAll(str)| + 1, false, true)
    decreases |str|
  {
    hide PieceAt, Escaped;
    if str != [] {
      var e := Escaped(str[0]);
      EscapedParts(s, p, str);
      EscapedIsOnePiece(s, p, str[0]);
      EscapedDecodes(s, p + |e|, str[1..]);
      assert [str[0]] + str[1..] == str;
    }
  }

  /** What the encoder writes needs no escaping: no control character is left in it (section 7 of RFC 8259). */
  lemma {:induction false} EscapedIsPrintable(str: seq<Byte>)
    requires NulFree(str)
    ensures forall i :: 0 <= i < |EscapedAll(str)| ==> EscapedAll(str)[i] >= 0x20
    decreases |str|
  {
    if str != [] {
      EscapedIsPrintable(str[1..]);
    }
  }

  // ---- The tables of the escapes ----

  /** The escapes of one letter and the characters they stand for (section 7 of RFC 8259). */
  const LETTERS: seq<(Byte, Byte)> :=
    [(0x22, 0x22), (0x5C, 0x5C), (0x2F, 0x2F), (0x62, 0x08), (0x66, 0x0C), (0x6E, 0x0A), (0x72, 0x0D), (0x74, 0x09)]

  lemma EscapesOfOneLetter(s: seq<Byte>, p: nat, k: nat)
    requires k < |LETTERS| && p + 1 < |s| && s[p] == BACKSLASH && s[p + 1] == LETTERS[k].0
    ensures PieceAt(s, p) == Piece([LETTERS[k].1], p + 2, false)
  {
  }

  /** The digits from 0 to 15, in either case. */
  const LOWER: seq<Byte> :=
    [0x30, 0x31, 0x32, 0x33, 0x34, 0x35, 0x36, 0x37, 0x38, 0x39, 0x61, 0x62, 0x63, 0x64, 0x65, 0x66]
  const UPPER: seq<Byte> :=
    [0x30, 0x31, 0x32, 0x33, 0x34, 0x35, 0x36, 0x37, 0x38, 0x39, 0x41, 0x42, 0x43, 0x44, 0x45, 0x46]

  lemma HexMeans(b: Byte)
    ensures HexValue(b) < 16
    ensures HexValue(b) >= 0 ==> LOWER[HexValue(b)] == b || UPPER[HexValue(b)] == b
    ensures HexValue(b) < 0 ==> b !in LOWER && b !in UPPER
  {
  }

  lemma Hex4Means(s: seq<Byte>, p: nat)
    requires HasHex4(s, p)
    ensures Hex4(s, p) == 0x1000 * HexValue(s[p]) + 0x100 * HexValue(s[p + 1]) + 0x10 * HexValue(s[p + 2])
                          + HexValue(s[p + 3])
  {
    hide HexValue;
  }
}
