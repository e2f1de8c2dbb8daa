/** The JSON encoder and the strict decoder: a grammar to refine, and their round trip. */
module Json {
  import opened Basics
  import opened Bytes
  import opened JsonString

  const MAX_DEPTH: nat := 200

  /** A decoded document, over any type of numbers. Dictionaries keep their insertion order. */
  datatype Value<N> =
    | Null
    | Num(n: N)
    | Str(text: seq<Byte>)
    | List(items: seq<Value<N>>)
    | Dict(entries: seq<(seq<Byte>, Value<N>)>)

  /** How numbers are written and read: the shortest round-tripping text, and correctly rounded
      parsing of a token. `zero` and `one` are what `false` and `true` decode to. */
  datatype Codec<!N> = Codec(text: N -> seq<Byte>, parse: seq<Byte> -> N, zero: N, one: N)

  /** `dict_set`: the entry for `key` takes the new value, or is appended. */
  function DictSet<N>(d: seq<(seq<Byte>, Value<N>)>, key: seq<Byte>, v: Value<N>): seq<(seq<Byte>, Value<N>)> {
    if d == [] then [(key, v)]
    else if d[0].0 == key then [(key, v)] + d[1..]
    else [d[0]] + DictSet(d[1..], key, v)
  }

  predicate DistinctKeys<N>(d: seq<(seq<Byte>, Value<N>)>) {
    forall i, j :: 0 <= i < j < |d| ==> d[i].0 != d[j].0
  }

  lemma {:induction false} DictSetNew<N>(d: seq<(seq<Byte>, Value<N>)>, key: seq<Byte>, v: Value<N>)
    requires forall i :: 0 <= i < |d| ==> d[i].0 != key
    ensures DictSet(d, key, v) == d + [(key, v)]
  {
    if d != [] {
      DictSetNew(d[1..], key, v);
    }
  }

  // ---- Lexical grammar ----

  predicate IsSpace(b: Byte) {
    b == 0x20 || b == 0x09 || b == 0x0A || b == 0x0D
  }

  predicate IsDigit(b: Byte) {
    0x30 <= b <= 0x39
  }

  function SkipSpace(s: seq<Byte>, p: nat): (q: nat)
    requires p <= |s|
    ensures p <= q <= |s|
    decreases |s| - p
  {
    if p < |s| && IsSpace(s[p]) then SkipSpace(s, p + 1) else p
  }

  function SkipDigits(s: seq<Byte>, p: nat): (q: nat)
    requires p <= |s|
    ensures p <= q <= |s|
    decreases |s| - p
  {
    if p < |s| && IsDigit(s[p]) then SkipDigits(s, p + 1) else p
  }

  /** The end of the fraction at `p`, if a well-formed one or none starts there. */
  function FractionEnd(s: seq<Byte>, p: nat): (e: Option<nat>)
    requires p <= |s|
    ensures e.Some? ==> p <= e.value <= |s|
  {
    if At(s, p) != 0x2E then Some(p)
    else if !IsDigit(At(s, p + 1)) then None
    else Some(SkipDigits(s, p + 1))
  }

  /** The end of the exponent at `p`, if a well-formed one or none starts there. */
  function ExponentEnd(s: seq<Byte>, p: nat): (e: Option<nat>)
    requires p <= |s|
    ensures e.Some? ==> p <= e.value <= |s|
  {
    if At(s, p) != 0x65 && At(s, p) != 0x45 then Some(p) else
    var q := if At(s, p + 1) == 0x2B || At(s, p + 1) == 0x2D then p + 2 else p + 1;
    if !IsDigit(At(s, q)) then None else Some(SkipDigits(s, q))
  }

  /** The end of the number token at `p`, if a well-formed one starts there. */
  function NumberEnd(s: seq<Byte>, p: nat): (e: Option<nat>)
    requires p <= |s|
    ensures e.Some? ==> p < e.value <= |s|
  {
    var q := if At(s, p) == 0x2D then p + 1 else p;
    if !IsDigit(At(s, q)) then None else
    var f := FractionEnd(s, SkipDigits(s, q));
    if f.None? then None else ExponentEnd(s, f.value)
  }

  predicate HasWord(s: seq<Byte>, p: nat, word: seq<Byte>)
    requires p <= |s|
  {
    p + |word| <= |s| && s[p..p + |word|] == word
  }

  const NULL_WORD: seq<Byte> := [0x6E, 0x75, 0x6C, 0x6C]
  const TRUE_WORD: seq<Byte> := [0x74, 0x72, 0x75, 0x65]
  const FALSE_WORD: seq<Byte> := [0x66, 0x61, 0x6C, 0x73, 0x65]
  const COMMA: Byte := 0x2C
  const COLON: Byte := 0x3A
  const OPEN_LIST: Byte := 0x5B
  const CLOSE_LIST: Byte := 0x5D
  const OPEN_DICT: Byte := 0x7B
  const CLOSE_DICT: Byte := 0x7D

  // ---- Phrase grammar ----

  /** A phrase read from a position: its value, the position after it, and whether it holds an
      escape that strict decoding refuses. */
  datatype Parsed<+T> = Fail | Ok(value: T, end: nat, refused: bool)

  function StringAt(s: seq<Byte>, p: nat): (r: Parsed<seq<Byte>>)
    requires p <= |s|
    ensures r.Ok? ==> p < r.end <= |s|
  {
    if At(s, p) != QUOTE then Fail else
    var b := BodyAt(s, p + 1);
    if b.closed then Ok(b.bytes, b.end, b.refused) else Fail
  }

  /** The value at `p`, inside `depth` open containers. */
  function ValueAt<N>(k: Codec<N>, s: seq<Byte>, p: nat, depth: nat): (r: Parsed<Value<N>>)
    requires p <= |s|
    ensures r.Ok? ==> p < r.end <= |s|
    decreases |s| - p, 0
  {
    var q := SkipSpace(s, p);
    var b := At(s, q);
    if b == 0 then Fail
    else if b == QUOTE then
      var r := StringAt(s, q);
      if r.Fail? then Fail else Ok(Str(r.value), r.end, r.refused)
    else if b == OPEN_LIST then
      if depth >= MAX_DEPTH then Fail else
      var t := SkipSpace(s, q + 1);
      if At(s, t) == CLOSE_LIST then Ok(List([]), t + 1, false) else
      var r := ItemsAt(k, s, t, depth + 1, [], false);
      if r.Fail? then Fail else Ok(List(r.value), r.end, r.refused)
    else if b == OPEN_DICT then
      if depth >= MAX_DEPTH then Fail else
      var t := SkipSpace(s, q + 1);
      if At(s, t) == CLOSE_DICT then Ok(Dict([]), t + 1, false) else
      var r := EntriesAt(k, s, t, depth + 1, [], false);
      if r.Fail? then Fail else Ok(Dict(r.value), r.end, r.refused)
    else if b == 0x2D || IsDigit(b) then
      var e := NumberEnd(s, q);
      if e.None? then Fail else Ok(Num(k.parse(s[q..e.value])), e.value, false)
    else if HasWord(s, q, NULL_WORD) then Ok(Null, q + 4, false)
    else if HasWord(s, q, TRUE_WORD) then Ok(Num(k.one), q + 4, false)
    else if HasWord(s, q, FALSE_WORD) then Ok(Num(k.zero), q + 5, false)
    else Fail
  }

  /** The rest of a list whose items `done` have been read: an item is due at `p`. */
  function ItemsAt<N>(k: Codec<N>, s: seq<Byte>, p: nat, depth: nat, done: seq<Value<N>>,
                      refused: bool): (r: Parsed<seq<Value<N>>>)
    requires p <= |s|
    ensures r.Ok? ==> p < r.end <= |s|
    decreases |s| - p, 1
  {
    var v := ValueAt(k, s, p, depth);
    if v.Fail? then Fail else
    var q := SkipSpace(s, v.end);
    if At(s, q) == COMMA then ItemsAt(k, s, q + 1, depth, done + [v.value], refused || v.refused)
    else if At(s, q) == CLOSE_LIST then Ok(done + [v.value], q + 1, refused || v.refused)
    else Fail
  }

  /** The key and value of the entry at `p`. */
  function EntryAt<N>(k: Codec<N>, s: seq<Byte>, p: nat, depth: nat): (r: Parsed<(seq<Byte>, Value<N>)>)
    requires p <= |s|
    ensures r.Ok? ==> p < r.end <= |s|
    decreases |s| - p, 1
  {
    var key := StringAt(s, SkipSpace(s, p));
    if key.Fail? then Fail else
    var c := SkipSpace(s, key.end);
    if At(s, c) != COLON then Fail else
    var v := ValueAt(k, s, c + 1, depth);
    if v.Fail? then Fail else Ok((key.value, v.value), v.end, key.refused || v.refused)
  }

  /** The rest of a dictionary whose entries so far are `done`: an entry is due at `p`. */
  function EntriesAt<N>(k: Codec<N>, s: seq<Byte>, p: nat, depth: nat, done: seq<(seq<Byte>, Value<N>)>,
                        refused: bool): (r: Parsed<seq<(seq<Byte>, Value<N>)>>)
    requires p <= |s|
    ensures r.Ok? ==> p < r.end <= |s|
    decreases |s| - p, 2
  {
    var e := EntryAt(k, s, p, depth);
    if e.Fail? then Fail else
    var q := SkipSpace(s, e.end);
    var all := DictSet(done, e.value.0, e.value.1);
    if At(s, q) == COMMA then EntriesAt(k, s, q + 1, depth, all, refused || e.refused)
    else if At(s, q) == CLOSE_DICT then Ok(all, q + 1, refused || e.refused)
    else Fail
  }

  /** Strict decoding: one value, no refused escape, and nothing but space after it. */
  function Decoded<N>(k: Codec<N>, s: seq<Byte>): Option<Value<N>> {
    var v := ValueAt(k, s, 0, 0);
    if v.Ok? && !v.refused && SkipSpace(s, v.end) == |s| then Some(v.value) else None
  }

  // ---- The decoder ----

  method SkipSpaces(r: Reader)
    requires r.Valid()
    modifies r`pos
    ensures r.Valid() && r.pos == SkipSpace(r.s, old(r.pos))
  {
    while IsSpace(At(r.s, r.pos))
      invariant r.Valid() && SkipSpace(r.s, r.pos) == SkipSpace(r.s, old(r.pos))
      decreases |r.s| - r.pos
    {
      r.pos := r.pos + 1;
    }
  }

  method ScanDigits(s: seq<Byte>, from: nat) returns (p: nat)
    requires from <= |s|
    ensures p == SkipDigits(s, from)
  {
    p := from;
    while IsDigit(At(s, p))
      invariant p <= |s| && SkipDigits(s, p) == SkipDigits(s, from)
      decreases |s| - p
    {
      p := p + 1;
    }
  }

  method ParseString(r: Reader) returns (text: seq<Byte>)
    requires r.Valid() && !r.err
    modifies r
    ensures r.Valid() && r.depth == old(r.depth)
    ensures var p := StringAt(r.s, old(r.pos));
      && r.err == p.Fail?
      && (p.Ok? ==> text == p.value && r.pos == p.end && r.recoverable == (old(r.recoverable) || p.refused))
  {
    if At(r.s, r.pos) != QUOTE {
      r.err := true;
      return [];
    }
    r.pos := r.pos + 1;
    text := r.DecodeStringBody();
  }

  method ParseNumber<N>(k: Codec<N>, r: Reader) returns (n: N)
    requires r.Valid() && !r.err
    modifies r`pos, r`err
    ensures r.Valid()
    ensures var e := NumberEnd(r.s, old(r.pos));
      && r.err == e.None?
      && (e.Some? ==> n == k.parse(r.s[old(r.pos)..e.value]) && r.pos == e.value)
  {
    hide SkipDigits, NumberEnd;
    var s, start, p := r.s, r.pos, r.pos;
    if At(s, p) == 0x2D { p := p + 1; }
    NumberParts(s, start, p);
    if !IsDigit(At(s, p)) {
      r.err, r.pos := true, p;
      return k.zero;
    }
    p := ScanDigits(s, p);
    ghost var whole := p;
    if At(s, p) == 0x2E {
      p := p + 1;
      if !IsDigit(At(s, p)) {
        r.err, r.pos := true, p;
        return k.zero;
      }
      p := ScanDigits(s, p);
    }
    assert FractionEnd(s, whole) == Some(p);
    hide FractionEnd;
    if At(s, p) == 0x65 || At(s, p) == 0x45 {
      p := p + 1;
      if At(s, p) == 0x2B || At(s, p) == 0x2D { p := p + 1; }
      if !IsDigit(At(s, p)) {
        r.err, r.pos := true, p;
        return k.zero;
      }
      p := ScanDigits(s, p);
    }
    r.pos := p;
    return k.parse(s[start..p]);
  }

  lemma NumberParts(s: seq<Byte>, p: nat, q: nat)
    requires p <= |s| && q == if At(s, p) == 0x2D then p + 1 else p
    ensures !IsDigit(At(s, q)) ==> NumberEnd(s, p).None?
    ensures q <= |s| && IsDigit(At(s, q)) ==>
      var f := FractionEnd(s, SkipDigits(s, q));
      NumberEnd(s, p) == if f.None? then None else ExponentEnd(s, f.value)
  {
  }

  method ParseValue<N>(k: Codec<N>, r: Reader) returns (v: Value<N>)
    requires r.Valid() && !r.err
    modifies r
    ensures r.Valid() && r.depth == old(r.depth)
    ensures var p := ValueAt(k, r.s, old(r.pos), old(r.depth));
      && r.err == p.Fail?
      && (p.Ok? ==> v == p.value && r.pos == p.end && r.recoverable == (old(r.recoverable) || p.refused))
    decreases |r.s| - r.pos, 1
  {
    hide ItemsAt, EntriesAt, SkipSpace, NumberEnd, StringAt;
    SkipSpaces(r);
    var b := At(r.s, r.pos);
    if b == 0 {
      r.err := true;
      return Null;
    }
    if b == QUOTE {
      var text := ParseString(r);
      return Str(text);
    }
    if b == OPEN_LIST {
      if r.depth >= MAX_DEPTH {
        r.err := true;
        return Null;
      }
      r.depth := r.depth + 1;
      var items := ParseList(k, r);
      r.depth := r.depth - 1;
      return List(items);
    }
    if b == OPEN_DICT {
      if r.depth >= MAX_DEPTH {
        r.err := true;
        return Null;
      }
      r.depth := r.depth + 1;
      var entries := ParseDict(k, r);
      r.depth := r.depth - 1;
      return Dict(entries);
    }
    if b == 0x2D || IsDigit(b) {
      var n := ParseNumber(k, r);
      return Num(n);
    }
    if HasWord(r.s, r.pos, NULL_WORD) {
      r.pos := r.pos + 4;
      return Null;
    }
    if HasWord(r.s, r.pos, TRUE_WORD) {
      r.pos := r.pos + 4;
      return Num(k.one);
    }
    if HasWord(r.s, r.pos, FALSE_WORD) {
      r.pos := r.pos + 5;
      return Num(k.zero);
    }
    r.err := true;
    return Null;
  }

  lemma SkipTwice(s: seq<Byte>, p: nat)
    requires p <= |s|
    ensures SkipSpace(s, SkipSpace(s, p)) == SkipSpace(s, p)
    decreases |s| - p
  {
  }

  lemma ValueAfterSpace<N>(k: Codec<N>, s: seq<Byte>, p: nat, depth: nat)
    requires p <= |s|
    ensures ValueAt(k, s, SkipSpace(s, p), depth) == ValueAt(k, s, p, depth)
  {
    SkipTwice(s, p);
    hide SkipSpace, ItemsAt, EntriesAt, StringAt, NumberEnd, HasWord;
  }

  lemma NothingAtEnd<N>(k: Codec<N>, s: seq<Byte>, depth: nat)
    ensures ValueAt(k, s, |s|, depth).Fail? && EntryAt(k, s, |s|, depth).Fail?
  {
  }

  /** A list's next item, and what its separator leads to. */
  lemma NextItem<N>(k: Codec<N>, s: seq<Byte>, p: nat, depth: nat, done: seq<Value<N>>, refused: bool)
    requires p <= |s|
    ensures ItemsAt(k, s, p, depth, done, refused) ==
      var v := ValueAt(k, s, p, depth);
      if v.Fail? then Fail else
      var q := SkipSpace(s, v.end);
      if At(s, q) == COMMA then ItemsAt(k, s, q + 1, depth, done + [v.value], refused || v.refused)
      else if At(s, q) == CLOSE_LIST then Ok(done + [v.value], q + 1, refused || v.refused)
      else Fail
  {
    hide ValueAt, SkipSpace;
  }

  /** A dictionary's next entry, and what its separator leads to. */
  lemma NextEntry<N>(k: Codec<N>, s: seq<Byte>, p: nat, depth: nat, done: seq<(seq<Byte>, Value<N>)>, refused: bool)
    requires p <= |s|
    ensures EntriesAt(k, s, p, depth, done, refused) ==
      var e := EntryAt(k, s, p, depth);
      if e.Fail? then Fail else
      var q := SkipSpace(s, e.end);
      var all := DictSet(done, e.value.0, e.value.1);
      if At(s, q) == COMMA then EntriesAt(k, s, q + 1, depth, all, refused || e.refused)
      else if At(s, q) == CLOSE_DICT then Ok(all, q + 1, refused || e.refused)
      else Fail
  {
    hide EntryAt, SkipSpace, DictSet;
  }

  method ParseList<N>(k: Codec<N>, r: Reader) returns (items: seq<Value<N>>)
    requires r.Valid() && !r.err && r.pos < |r.s|
    modifies r
    ensures r.Valid() && r.depth == old(r.depth)
    ensures var t := SkipSpace(r.s, old(r.pos) + 1);
      var p := if At(r.s, t) == CLOSE_LIST then Ok([], t + 1, false) else ItemsAt(k, r.s, t, r.depth, [], false);
      && r.err == p.Fail?
      && (p.Ok? ==> items == p.value && r.pos == p.end && r.recoverable == (old(r.recoverable) || p.refused))
    decreases |r.s| - r.pos, 0
  {
    hide ValueAt, SkipSpace, ItemsAt;
    r.pos := r.pos + 1;
    items := [];
    SkipSpaces(r);
    if At(r.s, r.pos) == CLOSE_LIST {
      r.pos := r.pos + 1;
      return;
    }
    ghost var start, refused := r.pos, false;
    while At(r.s, r.pos) != 0
      invariant r.Valid() && !r.err && r.depth == old(r.depth)
      invariant start <= r.pos && r.recoverable == (old(r.recoverable) || refused)
      invariant ItemsAt(k, r.s, start, r.depth, [], false) == ItemsAt(k, r.s, r.pos, r.depth, items, refused)
      decreases |r.s| - r.pos
    {
      ghost var v0 := ValueAt(k, r.s, r.pos, r.depth);
      NextItem(k, r.s, r.pos, r.depth, items, refused);
      ValueAfterSpace(k, r.s, r.pos, r.depth);
      SkipSpaces(r);
      var v := ParseValue(k, r);
      if r.err { return; }
      items := items + [v];
      refused := refused || v0.refused;
      SkipSpaces(r);
      if At(r.s, r.pos) == COMMA {
        r.pos := r.pos + 1;
        continue;
      }
      if At(r.s, r.pos) == CLOSE_LIST {
        r.pos := r.pos + 1;
        return;
      }
      r.err := true;
      return;
    }
    NothingAtEnd(k, r.s, r.depth);
    r.err := true;
  }

  /** One entry of a dictionary: key, colon, value. */
  method ParseEntry<N>(k: Codec<N>, r: Reader) returns (key: seq<Byte>, v: Value<N>)
    requires r.Valid() && !r.err
    modifies r
    ensures r.Valid() && r.depth == old(r.depth)
    ensures var p := EntryAt(k, r.s, old(r.pos), r.depth);
      && r.err == p.Fail?
      && (p.Ok? ==> (key, v) == p.value && r.pos == p.end && r.recoverable == (old(r.recoverable) || p.refused))
    decreases |r.s| - r.pos, 2
  {
    hide ValueAt, SkipSpace, StringAt;
    v := Null;
    SkipSpaces(r);
    key := ParseString(r);
    if r.err { return; }
    SkipSpaces(r);
    if At(r.s, r.pos) != COLON {
      r.err := true;
      return;
    }
    r.pos := r.pos + 1;
    ValueAfterSpace(k, r.s, r.pos, r.depth);
    SkipSpaces(r);
    v := ParseValue(k, r);
  }

  method ParseDict<N>(k: Codec<N>, r: Reader) returns (entries: seq<(seq<Byte>, Value<N>)>)
    requires r.Valid() && !r.err && r.pos < |r.s|
    modifies r
    ensures r.Valid() && r.depth == old(r.depth)
    ensures var t := SkipSpace(r.s, old(r.pos) + 1);
      var p := if At(r.s, t) == CLOSE_DICT then Ok([], t + 1, false) else EntriesAt(k, r.s, t, r.depth, [], false);
      && r.err == p.Fail?
      && (p.Ok? ==> entries == p.value && r.pos == p.end && r.recoverable == (old(r.recoverable) || p.refused))
    decreases |r.s| - r.pos, 0
  {
    hide EntryAt, SkipSpace, DictSet, EntriesAt;
    r.pos := r.pos + 1;
    entries := [];
    SkipSpaces(r);
    if At(r.s, r.pos) == CLOSE_DICT {
      r.pos := r.pos + 1;
      return;
    }
    ghost var start, refused := r.pos, false;
    while At(r.s, r.pos) != 0
      invariant r.Valid() && !r.err && r.depth == old(r.depth)
      invariant start <= r.pos && r.recoverable == (old(r.recoverable) || refused)
      invariant EntriesAt(k, r.s, start, r.depth, [], false) == EntriesAt(k, r.s, r.pos, r.depth, entries, refused)
      decreases |r.s| - r.pos
    {
      ghost var e0 := EntryAt(k, r.s, r.pos, r.depth);
      NextEntry(k, r.s, r.pos, r.depth, entries, refused);
      var key, v := ParseEntry(k, r);
      if r.err { return; }
      entries := DictSet(entries, key, v);
      refused := refused || e0.refused;
      SkipSpaces(r);
      if At(r.s, r.pos) == COMMA {
        r.pos := r.pos + 1;
        continue;
      }
      if At(r.s, r.pos) == CLOSE_DICT {
        r.pos := r.pos + 1;
        return;
      }
      r.err := true;
      return;
    }
    NothingAtEnd(k, r.s, r.depth);
    r.err := true;
  }

  /** `json_decode`: the strict decoder. */
  method JsonDecode<N>(k: Codec<N>, s: seq<Byte>) returns (v: Option<Value<N>>)
    requires NulFree(s)
    ensures v == Decoded(k, s)
  {
    hide ValueAt, SkipSpace;
    var r := new Reader(s);
    var value := ParseValue(k, r);
    if r.err { return None; }
    SkipSpaces(r);
    if r.recoverable || At(s, r.pos) != 0 { return None; }
    return Some(value);
  }
}
