/** The JSON encoder, and what encoding and decoding are to each other. */
module JsonRoundTrip {
  import opened Basics
  import opened Bytes
  import opened JsonString
  import opened Json

  // ---- The encoder ----

  function QuotedText(str: seq<Byte>): seq<Byte> {
    [QUOTE] + EscapedAll(str) + [QUOTE]
  }

  /** The encoding of a value. */
  function Text<N>(k: Codec<N>, v: Value<N>): seq<Byte>
    decreases v
  {
    match v
    case Null => NULL_WORD
    case Num(n) => k.text(n)
    case Str(str) => QuotedText(str)
    case List(items) => [OPEN_LIST] + ItemsText(k, items, 0) + [CLOSE_LIST]
    case Dict(entries) => [OPEN_DICT] + EntriesText(k, entries, 0) + [CLOSE_DICT]
  }

  /** The items from the i-th on, each but the first of all after a comma. */
  function ItemsText<N>(k: Codec<N>, items: seq<Value<N>>, i: nat): seq<Byte>
    requires i <= |items|
    decreases items, |items| - i
  {
    if i == |items| then [] else
    (if i > 0 then [COMMA] else []) + (Text(k, items[i]) + ItemsText(k, items, i + 1))
  }

  function EntryText<N>(k: Codec<N>, e: (seq<Byte>, Value<N>)): seq<Byte>
    decreases e
  {
    QuotedText(e.0) + ([COLON] + Text(k, e.1))
  }

  function EntriesText<N>(k: Codec<N>, entries: seq<(seq<Byte>, Value<N>)>, i: nat): seq<Byte>
    requires i <= |entries|
    decreases entries, |entries| - i
  {
    if i == |entries| then [] else
    (if i > 0 then [COMMA] else []) + (EntryText(k, entries[i]) + EntriesText(k, entries, i + 1))
  }

  /** How many containers deep a value goes. */
  function Nesting<N>(v: Value<N>): nat
    decreases v
  {
    match v
    case List(items) => 1 + ItemsNesting(items, 0)
    case Dict(entries) => 1 + EntriesNesting(entries, 0)
    case _ => 0
  }

  function Max(a: nat, b: nat): nat {
    if a > b then a else b
  }

  function ItemsNesting<N>(items: seq<Value<N>>, i: nat): nat
    requires i <= |items|
    decreases items, |items| - i
  {
    if i == |items| then 0 else Max(Nesting(items[i]), ItemsNesting(items, i + 1))
  }

  function EntryNesting<N>(e: (seq<Byte>, Value<N>)): nat
    decreases e
  {
    Nesting(e.1)
  }

  function EntriesNesting<N>(entries: seq<(seq<Byte>, Value<N>)>, i: nat): nat
    requires i <= |entries|
    decreases entries, |entries| - i
  {
    if i == |entries| then 0 else Max(EntryNesting(entries[i]), EntriesNesting(entries, i + 1))
  }

  class StringBuffer {
    var bytes: seq<Byte>

    constructor ()
      ensures bytes == []
    {
      bytes := [];
    }

    method Append(more: seq<Byte>)
      modifies this
      ensures bytes == old(bytes) + more
    {
      bytes := bytes + more;
    }
  }

  /** Append a string in quotes, byte by byte. */
  method EncodeString(str: seq<Byte>, out: StringBuffer)
    modifies out
    ensures out.bytes == old(out.bytes) + QuotedText(str)
  {
    hide Escaped;
    out.Append([QUOTE]);
    var i := 0;
    while i < |str|
      invariant 0 <= i <= |str|
      invariant old(out.bytes) + QuotedText(str) == out.bytes + EscapedAll(str[i..]) + [QUOTE]
    {
      assert str[i..][0] == str[i] && str[i..][1..] == str[i + 1..];
      out.Append(Escaped(str[i]));
      i := i + 1;
    }
    assert str[i..] == [];
    out.Append([QUOTE]);
  }

  /** Append the encoding of a value found inside `depth` containers. It fails exactly when the
      value nests too deep. */
  method EncodeValue<N>(k: Codec<N>, v: Value<N>, out: StringBuffer, depth: nat) returns (ok: bool)
    requires depth <= MAX_DEPTH
    modifies out
    ensures ok <==> depth + Nesting(v) <= MAX_DEPTH
    ensures ok ==> out.bytes == old(out.bytes) + Text(k, v)
    decreases v, 1
  {
    hide ItemsText, EntriesText, ItemsNesting, EntriesNesting, QuotedText;
    if (v.List? || v.Dict?) && depth >= MAX_DEPTH { return false; }
    match v {
      case Null =>
        out.Append(NULL_WORD);
        return true;
      case Num(n) =>
        out.Append(k.text(n));
        return true;
      case Str(str) =>
        EncodeString(str, out);
        return true;
      case List(items) =>
        ok := EncodeItems(k, items, out, depth + 1);
      case Dict(entries) =>
        ok := EncodeEntries(k, entries, out, depth + 1);
    }
  }

  method EncodeItems<N>(k: Codec<N>, items: seq<Value<N>>, out: StringBuffer, depth: nat) returns (ok: bool)
    requires depth <= MAX_DEPTH
    modifies out
    ensures ok <==> depth + ItemsNesting(items, 0) <= MAX_DEPTH
    ensures ok ==> out.bytes == old(out.bytes) + ([OPEN_LIST] + ItemsText(k, items, 0) + [CLOSE_LIST])
    decreases items, 0
  {
    hide Text, Nesting;
    ghost var before, all := out.bytes, ItemsText(k, items, 0);
    out.Append([OPEN_LIST]);
    var i := 0;
    while i < |items|
      invariant 0 <= i <= |items|
      invariant before + ([OPEN_LIST] + all) == out.bytes + ItemsText(k, items, i)
      invariant depth + ItemsNesting(items, 0) <= MAX_DEPTH <==> depth + ItemsNesting(items, i) <= MAX_DEPTH
    {
      ghost var sofar, rest, separator := out.bytes, ItemsText(k, items, i + 1), if i > 0 then [COMMA] else [];
      if i > 0 { out.Append([COMMA]); }
      var inside := EncodeValue(k, items[i], out, depth);
      if !inside { return false; }
      Associate(sofar, separator, Text(k, items[i]), rest);
      i := i + 1;
    }
    assert out.bytes == before + ([OPEN_LIST] + all);
    out.Append([CLOSE_LIST]);
    assert out.bytes == before + ([OPEN_LIST] + all + [CLOSE_LIST]);
    return true;
  }

  method EncodeEntries<N>(k: Codec<N>, entries: seq<(seq<Byte>, Value<N>)>, out: StringBuffer, depth: nat)
    returns (ok: bool)
    requires depth <= MAX_DEPTH
    modifies out
    ensures ok <==> depth + EntriesNesting(entries, 0) <= MAX_DEPTH
    ensures ok ==> out.bytes == old(out.bytes) + ([OPEN_DICT] + EntriesText(k, entries, 0) + [CLOSE_DICT])
    decreases entries, 0
  {
    hide EntryText, EntryNesting;
    ghost var before, all := out.bytes, EntriesText(k, entries, 0);
    out.Append([OPEN_DICT]);
    var i := 0;
    while i < |entries|
      invariant 0 <= i <= |entries|
      invariant before + ([OPEN_DICT] + all) == out.bytes + EntriesText(k, entries, i)
      invariant depth + EntriesNesting(entries, 0) <= MAX_DEPTH <==> depth + EntriesNesting(entries, i) <= MAX_DEPTH
    {
      ghost var sofar, rest, separator := out.bytes, EntriesText(k, entries, i + 1), if i > 0 then [COMMA] else [];
      if i > 0 { out.Append([COMMA]); }
      var inside := EncodeEntry(k, entries[i], out, depth);
      if !inside { return false; }
      Associate(sofar, separator, EntryText(k, entries[i]), rest);
      i := i + 1;
    }
    assert out.bytes == before + ([OPEN_DICT] + all);
    out.Append([CLOSE_DICT]);
    assert out.bytes == before + ([OPEN_DICT] + all + [CLOSE_DICT]);
    return true;
  }

  method EncodeEntry<N>(k: Codec<N>, e: (seq<Byte>, Value<N>), out: StringBuffer, depth: nat) returns (ok: bool)
    requires depth <= MAX_DEPTH
    modifies out
    ensures ok <==> depth + EntryNesting(e) <= MAX_DEPTH
    ensures ok ==> out.bytes == old(out.bytes) + EntryText(k, e)
    decreases e, 0
  {
    hide QuotedText, Text;
    ghost var before := out.bytes;
    EncodeString(e.0, out);
    out.Append([COLON]);
    ok := EncodeValue(k, e.1, out, depth);
    Associate(before, QuotedText(e.0), [COLON], Text(k, e.1));
  }

  lemma Associate(a: seq<Byte>, b: seq<Byte>, c: seq<Byte>, d: seq<Byte>)
    ensures a + (b + (c + d)) == ((a + b) + c) + d
  {
  }

  // ---- Text standing somewhere in a document ----

  /** What may follow a value the encoder wrote: the end of the text, or a separator. */
  predicate Ends(s: seq<Byte>, p: nat) {
    p == |s| || (p < |s| && (s[p] == COMMA || s[p] == CLOSE_LIST || s[p] == CLOSE_DICT))
  }

  // ---- Numbers ----

  /** The text is one number token. */
  predicate IsNumber(t: seq<Byte>) {
    NulFree(t) && NumberEnd(t, 0) == Some(|t|)
  }

  /** The number is written as a token that parses back to it, as every finite one but -0.0 is. */
  ghost predicate Exact<N>(k: Codec<N>, n: N) {
    IsNumber(k.text(n)) && k.parse(k.text(n)) == n
  }

  /** Every number that occurs in the value is exact. */
  ghost predicate Faithful<N>(k: Codec<N>, v: Value<N>)
    decreases v
  {
    match v
    case Num(n) => Exact(k, n)
    case List(items) => forall i :: 0 <= i < |items| ==> Faithful(k, items[i])
    case Dict(entries) => forall i :: 0 <= i < |entries| ==> FaithfulEntry(k, entries[i])
    case _ => true
  }

  ghost predicate FaithfulEntry<N>(k: Codec<N>, e: (seq<Byte>, Value<N>))
    decreases e
  {
    Faithful(k, e.1)
  }

  lemma {:induction false} DigitsShift(s: seq<Byte>, p: nat, t: seq<Byte>, i: nat)
    requires StandsAt(s, p, t) && Ends(s, p + |t|) && i <= |t|
    ensures SkipDigits(s, p + i) == p + SkipDigits(t, i)
    decreases |t| - i
  {
    if i < |t| {
      StandsByte(s, p, t, i);
      if IsDigit(t[i]) {
        DigitsShift(s, p, t, i + 1);
      }
    }
  }

  /** A byte of the token, or past its end where neither text has a part of a number. */
  lemma ByteShift(s: seq<Byte>, p: nat, t: seq<Byte>, i: nat)
    requires StandsAt(s, p, t) && Ends(s, p + |t|) && i <= |t|
    ensures p + i <= |s|
    ensures i < |t| ==> At(s, p + i) == At(t, i)
    ensures i == |t| ==> !IsDigit(At(s, p + i)) && At(s, p + i) !in {0x2E, 0x65, 0x45, 0x2B, 0x2D}
  {
    if i < |t| { StandsByte(s, p, t, i); }
  }

  lemma NumberShift(s: seq<Byte>, p: nat, t: seq<Byte>)
    requires StandsAt(s, p, t) && Ends(s, p + |t|) && IsNumber(t)
    ensures NumberEnd(s, p) == Some(p + |t|)
  {
    hide SkipDigits, StandsAt, Ends;
    ByteShift(s, p, t, 0);
    var q := if At(t, 0) == 0x2D then 1 else 0;
    ByteShift(s, p, t, q);
    DigitsShift(s, p, t, q);
    var d := SkipDigits(t, q);
    ByteShift(s, p, t, d);
    FractionShift(s, p, t, d);
    var f := FractionEnd(t, d).value;
    ExponentShift(s, p, t, f);
  }

  lemma FractionShift(s: seq<Byte>, p: nat, t: seq<Byte>, i: nat)
    requires StandsAt(s, p, t) && Ends(s, p + |t|) && i <= |t| && FractionEnd(t, i).Some?
    ensures p + i <= |s| && FractionEnd(s, p + i) == Some(p + FractionEnd(t, i).value)
  {
    hide SkipDigits, StandsAt, Ends;
    ByteShift(s, p, t, i);
    if At(t, i) == 0x2E {
      ByteShift(s, p, t, i + 1);
      DigitsShift(s, p, t, i + 1);
    }
  }

  lemma ExponentShift(s: seq<Byte>, p: nat, t: seq<Byte>, i: nat)
    requires StandsAt(s, p, t) && Ends(s, p + |t|) && i <= |t| && ExponentEnd(t, i).Some?
    ensures p + i <= |s| && ExponentEnd(s, p + i) == Some(p + ExponentEnd(t, i).value)
  {
    hide SkipDigits, StandsAt, Ends;
    ByteShift(s, p, t, i);
    if At(t, i) == 0x65 || At(t, i) == 0x45 {
      ByteShift(s, p, t, i + 1);
      var q := if At(t, i + 1) == 0x2B || At(t, i + 1) == 0x2D then i + 2 else i + 1;
      ByteShift(s, p, t, q);
      DigitsShift(s, p, t, q);
    }
  }

  // ---- Decoding what was encoded ----

  /** Strings and keys hold no NUL, and no dictionary has a key twice. */
  ghost predicate Plain<N>(v: Value<N>)
    decreases v
  {
    match v
    case Str(str) => NulFree(str)
    case List(items) => forall i :: 0 <= i < |items| ==> Plain(items[i])
    case Dict(entries) => DistinctKeys(entries) && forall i :: 0 <= i < |entries| ==> PlainEntry(entries[i])
    case _ => true
  }

  ghost predicate PlainEntry<N>(e: (seq<Byte>, Value<N>))
    decreases e
  {
    NulFree(e.0) && Plain(e.1)
  }

  lemma TextStart<N>(k: Codec<N>, v: Value<N>)
    requires Faithful(k, v)
    ensures var t := Text(k, v); t != [] && t[0] != 0 && !IsSpace(t[0]) && t[0] != CLOSE_LIST && t[0] != CLOSE_DICT
  {
    if v.Num? {
      assert IsNumber(k.text(v.n));
    }
  }

  lemma StaysPut(s: seq<Byte>, p: nat)
    requires p < |s| && !IsSpace(s[p])
    ensures SkipSpace(s, p) == p
  {
  }

  /** An opening bracket, contents and a closing bracket. */
  lemma Brackets(s: seq<Byte>, p: nat, open: Byte, inner: seq<Byte>, close: Byte)
    requires StandsAt(s, p, [open] + inner + [close]) && !IsSpace(open) && !IsSpace(close)
    requires inner != [] ==> !IsSpace(inner[0])
    ensures p + 1 < |s| && s[p] == open && SkipSpace(s, p) == p && SkipSpace(s, p + 1) == p + 1
    ensures StandsAt(s, p + 1, inner) && StandsAt(s, p + 1 + |inner|, [close])
    ensures s[p + 1] == if inner == [] then close else inner[0]
  {
    StandsParts(s, p, [open] + inner, [close]);
    StandsParts(s, p, [open], inner);
    StandsByte(s, p, [open], 0);
    StandsByte(s, p + 1 + |inner|, [close], 0);
    if inner != [] { StandsByte(s, p + 1, inner, 0); }
    StaysPut(s, p);
    StaysPut(s, p + 1);
  }

  /** A list's or dictionary's last element `t`, and its closing bracket. */
  lemma LastElement(s: seq<Byte>, p: nat, t: seq<Byte>, close: Byte)
    requires StandsAt(s, p, t + []) && StandsAt(s, p + |t + []|, [close])
    requires close == CLOSE_LIST || close == CLOSE_DICT
    ensures StandsAt(s, p, t) && p + |t| < |s| && Ends(s, p + |t|) && SkipSpace(s, p + |t|) == p + |t|
    ensures s[p + |t|] == close
  {
    assert t + [] == t;
    StandsByte(s, p + |t|, [close], 0);
    StaysPut(s, p + |t|);
  }

  /** An element `t`, a comma, the elements `next` and the closing bracket. */
  lemma OneElement(s: seq<Byte>, p: nat, t: seq<Byte>, next: seq<Byte>, close: Byte)
    requires StandsAt(s, p, t + ([COMMA] + next)) && StandsAt(s, p + |t + ([COMMA] + next)|, [close])
    ensures StandsAt(s, p, t) && p + |t| < |s| && Ends(s, p + |t|) && SkipSpace(s, p + |t|) == p + |t|
    ensures s[p + |t|] == COMMA
    ensures StandsAt(s, p + |t| + 1, next) && StandsAt(s, p + |t| + 1 + |next|, [close])
  {
    var e := p + |t|;
    StandsParts(s, p, t, [COMMA] + next);
    StandsParts(s, e, [COMMA], next);
    StandsByte(s, e, [COMMA], 0);
    StaysPut(s, e);
  }

  lemma StringDecodes(s: seq<Byte>, p: nat, str: seq<Byte>)
    requires StandsAt(s, p, QuotedText(str)) && NulFree(str)
    ensures StringAt(s, p) == Ok(str, p + |QuotedText(str)|, false)
  {
    var e := EscapedAll(str);
    StandsParts(s, p, [QUOTE] + e, [QUOTE]);
    StandsParts(s, p, [QUOTE], e);
    StandsByte(s, p, [QUOTE], 0);
    StandsByte(s, p + 1 + |e|, [QUOTE], 0);
    EscapedDecodes(s, p + 1, str);
  }

  /** Where the encoding of a value stands, decoding gives the value back and stops at its end,
      if the value does not nest too deep there; if it does, decoding fails. */
  lemma {:induction false} TextDecodes<N>(k: Codec<N>, s: seq<Byte>, p: nat, v: Value<N>, depth: nat)
    requires Faithful(k, v) && Plain(v) && depth <= MAX_DEPTH
    requires StandsAt(s, p, Text(k, v)) && Ends(s, p + |Text(k, v)|)
    ensures ValueAt(k, s, p, depth)
         == if depth + Nesting(v) <= MAX_DEPTH then Ok(v, p + |Text(k, v)|, false) else Fail
    decreases v, 1
  {
    hide ItemsAt, EntriesAt, ItemsText, EntriesText, ItemsNesting, EntriesNesting, NumberEnd, StringAt, QuotedText;
    TextStart(k, v);
    StandsByte(s, p, Text(k, v), 0);
    StaysPut(s, p);
    match v {
      case Null =>
      case Num(n) => NumberDecodes(k, s, p, n, depth);
      case Str(str) =>
        StringDecodes(s, p, str);
        QuotedStart(str);
      case List(items) => ListDecodes(k, s, p, items, depth);
      case Dict(entries) => DictDecodes(k, s, p, entries, depth);
    }
  }

  lemma OpenedDict<N>(k: Codec<N>, s: seq<Byte>, p: nat, depth: nat)
    requires p + 1 < |s| && s[p] == OPEN_DICT && SkipSpace(s, p) == p && SkipSpace(s, p + 1) == p + 1
    ensures ValueAt(k, s, p, depth) ==
      if depth >= MAX_DEPTH then Fail
      else if s[p + 1] == CLOSE_DICT then Ok(Dict([]), p + 2, false)
      else
        var r := EntriesAt(k, s, p + 1, depth + 1, [], false);
        if r.Fail? then Fail else Ok(Dict(r.value), r.end, r.refused)
  {
    hide SkipSpace, EntriesAt, ItemsAt, StringAt, NumberEnd;
  }

  lemma OpenedList<N>(k: Codec<N>, s: seq<Byte>, p: nat, depth: nat)
    requires p + 1 < |s| && s[p] == OPEN_LIST && SkipSpace(s, p) == p && SkipSpace(s, p + 1) == p + 1
    ensures ValueAt(k, s, p, depth) ==
      if depth >= MAX_DEPTH then Fail
      else if s[p + 1] == CLOSE_LIST then Ok(List([]), p + 2, false)
      else
        var r := ItemsAt(k, s, p + 1, depth + 1, [], false);
        if r.Fail? then Fail else Ok(List(r.value), r.end, r.refused)
  {
    hide SkipSpace, EntriesAt, ItemsAt, StringAt, NumberEnd;
  }

  lemma {:induction false} DictDecodes<N>(k: Codec<N>, s: seq<Byte>, p: nat, entries: seq<(seq<Byte>, Value<N>)>,
                                          depth: nat)
    requires Faithful(k, Dict(entries)) && Plain(Dict(entries)) && depth <= MAX_DEPTH
    requires StandsAt(s, p, Text(k, Dict(entries)))
    ensures ValueAt(k, s, p, depth)
         == if depth + Nesting(Dict(entries)) <= MAX_DEPTH then Ok(Dict(entries), p + |Text(k, Dict(entries))|, false)
           else Fail
    decreases entries, 2
  {
    hide ItemsAt, EntriesAt, NumberEnd, StringAt, EntryText, SkipSpace, StandsAt, Plain, Faithful, ValueAt;
    var inner := EntriesText(k, entries, 0);
    if entries == [] {
      Brackets(s, p, OPEN_DICT, inner, CLOSE_DICT);
      OpenedDict(k, s, p, depth);
    } else {
      EntryStart(k, entries[0]);
      assert inner == EntryText(k, entries[0]) + EntriesText(k, entries, 1);
      Brackets(s, p, OPEN_DICT, inner, CLOSE_DICT);
      OpenedDict(k, s, p, depth);
      if depth < MAX_DEPTH {
        EntriesDecode(k, s, p + 1, entries, 0, depth + 1, []);
      }
    }
  }

  lemma EntryStart<N>(k: Codec<N>, e: (seq<Byte>, Value<N>))
    ensures EntryText(k, e) != [] && EntryText(k, e)[0] == QUOTE
  {
  }

  lemma OneMoreDone<T>(elements: seq<T>, i: nat)
    requires i < |elements|
    ensures elements[..i] + [elements[i]] == elements[..i + 1]
    ensures i + 1 == |elements| ==> elements[..i + 1] == elements
  {
  }

  lemma RestOfEntries<N>(k: Codec<N>, entries: seq<(seq<Byte>, Value<N>)>, i: nat)
    requires i < |entries|
    ensures i + 1 == |entries| ==> EntriesText(k, entries, i + 1) == []
    ensures i + 1 < |entries| ==>
      EntriesText(k, entries, i + 1) == [COMMA] + (EntryText(k, entries[i + 1]) + EntriesText(k, entries, i + 2))
    ensures EntriesNesting(entries, i) == Max(EntryNesting(entries[i]), EntriesNesting(entries, i + 1))
    ensures i + 1 == |entries| ==> EntriesNesting(entries, i + 1) == 0
    ensures Faithful(k, Dict(entries)) && Plain(Dict(entries)) ==>
      && FaithfulEntry(k, entries[i]) && PlainEntry(entries[i])
      && forall j :: 0 <= j < i ==> entries[j].0 != entries[i].0
  {
  }

  lemma {:induction false} EntriesDecode<N>(k: Codec<N>, s: seq<Byte>, p: nat, entries: seq<(seq<Byte>, Value<N>)>,
                                            i: nat, depth: nat, done: seq<(seq<Byte>, Value<N>)>)
    requires Faithful(k, Dict(entries)) && Plain(Dict(entries)) && depth <= MAX_DEPTH && i < |entries| &&
      done == entries[..i]
    requires StandsAt(s, p, EntryText(k, entries[i]) + EntriesText(k, entries, i + 1))
    requires StandsAt(s, p + |EntryText(k, entries[i]) + EntriesText(k, entries, i + 1)|, [CLOSE_DICT])
    ensures EntriesAt(k, s, p, depth, done, false)
         == if depth + EntriesNesting(entries, i) <= MAX_DEPTH
            then Ok(entries, p + |EntryText(k, entries[i]) + EntriesText(k, entries, i + 1)| + 1, false) else Fail
    decreases entries, 1, |entries| - i
  {
    hide EntryAt, EntriesAt, EntryText, EntriesText, EntryNesting, EntriesNesting, SkipSpace, StandsAt, Ends, DictSet;
    hide Faithful, FaithfulEntry, Plain, PlainEntry;
    RestOfEntries(k, entries, i);
    DictSetNew(done, entries[i].0, entries[i].1);
    OneMoreDone(entries, i);
    var t := EntryText(k, entries[i]);
    if i + 1 == |entries| {
      LastElement(s, p, t, CLOSE_DICT);
      EntryDecodes(k, s, p, entries[i], depth);
      NextEntry(k, s, p, depth, done, false);
    } else {
      OneElement(s, p, t, EntryText(k, entries[i + 1]) + EntriesText(k, entries, i + 2), CLOSE_DICT);
      EntryDecodes(k, s, p, entries[i], depth);
      NextEntry(k, s, p, depth, done, false);
      EntriesDecode(k, s, p + |t| + 1, entries, i + 1, depth, done + [entries[i]]);
    }
  }

  lemma {:induction false} EntryDecodes<N>(k: Codec<N>, s: seq<Byte>, p: nat, e: (seq<Byte>, Value<N>), depth: nat)
    requires FaithfulEntry(k, e) && PlainEntry(e) && depth <= MAX_DEPTH
    requires StandsAt(s, p, EntryText(k, e)) && Ends(s, p + |EntryText(k, e)|)
    ensures EntryAt(k, s, p, depth)
         == if depth + EntryNesting(e) <= MAX_DEPTH then Ok(e, p + |EntryText(k, e)|, false) else Fail
    decreases e, 2
  {
    hide QuotedText, StringAt, ValueAt, Text, Nesting, SkipSpace;
    var q, t := QuotedText(e.0), Text(k, e.1);
    StandsParts(s, p, q, [COLON] + t);
    StandsParts(s, p + |q|, [COLON], t);
    QuotedStart(e.0);
    StandsByte(s, p, q, 0);
    StandsByte(s, p + |q|, [COLON], 0);
    StaysPut(s, p);
    StaysPut(s, p + |q|);
    StringDecodes(s, p, e.0);
    TextDecodes(k, s, p + |q| + 1, e.1, depth);
  }

  lemma QuotedStart(str: seq<Byte>)
    ensures |QuotedText(str)| > 0 && QuotedText(str)[0] == QUOTE
  {
  }

  lemma NumberDecodes<N>(k: Codec<N>, s: seq<Byte>, p: nat, n: N, depth: nat)
    requires Exact(k, n) && StandsAt(s, p, k.text(n)) && Ends(s, p + |k.text(n)|)
    ensures ValueAt(k, s, p, depth) == Ok(Num(n), p + |k.text(n)|, false)
  {
    hide ItemsAt, EntriesAt;
    var t := k.text(n);
    assert IsNumber(t);
    NumberShift(s, p, t);
    TextStart(k, Num(n));
    StandsByte(s, p, t, 0);
    StaysPut(s, p);
  }

  lemma ListText<N>(k: Codec<N>, items: seq<Value<N>>)
    ensures Text(k, List(items)) == [OPEN_LIST] + ItemsText(k, items, 0) + [CLOSE_LIST]
    ensures Nesting(List(items)) == 1 + ItemsNesting(items, 0)
    ensures items == [] ==> ItemsText(k, items, 0) == [] && ItemsNesting(items, 0) == 0
    ensures items != [] ==> ItemsText(k, items, 0) == Text(k, items[0]) + ItemsText(k, items, 1)
  {
  }

  /** The items of a list, at the place of the first. */
  lemma {:induction false} InsideList<N>(k: Codec<N>, s: seq<Byte>, p: nat, items: seq<Value<N>>, depth: nat)
    requires Faithful(k, List(items)) && Plain(List(items)) && depth <= MAX_DEPTH && items != []
    requires StandsAt(s, p, ItemsText(k, items, 0)) && StandsAt(s, p + |ItemsText(k, items, 0)|, [CLOSE_LIST])
    ensures ItemsAt(k, s, p, depth, [], false)
         == if depth + ItemsNesting(items, 0) <= MAX_DEPTH
            then Ok(items, p + |ItemsText(k, items, 0)| + 1, false) else Fail
    decreases items, 2
  {
    ListText(k, items);
    hide ItemsAt, StandsAt, Text, ItemsText, ItemsNesting, Plain, Faithful;
    ItemsDecode(k, s, p, items, 0, depth, []);
  }

  lemma {:induction false} ListDecodes<N>(k: Codec<N>, s: seq<Byte>, p: nat, items: seq<Value<N>>, depth: nat)
    requires Faithful(k, List(items)) && Plain(List(items)) && depth <= MAX_DEPTH
    requires StandsAt(s, p, Text(k, List(items)))
    ensures ValueAt(k, s, p, depth)
         == if depth + Nesting(List(items)) <= MAX_DEPTH then Ok(List(items), p + |Text(k, List(items))|, false)
           else Fail
    decreases items, 3
  {
    hide SkipSpace, StandsAt, Plain, Faithful, ValueAt, ItemsAt, Text, Nesting, ItemsText, ItemsNesting;
    ListText(k, items);
    if items == [] {
      Brackets(s, p, OPEN_LIST, [], CLOSE_LIST);
      OpenedList(k, s, p, depth);
    } else {
      var inner := ItemsText(k, items, 0);
      FirstItem(k, items);
      Brackets(s, p, OPEN_LIST, inner, CLOSE_LIST);
      OpenedList(k, s, p, depth);
      if depth < MAX_DEPTH {
        InsideList(k, s, p + 1, items, depth + 1);
      }
    }
  }

  lemma FirstItem<N>(k: Codec<N>, items: seq<Value<N>>)
    requires Faithful(k, List(items)) && items != []
    ensures var t := ItemsText(k, items, 0); t != [] && !IsSpace(t[0]) && t[0] != CLOSE_LIST
  {
    TextStart(k, items[0]);
  }

  lemma RestOfItems<N>(k: Codec<N>, items: seq<Value<N>>, i: nat)
    requires i < |items|
    ensures i + 1 == |items| ==> ItemsText(k, items, i + 1) == []
    ensures i + 1 < |items| ==>
      ItemsText(k, items, i + 1) == [COMMA] + (Text(k, items[i + 1]) + ItemsText(k, items, i + 2))
    ensures ItemsNesting(items, i) == Max(Nesting(items[i]), ItemsNesting(items, i + 1))
    ensures i + 1 == |items| ==> ItemsNesting(items, i + 1) == 0
    ensures Faithful(k, List(items)) && Plain(List(items)) ==> Faithful(k, items[i]) && Plain(items[i])
  {
  }

  lemma {:induction false} ItemsDecode<N>(k: Codec<N>, s: seq<Byte>, p: nat, items: seq<Value<N>>, i: nat, depth: nat,
                                          done: seq<Value<N>>)
    requires Faithful(k, List(items)) && Plain(List(items)) && depth <= MAX_DEPTH && i < |items| && done == items[..i]
    requires StandsAt(s, p, Text(k, items[i]) + ItemsText(k, items, i + 1))
    requires StandsAt(s, p + |Text(k, items[i]) + ItemsText(k, items, i + 1)|, [CLOSE_LIST])
    ensures ItemsAt(k, s, p, depth, done, false)
         == if depth + ItemsNesting(items, i) <= MAX_DEPTH
            then Ok(items, p + |Text(k, items[i]) + ItemsText(k, items, i + 1)| + 1, false) else Fail
    decreases items, 1, |items| - i
  {
    hide ValueAt, ItemsAt, Text, ItemsText, Nesting, ItemsNesting, SkipSpace, StandsAt, Ends, Faithful, Plain;
    RestOfItems(k, items, i);
    OneMoreDone(items, i);
    var t := Text(k, items[i]);
    if i + 1 == |items| {
      LastElement(s, p, t, CLOSE_LIST);
      TextDecodes(k, s, p, items[i], depth);
      NextItem(k, s, p, depth, done, false);
    } else {
      OneElement(s, p, t, Text(k, items[i + 1]) + ItemsText(k, items, i + 2), CLOSE_LIST);
      TextDecodes(k, s, p, items[i], depth);
      NextItem(k, s, p, depth, done, false);
      ItemsDecode(k, s, p + |t| + 1, items, i + 1, depth, done + [items[i]]);
    }
  }

  /** The round trip: strict decoding of an encoding gives the value back if it nests at most 200
      containers deep, and refuses it otherwise, exactly as the encoder refuses to write it. */
  lemma RoundTrip<N>(k: Codec<N>, v: Value<N>)
    requires Faithful(k, v) && Plain(v)
    ensures Decoded(k, Text(k, v)) == if Nesting(v) <= MAX_DEPTH then Some(v) else None
  {
    hide ValueAt, Text, Nesting;
    var s := Text(k, v);
    assert s[0..0 + |s|] == s;
    TextDecodes(k, s, 0, v, 0);
    assert SkipSpace(s, |s|) == |s|;
  }

  // ---- What decodes can be encoded ----

  /** Decoded values nest no deeper than the bound, and hold no NUL and no key twice. */
  lemma {:induction false} DecodedValueIsPlain<N>(k: Codec<N>, s: seq<Byte>, p: nat, depth: nat)
    requires NulFree(s) && p <= |s| && depth <= MAX_DEPTH && ValueAt(k, s, p, depth).Ok?
    ensures var v := ValueAt(k, s, p, depth).value; Plain(v) && depth + Nesting(v) <= MAX_DEPTH
    decreases |s| - p, 0
  {
    hide ItemsAt, EntriesAt, SkipSpace, NumberEnd, StringAt;
    var q := SkipSpace(s, p);
    var b := At(s, q);
    if b == QUOTE {
      DecodedStringIsNulFree(s, q);
    } else if b == OPEN_LIST {
      var t := SkipSpace(s, q + 1);
      if At(s, t) != CLOSE_LIST {
        DecodedItemsArePlain(k, s, t, depth + 1, [], false);
      }
    } else if b == OPEN_DICT {
      var t := SkipSpace(s, q + 1);
      if At(s, t) != CLOSE_DICT {
        DecodedEntriesArePlain(k, s, t, depth + 1, [], false);
      }
    }
  }

  lemma DecodedStringIsNulFree(s: seq<Byte>, p: nat)
    requires NulFree(s) && p <= |s| && StringAt(s, p).Ok?
    ensures NulFree(StringAt(s, p).value)
  {
    DecodedIsNulFree(s, p + 1);
  }

  ghost predicate PlainWithin<N>(items: seq<Value<N>>, bound: nat) {
    forall i :: 0 <= i < |items| ==> Plain(items[i]) && Nesting(items[i]) <= bound
  }

  lemma {:induction false} NestingWithin<N>(items: seq<Value<N>>, i: nat, bound: nat)
    requires PlainWithin(items, bound) && i <= |items|
    ensures ItemsNesting(items, i) <= bound
    decreases |items| - i
  {
    if i < |items| { NestingWithin(items, i + 1, bound); }
  }

  lemma {:induction false} DecodedItemsArePlain<N>(k: Codec<N>, s: seq<Byte>, p: nat, depth: nat, done: seq<Value<N>>,
                                                   refused: bool)
    requires NulFree(s) && p <= |s| && depth <= MAX_DEPTH && ItemsAt(k, s, p, depth, done, refused).Ok?
    requires PlainWithin(done, MAX_DEPTH - depth)
    ensures var items := ItemsAt(k, s, p, depth, done, refused).value;
      Plain(List(items)) && depth + ItemsNesting(items, 0) <= MAX_DEPTH
    decreases |s| - p, 1
  {
    hide ValueAt, SkipSpace;
    var v := ValueAt(k, s, p, depth);
    DecodedValueIsPlain(k, s, p, depth);
    var q := SkipSpace(s, v.end);
    if At(s, q) == COMMA {
      DecodedItemsArePlain(k, s, q + 1, depth, done + [v.value], refused || v.refused);
    } else {
      NestingWithin(done + [v.value], 0, MAX_DEPTH - depth);
    }
  }

  ghost predicate PlainEntriesWithin<N>(entries: seq<(seq<Byte>, Value<N>)>, bound: nat) {
    && DistinctKeys(entries)
    && forall i :: 0 <= i < |entries| ==> PlainEntry(entries[i]) && EntryNesting(entries[i]) <= bound
  }

  lemma {:induction false} EntriesNestingWithin<N>(entries: seq<(seq<Byte>, Value<N>)>, i: nat, bound: nat)
    requires PlainEntriesWithin(entries, bound) && i <= |entries|
    ensures EntriesNesting(entries, i) <= bound
    decreases |entries| - i
  {
    if i < |entries| { EntriesNestingWithin(entries, i + 1, bound); }
  }

  /** `DictSet` keeps keys distinct, and every entry is an old one or the new one. */
  lemma {:induction false} DictSetEntries<N>(d: seq<(seq<Byte>, Value<N>)>, key: seq<Byte>, v: Value<N>)
    requires DistinctKeys(d)
    ensures DistinctKeys(DictSet(d, key, v))
    ensures forall i :: 0 <= i < |DictSet(d, key, v)| ==>
      DictSet(d, key, v)[i] in d || DictSet(d, key, v)[i] == (key, v)
    ensures forall i :: 0 <= i < |DictSet(d, key, v)| ==>
      DictSet(d, key, v)[i].0 == key || exists j :: 0 <= j < |d| && d[j].0 == DictSet(d, key, v)[i].0
  {
    if d != [] {
      assert d == [d[0]] + d[1..];
      if d[0].0 != key {
        DictSetEntries(d[1..], key, v);
        assert DictSet(d, key, v) == [d[0]] + DictSet(d[1..], key, v);
      }
    }
    hide DictSet;
    if d != [] && d[0].0 != key {
      var rest := DictSet(d[1..], key, v);
      forall i | 0 <= i < |rest| ensures rest[i].0 != d[0].0 {
        if rest[i].0 != key {
          var j :| 0 <= j < |d[1..]| && d[1..][j].0 == rest[i].0;
          assert d[1..][j] == d[j + 1];
        }
      }
    }
  }

  lemma {:induction false} DecodedEntriesArePlain<N>(k: Codec<N>, s: seq<Byte>, p: nat, depth: nat,
                                                     done: seq<(seq<Byte>, Value<N>)>, refused: bool)
    requires NulFree(s) && p <= |s| && depth <= MAX_DEPTH && EntriesAt(k, s, p, depth, done, refused).Ok?
    requires PlainEntriesWithin(done, MAX_DEPTH - depth)
    ensures var entries := EntriesAt(k, s, p, depth, done, refused).value;
      Plain(Dict(entries)) && depth + EntriesNesting(entries, 0) <= MAX_DEPTH
    decreases |s| - p, 2
  {
    hide ValueAt, SkipSpace, EntryAt, DictSet;
    var e := EntryAt(k, s, p, depth);
    DecodedEntryIsPlain(k, s, p, depth);
    var q := SkipSpace(s, e.end);
    var all := DictSet(done, e.value.0, e.value.1);
    DictSetEntries(done, e.value.0, e.value.1);
    assert e.value == (e.value.0, e.value.1);
    assert PlainEntriesWithin(all, MAX_DEPTH - depth);
    if At(s, q) == COMMA {
      DecodedEntriesArePlain(k, s, q + 1, depth, all, refused || e.refused);
    } else {
      EntriesNestingWithin(all, 0, MAX_DEPTH - depth);
    }
  }

  lemma {:induction false} DecodedEntryIsPlain<N>(k: Codec<N>, s: seq<Byte>, p: nat, depth: nat)
    requires NulFree(s) && p <= |s| && depth <= MAX_DEPTH && EntryAt(k, s, p, depth).Ok?
    ensures PlainEntry(EntryAt(k, s, p, depth).value) &&
      depth + EntryNesting(EntryAt(k, s, p, depth).value) <= MAX_DEPTH
    decreases |s| - p, 1
  {
    hide ValueAt, SkipSpace, StringAt;
    var q := SkipSpace(s, p);
    DecodedStringIsNulFree(s, q);
    var c := SkipSpace(s, StringAt(s, q).end);
    DecodedValueIsPlain(k, s, c + 1, depth);
  }

  /** Whatever decodes can be encoded again, and if its numbers are exact that encoding decodes to the same value. */
  lemma DecodedReencodes<N>(k: Codec<N>, s: seq<Byte>, v: Value<N>)
    requires NulFree(s) && Decoded(k, s) == Some(v)
    ensures Plain(v) && Nesting(v) <= MAX_DEPTH
    ensures Faithful(k, v) ==> Decoded(k, Text(k, v)) == Some(v)
  {
    hide ValueAt, Text, Nesting, Faithful;
    DecodedValueIsPlain(k, s, 0, 0);
    if Faithful(k, v) {
      RoundTrip(k, v);
    }
  }
}
