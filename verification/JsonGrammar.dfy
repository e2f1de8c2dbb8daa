/** The texts that the strict decoder accepts, as a grammar of parse trees (sections 2 to 7 of RFC 8259, with leading
    zeros in numbers), and that the decoder accepts exactly these. */
module JsonGrammar {
  import opened Basics
  import opened Bytes
  import opened JsonString
  import opened Json

  // ---- Numbers ----

  predicate Digits(s: seq<Byte>, lo: nat, hi: nat) {
    lo < hi <= |s| && forall i :: lo <= i < hi ==> IsDigit(s[i])
  }

  predicate IsFraction(s: seq<Byte>, lo: nat, hi: nat) {
    lo == hi || (lo < |s| && s[lo] == 0x2E && Digits(s, lo + 1, hi))
  }

  predicate IsExponent(s: seq<Byte>, lo: nat, hi: nat) {
    || lo == hi
    || (lo + 1 < |s| && (s[lo] == 0x65 || s[lo] == 0x45)
        && (Digits(s, lo + 1, hi) || ((s[lo + 1] == 0x2B || s[lo + 1] == 0x2D) && Digits(s, lo + 2, hi))))
  }

  /** An optional minus, digits, an optional fraction and an optional exponent. */
  ghost predicate IsNumeral(s: seq<Byte>, lo: nat, hi: nat) {
    lo < hi <= |s| &&
    exists whole: nat, fraction: nat, exponent: nat ::
      && (whole == lo || (whole == lo + 1 && s[lo] == 0x2D))
      && Digits(s, whole, fraction) && IsFraction(s, fraction, exponent) && IsExponent(s, exponent, hi)
  }

  /** What may follow a value: space, a separator, a closing bracket or the end of the text. */
  predicate Follows(s: seq<Byte>, p: nat) {
    p == |s| || (p < |s| && (IsSpace(s[p]) || s[p] == COMMA || s[p] == CLOSE_LIST || s[p] == CLOSE_DICT))
  }

  lemma {:induction false} DigitsSkipped(s: seq<Byte>, lo: nat, hi: nat)
    requires Digits(s, lo, hi) && !IsDigit(At(s, hi))
    ensures SkipDigits(s, lo) == hi
    decreases hi - lo
  {
    if lo + 1 < hi {
      DigitsSkipped(s, lo + 1, hi);
    }
  }

  lemma {:induction false} SkippedAreDigits(s: seq<Byte>, lo: nat)
    requires lo <= |s| && IsDigit(At(s, lo))
    ensures Digits(s, lo, SkipDigits(s, lo))
    decreases |s| - lo
  {
    if IsDigit(At(s, lo + 1)) {
      SkippedAreDigits(s, lo + 1);
    }
  }

  lemma FractionScans(s: seq<Byte>, lo: nat, hi: nat)
    requires lo <= |s| && IsFraction(s, lo, hi) && hi <= |s| && !IsDigit(At(s, hi)) && At(s, hi) != 0x2E
    ensures FractionEnd(s, lo) == Some(hi)
  {
    hide SkipDigits;
    if lo < hi {
      DigitsSkipped(s, lo + 1, hi);
    }
  }

  lemma ExponentScans(s: seq<Byte>, lo: nat, hi: nat)
    requires lo <= |s| && IsExponent(s, lo, hi) && Follows(s, hi)
    ensures ExponentEnd(s, lo) == Some(hi)
  {
    hide SkipDigits;
    if lo < hi {
      DigitsSkipped(s, if s[lo + 1] == 0x2B || s[lo + 1] == 0x2D then lo + 2 else lo + 1, hi);
    }
  }

  /** Neither a fraction nor an exponent starts with a digit, and no exponent with a point. */
  lemma PartStart(s: seq<Byte>, lo: nat, hi: nat, end: nat)
    requires IsExponent(s, hi, end) && Follows(s, end) && IsFraction(s, lo, hi) && lo <= hi <= end
    ensures lo <= hi <= |s| && !IsDigit(At(s, lo)) && !IsDigit(At(s, hi)) && At(s, hi) != 0x2E
  {
  }

  /** The scanner takes a numeral, whole, where a value may end. */
  lemma NumeralScans(s: seq<Byte>, lo: nat, hi: nat)
    requires IsNumeral(s, lo, hi) && Follows(s, hi)
    ensures NumberEnd(s, lo) == Some(hi)
  {
    hide SkipDigits, IsFraction, IsExponent, Follows, FractionEnd, ExponentEnd;
    var whole: nat, fraction: nat, exponent: nat :|
      && (whole == lo || (whole == lo + 1 && s[lo] == 0x2D))
      && Digits(s, whole, fraction) && IsFraction(s, fraction, exponent) && IsExponent(s, exponent, hi);
    PartEnds(s, fraction, exponent);
    PartEnds(s, exponent, hi);
    PartStart(s, fraction, exponent, hi);
    DigitsSkipped(s, whole, fraction);
    FractionScans(s, fraction, exponent);
    ExponentScans(s, exponent, hi);
  }

  lemma PartEnds(s: seq<Byte>, lo: nat, hi: nat)
    requires IsFraction(s, lo, hi) || IsExponent(s, lo, hi)
    ensures lo <= hi
  {
  }

  /** What the scanner takes is a numeral. */
  lemma ScannedIsNumeral(s: seq<Byte>, lo: nat)
    requires lo <= |s| && NumberEnd(s, lo).Some?
    ensures IsNumeral(s, lo, NumberEnd(s, lo).value)
  {
    hide SkipDigits;
    var whole := if At(s, lo) == 0x2D then lo + 1 else lo;
    SkippedAreDigits(s, whole);
    var fraction := SkipDigits(s, whole);
    if At(s, fraction) == 0x2E {
      SkippedAreDigits(s, fraction + 1);
    }
    var exponent := FractionEnd(s, fraction).value;
    if At(s, exponent) == 0x65 || At(s, exponent) == 0x45 {
      var digits := if At(s, exponent + 1) == 0x2B || At(s, exponent + 1) == 0x2D then exponent + 2 else exponent + 1;
      SkippedAreDigits(s, digits);
    }
    var hi := NumberEnd(s, lo).value;
    assert Digits(s, whole, fraction) && IsFraction(s, fraction, exponent) && IsExponent(s, exponent, hi);
  }

  /** A text is one number token exactly when it is a numeral. */
  lemma NumberTokens(t: seq<Byte>)
    ensures NumberEnd(t, 0) == Some(|t|) <==> IsNumeral(t, 0, |t|)
  {
    hide NumberEnd, IsNumeral;
    if NumberEnd(t, 0) == Some(|t|) {
      ScannedIsNumeral(t, 0);
    }
    if IsNumeral(t, 0, |t|) {
      NumeralScans(t, 0, |t|);
    }
  }

  // ---- Parse trees ----

  /** A value that stands at `lo..hi` of a text. */
  datatype Tree =
    | Word(lo: nat, hi: nat)
    | Number(lo: nat, hi: nat)
    | String(lo: nat, hi: nat)
    | Array(lo: nat, hi: nat, items: seq<Item>)
    | Object(lo: nat, hi: nat, members: seq<Member>)

  /** An item, and where the comma or bracket after it stands. */
  datatype Item = Item(value: Tree, stop: nat)

  /** A key at `key..keyEnd`, its colon, and the item that follows. */
  datatype Member = Member(key: nat, keyEnd: nat, colon: nat, item: Item)

  predicate Spaces(s: seq<Byte>, lo: nat, hi: nat) {
    lo <= hi <= |s| && forall i :: lo <= i < hi ==> IsSpace(s[i])
  }

  predicate IsString(s: seq<Byte>, lo: nat, hi: nat) {
    lo < |s| && s[lo] == QUOTE && BodyAt(s, lo + 1).closed && BodyAt(s, lo + 1).end == hi
  }

  predicate IsWord(s: seq<Byte>, lo: nat, hi: nat) {
    lo <= hi <= |s| && (s[lo..hi] == NULL_WORD || s[lo..hi] == TRUE_WORD || s[lo..hi] == FALSE_WORD)
  }

  ghost predicate IsTree(s: seq<Byte>, t: Tree)
    decreases t
  {
    match t
    case Word(lo, hi) => IsWord(s, lo, hi)
    case Number(lo, hi) => IsNumeral(s, lo, hi)
    case String(lo, hi) => IsString(s, lo, hi)
    case Array(lo, hi, items) =>
      && lo + 1 < hi <= |s| && s[lo] == OPEN_LIST && s[hi - 1] == CLOSE_LIST
      && (if items == [] then Spaces(s, lo + 1, hi - 1)
          else AreItems(s, lo + 1, items) && items[|items| - 1].stop == hi - 1)
    case Object(lo, hi, members) =>
      && lo + 1 < hi <= |s| && s[lo] == OPEN_DICT && s[hi - 1] == CLOSE_DICT
      && (if members == [] then Spaces(s, lo + 1, hi - 1)
          else AreMembers(s, lo + 1, members) && members[|members| - 1].item.stop == hi - 1)
  }

  /** A value between spaces, from `p` to the item's stop. */
  ghost predicate IsItem(s: seq<Byte>, p: nat, item: Item)
    decreases item
  {
    && IsTree(s, item.value) && item.stop < |s|
    && Spaces(s, p, item.value.lo) && Spaces(s, item.value.hi, item.stop)
  }

  /** Items from `p` on: each ends at a comma, and the last at a bracket. */
  ghost predicate AreItems(s: seq<Byte>, p: nat, items: seq<Item>)
    decreases items
  {
    items == [] ||
    (&& IsItem(s, p, items[0]) && items[0].stop < |s|
     && s[items[0].stop] == (if |items| == 1 then CLOSE_LIST else COMMA)
     && AreItems(s, items[0].stop + 1, items[1..]))
  }

  /** A key, a colon and an item, with spaces around each. */
  ghost predicate IsMember(s: seq<Byte>, p: nat, m: Member)
    decreases m
  {
    && Spaces(s, p, m.key) && IsString(s, m.key, m.keyEnd)
    && Spaces(s, m.keyEnd, m.colon) && m.colon < |s| && s[m.colon] == COLON
    && IsItem(s, m.colon + 1, m.item)
  }

  ghost predicate AreMembers(s: seq<Byte>, p: nat, members: seq<Member>)
    decreases members
  {
    members == [] ||
    (&& IsMember(s, p, members[0]) && members[0].item.stop < |s|
     && s[members[0].item.stop] == (if |members| == 1 then CLOSE_DICT else COMMA)
     && AreMembers(s, members[0].item.stop + 1, members[1..]))
  }

  // ---- What a parse tree means ----

  function Slice(s: seq<Byte>, lo: nat, hi: nat): seq<Byte> {
    if lo <= hi <= |s| then s[lo..hi] else []
  }

  /** The bytes that the string at `lo` stands for. */
  function TextOf(s: seq<Byte>, lo: nat): seq<Byte> {
    if lo < |s| then BodyAt(s, lo + 1).bytes else []
  }

  /** The value a tree stands for. A later member with the same key gives the key its value. */
  function Meaning<N>(k: Codec<N>, s: seq<Byte>, t: Tree): Value<N>
    decreases t
  {
    match t
    case Word(lo, hi) =>
      var word := Slice(s, lo, hi);
      if word == NULL_WORD then Null else if word == TRUE_WORD then Num(k.one) else Num(k.zero)
    case Number(lo, hi) => Num(k.parse(Slice(s, lo, hi)))
    case String(lo, _) => Str(TextOf(s, lo))
    case Array(_, _, items) => List(ItemsMeaning(k, s, items))
    case Object(_, _, members) => Dict(MembersMeaning(k, s, members, []))
  }

  function ItemMeaning<N>(k: Codec<N>, s: seq<Byte>, item: Item): Value<N>
    decreases item
  {
    Meaning(k, s, item.value)
  }

  function ItemsMeaning<N>(k: Codec<N>, s: seq<Byte>, items: seq<Item>): seq<Value<N>>
    decreases items
  {
    if items == [] then [] else [ItemMeaning(k, s, items[0])] + ItemsMeaning(k, s, items[1..])
  }

  function MemberMeaning<N>(k: Codec<N>, s: seq<Byte>, m: Member): Value<N>
    decreases m
  {
    ItemMeaning(k, s, m.item)
  }

  /** What the members add to the entries of those `before` them. */
  function MembersMeaning<N>(k: Codec<N>, s: seq<Byte>, members: seq<Member>, before: seq<(seq<Byte>, Value<N>)>)
    : seq<(seq<Byte>, Value<N>)>
    decreases members
  {
    if members == [] then before else
    MembersMeaning(k, s, members[1..], DictSet(before, TextOf(s, members[0].key), MemberMeaning(k, s, members[0])))
  }

  /** Some string in the tree has an escape that strict decoding refuses. */
  predicate HasRefused(s: seq<Byte>, t: Tree)
    decreases t
  {
    match t
    case String(lo, _) => RefusedAt(s, lo)
    case Array(_, _, items) => ItemsRefused(s, items)
    case Object(_, _, members) => MembersRefused(s, members)
    case _ => false
  }

  predicate RefusedAt(s: seq<Byte>, lo: nat) {
    lo < |s| && BodyAt(s, lo + 1).refused
  }

  predicate ItemRefused(s: seq<Byte>, item: Item)
    decreases item
  {
    HasRefused(s, item.value)
  }

  predicate ItemsRefused(s: seq<Byte>, items: seq<Item>)
    decreases items
  {
    items != [] && (ItemRefused(s, items[0]) || ItemsRefused(s, items[1..]))
  }

  predicate MemberRefused(s: seq<Byte>, m: Member)
    decreases m
  {
    RefusedAt(s, m.key) || ItemRefused(s, m.item)
  }

  predicate MembersRefused(s: seq<Byte>, members: seq<Member>)
    decreases members
  {
    members != [] && (MemberRefused(s, members[0]) || MembersRefused(s, members[1..]))
  }

  /** The tree nests at most `bound` containers deep. */
  predicate Within(t: Tree, bound: int)
    decreases t
  {
    match t
    case Array(_, _, items) => bound > 0 && ItemsWithin(items, bound - 1)
    case Object(_, _, members) => bound > 0 && MembersWithin(members, bound - 1)
    case _ => true
  }

  predicate ItemWithin(item: Item, bound: int)
    decreases item
  {
    Within(item.value, bound)
  }

  predicate ItemsWithin(items: seq<Item>, bound: int)
    decreases items
  {
    items == [] || (ItemWithin(items[0], bound) && ItemsWithin(items[1..], bound))
  }

  predicate MemberWithin(m: Member, bound: int)
    decreases m
  {
    ItemWithin(m.item, bound)
  }

  predicate MembersWithin(members: seq<Member>, bound: int)
    decreases members
  {
    members == [] || (MemberWithin(members[0], bound) && MembersWithin(members[1..], bound))
  }

  // ---- Every parse tree is parsed ----

  lemma {:induction false} SpacesSkipped(s: seq<Byte>, lo: nat, hi: nat)
    requires Spaces(s, lo, hi) && !IsSpace(At(s, hi))
    ensures SkipSpace(s, lo) == hi
    decreases hi - lo
  {
    if lo < hi {
      SpacesSkipped(s, lo + 1, hi);
    }
  }

  lemma NumeralStart(s: seq<Byte>, lo: nat, hi: nat)
    requires IsNumeral(s, lo, hi)
    ensures lo < hi <= |s| && (s[lo] == 0x2D || IsDigit(s[lo]))
  {
  }

  /** A tree stands inside the text, and starts with no space or closing bracket. */
  lemma TreeStart(s: seq<Byte>, t: Tree)
    requires IsTree(s, t)
    ensures t.lo < t.hi <= |s| && s[t.lo] != 0 && !IsSpace(s[t.lo]) && s[t.lo] != CLOSE_LIST && s[t.lo] != CLOSE_DICT
  {
    hide IsNumeral, AreItems, AreMembers, BodyAt;
    match t {
      case Number(lo, hi) => NumeralStart(s, lo, hi);
      case Word(lo, hi) => assert s[lo..hi][0] == s[lo];
      case _ =>
    }
  }

  /** Reading the tree's value where it stands, inside `depth` containers, gives it unless it nests too deep there. */
  ghost predicate Parses<N>(k: Codec<N>, s: seq<Byte>, t: Tree, depth: nat)
    requires t.lo <= |s|
  {
    ValueAt(k, s, t.lo, depth)
    == if Within(t, MAX_DEPTH - depth) then Ok(Meaning(k, s, t), t.hi, HasRefused(s, t)) else Fail
  }

  lemma {:induction false} TreeParses<N>(k: Codec<N>, s: seq<Byte>, t: Tree, depth: nat)
    requires IsTree(s, t) && Follows(s, t.hi) && depth <= MAX_DEPTH
    ensures t.lo <= |s| && Parses(k, s, t, depth)
    decreases t, 2
  {
    hide Parses, AreItems, AreMembers, BodyAt, IsNumeral, IsWord, Follows;
    TreeStart(s, t);
    match t {
      case Word(_, _) => WordParses(k, s, t, depth);
      case Number(_, _) => NumberParses(k, s, t, depth);
      case String(_, _) => StringParses(k, s, t, depth);
      case Array(_, _, _) => ArrayParses(k, s, t, depth);
      case Object(_, _, _) => ObjectParses(k, s, t, depth);
    }
  }

  lemma WordParses<N>(k: Codec<N>, s: seq<Byte>, t: Tree, depth: nat)
    requires t.Word? && IsWord(s, t.lo, t.hi)
    ensures Parses(k, s, t, depth)
  {
    hide ItemsAt, EntriesAt, StringAt, NumberEnd, HasWord;
    WordStands(s, t.lo, t.hi);
    assert SkipSpace(s, t.lo) == t.lo;
  }

  /** A word is told by its first letter. */
  lemma WordStands(s: seq<Byte>, lo: nat, hi: nat)
    requires IsWord(s, lo, hi)
    ensures lo < |s| && s[lo] == s[lo..hi][0] && HasWord(s, lo, s[lo..hi])
    ensures HasWord(s, lo, NULL_WORD) ==> s[lo] == 0x6E
    ensures HasWord(s, lo, TRUE_WORD) ==> s[lo] == 0x74
    ensures HasWord(s, lo, FALSE_WORD) ==> s[lo] == 0x66
  {
    WordStart(s, lo, s[lo..hi]);
    WordStart(s, lo, NULL_WORD);
    WordStart(s, lo, TRUE_WORD);
    WordStart(s, lo, FALSE_WORD);
  }

  lemma WordStart(s: seq<Byte>, p: nat, word: seq<Byte>)
    requires p <= |s| && word != []
    ensures HasWord(s, p, word) ==> p < |s| && s[p] == word[0]
  {
    if HasWord(s, p, word) {
      assert s[p..p + |word|][0] == s[p];
    }
  }

  lemma NumberParses<N>(k: Codec<N>, s: seq<Byte>, t: Tree, depth: nat)
    requires t.Number? && IsNumeral(s, t.lo, t.hi) && Follows(s, t.hi)
    ensures t.lo <= |s| && Parses(k, s, t, depth)
  {
    hide ItemsAt, EntriesAt, StringAt, NumberEnd, IsNumeral, HasWord, Follows;
    NumeralStart(s, t.lo, t.hi);
    NumeralScans(s, t.lo, t.hi);
    assert SkipSpace(s, t.lo) == t.lo;
  }

  lemma StringParses<N>(k: Codec<N>, s: seq<Byte>, t: Tree, depth: nat)
    requires t.String? && IsString(s, t.lo, t.hi)
    ensures Parses(k, s, t, depth)
  {
    hide ItemsAt, EntriesAt, BodyAt, NumberEnd, HasWord;
    assert SkipSpace(s, t.lo) == t.lo;
  }

  /** What reading an array or object comes to, when its opening bracket has been seen. */
  lemma Opened<N>(k: Codec<N>, s: seq<Byte>, p: nat, depth: nat)
    requires p < |s| && (s[p] == OPEN_LIST || s[p] == OPEN_DICT)
    ensures var q := SkipSpace(s, p + 1);
      ValueAt(k, s, p, depth) ==
      if depth >= MAX_DEPTH then Fail
      else if s[p] == OPEN_LIST then
        if At(s, q) == CLOSE_LIST then Ok(List([]), q + 1, false) else
        var r := ItemsAt(k, s, q, depth + 1, [], false);
        if r.Fail? then Fail else Ok(List(r.value), r.end, r.refused)
      else
        if At(s, q) == CLOSE_DICT then Ok(Dict([]), q + 1, false) else
        var r := EntriesAt(k, s, q, depth + 1, [], false);
        if r.Fail? then Fail else Ok(Dict(r.value), r.end, r.refused)
  {
    hide ItemsAt, EntriesAt, StringAt, NumberEnd, HasWord;
    assert SkipSpace(s, p) == p;
  }

  /** The spaces of an item end at its value and at its stop. */
  lemma ItemPlaces(s: seq<Byte>, p: nat, item: Item)
    requires IsItem(s, p, item)
    requires s[item.stop] == COMMA || s[item.stop] == CLOSE_LIST || s[item.stop] == CLOSE_DICT
    ensures p <= item.value.lo < item.value.hi <= |s| && Follows(s, item.value.hi)
    ensures SkipSpace(s, p) == item.value.lo && SkipSpace(s, item.value.hi) == item.stop
    ensures s[item.value.lo] != CLOSE_LIST && s[item.value.lo] != CLOSE_DICT
  {
    hide IsTree, SkipSpace;
    TreeStart(s, item.value);
    SpacesSkipped(s, p, item.value.lo);
    SpacesSkipped(s, item.value.hi, item.stop);
  }

  /** An item is read up to its value's end. */
  lemma {:induction false} ItemParses<N>(k: Codec<N>, s: seq<Byte>, p: nat, item: Item, depth: nat)
    requires IsItem(s, p, item) && depth <= MAX_DEPTH
    requires s[item.stop] == COMMA || s[item.stop] == CLOSE_LIST || s[item.stop] == CLOSE_DICT
    ensures p <= |s| && item.value.hi <= |s| && SkipSpace(s, item.value.hi) == item.stop
    ensures ValueAt(k, s, p, depth)
         == if ItemWithin(item, MAX_DEPTH - depth) then Ok(ItemMeaning(k, s, item), item.value.hi, ItemRefused(s, item))
            else Fail
    decreases item
  {
    hide ValueAt, IsTree, SkipSpace, Meaning, Within, HasRefused, Spaces, Follows;
    ItemPlaces(s, p, item);
    ValueAfterSpace(k, s, p, depth);
    TreeParses(k, s, item.value, depth);
  }

  lemma {:induction false} ItemsParse<N>(k: Codec<N>, s: seq<Byte>, p: nat, items: seq<Item>, depth: nat,
                                         done: seq<Value<N>>, refused: bool)
    requires items != [] && AreItems(s, p, items) && depth <= MAX_DEPTH
    ensures p <= |s| && ItemsAt(k, s, p, depth, done, refused)
         == if ItemsWithin(items, MAX_DEPTH - depth)
            then Ok(done + ItemsMeaning(k, s, items), items[|items| - 1].stop + 1, refused || ItemsRefused(s, items))
            else Fail
    decreases items
  {
    hide ValueAt, ItemsAt, IsItem, SkipSpace, ItemMeaning, ItemWithin, ItemRefused;
    var item, rest := items[0], items[1..];
    var v := ItemMeaning(k, s, item);
    ItemParses(k, s, p, item, depth);
    NextItem(k, s, p, depth, done, refused);
    assert done + [v] + ItemsMeaning(k, s, rest) == done + ItemsMeaning(k, s, items);
    assert rest == [] ==> done + [v] + ItemsMeaning(k, s, rest) == done + [v];
    if rest != [] {
      ItemsParse(k, s, item.stop + 1, rest, depth, done + [v], refused || ItemRefused(s, item));
    }
  }

  lemma {:induction false} ArrayParses<N>(k: Codec<N>, s: seq<Byte>, t: Tree, depth: nat)
    requires t.Array? && IsTree(s, t) && depth <= MAX_DEPTH
    ensures t.lo <= |s| && Parses(k, s, t, depth)
    decreases t, 1
  {
    hide ValueAt, ItemsAt, SkipSpace, AreItems, ItemsWithin, ItemsRefused;
    Opened(k, s, t.lo, depth);
    if t.items == [] {
      SpacesSkipped(s, t.lo + 1, t.hi - 1);
      NoItems(k, s, MAX_DEPTH - depth - 1);
    } else {
      FirstItem(s, t.lo + 1, t.items);
      if depth < MAX_DEPTH {
        ItemsParse(k, s, t.items[0].value.lo, t.items, depth + 1, [], false);
        assert [] + ItemsMeaning(k, s, t.items) == ItemsMeaning(k, s, t.items);
      }
    }
  }

  lemma NoItems<N>(k: Codec<N>, s: seq<Byte>, bound: int)
    ensures ItemsMeaning(k, s, []) == [] && MembersMeaning(k, s, [], []) == []
    ensures !ItemsRefused(s, []) && !MembersRefused(s, []) && ItemsWithin([], bound) && MembersWithin([], bound)
  {
  }

  /** The items stand where the space before the first ends. */
  lemma FirstItem(s: seq<Byte>, p: nat, items: seq<Item>)
    requires items != [] && AreItems(s, p, items)
    ensures var q := items[0].value.lo;
      p <= |s| && SkipSpace(s, p) == q < |s| && s[q] != CLOSE_LIST && AreItems(s, q, items)
  {
    hide SkipSpace, IsTree;
    ItemPlaces(s, p, items[0]);
  }

  // ---- The members of an object ----

  /** The spaces of a member end at its key, its colon, its value and its stop. */
  lemma MemberPlaces(s: seq<Byte>, p: nat, m: Member)
    requires IsMember(s, p, m) && m.item.stop < |s| && (s[m.item.stop] == COMMA || s[m.item.stop] == CLOSE_DICT)
    ensures p <= m.key < |s| && s[m.key] == QUOTE && SkipSpace(s, p) == m.key
    ensures m.keyEnd <= |s| && SkipSpace(s, m.keyEnd) == m.colon
  {
    hide SkipSpace, IsTree, BodyAt;
    SpacesSkipped(s, p, m.key);
    SpacesSkipped(s, m.keyEnd, m.colon);
  }

  lemma {:induction false} MemberParses<N>(k: Codec<N>, s: seq<Byte>, p: nat, m: Member, depth: nat)
    requires IsMember(s, p, m) && depth <= MAX_DEPTH
    requires m.item.stop < |s| && (s[m.item.stop] == COMMA || s[m.item.stop] == CLOSE_DICT)
    ensures p <= |s| && m.item.value.hi <= |s| && SkipSpace(s, m.item.value.hi) == m.item.stop
    ensures EntryAt(k, s, p, depth)
         == if MemberWithin(m, MAX_DEPTH - depth)
            then Ok((TextOf(s, m.key), MemberMeaning(k, s, m)), m.item.value.hi, MemberRefused(s, m))
            else Fail
    decreases m
  {
    hide ValueAt, IsItem, SkipSpace, ItemMeaning, ItemWithin, ItemRefused, BodyAt, Spaces;
    MemberPlaces(s, p, m);
    ItemParses(k, s, m.colon + 1, m.item, depth);
  }

  lemma {:induction false} MembersParse<N>(k: Codec<N>, s: seq<Byte>, p: nat, members: seq<Member>, depth: nat,
                                           done: seq<(seq<Byte>, Value<N>)>, refused: bool)
    requires members != [] && AreMembers(s, p, members) && depth <= MAX_DEPTH
    ensures p <= |s| && EntriesAt(k, s, p, depth, done, refused)
         == if MembersWithin(members, MAX_DEPTH - depth)
            then Ok(MembersMeaning(k, s, members, done), members[|members| - 1].item.stop + 1,
                    refused || MembersRefused(s, members))
            else Fail
    decreases members
  {
    hide EntryAt, EntriesAt, IsMember, SkipSpace, MemberMeaning, MemberWithin, MemberRefused, DictSet, TextOf;
    var m, rest := members[0], members[1..];
    MemberParses(k, s, p, m, depth);
    NextEntry(k, s, p, depth, done, refused);
    if rest != [] {
      MembersParse(k, s, m.item.stop + 1, rest, depth, DictSet(done, TextOf(s, m.key), MemberMeaning(k, s, m)),
                   refused || MemberRefused(s, m));
    }
  }

  lemma {:induction false} ObjectParses<N>(k: Codec<N>, s: seq<Byte>, t: Tree, depth: nat)
    requires t.Object? && IsTree(s, t) && depth <= MAX_DEPTH
    ensures t.lo <= |s| && Parses(k, s, t, depth)
    decreases t, 1
  {
    hide ValueAt, EntriesAt, SkipSpace, AreMembers, MembersWithin, MembersRefused;
    Opened(k, s, t.lo, depth);
    if t.members == [] {
      SpacesSkipped(s, t.lo + 1, t.hi - 1);
      NoItems(k, s, MAX_DEPTH - depth - 1);
    } else {
      FirstMember(s, t.lo + 1, t.members);
      if depth < MAX_DEPTH {
        MembersParse(k, s, t.members[0].key, t.members, depth + 1, [], false);
      }
    }
  }

  lemma FirstMember(s: seq<Byte>, p: nat, members: seq<Member>)
    requires members != [] && AreMembers(s, p, members)
    ensures var q := members[0].key;
      p <= |s| && SkipSpace(s, p) == q < |s| && s[q] != CLOSE_DICT && AreMembers(s, q, members)
  {
    hide SkipSpace, IsItem, BodyAt;
    MemberPlaces(s, p, members[0]);
  }

  // ---- Whatever is parsed has a parse tree ----

  lemma SkippedAreSpaces(s: seq<Byte>, p: nat)
    requires p <= |s|
    ensures Spaces(s, p, SkipSpace(s, p))
    decreases |s| - p
  {
  }

  /** The tree `t`, after space, is what is read at `p`. */
  ghost predicate ReadAs<N>(k: Codec<N>, s: seq<Byte>, p: nat, depth: nat, t: Tree)
    requires p <= |s|
  {
    && IsTree(s, t) && Spaces(s, p, t.lo) && Within(t, MAX_DEPTH - depth)
    && ValueAt(k, s, p, depth) == Ok(Meaning(k, s, t), t.hi, HasRefused(s, t))
  }

  /** The tree of a value that has been read. */
  lemma {:induction false} TreeOf<N>(k: Codec<N>, s: seq<Byte>, p: nat, depth: nat) returns (t: Tree)
    requires p <= |s| && depth <= MAX_DEPTH && ValueAt(k, s, p, depth).Ok?
    ensures ReadAs(k, s, p, depth, t)
    decreases |s| - p, 1
  {
    hide ValueAt, ReadAs, SkipSpace, NumberEnd, StringAt;
    var q := SkipSpace(s, p);
    FirstByte(k, s, p, depth);
    var b := At(s, q);
    if b == OPEN_LIST {
      t := ArrayOf(k, s, p, depth);
    } else if b == OPEN_DICT {
      t := ObjectOf(k, s, p, depth);
    } else {
      t := ScalarOf(k, s, p, depth);
    }
  }

  /** A value starts with a byte after the space. */
  lemma FirstByte<N>(k: Codec<N>, s: seq<Byte>, p: nat, depth: nat)
    requires p <= |s| && ValueAt(k, s, p, depth).Ok?
    ensures SkipSpace(s, p) < |s|
  {
    hide ItemsAt, EntriesAt, StringAt, NumberEnd, HasWord;
  }

  lemma ScalarOf<N>(k: Codec<N>, s: seq<Byte>, p: nat, depth: nat) returns (t: Tree)
    requires p <= |s| && SkipSpace(s, p) < |s| && ValueAt(k, s, p, depth).Ok?
    requires s[SkipSpace(s, p)] != OPEN_LIST && s[SkipSpace(s, p)] != OPEN_DICT
    ensures ReadAs(k, s, p, depth, t)
  {
    hide ItemsAt, EntriesAt, SkipSpace, NumberEnd, BodyAt, IsNumeral;
    SkippedAreSpaces(s, p);
    var q := SkipSpace(s, p);
    var hi := ValueAt(k, s, p, depth).end;
    if s[q] == QUOTE {
      t := String(q, hi);
    } else if s[q] == 0x2D || IsDigit(s[q]) {
      t := Number(q, hi);
      ScannedIsNumeral(s, q);
    } else {
      t := Word(q, hi);
    }
  }

  lemma {:induction false} ArrayOf<N>(k: Codec<N>, s: seq<Byte>, p: nat, depth: nat) returns (t: Tree)
    requires p <= |s| && depth <= MAX_DEPTH && ValueAt(k, s, p, depth).Ok?
    requires SkipSpace(s, p) < |s| && s[SkipSpace(s, p)] == OPEN_LIST
    ensures ReadAs(k, s, p, depth, t)
    decreases |s| - p, 0
  {
    hide ValueAt, ItemsAt, SkipSpace, AreItems, ItemsWithin, ItemsRefused;
    SkippedAreSpaces(s, p);
    var lo := SkipSpace(s, p);
    ValueAfterSpace(k, s, p, depth);
    Opened(k, s, lo, depth);
    var q := SkipSpace(s, lo + 1);
    SkippedAreSpaces(s, lo + 1);
    if At(s, q) == CLOSE_LIST {
      t := Array(lo, q + 1, []);
      NoItems(k, s, MAX_DEPTH - depth - 1);
    } else {
      var items := ItemsOf(k, s, q, depth + 1, [], false);
      t := Array(lo, ItemsAt(k, s, q, depth + 1, [], false).end, items);
      ItemsEarlier(s, lo + 1, q, items);
      assert [] + ItemsMeaning(k, s, items) == ItemsMeaning(k, s, items);
    }
  }

  /** Space before items belongs to the first of them. */
  lemma ItemsEarlier(s: seq<Byte>, p: nat, q: nat, items: seq<Item>)
    requires items != [] && AreItems(s, q, items) && Spaces(s, p, q)
    ensures AreItems(s, p, items)
  {
    hide IsTree;
  }

  /** The items that have been read, from one on. */
  lemma {:induction false} ItemsOf<N>(k: Codec<N>, s: seq<Byte>, p: nat, depth: nat, done: seq<Value<N>>, refused: bool)
    returns (items: seq<Item>)
    requires p <= |s| && depth <= MAX_DEPTH && ItemsAt(k, s, p, depth, done, refused).Ok?
    ensures items != [] && AreItems(s, p, items) && ItemsWithin(items, MAX_DEPTH - depth)
    ensures var end := items[|items| - 1].stop; end < |s| && s[end] == CLOSE_LIST
    ensures ItemsAt(k, s, p, depth, done, refused)
         == Ok(done + ItemsMeaning(k, s, items), items[|items| - 1].stop + 1, refused || ItemsRefused(s, items))
    decreases |s| - p, 2
  {
    hide ValueAt, ItemsAt, SkipSpace, IsTree, Within, HasRefused, Meaning;
    NextItem(k, s, p, depth, done, refused);
    var value := TreeOf(k, s, p, depth);
    SkippedAreSpaces(s, value.hi);
    var item := Item(value, SkipSpace(s, value.hi));
    var v := ItemMeaning(k, s, item);
    if s[item.stop] == COMMA {
      var rest := ItemsOf(k, s, item.stop + 1, depth, done + [v], refused || ItemRefused(s, item));
      items := [item] + rest;
      assert items[1..] == rest;
      assert done + [v] + ItemsMeaning(k, s, rest) == done + ([v] + ItemsMeaning(k, s, rest));
    } else {
      items := [item];
      assert ItemsMeaning(k, s, items) == [v];
    }
  }

  lemma {:induction false} ObjectOf<N>(k: Codec<N>, s: seq<Byte>, p: nat, depth: nat) returns (t: Tree)
    requires p <= |s| && depth <= MAX_DEPTH && ValueAt(k, s, p, depth).Ok?
    requires SkipSpace(s, p) < |s| && s[SkipSpace(s, p)] == OPEN_DICT
    ensures ReadAs(k, s, p, depth, t)
    decreases |s| - p, 0
  {
    hide ValueAt, EntriesAt, SkipSpace, AreMembers, MembersWithin, MembersRefused;
    SkippedAreSpaces(s, p);
    var lo := SkipSpace(s, p);
    ValueAfterSpace(k, s, p, depth);
    Opened(k, s, lo, depth);
    var q := SkipSpace(s, lo + 1);
    SkippedAreSpaces(s, lo + 1);
    if At(s, q) == CLOSE_DICT {
      t := Object(lo, q + 1, []);
      NoItems(k, s, MAX_DEPTH - depth - 1);
    } else {
      var members := MembersOf(k, s, q, depth + 1, [], false);
      t := Object(lo, EntriesAt(k, s, q, depth + 1, [], false).end, members);
      MembersEarlier(s, lo + 1, q, members);
    }
  }

  /** Space before members belongs to the first of them. */
  lemma MembersEarlier(s: seq<Byte>, p: nat, q: nat, members: seq<Member>)
    requires members != [] && AreMembers(s, q, members) && Spaces(s, p, q)
    ensures AreMembers(s, p, members)
  {
    hide IsItem, IsString;
  }

  /** The members that have been read, from one on. */
  lemma {:induction false} MembersOf<N>(k: Codec<N>, s: seq<Byte>, p: nat, depth: nat,
                                        done: seq<(seq<Byte>, Value<N>)>, refused: bool)
    returns (members: seq<Member>)
    requires p <= |s| && depth <= MAX_DEPTH && EntriesAt(k, s, p, depth, done, refused).Ok?
    ensures members != [] && AreMembers(s, p, members) && MembersWithin(members, MAX_DEPTH - depth)
    ensures var end := members[|members| - 1].item.stop; end < |s| && s[end] == CLOSE_DICT
    ensures EntriesAt(k, s, p, depth, done, refused)
         == Ok(MembersMeaning(k, s, members, done), members[|members| - 1].item.stop + 1,
               refused || MembersRefused(s, members))
    decreases |s| - p, 3
  {
    hide EntryAt, EntriesAt, SkipSpace, IsMember, MemberWithin, MemberRefused, MemberMeaning, DictSet, TextOf;
    NextEntry(k, s, p, depth, done, refused);
    var m := MemberOf(k, s, p, depth);
    var all := DictSet(done, TextOf(s, m.key), MemberMeaning(k, s, m));
    if s[m.item.stop] == COMMA {
      var rest := MembersOf(k, s, m.item.stop + 1, depth, all, refused || MemberRefused(s, m));
      members := [m] + rest;
      assert members[1..] == rest;
    } else {
      members := [m];
      assert MembersMeaning(k, s, members, done) == all;
    }
  }

  /** The member that has been read. */
  lemma {:induction false} MemberOf<N>(k: Codec<N>, s: seq<Byte>, p: nat, depth: nat) returns (m: Member)
    requires p <= |s| && depth <= MAX_DEPTH && EntryAt(k, s, p, depth).Ok?
    requires At(s, SkipSpace(s, EntryAt(k, s, p, depth).end)) in {COMMA, CLOSE_DICT}
    ensures IsMember(s, p, m) && MemberWithin(m, MAX_DEPTH - depth) && m.item.stop < |s|
    ensures EntryAt(k, s, p, depth)
         == Ok((TextOf(s, m.key), MemberMeaning(k, s, m)), m.item.value.hi, MemberRefused(s, m))
    ensures m.item.stop == SkipSpace(s, m.item.value.hi)
    decreases |s| - p, 2
  {
    hide ValueAt, SkipSpace, BodyAt, IsTree, Within, HasRefused, Meaning;
    var key := SkipSpace(s, p);
    var keyEnd := StringAt(s, key).end;
    var colon := SkipSpace(s, keyEnd);
    SkippedAreSpaces(s, p);
    SkippedAreSpaces(s, keyEnd);
    var value := TreeOf(k, s, colon + 1, depth);
    SkippedAreSpaces(s, value.hi);
    m := Member(key, keyEnd, colon, Item(value, SkipSpace(s, value.hi)));
  }

  // ---- The decoder accepts exactly the texts that have a parse tree ----

  /** A tree of the whole text: one value, and spaces around it. */
  ghost predicate IsParseTree(s: seq<Byte>, t: Tree) {
    IsTree(s, t) && Spaces(s, 0, t.lo) && Spaces(s, t.hi, |s|)
  }

  /** A text decodes to `v` exactly when it has a parse tree that stands for `v`, nests at most 200 containers deep
      and holds no escape that is refused. */
  lemma DecodedIffParseTree<N>(k: Codec<N>, s: seq<Byte>, v: Value<N>)
    ensures Decoded(k, s) == Some(v) <==>
      exists t :: IsParseTree(s, t) && Within(t, MAX_DEPTH) && !HasRefused(s, t) && Meaning(k, s, t) == v
  {
    hide ValueAt, SkipSpace, IsTree, Within, HasRefused, Meaning;
    if Decoded(k, s) == Some(v) {
      var t := TreeOf(k, s, 0, 0);
      SkippedAreSpaces(s, t.hi);
      assert IsParseTree(s, t);
    }
    forall t | IsParseTree(s, t) && Within(t, MAX_DEPTH) && !HasRefused(s, t) && Meaning(k, s, t) == v
      ensures Decoded(k, s) == Some(v)
    {
      TreeStart(s, t);
      SpacesSkipped(s, 0, t.lo);
      SpacesSkipped(s, t.hi, |s|);
      ValueAfterSpace(k, s, 0, 0);
      TreeParses(k, s, t, 0);
    }
  }
}
