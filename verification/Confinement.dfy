/** Nothing is unpacked outside the extraction directory, whoever wrote the bundle. */
module Confinement {
  import opened Basics
  import opened Bytes
  import opened BundleFormat
  import opened Bundle

  const SLASH: Byte := 0x2F
  const DOT: Byte := 0x2E

  // ---- Where a path leads ----

  /** The components of a path: what stands between its slashes. */
  function Components(path: seq<Byte>): (cs: seq<seq<Byte>>)
    ensures cs != []
  {
    if path == [] then [[]]
    else if path[0] == SLASH then [[]] + Components(path[1..])
    else
      var rest := Components(path[1..]);
      [[path[0]] + rest[0]] + rest[1..]
  }

  /** How deep below its start a walk is after the first `i` components: a name leads down, two dots lead up, and one
      dot or nothing leads nowhere. */
  function DepthAfter(cs: seq<seq<Byte>>, i: nat): int
    requires i <= |cs|
  {
    if i == 0 then 0 else
    var before := DepthAfter(cs, i - 1);
    if cs[i - 1] == [DOT, DOT] then before - 1
    else if cs[i - 1] == [] || cs[i - 1] == [DOT] then before
    else before + 1
  }

  /** The path is relative, and a walk along it is never above its start. */
  ghost predicate Confined(path: seq<Byte>) {
    && (path != [] ==> path[0] != SLASH)
    && forall i :: 0 <= i <= |Components(path)| ==> DepthAfter(Components(path), i) >= 0
  }

  // ---- What is unpacked is confined ----

  lemma FirstComponentStarts(path: seq<Byte>)
    ensures Components(path)[0] <= path
  {
  }

  /** Without two dots in a row, no component has them. */
  lemma {:induction false} ComponentsWithoutDots(path: seq<Byte>)
    requires !HasDotDot(path)
    ensures forall c :: c in Components(path) ==> !HasDotDot(c)
    decreases |path|
  {
    if path != [] {
      var rest := path[1..];
      assert forall i :: 0 <= i < |rest| ==> rest[i] == path[i + 1];
      ComponentsWithoutDots(rest);
      FirstComponentStarts(rest);
      var first := [path[0]] + Components(rest)[0];
      assert first <= path;
      assert !HasDotDot(first);
    }
  }

  lemma {:induction false} NeverAbove(cs: seq<seq<Byte>>, i: nat)
    requires i <= |cs| && forall c :: c in cs ==> !HasDotDot(c)
    ensures DepthAfter(cs, i) >= 0
    decreases i
  {
    if i > 0 {
      NeverAbove(cs, i - 1);
      assert cs[i - 1] in cs;
      TwoDots();
    }
  }

  lemma TwoDots()
    ensures HasDotDot([DOT, DOT])
  {
    assert [DOT, DOT][0] == 0x2E && [DOT, DOT][0 + 1] == 0x2E;
  }

  lemma WithoutDotsConfined(path: seq<Byte>)
    requires !HasDotDot(path) && (path != [] ==> path[0] != SLASH)
    ensures Confined(path)
  {
    ComponentsWithoutDots(path);
    forall i | 0 <= i <= |Components(path)| ensures DepthAfter(Components(path), i) >= 0 {
      NeverAbove(Components(path), i);
    }
  }

  /** Cutting a path leaves it confined if it has no two dots in a row. */
  lemma UnpackedNameConfined(path: seq<Byte>)
    requires Legal(path)
    ensures var name := UnpackedName(path); Confined(name) && NulFree(name) && |name| <= NAME_LIMIT
  {
    var name := UnpackedName(path);
    assert name <= CString(path) <= path;
    assert forall i :: 0 <= i < |name| ==> name[i] == CString(path)[i];
    WithoutDotsConfined(name);
  }

  lemma {:induction false} UnpackedConfined(f: seq<Byte>, pos: nat, count: nat)
    requires Unpacked(f, pos, count).Some?
    ensures var files := Unpacked(f, pos, count).value;
      forall i :: 0 <= i < |files| ==> Confined(files[i].path) && |files[i].path| <= NAME_LIMIT
    decreases count
  {
    hide Legal, HeaderAt, UnpackedName, Confined;
    if count > 0 {
      var step := UnpackedAt(f, pos);
      UnpackedNameConfined(HeaderAt(f, pos).value.path);
      UnpackedConfined(f, step.next, count - 1);
    }
  }

  /** Whatever file a runtime starts from as a bundle, each path it unpacks to is relative, and a walk along it from
      the extraction directory leaves that directory at no step. */
  lemma BundlesStayInTheirDirectory(f: seq<Byte>, noArguments: bool)
    requires StartupOf(f, noArguments).Bundled?
    ensures var files := StartupOf(f, noArguments).files;
      forall i :: 0 <= i < |files| ==> Confined(files[i].path) && |files[i].path| <= NAME_LIMIT
  {
    hide Unpacked, Confined, HasAt;
    match ReadTrailer(f) {
      case Trailer(offset, count) => UnpackedConfined(f, offset + HEAD_LENGTH, count);
      case _ =>
    }
  }

  // ---- Exactly which paths are taken ----

  /** Two dots in a row, at `i`. */
  predicate TwoDotsAt(s: seq<Byte>, i: int) {
    0 <= i < |s| - 1 && s[i] == DOT && s[i + 1] == DOT
  }

  lemma TwoDotsMean(s: seq<Byte>)
    ensures HasDotDot(s) <==> exists i :: TwoDotsAt(s, i)
  {
    if HasDotDot(s) {
      var i :| 0 <= i < |s| - 1 && s[i] == DOT && s[i + 1] == DOT;
      assert TwoDotsAt(s, i);
    }
  }

  /** The components of a path whose rest has the components `cs`. */
  lemma ComponentsFrom(path: seq<Byte>, cs: seq<seq<Byte>>)
    requires path != [] && cs == Components(path[1..])
    ensures path[0] == SLASH ==> |Components(path)| == |cs| + 1
    ensures path[0] == SLASH ==> forall k :: 0 <= k < |cs| ==> Components(path)[k + 1] == cs[k]
    ensures path[0] != SLASH ==> |Components(path)| == |cs| && Components(path)[0] == [path[0]] + cs[0]
    ensures path[0] != SLASH ==> forall k :: 0 < k < |cs| ==> Components(path)[k] == cs[k]
  {
  }

  lemma {:induction false} DotsAreInComponent(path: seq<Byte>, i: int) returns (k: nat, j: int)
    requires TwoDotsAt(path, i)
    ensures k < |Components(path)| && TwoDotsAt(Components(path)[k], j)
    decreases |path|
  {
    hide Components;
    var rest := path[1..];
    var cs := Components(rest);
    ComponentsFrom(path, cs);
    if i == 0 {
      ComponentsFrom(rest, Components(rest[1..]));
      k, j := 0, 0;
    } else {
      k, j := DotsAreInComponent(rest, i - 1);
      if path[0] == SLASH {
        k := k + 1;
      } else if k == 0 {
        j := j + 1;
      }
    }
  }

  /** A path without NUL is taken exactly if it has 1 to 2047 bytes, does not start with a slash, and no component of
      it has two dots in a row. */
  lemma TakenIff(path: seq<Byte>)
    requires NulFree(path)
    ensures Legal(path) <==>
      && 1 <= |path| <= 2047 && Components(path)[0] != []
      && forall c, j :: c in Components(path) ==> !TwoDotsAt(c, j)
  {
    hide HasDotDot, TwoDotsAt, Components;
    CStringIsWhole(path);
    TwoDotsMean(path);
    if path != [] { OneStart(path); }
    if HasDotDot(path) {
      var i :| TwoDotsAt(path, i);
      var k, j := DotsAreInComponent(path, i);
      assert Components(path)[k] in Components(path);
    } else {
      ComponentsWithoutDots(path);
      forall c | c in Components(path) ensures forall j :: !TwoDotsAt(c, j) {
        TwoDotsMean(c);
      }
    }
  }

  lemma OneStart(path: seq<Byte>)
    requires path != []
    ensures Components(path)[0] == [] <==> path[0] == SLASH
  {
  }

  // ---- More is refused than leaves the directory ----

  /** A name with two dots inside, "a..b", leads nowhere else, but is refused. */
  lemma DotsInNamesAreRefused()
    ensures Confined([0x61, DOT, DOT, 0x62]) && !Legal([0x61, DOT, DOT, 0x62])
  {
    var path := [0x61, DOT, DOT, 0x62];
    OneComponent(path);
    assert DepthAfter([path], 1) == 1;
    CStringIsWhole(path);
    assert path[1] == 0x2E && path[1 + 1] == 0x2E;
  }

  lemma {:induction false} OneComponent(path: seq<Byte>)
    requires SLASH !in path
    ensures Components(path) == [path]
    decreases |path|
  {
    if path != [] {
      OneComponent(path[1..]);
      assert path == [path[0]] + path[1..];
    }
  }
}
