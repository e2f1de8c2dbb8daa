/** Finding the head of an archive whose trailer is gone. */
module BundleScan {
  import opened Basics
  import opened Bytes
  import opened BundleFormat

  const BUFFER_SIZE: nat := 65536

  /** A file being read. `chunk` is how much a read is offered at each position: nothing is assumed about it. */
  class Input {
    const data: seq<Byte>
    const chunk: nat -> nat
    var pos: nat

    constructor (data: seq<Byte>, chunk: nat -> nat)
      ensures this.data == data && this.chunk == chunk && pos == 0
    {
      this.data, this.chunk, pos := data, chunk, 0;
    }

    /** Reads at most `room` bytes, and none only at the end of the file. */
    method Read(room: nat) returns (got: seq<Byte>)
      requires pos <= |data|
      modifies this
      ensures old(pos) <= pos <= |data| && got == data[old(pos)..pos] && |got| <= room
      ensures got == [] ==> room == 0 || pos == |data|
    {
      var n := if chunk(pos) == 0 then 1 else chunk(pos);
      if n > room { n := room; }
      if n > |data| - pos { n := |data| - pos; }
      got := data[pos..pos + n];
      pos := pos + n;
    }
  }

  predicate Printable(path: seq<Byte>) {
    forall i :: 0 <= i < |path| ==> 0x20 <= path[i] <= 0x7E
  }

  /** What stands at `pos` looks like the header of an entry. */
  predicate Plausible(f: seq<Byte>, pos: nat) {
    var h := HeaderAt(f, pos);
    h.Some? && 1 <= |h.value.path| <= 2048 && Printable(h.value.path) && h.value.size <= |f|
  }

  /** The head stands at `k`, and a plausible header behind it. */
  predicate Believed(f: seq<Byte>, k: nat) {
    HasAt(f, k, HEAD) && Plausible(f, k + HEAD_LENGTH)
  }

  /** A scan of the whole file, place by place. */
  ghost predicate HasBelievedHead(f: seq<Byte>) {
    exists k: nat :: Believed(f, k)
  }

  /** Nothing to believe in the first `n` places. */
  ghost predicate Unbelieved(f: seq<Byte>, n: int) {
    forall k: nat :: k < n ==> !Believed(f, k)
  }

  lemma SliceOfSlice(f: seq<Byte>, a: nat, b: nat, i: nat, j: nat)
    requires a <= b <= |f| && i <= j <= b - a
    ensures f[a..b][i..j] == f[a + i..a + j]
  {
    var all, part, want := f[a..b], f[a..b][i..j], f[a + i..a + j];
    assert |part| == j - i == |want|;
    forall k | 0 <= k < j - i ensures part[k] == want[k] {
      assert part[k] == all[i + k] == f[a + i + k];
    }
  }

  lemma Joined(f: seq<Byte>, a: nat, b: nat, c: nat)
    requires a <= b <= c <= |f|
    ensures f[a..c] == f[a..b] + f[b..c]
  {
  }

  lemma NoHeadPastTheEnd(f: seq<Byte>)
    requires Unbelieved(f, |f| - HEAD_LENGTH + 1)
    ensures !HasBelievedHead(f)
  {
    hide Plausible;
  }

  lemma BufferShowsHead(f: seq<Byte>, buf: seq<Byte>, have: nat, at: nat, i: nat)
    requires have <= |buf| && have <= at <= |f| && buf[..have] == f[at - have..at] && i + HEAD_LENGTH <= have
    ensures buf[i..i + HEAD_LENGTH] == HEAD <==> HasAt(f, at - have + i, HEAD)
  {
    SliceOfSlice(buf, 0, have, i, i + HEAD_LENGTH);
    SliceOfSlice(f, at - have, at, i, i + HEAD_LENGTH);
  }

  /** The places of one buffer, which holds the `have` bytes before `at`. */
  method ScanBuffer(f: seq<Byte>, buf: array<Byte>, have: nat, at: nat) returns (found: bool)
    requires have <= buf.Length && have <= at <= |f| && buf[..have] == f[at - have..at]
    ensures found ==> HasBelievedHead(f)
    ensures !found && Unbelieved(f, at - have) ==> Unbelieved(f, at - have) && Unbelieved(f, at - HEAD_LENGTH + 1)
  {
    hide Plausible, HasAt;
    var i := 0;
    while i + HEAD_LENGTH <= have
      invariant 0 <= i
      invariant Unbelieved(f, at - have) ==> Unbelieved(f, at - have + i)
    {
      BufferShowsHead(f, buf[..], have, at, i);
      assert buf[..][i..i + HEAD_LENGTH] == buf[i..i + HEAD_LENGTH];
      if buf[i] == HEAD[0] && buf[i..i + HEAD_LENGTH] == HEAD {
        if Plausible(f, at - have + i + HEAD_LENGTH) {
          assert Believed(f, at - have + i);
          return true;
        }
      }
      assert !Believed(f, at - have + i);
      i := i + 1;
    }
    return false;
  }

  /** `buf` holds the `have` bytes that `f` was read last. */
  predicate Holds(f: Input, buf: array<Byte>, have: nat)
    reads f, buf
  {
    have <= buf.Length && have <= f.pos <= |f.data| && buf[..have] == f.data[f.pos - have..f.pos]
  }

  /** Reads on behind the first `carry` bytes of the buffer. */
  method Fill(f: Input, buf: array<Byte>, carry: nat) returns (have: nat)
    requires Holds(f, buf, carry)
    modifies f, buf
    ensures Holds(f, buf, have) && f.pos == old(f.pos) + (have - carry) && have >= carry
    ensures have == carry ==> carry == buf.Length || f.pos == |f.data|
  {
    var got := f.Read(buf.Length - carry);
    forall j | 0 <= j < |got| {
      buf[carry + j] := got[j];
    }
    have := carry + |got|;
    assert buf[..have] == old(buf[..carry]) + got;
    Joined(f.data, f.pos - have, f.pos - |got|, f.pos);
  }

  /** Moves the last `carry` of `have` bytes to the front. */
  method Slide(f: Input, buf: array<Byte>, have: nat, carry: nat)
    requires Holds(f, buf, have) && carry <= have
    modifies buf
    ensures Holds(f, buf, carry)
  {
    forall j | 0 <= j < carry {
      buf[j] := buf[have - carry + j];
    }
    assert buf[..carry] == old(buf[..have])[have - carry..have];
    SliceOfSlice(f.data, f.pos - have, f.pos, have - carry, have);
  }

  /** The sliding buffer: a scan in chunks of any sizes answers as a scan of the whole file does. */
  method ScanForHead(f: Input) returns (found: bool)
    requires f.pos == 0
    modifies f
    ensures found <==> HasBelievedHead(f.data)
  {
    hide Believed;
    var buf := new Byte[BUFFER_SIZE];
    var carry: nat := 0;
    while true
      invariant Holds(f, buf, carry) && carry == if f.pos < HEAD_LENGTH then f.pos else HEAD_LENGTH - 1
      invariant Unbelieved(f.data, f.pos - HEAD_LENGTH + 1)
      decreases |f.data| - f.pos
    {
      var have := Fill(f, buf, carry);
      found := ScanBuffer(f.data, buf, have, f.pos);
      if found { return; }
      if have == carry {
        NoHeadPastTheEnd(f.data);
        return;
      }
      carry := if have >= HEAD_LENGTH - 1 then HEAD_LENGTH - 1 else have;
      Slide(f, buf, have, carry);
    }
  }
}
