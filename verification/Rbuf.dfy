/** The sparse buffer of libopenspotify/rbuf.c. */
module Rbufs {
  import opened Words

  const CHUNK := 4096
  const START := 16

  /** Region numbers are unsigned ints. */
  const MAX_REGIONS := 0x1_0000_0000

  // ---------------------------------------------------------------- the sparse file

  /** What each region holds; an absent region holds nothing. */
  type File = seq<seq<Byte>>

  predicate WellFormed(f: File) {
    forall i :: 0 <= i < |f| ==> |f[i]| <= CHUNK
  }

  predicate Has(f: File, p: nat) {
    p / CHUNK < |f| && p % CHUNK < |f[p / CHUNK]|
  }

  function At(f: File, p: nat): Byte
    requires Has(f, p)
  {
    f[p / CHUNK][p % CHUNK]
  }

  function Slice(f: File, at: nat, n: nat): (s: seq<Byte>)
    requires forall p :: at <= p < at + n ==> Has(f, p)
    ensures |s| == n
  {
    seq(n, i requires 0 <= i < n => At(f, at + i))
  }

  /** What one region adds to the run that starts at `at`; nothing if the run does not reach it. */
  function Here(f: File, at: nat): (n: nat)
    requires WellFormed(f)
    ensures at % CHUNK + n <= CHUNK
  {
    if at / CHUNK < |f| && at % CHUNK < |f[at / CHUNK]| then |f[at / CHUNK]| - at % CHUNK else 0
  }

  /** The length of the run of bytes present from `at` on. */
  function RunLength(f: File, at: nat): nat
    requires WellFormed(f)
    decreases |f| - at / CHUNK
  {
    var n := Here(f, at);
    if at / CHUNK < |f| && |f[at / CHUNK]| == CHUNK then Boundary(at, n); n + RunLength(f, at + n) else n
  }

  lemma {:induction false} Boundary(at: nat, n: nat)
    requires at % CHUNK + n == CHUNK
    ensures (at + n) / CHUNK == at / CHUNK + 1 && (at + n) % CHUNK == 0
  {
  }

  lemma {:induction false} SameRegion(at: nat, n: nat)
    requires at % CHUNK + n < CHUNK
    ensures (at + n) / CHUNK == at / CHUNK && (at + n) % CHUNK == at % CHUNK + n
  {
  }

  /** Every byte of the run is present and the one after it is not: no longer run starts at `at`. */
  lemma {:induction false} RunIsLongest(f: File, at: nat)
    requires WellFormed(f)
    ensures forall p :: at <= p < at + RunLength(f, at) ==> Has(f, p)
    ensures !Has(f, at + RunLength(f, at))
    decreases |f| - at / CHUNK
  {
    var n := Here(f, at);
    forall p | at <= p < at + n
      ensures Has(f, p)
    {
      SameRegion(at, p - at);
    }
    if at / CHUNK < |f| && |f[at / CHUNK]| == CHUNK {
      Boundary(at, n);
      RunIsLongest(f, at + n);
    } else if at % CHUNK + n < CHUNK {
      SameRegion(at, n);
    }
  }

  /** A read that reaches `at` can neither copy anything nor leave its loop. */
  predicate Stalls(f: File, at: nat) {
    at / CHUNK < |f| && f[at / CHUNK] != [] && at % CHUNK == |f[at / CHUNK]|
  }

  // ---------------------------------------------------------------- the loop of rbuf_read, step by step

  datatype Reading = Running(at: nat, remaining: nat) | Returned(remaining: nat)

  function ReadStep(f: File, r: Reading): Reading
    requires WellFormed(f)
  {
    match r
    case Returned(_) => r
    case Running(at, remaining) =>
      if remaining == 0 || at / CHUNK >= |f| || f[at / CHUNK] == [] || at % CHUNK > |f[at / CHUNK]|
        then Returned(remaining)
      else
        var n := |f[at / CHUNK]| - at % CHUNK;
        var k := if n > remaining then remaining else n;
        Running(at + k, remaining - k)
  }

  function ReadSteps(f: File, r: Reading, k: nat): Reading
    requires WellFormed(f)
  {
    if k == 0 then r else ReadStep(f, ReadSteps(f, r, k - 1))
  }

  /** Asked for more than the run holds, and the run ending inside a region, the loop never ends. */
  lemma {:induction false} NeverReturns(f: File, at: nat, len: nat, k: nat)
    requires WellFormed(f) && len > RunLength(f, at) && Stalls(f, at + RunLength(f, at))
    ensures var r := ReadSteps(f, Running(at, len), k);
            r.Running? && r.remaining > RunLength(f, r.at) && r.at + RunLength(f, r.at) == at + RunLength(f, at)
  {
    if k > 0 {
      NeverReturns(f, at, len, k - 1);
      var r := ReadSteps(f, Running(at, len), k - 1);
      StillRunning(f, r.at, r.remaining);
    }
  }

  lemma {:induction false} StillRunning(f: File, at: nat, remaining: nat)
    requires WellFormed(f) && remaining > RunLength(f, at) && Stalls(f, at + RunLength(f, at))
    ensures var r := ReadStep(f, Running(at, remaining));
            r.Running? && r.remaining > RunLength(f, r.at) && r.at + RunLength(f, r.at) == at + RunLength(f, at)
  {
    var n := Here(f, at);
    if at / CHUNK < |f| && |f[at / CHUNK]| == CHUNK {
      Boundary(at, n);
    } else if at % CHUNK + n < CHUNK {
      SameRegion(at, n);
    }
  }

  /** Where the loop does not stall it copies something or is about to return. */
  lemma {:induction false} StepProgress(f: File, at: nat, remaining: nat)
    requires WellFormed(f) && !(remaining > RunLength(f, at) && Stalls(f, at + RunLength(f, at)))
    ensures match ReadStep(f, Running(at, remaining))
            case Returned(_) => true
            case Running(b, left) =>
              left < remaining && !(left > RunLength(f, b) && Stalls(f, b + RunLength(f, b)))
  {
    var r := ReadStep(f, Running(at, remaining));
    if r.Running? {
      var n := |f[at / CHUNK]| - at % CHUNK;
      assert Here(f, at) == n;
      RunShortens(f, at, r.at - at);
    }
  }

  /** A read ends if and only if it asks for no more than the run holds or the run does not end inside a region. */
  lemma {:induction false} ReadEndsIff(f: File, at: nat, len: nat)
    requires WellFormed(f)
    ensures (exists k: nat :: ReadSteps(f, Running(at, len), k).Returned?)
            <==> len <= RunLength(f, at) || !Stalls(f, at + RunLength(f, at))
  {
    if len > RunLength(f, at) && Stalls(f, at + RunLength(f, at)) {
      forall k: nat
        ensures !ReadSteps(f, Running(at, len), k).Returned?
      {
        NeverReturns(f, at, len, k);
      }
    } else {
      var k := ReadEnds(f, at, len);
    }
  }

  lemma {:induction false} ReadEnds(f: File, at: nat, len: nat) returns (k: nat)
    requires WellFormed(f) && !(len > RunLength(f, at) && Stalls(f, at + RunLength(f, at)))
    ensures ReadSteps(f, Running(at, len), k).Returned?
    decreases len
  {
    hide RunLength; hide Stalls; hide ReadStep;
    StepProgress(f, at, len);
    var r := ReadStep(f, Running(at, len));
    if r.Returned? {
      assert ReadSteps(f, Running(at, len), 0) == Running(at, len);
      k := 1;
    } else {
      k := ReadEnds(f, r.at, r.remaining);
      StepFirst(f, Running(at, len), k);
      k := k + 1;
    }
  }

  lemma {:induction false} StepFirst(f: File, r: Reading, k: nat)
    requires WellFormed(f)
    ensures ReadSteps(f, r, k + 1) == ReadSteps(f, ReadStep(f, r), k)
  {
    hide ReadStep;
    if k > 0 {
      StepFirst(f, r, k - 1);
    } else {
      assert ReadSteps(f, r, 0) == r;
    }
  }

  /** A read of two bytes where one is present does not end. */
  lemma {:induction false} NeverReturnsExample(x: Byte)
    ensures WellFormed([[x]]) && !exists k: nat :: ReadSteps([[x]], Running(0, 2), k).Returned?
  {
    var f := [[x]];
    assert f[0] == [x] && Here(f, 0) == 1;
    assert RunLength(f, 0) == 1 && Stalls(f, 1);
    ReadEndsIff(f, 0, 2);
  }

  // ---------------------------------------------------------------- writing

  /** The bytes before `w` in its region that nothing has been written to. */
  predicate Gap(f: File, w: nat, p: nat) {
    p < w && p / CHUNK == w / CHUNK && !Has(f, p)
  }

  /** `g` is `f` after writing `a` at `w`. */
  ghost predicate Wrote(f: File, g: File, w: nat, a: seq<Byte>) {
    && (forall p :: w <= p < w + |a| ==> Has(g, p) && At(g, p) == a[p - w])
    && (forall p: nat :: !(w <= p < w + |a|) && !(a != [] && Gap(f, w, p)) ==>
         (Has(g, p) <==> Has(f, p)) && (Has(f, p) ==> At(g, p) == At(f, p)))
    && (forall p: nat :: a != [] && Gap(f, w, p) ==> Has(g, p))
  }

  lemma {:induction false} WroteThen(f: File, g: File, h: File, w: nat, a: seq<Byte>, b: seq<Byte>)
    requires Wrote(f, g, w, a) && Wrote(g, h, w + |a|, b)
    ensures Wrote(f, h, w, a + b)
  {
    hide Has; hide At;
    forall p: nat
      ensures a != [] ==> !Gap(g, w + |a|, p)
      ensures a == [] ==> Gap(g, w, p) == Gap(f, w, p)
    {
    }
  }

  /** A write changes the file in exactly the range written if and only if it does not start beyond what its region
      holds. */
  lemma {:induction false} WriteIsExact(f: File, g: File, w: nat, a: seq<Byte>)
    requires WellFormed(f) && a != [] && Wrote(f, g, w, a)
    ensures (forall p: nat :: !(w <= p < w + |a|) ==>
              (Has(g, p) <==> Has(f, p)) && (Has(f, p) ==> At(g, p) == At(f, p)))
            <==> w % CHUNK <= (if w / CHUNK < |f| then |f[w / CHUNK]| else 0)
  {
    hide At;
    var filled := if w / CHUNK < |f| then |f[w / CHUNK]| else 0;
    if w % CHUNK <= filled {
      forall p: nat
        ensures !Gap(f, w, p)
      {
      }
    } else {
      var p := w - w % CHUNK + filled;
      assert p == CHUNK * (w / CHUNK) + filled;
      assert p / CHUNK == w / CHUNK && p % CHUNK == filled;
      assert Gap(f, w, p);
    }
  }

  /** One byte written behind a gap brings a second one into being. */
  lemma {:induction false} GapExample(x: Byte, raw: Byte)
    ensures Wrote([], [[raw, x]], 1, [x]) && !Has([], 0) && Has([[raw, x]], 0)
  {
    var g := [[raw, x]];
    assert g[0] == [raw, x];
    forall p: nat
      ensures Has(g, p) <==> p < 2
    {
      assert p / CHUNK < 1 <==> p < CHUNK;
    }
  }

  /** What was written is what a read at the same offset returns. */
  lemma {:induction false} WriteThenRead(f: File, g: File, w: nat, a: seq<Byte>)
    requires WellFormed(g) && Wrote(f, g, w, a)
    ensures |a| <= RunLength(g, w) && Slice(g, w, |a|) == a
  {
    hide Has; hide At; hide RunLength;
    RunIsLongest(g, w);
    assert !(w <= w + RunLength(g, w) < w + |a|);
  }

  // ---------------------------------------------------------------- one region of a write

  /** A region's bytes after `chunk` is put at `o`; `raw` is what its memory held. */
  function Overlay(fill: seq<Byte>, raw: seq<Byte>, o: nat, chunk: seq<Byte>): (g: seq<Byte>)
    requires o + |chunk| <= CHUNK == |raw| && |fill| <= CHUNK
    ensures |g| == if |fill| < o + |chunk| then o + |chunk| else |fill|
  {
    (raw[..o] + chunk + raw[o + |chunk|..])[..if |fill| < o + |chunk| then o + |chunk| else |fill|]
  }

  function FillAt(f: File, n: nat): seq<Byte> {
    if n < |f| then f[n] else []
  }

  /** Overlaying one region writes `chunk` at `w`, the region table growing if it must. */
  lemma {:induction false} OverlayWrites(f: File, g: File, w: nat, chunk: seq<Byte>, raw: seq<Byte>)
    requires WellFormed(f) && chunk != [] && w % CHUNK + |chunk| <= CHUNK == |raw|
    requires FillAt(f, w / CHUNK) == raw[..|FillAt(f, w / CHUNK)|]
    requires |g| == if |f| <= w / CHUNK then w / CHUNK + 1 else |f|
    requires g[w / CHUNK] == Overlay(FillAt(f, w / CHUNK), raw, w % CHUNK, chunk)
    requires forall i :: 0 <= i < |g| && i != w / CHUNK ==> g[i] == FillAt(f, i)
    ensures Wrote(f, g, w, chunk)
  {
    forall p: nat
      ensures !(w <= p < w + |chunk|) && !Gap(f, w, p) ==>
                (Has(g, p) <==> Has(f, p)) && (Has(f, p) ==> At(g, p) == At(f, p))
      ensures Gap(f, w, p) ==> Has(g, p)
    {
      if p / CHUNK == w / CHUNK {
        InRegion(p, w);
      }
    }
    forall p | w <= p < w + |chunk|
      ensures Has(g, p) && At(g, p) == chunk[p - w]
    {
      if w % CHUNK + (p - w) < CHUNK {
        SameRegion(w, p - w);
      }
    }
  }

  lemma {:induction false} InRegion(p: nat, w: nat)
    requires p / CHUNK == w / CHUNK
    ensures p - w == p % CHUNK - w % CHUNK
  {
  }

  // ---------------------------------------------------------------- the buffer

  class Region {
    var len: nat
    const data: array<Byte>

    /** Memory fresh from malloc holds arbitrary bytes. */
    constructor ()
      ensures len == 0 && fresh(data) && data.Length == CHUNK
    {
      len := 0;
      data := new Byte[CHUNK];
    }
  }

  datatype Whence = SeekSet | SeekCur | SeekEnd

  const SIZE_RANGE := 0x1_0000_0000_0000_0000

  class Rbuf {
    var readOffset: nat
    var writeOffset: nat
    var regions: seq<Region?>
    ghost var Repr: set<object>

    ghost predicate Valid()
      reads `regions, `Repr, Repr
      ensures Valid() ==> this !in Repr
    {
      && this !in Repr
      && |regions| <= MAX_REGIONS
      && (forall i :: 0 <= i < |regions| && regions[i] != null ==>
            regions[i] in Repr && regions[i].data in Repr && RegionValid(regions[i]))
      && (forall i, j :: 0 <= i < j < |regions| && regions[i] != null && regions[j] != null ==>
            regions[i] != regions[j] && regions[i].data != regions[j].data)
    }

    static ghost predicate RegionValid(r: Region)
      reads r
    {
      0 < r.len <= CHUNK == r.data.Length
    }

    static ghost function Filled(r: Region?): (s: seq<Byte>)
      requires r != null ==> RegionValid(r)
      reads r, if r != null then {r.data} else {}
      ensures |s| <= CHUNK
    {
      if r == null then [] else r.data[..r.len]
    }

    /** The sparse file the buffer holds. */
    ghost function Contents(): (f: File)
      requires Valid()
      reads `regions, `Repr, Repr
      ensures WellFormed(f) && |f| == |regions|
    {
      var regs, repr := regions, Repr;
      seq(|regs|, i requires 0 <= i < |regs| && (regs[i] != null ==>
        regs[i] in repr && regs[i].data in repr && RegionValid(regs[i])) reads repr =>
        Filled(regs[i]))
    }

    lemma RegionIs(n: nat)
      requires Valid() && n < |regions|
      ensures Contents()[n] == Filled(regions[n])
      ensures regions[n] != null ==> regions[n].data in Repr && RegionValid(regions[n])
    {
    }

    constructor ()
      ensures Valid() && fresh(Repr) && readOffset == 0 && writeOffset == 0
      ensures forall p: nat :: !Has(Contents(), p)
    {
      readOffset, writeOffset := 0, 0;
      regions := seq(START, _ => null);
      Repr := {};
    }

    /** rbuf_seek, in size_t arithmetic; the end is where the region table ends, computed in unsigned int. */
    method Seek(offset: nat, whence: Whence, writer: bool)
      requires Valid() && offset < SIZE_RANGE
      modifies this`readOffset, this`writeOffset
      ensures Valid() && Contents() == old(Contents())
      ensures writer ==> readOffset == old(readOffset)
                         && writeOffset == Moved(old(writeOffset), offset, whence, |regions|)
      ensures !writer ==> writeOffset == old(writeOffset)
                          && readOffset == Moved(old(readOffset), offset, whence, |regions|)
    {
      if writer {
        match whence
        case SeekSet => writeOffset := offset;
        case SeekCur => writeOffset := (writeOffset + offset) % SIZE_RANGE;
        case SeekEnd => writeOffset := ((|regions| * CHUNK) % 0x1_0000_0000 - offset) % SIZE_RANGE;
      } else {
        match whence
        case SeekSet => readOffset := offset;
        case SeekCur => readOffset := (readOffset + offset) % SIZE_RANGE;
        case SeekEnd => readOffset := ((|regions| * CHUNK) % 0x1_0000_0000 - offset) % SIZE_RANGE;
      }
    }

    /** rbuf_length. */
    method Length() returns (len: nat)
      requires Valid() && readOffset < CHUNK * MAX_REGIONS
      ensures len == RunLength(Contents(), readOffset)
      ensures forall p :: readOffset <= p < readOffset + len ==> Has(Contents(), p)
      ensures !Has(Contents(), readOffset + len)
    {
      hide Has; hide RunLength;
      ghost var f := Contents();
      var offset := readOffset;
      len := 0;
      while true
        invariant offset == readOffset + len && len + RunLength(f, offset) == RunLength(f, readOffset)
        decreases |regions| - offset / CHUNK
      {
        var n := offset / CHUNK;
        RunUnfolds(f, offset);
        if n >= |regions| {
          break;
        }
        var reg := regions[n];
        if reg == null {
          break;
        }
        RegionIs(n);
        var regOffset := offset % CHUNK;
        if regOffset > reg.len {
          break;
        }
        len := len + (reg.len - regOffset);
        offset := offset + (reg.len - regOffset);
        if reg.len != CHUNK {
          break;
        }
        Boundary(offset - (reg.len - regOffset), reg.len - regOffset);
      }
      RunIsLongest(f, readOffset);
    }

    /** memcpy out of a region. */
    static method CopyOut(reg: Region, dest: array<Byte>, to: nat, ptr: nat, at: nat, n: nat, ghost f: File,
                          ghost start: nat, ghost p: nat)
      requires RegionValid(reg) && at + n <= reg.len && ptr + n <= dest.Length && dest != reg.data
      requires WellFormed(f) && p / CHUNK < |f| && f[p / CHUNK] == Filled(reg) && p % CHUNK == at
      requires to <= ptr && p == start + ptr - to && (forall q :: start <= q < p ==> Has(f, q))
               && dest[to..ptr] == Slice(f, start, ptr - to)
      modifies dest
      ensures forall q :: start <= q < p + n ==> Has(f, q)
      ensures dest[to..ptr + n] == Slice(f, start, ptr + n - to)
      ensures n + RunLength(f, p + n) == RunLength(f, p)
      ensures forall i :: 0 <= i < dest.Length && !(ptr <= i < ptr + n) ==> dest[i] == old(dest[i])
    {
      hide Has; hide At; hide RunLength; hide Slice;
      ghost var before := dest[to..ptr];
      forall i | 0 <= i < n {
        dest[ptr + i] := reg.data[at + i];
      }
      assert dest[ptr..ptr + n] == f[p / CHUNK][at..at + n];
      RunShortens(f, p, n);
      PieceIs(f, p, n, dest[ptr..ptr + n]);
      SlicesJoin(f, start, ptr - to, n);
      assert dest[to..ptr] == before;
      assert dest[to..ptr + n] == before + dest[ptr..ptr + n];
    }

    /** rbuf_read into `dest` from index `to` on, for a read that ends. */
    method Read(dest: array<Byte>, to: nat, len: nat) returns (r: nat)
      requires Valid() && dest !in Repr && to + len <= dest.Length && readOffset < CHUNK * MAX_REGIONS
      requires len <= RunLength(Contents(), readOffset)
               || !Stalls(Contents(), readOffset + RunLength(Contents(), readOffset))
      modifies this`readOffset, dest
      ensures Valid() && Contents() == old(Contents())
      ensures r == var n := old(RunLength(Contents(), readOffset)); if len <= n then len else n
      ensures readOffset == old(readOffset) + r
      ensures forall p :: old(readOffset) <= p < old(readOffset) + r ==> Has(Contents(), p)
      ensures dest[to..to + r] == Slice(Contents(), old(readOffset), r)
      ensures forall i :: 0 <= i < dest.Length && !(to <= i < to + r) ==> dest[i] == old(dest[i])
    {
      hide Has; hide At; hide RunLength; hide Slice; hide WellFormed; hide Valid; hide Contents;
      ghost var f, start := Contents(), readOffset;
      SliceNone(f, start);
      RunIsLongest(f, start);
      var remaining, ptr := len, to;
      while remaining > 0
        invariant Valid() && Contents() == f && regions == old(regions) && Repr == old(Repr)
        invariant 0 <= remaining <= len && ptr == to + len - remaining && readOffset == start + len - remaining
        invariant len - remaining + RunLength(f, readOffset) == RunLength(f, start)
        invariant dest[to..ptr] == Slice(f, start, len - remaining)
        invariant forall i :: 0 <= i < dest.Length && !(to <= i < ptr) ==> dest[i] == old(dest[i])
      {
        var n := readOffset / CHUNK;
        RunUnfolds(f, readOffset);
        if n >= |regions| {
          break;
        }
        var reg := regions[n];
        RegionIs(n);
        if reg == null {
          break;
        }
        var regOffset := readOffset % CHUNK;
        if regOffset > reg.len {
          break;
        }
        var nbytes := reg.len - regOffset;
        assert nbytes == Here(f, readOffset) && (nbytes == 0 ==> Stalls(f, readOffset));
        if nbytes > remaining {
          nbytes := remaining;
        }
        CopyOut(reg, dest, to, ptr, regOffset, nbytes, f, start, readOffset);
        readOffset := readOffset + nbytes;
        ptr := ptr + nbytes;
        remaining := remaining - nbytes;
      }
      r := len - remaining;
    }

    /** The region table grows by absent regions until it has number `n`. */
    method Grow(n: nat)
      requires Valid() && n < MAX_REGIONS
      modifies `regions
      ensures Valid() && |regions| == if old(|regions|) <= n then n + 1 else old(|regions|)
      ensures forall i :: 0 <= i < |regions| ==> Contents()[i] == FillAt(old(Contents()), i)
    {
      while |regions| <= n
        invariant Valid() && |regions| <= if old(|regions|) <= n then n + 1 else old(|regions|)
        invariant old(regions) <= regions && forall i :: old(|regions|) <= i < |regions| ==> regions[i] == null
      {
        regions := regions + [null];
      }
    }

    /** memcpy into a region, extending what it holds. */
    static method CopyIn(reg: Region, o: nat, chunk: seq<Byte>)
      requires reg.len <= CHUNK == reg.data.Length && chunk != [] && o + |chunk| <= CHUNK
      modifies reg, reg.data
      ensures RegionValid(reg) && Filled(reg) == Overlay(old(reg.data[..reg.len]), old(reg.data[..]), o, chunk)
    {
      forall i | 0 <= i < |chunk| {
        reg.data[o + i] := chunk[i];
      }
      if reg.len < o + |chunk| {
        reg.len := o + |chunk|;
      }
      assert reg.data[..] == old(reg.data[..o]) + chunk + old(reg.data[o + |chunk|..]);
    }

    /** The part of a write that falls into region `n`, which is allocated if it is absent. */
    method WriteRegion(n: nat, o: nat, chunk: seq<Byte>) returns (ghost raw: seq<Byte>)
      requires Valid() && n < |regions| && chunk != [] && o + |chunk| <= CHUNK
      modifies `regions, `Repr, Repr
      ensures Valid() && fresh(Repr - old(Repr)) && |regions| == old(|regions|)
      ensures |raw| == CHUNK && old(Contents())[n] == raw[..|old(Contents())[n]|]
      ensures Contents()[n] == Overlay(old(Contents())[n], raw, o, chunk)
      ensures forall i :: 0 <= i < |regions| && i != n ==> Contents()[i] == old(Contents())[i]
    {
      hide Overlay;
      var reg := regions[n];
      if reg == null {
        reg := new Region();
        raw := reg.data[..];
        CopyIn(reg, o, chunk);
        regions := regions[n := reg];
        Repr := Repr + {reg, reg.data};
      } else {
        raw := reg.data[..];
        CopyIn(reg, o, chunk);
      }
    }

    /** rbuf_write: the file changes as `Wrote` says, and the writer moves on. */
    method Write(data: seq<Byte>)
      requires Valid() && writeOffset + |data| <= CHUNK * MAX_REGIONS
      modifies `regions, `Repr, Repr, `writeOffset
      ensures Valid() && fresh(Repr - old(Repr))
      ensures Wrote(old(Contents()), Contents(), old(writeOffset), data)
      ensures writeOffset == old(writeOffset) + |data|
    {
      hide Has; hide At; hide Wrote; hide Overlay; hide Contents; hide Valid;
      ghost var f, start := Contents(), writeOffset;
      var remaining, ptr := |data|, 0;
      WroteNothing(f, start);
      while remaining > 0
        invariant Valid() && fresh(Repr - old(Repr))
        invariant 0 <= remaining == |data| - ptr && writeOffset == start + ptr
        invariant Wrote(f, Contents(), start, data[..ptr])
      {
        var n := writeOffset / CHUNK;
        ghost var g := Contents();
        if n >= |regions| {
          Grow(n);
        }
        var regOffset := writeOffset % CHUNK;
        var nbytes := CHUNK - regOffset;
        if nbytes > remaining {
          nbytes := remaining;
        }
        ghost var raw := WriteRegion(n, regOffset, data[ptr..ptr + nbytes]);
        OverlayWrites(g, Contents(), writeOffset, data[ptr..ptr + nbytes], raw);
        WroteThen(f, g, Contents(), start, data[..ptr], data[ptr..ptr + nbytes]);
        assert data[..ptr + nbytes] == data[..ptr] + data[ptr..ptr + nbytes];
        writeOffset := writeOffset + nbytes;
        ptr := ptr + nbytes;
        remaining := remaining - nbytes;
      }
      assert data[..ptr] == data;
    }
  }

  lemma {:induction false} WroteNothing(f: File, w: nat)
    ensures Wrote(f, f, w, [])
  {
  }

  /** Where a seek leaves an offset. */
  function Moved(at: nat, offset: nat, whence: Whence, regions: nat): nat {
    match whence
    case SeekSet => offset
    case SeekCur => (at + offset) % SIZE_RANGE
    case SeekEnd => ((regions * CHUNK) % 0x1_0000_0000 - offset) % SIZE_RANGE
  }

  lemma {:induction false} RunUnfolds(f: File, at: nat)
    requires WellFormed(f)
    ensures RunLength(f, at) == if at / CHUNK < |f| && |f[at / CHUNK]| == CHUNK
            then Here(f, at) + RunLength(f, at + Here(f, at)) else Here(f, at)
  {
  }

  /** The run shortens by what is consumed of it. */
  lemma {:induction false} RunShortens(f: File, at: nat, n: nat)
    requires WellFormed(f) && n <= Here(f, at)
    ensures n + RunLength(f, at + n) == RunLength(f, at)
  {
    if at % CHUNK + n == CHUNK {
      Boundary(at, n);
    } else {
      SameRegion(at, n);
      var m := Here(f, at + n);
      assert at + n + m == at + Here(f, at) || n == 0;
    }
  }

  lemma {:induction false} PieceIs(f: File, at: nat, n: nat, s: seq<Byte>)
    requires WellFormed(f) && n <= Here(f, at) && |s| == n
    requires at / CHUNK < |f| && (n > 0 ==> s == f[at / CHUNK][at % CHUNK..at % CHUNK + n])
    ensures forall p :: at <= p < at + n ==> Has(f, p)
    ensures s == Slice(f, at, n)
  {
    forall p | at <= p < at + n
      ensures Has(f, p) && At(f, p) == s[p - at]
    {
      SameRegion(at, p - at);
    }
  }

  lemma {:induction false} SliceNone(f: File, at: nat)
    ensures Slice(f, at, 0) == []
  {
  }

  lemma {:induction false} SlicesJoin(f: File, at: nat, m: nat, n: nat)
    requires forall p :: at <= p < at + m + n ==> Has(f, p)
    ensures Slice(f, at, m + n) == Slice(f, at, m) + Slice(f, at + m, n)
  {
    hide Has; hide At;
  }
}
