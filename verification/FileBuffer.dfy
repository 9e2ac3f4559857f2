/** The in-memory contents of an open file handle.

  `OpenFile` is the handle with its 64-bit offset arithmetic.  Its methods are
  proved against pure transitions on byte strings, and those against a
  log-structured reading in which the last write that covers a position decides
  its byte and everything never written is zero.
*/
module FileBuffer {

  type Byte = b: int | 0 <= b < 256
  type Bytes = seq<Byte>

  const MAX_INT64: int := 0x7fff_ffff_ffff_ffff

  newtype int64 = x: int | -0x8000_0000_0000_0000 <= x <= 0x7fff_ffff_ffff_ffff
  newtype uint64 = x: int | 0 <= x <= 0xffff_ffff_ffff_ffff

  /** Two's-complement addition. */
  function WrappingAdd(a: int64, b: int64): int64 {
    var sum := a as int + b as int;
    if sum > MAX_INT64 then (sum - 0x1_0000_0000_0000_0000) as int64
    else if sum < -0x8000_0000_0000_0000 then (sum + 0x1_0000_0000_0000_0000) as int64
    else sum as int64
  }

  datatype Errno = Success | EBADF | EINVAL | EFBIG

  function Zeros(n: nat): Bytes { seq(n, i => 0) }

  /** `s` grown with zeros to `offset + |patch|` if shorter, then patched at `offset`. */
  function Overlay(s: Bytes, offset: nat, patch: Bytes): (r: Bytes)
    ensures |r| == if offset + |patch| > |s| then offset + |patch| else |s|
    ensures forall i | 0 <= i < |r| ::
      r[i] == if offset <= i < offset + |patch| then patch[i - offset] else if i < |s| then s[i] else 0
  {
    var end := offset + |patch|;
    var grown := if end > |s| then s + Zeros(end - |s|) else s;
    grown[..offset] + patch + grown[end..]
  }

  function Resized(s: Bytes, size: nat): (r: Bytes)
    ensures |r| == size
    ensures forall i | 0 <= i < size :: r[i] == if i < |s| then s[i] else 0
  {
    if size < |s| then s[..size] else s + Zeros(size - |s|)
  }

  // ------------------------------------------------------- pure transitions

  /** The buffer of a writable handle and the offset at which concurrent appends were seen. */
  datatype Buffer = Buffer(bytes: Bytes, candidate: int)

  /** How a handle was opened, and whether the platform needs the append workaround. */
  datatype Mode = Mode(append: bool, workaround: bool, limit: nat)

  /** The offset a write is served at, and the candidate offset it leaves behind. */
  function Placement(b: Buffer, mode: Mode, offset: int, overlapping: bool): (int, int) {
    var size := |b.bytes|;
    if mode.append then (size, b.candidate)
    else if !mode.workaround then (offset, b.candidate)
    else if overlapping && offset == b.candidate && offset < size then (size, b.candidate)
    else if offset == size then (offset, offset)
    else (offset, -1)
  }

  /** A write in unbounded arithmetic: refused exactly when it would end past the limit. */
  function Written(b: Buffer, mode: Mode, offset: int, patch: Bytes, overlapping: bool): (r: (Buffer, Errno)) {
    var (at, candidate) := Placement(b, mode, offset, overlapping);
    if at < 0 || at + |patch| > mode.limit then (Buffer(b.bytes, candidate), EFBIG)
    else (Buffer(Overlay(b.bytes, at, patch), candidate), Success)
  }

  datatype Operation =
    | Write(offset: int, patch: Bytes, overlapping: bool)
    | Resize(size: nat)

  function Apply(b: Buffer, mode: Mode, op: Operation): Buffer {
    match op
    case Write(offset, patch, overlapping) => Written(b, mode, offset, patch, overlapping).0
    case Resize(size) => if size > mode.limit then b else b.(bytes := Resized(b.bytes, size))
  }

  function ApplyAll(b: Buffer, mode: Mode, ops: seq<Operation>): Buffer {
    if ops == [] then b else Apply(ApplyAll(b, mode, ops[..|ops| - 1]), mode, ops[|ops| - 1])
  }

  // ------------------------------------------------ the log-structured reading

  /** What actually happened to the contents: accepted writes at their final place, and resizes. */
  datatype Event = Wrote(at: nat, patch: Bytes) | SetSize(size: nat)

  function EventOf(b: Buffer, mode: Mode, op: Operation): seq<Event> {
    match op
    case Write(offset, patch, overlapping) =>
      var at := Placement(b, mode, offset, overlapping).0;
      if at < 0 || at + |patch| > mode.limit then [] else [Wrote(at, patch)]
    case Resize(size) => if size > mode.limit then [] else [SetSize(size)]
  }

  function Log(b: Buffer, mode: Mode, ops: seq<Operation>): seq<Event> {
    if ops == [] then []
    else
      var prefix := ops[..|ops| - 1];
      Log(b, mode, prefix) + EventOf(ApplyAll(b, mode, prefix), mode, ops[|ops| - 1])
  }

  /** The length after a log: the largest write end since the last resize. */
  function LengthOf(initial: Bytes, log: seq<Event>): nat {
    if log == [] then |initial|
    else
      match log[|log| - 1]
      case SetSize(size) => size
      case Wrote(at, patch) =>
        var before := LengthOf(initial, log[..|log| - 1]);
        if at + |patch| > before then at + |patch| else before
  }

  /** The byte at a position: the last event that covers or cuts it off decides. */
  function ByteAt(initial: Bytes, log: seq<Event>, i: nat): Byte {
    if log == [] then (if i < |initial| then initial[i] else 0)
    else
      var earlier := log[..|log| - 1];
      match log[|log| - 1]
      case SetSize(size) => if i >= size then 0 else ByteAt(initial, earlier, i)
      case Wrote(at, patch) =>
        if at <= i < at + |patch| then patch[i - at] else ByteAt(initial, earlier, i)
  }

  lemma {:induction false} BeyondLengthIsZero(initial: Bytes, log: seq<Event>, i: nat)
    requires i >= LengthOf(initial, log)
    ensures ByteAt(initial, log, i) == 0
  {
    if log != [] {
      match log[|log| - 1]
      case SetSize(size) =>
      case Wrote(at, patch) => BeyondLengthIsZero(initial, log[..|log| - 1], i);
    }
  }

  /** `contents` is what `log` says happened to `initial`. */
  ghost predicate Follows(contents: Bytes, initial: Bytes, log: seq<Event>) {
    && |contents| == LengthOf(initial, log)
    && forall i: nat | i < |contents| :: contents[i] == ByteAt(initial, log, i)
  }

  lemma WriteFollows(s: Bytes, initial: Bytes, log: seq<Event>, at: nat, patch: Bytes)
    requires Follows(s, initial, log)
    ensures Follows(Overlay(s, at, patch), initial, log + [Wrote(at, patch)])
  {
    var longer := log + [Wrote(at, patch)];
    assert longer[..|longer| - 1] == log;
    forall i: nat | i < |Overlay(s, at, patch)|
      ensures Overlay(s, at, patch)[i] == ByteAt(initial, longer, i)
    {
      if i >= |s| { BeyondLengthIsZero(initial, log, i); }
    }
  }

  lemma ResizeFollows(s: Bytes, initial: Bytes, log: seq<Event>, size: nat)
    requires Follows(s, initial, log)
    ensures Follows(Resized(s, size), initial, log + [SetSize(size)])
  {
    var longer := log + [SetSize(size)];
    assert longer[..|longer| - 1] == log;
    forall i: nat | i < size ensures Resized(s, size)[i] == ByteAt(initial, longer, i) {
      if i >= |s| { BeyondLengthIsZero(initial, log, i); }
    }
  }

  lemma OperationFollows(b: Buffer, mode: Mode, op: Operation, initial: Bytes, log: seq<Event>)
    requires Follows(b.bytes, initial, log)
    ensures Follows(Apply(b, mode, op).bytes, initial, log + EventOf(b, mode, op))
  {
    var events := EventOf(b, mode, op);
    if events == [] {
      assert log + events == log;
    } else {
      match op
      case Write(_, patch, _) => WriteFollows(b.bytes, initial, log, events[0].at, patch);
      case Resize(size) => ResizeFollows(b.bytes, initial, log, size);
    }
  }

  /** Any sequence of writes and resizes leaves exactly what its log says. */
  lemma {:induction false} ContentsFollowLog(b: Buffer, mode: Mode, ops: seq<Operation>)
    ensures Follows(ApplyAll(b, mode, ops).bytes, b.bytes, Log(b, mode, ops))
  {
    if ops != [] {
      var prefix := ops[..|ops| - 1];
      ContentsFollowLog(b, mode, prefix);
      OperationFollows(ApplyAll(b, mode, prefix), mode, ops[|ops| - 1], b.bytes, Log(b, mode, prefix));
    }
  }

  /** A writable handle that starts within the limit never grows past it. */
  lemma {:induction false} NeverExceedsLimit(b: Buffer, mode: Mode, ops: seq<Operation>)
    requires |b.bytes| <= mode.limit
    ensures |ApplyAll(b, mode, ops).bytes| <= mode.limit
  {
    if ops != [] {
      NeverExceedsLimit(b, mode, ops[..|ops| - 1]);
    }
  }

  // ------------------------------------------------------ concurrent appends

  /** Chunks appended one after the other, each kept only if it still fits. */
  function AppendFitting(s: Bytes, chunks: seq<Bytes>, limit: nat): Bytes {
    if chunks == [] then s
    else
      var before := AppendFitting(s, chunks[..|chunks| - 1], limit);
      var chunk := chunks[|chunks| - 1];
      if |before| + |chunk| <= limit then before + chunk else before
  }

  /** Writes of the given chunks, all issued at the same offset. */
  function AppendsAt(offset: int, chunks: seq<Bytes>, flags: seq<bool>): seq<Operation>
    requires |flags| == |chunks|
  {
    seq(|chunks|, i requires 0 <= i < |chunks| => Write(offset, chunks[i], flags[i]))
  }

  lemma OverlayAtEnd(s: Bytes, patch: Bytes)
    ensures Overlay(s, |s|, patch) == s + patch
  {
  }

  /** With the workaround, non-empty writes issued at the end offset, all but the
      first served flagged as overlapping, are concatenated in service order. */
  lemma {:induction false} OverlappingAppendsConcatenate(b: Buffer, mode: Mode, chunks: seq<Bytes>, flags: seq<bool>)
    requires !mode.append && mode.workaround
    requires |flags| == |chunks|
    requires forall i | 0 <= i < |chunks| :: chunks[i] != []
    requires forall i | 0 < i < |flags| :: flags[i]
    ensures var after := ApplyAll(b, mode, AppendsAt(|b.bytes|, chunks, flags));
            && after.bytes == AppendFitting(b.bytes, chunks, mode.limit)
            && (chunks != [] ==> after.candidate == |b.bytes|)
            && |after.bytes| >= |b.bytes|
            && (|after.bytes| == |b.bytes| ==> after.bytes == b.bytes)
  {
    var ops := AppendsAt(|b.bytes|, chunks, flags);
    if chunks != [] {
      var n := |chunks| - 1;
      OverlappingAppendsConcatenate(b, mode, chunks[..n], flags[..n]);
      assert ops[..n] == AppendsAt(|b.bytes|, chunks[..n], flags[..n]);
      var before := ApplyAll(b, mode, ops[..n]);
      var (at, candidate) := Placement(before, mode, |b.bytes|, flags[n]);
      assert at == |before.bytes| && candidate == |b.bytes| by {
        if n == 0 { assert before == b; }
      }
      OverlayAtEnd(before.bytes, chunks[n]);
    }
  }

  /** The flag is what matters: an unflagged write at the same offset overwrites. */
  lemma UnflaggedAppendOverwrites(b: Buffer, mode: Mode, first: Bytes, second: Bytes)
    requires !mode.append && mode.workaround
    requires first != [] && |b.bytes| + |first| <= mode.limit && |second| <= |first|
    ensures var one := Written(b, mode, |b.bytes|, first, false).0;
            var two := Written(one, mode, |b.bytes|, second, false).0;
            two.bytes == b.bytes + second + first[|second|..]
  {
    OverlayAtEnd(b.bytes, first);
  }

  /** A write that was issued exactly at the end of the contents. */
  predicate IssuedAtEnd(b: Buffer, op: Operation) { op.Write? && op.offset == |b.bytes| }

  /** A flagged write at offset `c`, which has come to lie short of the end. */
  predicate Repeats(b: Buffer, op: Operation, c: int) {
    op.Write? && op.overlapping && op.offset == c && c < |b.bytes|
  }

  /** No write, or one that repeats offset `c`. */
  predicate Continues(b: Buffer, op: Operation, c: int) {
    op.Resize? || Repeats(b, op, c) || (IssuedAtEnd(b, op) && op.offset == c)
  }

  /** The write that set the candidate: it was issued at the end, and since then all writes were flagged
      repetitions of its offset. */
  ghost predicate SetBy(b: Buffer, mode: Mode, ops: seq<Operation>, c: int, j: nat) {
    && j < |ops| && IssuedAtEnd(ApplyAll(b, mode, ops[..j]), ops[j]) && ops[j].offset == c
    && forall k | j < k < |ops| :: Continues(ApplyAll(b, mode, ops[..k]), ops[k], c)
  }

  lemma SetByExtends(b: Buffer, mode: Mode, ops: seq<Operation>, op: Operation, c: int, j: nat)
    requires SetBy(b, mode, ops, c, j)
    requires Continues(ApplyAll(b, mode, ops), op, c)
    ensures SetBy(b, mode, ops + [op], c, j)
  {
    var longer := ops + [op];
    forall k | 0 <= k <= |ops| ensures longer[..k] == ops[..k] {}
    assert ops[..|ops|] == ops;
  }

  lemma SetByShrinks(b: Buffer, mode: Mode, ops: seq<Operation>, op: Operation, c: int, j: nat)
    requires SetBy(b, mode, ops + [op], c, j) && j < |ops|
    ensures SetBy(b, mode, ops, c, j)
    ensures Continues(ApplyAll(b, mode, ops), op, c)
  {
    var longer := ops + [op];
    forall k | 0 <= k <= |ops| ensures longer[..k] == ops[..k] {}
    assert ops[..|ops|] == ops && longer[|ops|] == op;
  }

  /** What the recorded offset is: over any operations on a new handle, it is `c` if and only if some
      write was issued exactly at the end offset `c`, and every later one repeated that offset. */
  lemma {:induction false} CandidateMeans(b: Buffer, mode: Mode, ops: seq<Operation>, c: nat)
    requires b.candidate == -1 && !mode.append && mode.workaround
    ensures ApplyAll(b, mode, ops).candidate == c <==> exists j :: SetBy(b, mode, ops, c, j)
    ensures ApplyAll(b, mode, ops).candidate >= -1
  {
    if ops != [] {
      var prefix, op := ops[..|ops| - 1], ops[|ops| - 1];
      var before := ApplyAll(b, mode, prefix);
      assert ops == prefix + [op];
      CandidateMeans(b, mode, prefix, c);
      if ApplyAll(b, mode, ops).candidate == c {
        if IssuedAtEnd(before, op) && op.offset == c {
          assert SetBy(b, mode, ops, c, |prefix|);
        } else {
          var j :| SetBy(b, mode, prefix, c, j);
          SetByExtends(b, mode, prefix, op, c, j);
        }
      }
      if j: nat :| SetBy(b, mode, ops, c, j) {
        if j < |prefix| { SetByShrinks(b, mode, prefix, op, c, j); }
      }
    }
  }

  // ------------------------------------------------------------- the handle

  /** The write was served at `at`: accepted exactly if it ends within the limit, and then zeros fill
      any gap and the patch lies over the old bytes. */
  ghost predicate ServedAt(was: Bytes, now: Bytes, errno: Errno, at: int, patch: Bytes, limit: nat) {
    if 0 <= at && at + |patch| <= limit then errno == Success && now == Overlay(was, at, patch)
    else errno == EFBIG && now == was
  }

  /** A write that is issued short of the end, at the recorded end offset, while another is under way. */
  predicate Stale(b: Buffer, offset: int, overlapping: bool) {
    overlapping && offset == b.candidate && offset < |b.bytes|
  }

  class OpenFile {
    const mode: Mode
    const writable: bool
    var data: Bytes
    var size: nat
    var candidate: int64
    var dirty: bool
    var released: bool

    /** A Go slice is shorter than 2^63, and an opened file was within the limit then in force. */
    ghost predicate Valid()
      reads this
    {
      && mode.limit <= MAX_INT64
      && |data| <= MAX_INT64
      && (writable ==> |data| <= mode.limit)
      && -1 <= candidate as int
    }

    ghost function State(): Buffer
      reads this
    {
      Buffer(data, candidate as int)
    }

    constructor (data: Bytes, mode: Mode, writable: bool, dirty: bool)
      requires |data| <= mode.limit <= MAX_INT64
      ensures Valid() && !released
      ensures this.mode == mode && this.writable == writable && this.dirty == dirty
      ensures State() == Buffer(data, -1)
    {
      this.data, this.mode, this.writable, this.dirty := data, mode, writable, dirty;
      this.size, this.candidate, this.released := |data|, -1, false;
    }

    /** Reads up to `count` bytes; past the end there is nothing to read. */
    method Read(count: nat, offset: int64) returns (result: Bytes, errno: Errno)
      requires Valid()
      ensures released ==> errno == EBADF && result == []
      ensures !released && offset < 0 ==> errno == EINVAL && result == []
      ensures !released && offset >= 0 ==>
        && errno == Success
        && (offset as int >= |data| ==> result == [])
        && (offset as int < |data| ==>
              && |result| == (if count < |data| - offset as int then count else |data| - offset as int)
              && result == data[offset as int..offset as int + |result|])
    {
      if released { return [], EBADF; }
      if offset < 0 { return [], EINVAL; }
      if offset >= |data| as int64 { return [], Success; }
      var available := data[offset as int..];
      result := if count < |available| then available[..count] else available;
      errno := Success;
    }

    /** Decides where a write is served, including the workaround for kernels that
        send concurrent appends with one stale offset. */
    method Place(offset: int64, overlapping: bool) returns (at: int64)
      requires Valid()
      modifies this`candidate
      ensures Valid()
      ensures (at as int, candidate as int) == Placement(old(State()), mode, offset as int, overlapping)
    {
      at := offset;
      if mode.append {
        at := |data| as int64;
      } else if mode.workaround {
        var current := |data| as int64;
        if overlapping && offset == candidate && offset < current {
          at := current;
        } else if offset == current {
          candidate := offset;
        } else {
          candidate := -1;
        }
      }
    }

    /** Grows the slice with zeros and copies the patch over it. */
    method Splice(at: nat, patch: Bytes)
      modifies this`data
      ensures data == Overlay(old(data), at, patch)
    {
      var end := at + |patch|;
      if end > |data| {
        data := data + Zeros(end - |data|);
      }
      data := data[..at] + patch + data[end..];
    }

    /** A write in 64-bit arithmetic agrees with the unbounded one: every wrap is caught. */
    method Write(patch: Bytes, offset: int64, overlapping: bool) returns (count: nat, errno: Errno)
      requires Valid() && |patch| <= MAX_INT64
      modifies this`data, this`size, this`candidate, this`dirty
      ensures Valid()
      ensures released || !writable ==> errno == EBADF && State() == old(State()) && dirty == old(dirty)
      ensures !released && writable ==>
        && (State(), errno) == Written(old(State()), mode, offset as int, patch, overlapping)
        && (errno == Success ==> count == |patch| && dirty && size == |data|)
        && (errno != Success ==> count == 0 && dirty == old(dirty) && size == old(size))
      ensures !released && writable ==>
        if mode.append || (mode.workaround && Stale(old(State()), offset as int, overlapping))
        then (if |old(data)| + |patch| <= mode.limit then errno == Success && data == old(data) + patch else errno == EFBIG && data == old(data))
        else ServedAt(old(data), data, errno, offset as int, patch, mode.limit)
      ensures candidate as int ==
        if released || !writable || mode.append || !mode.workaround || Stale(old(State()), offset as int, overlapping) then old(candidate) as int
        else if offset as int == |old(data)| then offset as int else -1
    {
      count, errno := 0, EBADF;
      if released || !writable { return; }
      var at := Place(offset, overlapping);
      if at < 0 || at as int > mode.limit { return 0, EFBIG; }
      var end := WrappingAdd(at, |patch| as int64);
      if end < at || end as int > mode.limit { return 0, EFBIG; }
      Splice(at as int, patch);
      if at as int == |old(data)| { OverlayAtEnd(old(data), patch); }
      size := |data|;
      dirty := true;
      count, errno := |patch|, Success;
    }

    /** Resizing through `SetAttributes`; the size comes in as an unsigned 64-bit number. */
    method SetSize(newSize: uint64) returns (errno: Errno)
      requires Valid()
      modifies this`data, this`size, this`dirty
      ensures Valid()
      ensures released || !writable ==> errno == EBADF && State() == old(State()) && dirty == old(dirty)
      ensures !released && writable ==>
        && State() == Apply(old(State()), mode, Resize(newSize as int))
        && errno == (if newSize as int > mode.limit then EFBIG else Success)
        && (errno == Success ==> dirty && size == |data| == newSize as int && data == Resized(old(data), newSize as int))
        && (errno != Success ==> data == old(data) && size == old(size) && dirty == old(dirty))
    {
      if released || !writable { return EBADF; }
      if newSize > mode.limit as uint64 { return EFBIG; }
      if newSize < |data| as uint64 {
        data := data[..newSize as int];
      } else if newSize > |data| as uint64 {
        data := data + Zeros(newSize as int - |data|);
      } else {
        assert data == Resized(data, newSize as int);
      }
      size := newSize as int;
      dirty := true;
      errno := Success;
    }

    /** The size test of `persistFile` under the limit in force at flush time. The
        limit cannot move while a writable handle is open, so only a read-only
        handle can ever be rejected. */
    method FlushIsTooLarge(currentLimit: nat) returns (tooLarge: bool)
      requires Valid() && (writable ==> currentLimit == mode.limit)
      ensures tooLarge <==> dirty && |data| > currentLimit
      ensures writable ==> !tooLarge
    {
      tooLarge := dirty && |data| > currentLimit;
    }
  }
}
