/** BigEndianReader and BigEndianWriter: cursors over a bounded part of a buffer. */
module BigEndianCursors {
  import opened Basics
  import opened BigEndian

  // ----- Cursors as values -----

  /** A buffer with a position in it and the end of the part that may be used. */
  datatype Cursor = Cursor(memory: seq<Byte>, ptr: nat, end: nat)

  predicate Bounded(c: Cursor) {
    c.ptr <= c.end <= |c.memory|
  }

  /** One call on a writer; a reader's call needs only its shape. */
  datatype Op =
    | Typed(format: Format, value: int)
    | Bytes(bytes: seq<Byte>)
    | Skip(len: nat)

  predicate Proper(op: Op) {
    op.Typed? ==> op.format.width > 0 && InRange(op.format, op.value)
  }

  function Size(op: Op): nat {
    match op
    case Typed(f, _) => f.width
    case Bytes(bytes) => |bytes|
    case Skip(len) => len
  }

  predicate Fits(c: Cursor, size: nat) {
    c.ptr + size <= c.end
  }

  function Advance(c: Cursor, size: nat): Cursor {
    if Fits(c, size) then c.(ptr := c.ptr + size) else c
  }

  function Stored(op: Op): seq<Byte>
    requires !op.Skip?
  {
    if op.Typed? then Digits(op.value, op.format.width) else op.bytes
  }

  function Put(c: Cursor, op: Op): (d: Cursor)
    requires Bounded(c)
    ensures Bounded(d) && |d.memory| == |c.memory| && d.end == c.end
  {
    if !Fits(c, Size(op)) || op.Skip? then Advance(c, Size(op))
    else Advance(c, Size(op)).(memory := Patch(c.memory, c.ptr, Stored(op)))
  }

  datatype Outcome = Failed | Integer(value: int) | Data(bytes: seq<Byte>) | Skipped

  /** What the writer was asked to leave behind. */
  function Written(c: Cursor, op: Op): Outcome {
    if !Fits(c, Size(op)) then Failed
    else match op
      case Typed(_, value) => Integer(value)
      case Bytes(bytes) => Data(bytes)
      case Skip(_) => Skipped
  }

  /** What a reader finds; it looks only at the shape of `op`. */
  function Get(c: Cursor, op: Op): Outcome
    requires Bounded(c) && Proper(op)
  {
    if !Fits(c, Size(op)) then Failed
    else match op
      case Typed(f, _) => Integer(Value(f, c.memory[c.ptr..c.ptr + f.width]))
      case Bytes(bytes) => Data(c.memory[c.ptr..c.ptr + |bytes|])
      case Skip(_) => Skipped
  }

  // ----- Runs -----

  function PutAll(c: Cursor, ops: seq<Op>): (d: Cursor)
    requires Bounded(c)
    ensures Bounded(d) && |d.memory| == |c.memory| && d.end == c.end
    decreases |ops|
  {
    if ops == [] then c else PutAll(Put(c, ops[0]), ops[1..])
  }

  function AllWritten(c: Cursor, ops: seq<Op>): seq<Outcome>
    requires Bounded(c)
    decreases |ops|
  {
    if ops == [] then [] else [Written(c, ops[0])] + AllWritten(Put(c, ops[0]), ops[1..])
  }

  function GetAll(c: Cursor, ops: seq<Op>): seq<Outcome>
    requires Bounded(c) && forall op :: op in ops ==> Proper(op)
    decreases |ops|
  {
    if ops == [] then [] else [Get(c, ops[0])] + GetAll(Advance(c, Size(ops[0])), ops[1..])
  }

  /** A run moves forward and leaves every byte alone that is not between its two positions. */
  lemma {:induction false} OutsideIsKept(c: Cursor, ops: seq<Op>)
    requires Bounded(c)
    ensures var d := PutAll(c, ops);
            && c.ptr <= d.ptr <= d.end
            && d.memory[..c.ptr] == c.memory[..c.ptr]
            && d.memory[d.ptr..] == c.memory[d.ptr..]
    decreases |ops|
  {
    if ops != [] {
      var e := Put(c, ops[0]);
      OneKeeps(c, ops[0]);
      OutsideIsKept(e, ops[1..]);
      var d := PutAll(e, ops[1..]);
      assert d.memory[..c.ptr] == d.memory[..e.ptr][..c.ptr];
      assert e.memory[..e.ptr][..c.ptr] == e.memory[..c.ptr];
      assert e.memory[e.ptr..][d.ptr - e.ptr..] == e.memory[d.ptr..];
      assert c.memory[e.ptr..][d.ptr - e.ptr..] == c.memory[d.ptr..];
    }
  }

  lemma OneKeeps(c: Cursor, op: Op)
    requires Bounded(c)
    ensures var e := Put(c, op);
            && c.ptr <= e.ptr && e.memory[..c.ptr] == c.memory[..c.ptr] && e.memory[e.ptr..] == c.memory[e.ptr..]
  {
  }

  /** Reading with the shapes of the writes, from where the writer started, finds what each write
      left: its value or its bytes, and a failure exactly where the write failed. */
  lemma {:induction false} ReadsWhatWasWritten(c: Cursor, ops: seq<Op>)
    requires Bounded(c) && forall op :: op in ops ==> Proper(op)
    ensures GetAll(c.(memory := PutAll(c, ops).memory), ops) == AllWritten(c, ops)
    decreases |ops|
  {
    if ops != [] {
      var op, e := ops[0], Put(c, ops[0]);
      var final := PutAll(e, ops[1..]).memory;
      ReadsWhatWasWritten(e, ops[1..]);
      OutsideIsKept(e, ops[1..]);
      ReadsOne(c, op, final);
      assert e.(memory := final) == Advance(c.(memory := final), Size(op));
    }
  }

  lemma PatchedPart(memory: seq<Byte>, at: nat, bytes: seq<Byte>, final: seq<Byte>)
    requires at + |bytes| <= |memory| == |final|
    requires final[..at + |bytes|] == Patch(memory, at, bytes)[..at + |bytes|]
    ensures final[at..at + |bytes|] == bytes
  {
    assert final[at..at + |bytes|] == final[..at + |bytes|][at..];
    assert Patch(memory, at, bytes)[..at + |bytes|][at..] == bytes;
  }

  lemma ReadsOne(c: Cursor, op: Op, final: seq<Byte>)
    requires Bounded(c) && Proper(op)
    requires |final| == |c.memory| && final[..Put(c, op).ptr] == Put(c, op).memory[..Put(c, op).ptr]
    ensures Get(c.(memory := final), op) == Written(c, op)
  {
    if Fits(c, Size(op)) && !op.Skip? {
      PatchedPart(c.memory, c.ptr, Stored(op), final);
      if op.Typed? {
        ValueOfDigits(op.format, op.value);
      }
    }
  }

  // ----- Calls that fail -----

  /** The calls of a run that do not fail. */
  function Accepted(c: Cursor, ops: seq<Op>): seq<Op>
    requires Bounded(c)
    decreases |ops|
  {
    if ops == [] then []
    else (if Written(c, ops[0]) == Failed then [] else [ops[0]]) + Accepted(Put(c, ops[0]), ops[1..])
  }

  function Successes(outcomes: seq<Outcome>): seq<Outcome> {
    if outcomes == [] then []
    else (if outcomes[0] == Failed then [] else [outcomes[0]]) + Successes(outcomes[1..])
  }

  /** Where a reader is after the same calls. */
  function AdvanceAll(c: Cursor, ops: seq<Op>): (d: Cursor)
    requires Bounded(c)
    ensures Bounded(d) && d.memory == c.memory && d.end == c.end
    decreases |ops|
  {
    if ops == [] then c else AdvanceAll(Advance(c, Size(ops[0])), ops[1..])
  }

  lemma WriteAgain(c: Cursor, op: Op, rest: seq<Op>)
    requires Bounded(c)
    ensures PutAll(c, [op] + rest) == PutAll(Put(c, op), rest)
    ensures AllWritten(c, [op] + rest) == [Written(c, op)] + AllWritten(Put(c, op), rest)
  {
    assert ([op] + rest)[1..] == rest;
  }

  /** A call of a writer that fails leaves no trace: without the failing calls a run ends in the same
      state, and no other call has another outcome. */
  lemma {:induction false} FailedWritesLeaveNoTrace(c: Cursor, ops: seq<Op>)
    requires Bounded(c)
    ensures PutAll(c, Accepted(c, ops)) == PutAll(c, ops)
    ensures AllWritten(c, Accepted(c, ops)) == Successes(AllWritten(c, ops))
    decreases |ops|
  {
    if ops != [] {
      var op, e := ops[0], Put(c, ops[0]);
      var later := Accepted(e, ops[1..]);
      FailedWritesLeaveNoTrace(e, ops[1..]);
      if Written(c, op) == Failed {
        assert [] + later == later && e == c;
        assert [] + Successes(AllWritten(e, ops[1..])) == Successes(AllWritten(e, ops[1..]));
      } else {
        WriteAgain(c, op, later);
      }
    }
  }

  lemma ReadAgain(c: Cursor, op: Op, rest: seq<Op>)
    requires Bounded(c) && Proper(op) && forall o :: o in rest ==> Proper(o)
    ensures AdvanceAll(c, [op] + rest) == AdvanceAll(Advance(c, Size(op)), rest)
    ensures GetAll(c, [op] + rest) == [Get(c, op)] + GetAll(Advance(c, Size(op)), rest)
  {
    assert ([op] + rest)[1..] == rest;
  }

  lemma {:induction false} AcceptedAreCalls(c: Cursor, ops: seq<Op>)
    requires Bounded(c)
    ensures forall op :: op in Accepted(c, ops) ==> op in ops
    decreases |ops|
  {
    if ops != [] {
      AcceptedAreCalls(Put(c, ops[0]), ops[1..]);
    }
  }

  lemma {:induction false} AcceptedByShape(c: Cursor, d: Cursor, ops: seq<Op>)
    requires Bounded(c) && Bounded(d) && c.ptr == d.ptr && c.end == d.end
    ensures Accepted(c, ops) == Accepted(d, ops)
    decreases |ops|
  {
    if ops != [] {
      AcceptedByShape(Put(c, ops[0]), Put(d, ops[0]), ops[1..]);
    }
  }

  /** The same for a reader. */
  lemma {:induction false} FailedReadsLeaveNoTrace(c: Cursor, ops: seq<Op>)
    requires Bounded(c) && forall op :: op in ops ==> Proper(op)
    ensures forall op :: op in Accepted(c, ops) ==> Proper(op)
    ensures AdvanceAll(c, Accepted(c, ops)) == AdvanceAll(c, ops)
    ensures GetAll(c, Accepted(c, ops)) == Successes(GetAll(c, ops))
    decreases |ops|
  {
    AcceptedAreCalls(c, ops);
    if ops != [] {
      var op, e := ops[0], Advance(c, Size(ops[0]));
      AcceptedByShape(Put(c, op), e, ops[1..]);
      var later := Accepted(e, ops[1..]);
      FailedReadsLeaveNoTrace(e, ops[1..]);
      if Get(c, op) == Failed {
        assert [] + later == later && e == c;
        assert [] + Successes(GetAll(e, ops[1..])) == Successes(GetAll(e, ops[1..]));
      } else {
        ReadAgain(c, op, later);
      }
    }
  }

  // ----- The classes -----

  const INT := Format(4, true)

  lemma RemainingFits(size: nat)
    requires size < 0x8000_0000
    ensures Convert(INT, size) == size
  {
    assert Pow(1) == 0x100 && Pow(2) == 0x1_0000 && Pow(3) == 0x100_0000 && Pow(4) == 0x1_0000_0000;
    ConvertIs(INT, size, size, 0);
  }

  class BigEndianReader {
    var buf: array<Byte>
    var ptr: nat
    var end: nat

    predicate Valid()
      reads this
    {
      ptr <= end <= buf.Length
    }

    function View(): Cursor
      reads this, buf
    {
      Cursor(buf[..], ptr, end)
    }

    constructor (buf: array<Byte>, at: nat, len: nat)
      requires at + len <= buf.Length
      ensures Valid() && this.buf == buf && ptr == at && end == at + len
    {
      this.buf, ptr, end := buf, at, at + len;
    }

    /** The number of bytes left, cast to a 32-bit int. */
    method Remaining() returns (remaining: int)
      requires Valid()
      ensures remaining == Convert(INT, end - ptr)
      ensures end - ptr < 0x8000_0000 ==> forall size: nat :: size <= remaining <==> Fits(View(), size)
    {
      if end - ptr < 0x8000_0000 {
        RemainingFits(end - ptr);
      }
      remaining := Convert(INT, end - ptr);
    }

    method Skip(len: nat) returns (ok: bool)
      requires Valid()
      modifies `ptr
      ensures Valid() && View() == Advance(old(View()), len)
      ensures ok == (old(ptr) + len <= end) && ptr == old(ptr) + if ok then len else 0
    {
      if ptr + len > end {
        return false;
      }
      ptr := ptr + len;
      return true;
    }

    method PeekBytes(len: nat) returns (ok: bool, out: seq<Byte>)
      requires Valid()
      ensures ok == (ptr + len <= end)
      ensures ok ==> out == buf[ptr..ptr + len]
    {
      if ptr + len > end {
        return false, [];
      }
      return true, buf[ptr..ptr + len];
    }

    method ReadBytes(len: nat) returns (ok: bool, out: seq<Byte>)
      requires Valid()
      modifies `ptr
      ensures Valid() && View() == Advance(old(View()), len)
      ensures ok == (old(ptr) + len <= end) && ptr == old(ptr) + if ok then len else 0
      ensures ok ==> out == old(buf[ptr..ptr + len])
    {
      if ptr + len > end {
        return false, [];
      }
      out := buf[ptr..ptr + len];
      ptr := ptr + len;
      ok := true;
    }

    method Peek(f: Format) returns (value: Option<int>)
      requires Valid() && f.width > 0
      ensures value == if Fits(View(), f.width) then Some(Value(f, buf[ptr..ptr + f.width])) else None
    {
      if ptr + f.width > end {
        return None;
      }
      var v := ReadBigEndian(buf, ptr, f);
      return Some(v);
    }

    method Read(f: Format) returns (value: Option<int>)
      requires Valid() && f.width > 0
      modifies `ptr
      ensures Valid() && View() == Advance(old(View()), f.width)
      ensures value.Some? == (old(ptr) + f.width <= end) && ptr == old(ptr) + if value.Some? then f.width else 0
      ensures value.Some? ==> value.value == Value(f, old(buf[ptr..ptr + f.width]))
    {
      if ptr + f.width > end {
        return None;
      }
      var v := ReadBigEndian(buf, ptr, f);
      ptr := ptr + f.width;
      return Some(v);
    }

    /** ReadUInt8 to ReadInt64: zero when too few bytes are left. */
    method ReadOrZero(f: Format) returns (value: int)
      requires Valid() && f.width > 0
      modifies `ptr
      ensures Valid() && View() == Advance(old(View()), f.width)
      ensures ptr == old(ptr) + if old(ptr) + f.width <= end then f.width else 0
      ensures value == if Fits(old(View()), f.width) then Value(f, old(buf[ptr..ptr + f.width])) else 0
    {
      var v := Read(f);
      return if v.Some? then v.value else 0;
    }
  }

  class BigEndianWriter {
    var buf: array<Byte>
    var ptr: nat
    var end: nat

    predicate Valid()
      reads this
    {
      ptr <= end <= buf.Length
    }

    function View(): Cursor
      reads this, buf
    {
      Cursor(buf[..], ptr, end)
    }

    constructor (buf: array<Byte>, at: nat, len: nat)
      requires at + len <= buf.Length
      ensures Valid() && this.buf == buf && ptr == at && end == at + len
    {
      this.buf, ptr, end := buf, at, at + len;
    }

    /** The number of bytes left, cast to a 32-bit int. */
    method Remaining() returns (remaining: int)
      requires Valid()
      ensures remaining == Convert(INT, end - ptr)
      ensures end - ptr < 0x8000_0000 ==> forall size: nat :: size <= remaining <==> Fits(View(), size)
    {
      if end - ptr < 0x8000_0000 {
        RemainingFits(end - ptr);
      }
      remaining := Convert(INT, end - ptr);
    }

    method Skip(len: nat) returns (ok: bool)
      requires Valid()
      modifies `ptr
      ensures Valid() && View() == Put(old(View()), Op.Skip(len))
      ensures ok == (old(ptr) + len <= end) && ptr == old(ptr) + if ok then len else 0
    {
      if ptr + len > end {
        return false;
      }
      ptr := ptr + len;
      return true;
    }

    method WriteBytes(bytes: seq<Byte>) returns (ok: bool)
      requires Valid()
      modifies `ptr, buf
      ensures Valid() && View() == Put(old(View()), Bytes(bytes))
      ensures ok == (old(ptr) + |bytes| <= end) && ptr == old(ptr) + if ok then |bytes| else 0
      ensures if ok then buf[old(ptr)..ptr] == bytes else buf[..] == old(buf[..])
    {
      if ptr + |bytes| > end {
        return false;
      }
      forall k | 0 <= k < |bytes| {
        buf[ptr + k] := bytes[k];
      }
      assert buf[..] == Patch(old(buf[..]), ptr, bytes);
      ptr := ptr + |bytes|;
      return true;
    }

    method Write(f: Format, value: int) returns (ok: bool)
      requires Valid() && f.width > 0
      modifies `ptr, buf
      ensures Valid() && View() == Put(old(View()), Typed(f, value))
      ensures ok == (old(ptr) + f.width <= end) && ptr == old(ptr) + if ok then f.width else 0
      ensures if ok then buf[old(ptr)..ptr] == Digits(value, f.width) else buf[..] == old(buf[..])
    {
      if ptr + f.width > end {
        return false;
      }
      WriteBigEndian(buf, ptr, f, value);
      ptr := ptr + f.width;
      return true;
    }
  }
}
