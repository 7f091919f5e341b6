/** A fixed-size byte buffer that keeps the end of what was written to it. */
module ByteRing {
  type Byte = b: int | 0 <= b < 256

  // The last n elements, or all of them when there are fewer.
  function LastN(n: nat, s: seq<Byte>): (r: seq<Byte>)
    ensures |r| == Min(n, |s|)
  {
    if |s| <= n then s else s[|s| - n..]
  }

  // Go's copy(buf[at:], p[from:]): as much as fits.
  function Fits(size: nat, at: nat, p: seq<Byte>, from: nat): nat
    requires at <= size && from <= |p|
  {
    Min(size - at, |p| - from)
  }

  function Copied(b: seq<Byte>, at: nat, p: seq<Byte>, from: nat): (c: seq<Byte>)
    requires at <= |b| && from <= |p|
    ensures |c| == |b|
  {
    var n := Fits(|b|, at, p, from);
    b[..at] + p[from..from + n] + b[at + n..]
  }

  class Ring {
    var buf: array<Byte>
    var pos: nat
    var full: bool

    ghost predicate Valid()
      reads this
    {
      pos < buf.Length
    }

    ghost function Contents(): (s: seq<Byte>)
      requires Valid()
      reads this, buf
    {
      Window(buf[..], pos, full)
    }

    constructor (size: int)
      ensures Valid() && fresh(buf) && buf.Length == (if size <= 0 then 1 else size) && Contents() == []
    {
      var length := if size <= 0 then 1 else size;
      buf := new Byte[length](_ => 0);
      pos, full := 0, false;
    }

    method CopyIn(at: nat, p: seq<Byte>, from: nat) returns (n: nat)
      requires Valid() && at <= buf.Length && from <= |p|
      modifies buf
      ensures n == Fits(buf.Length, at, p, from) && buf[..] == Copied(old(buf[..]), at, p, from)
    {
      n := Fits(buf.Length, at, p, from);
      forall i | 0 <= i < n {
        buf[at + i] := p[from + i];
      }
    }

    method Write(p: seq<Byte>)
      requires Valid()
      modifies this`pos, this`full, buf
      ensures Valid() && buf == old(buf)
      ensures Contents() == LastN(buf.Length, old(Contents()) + p)
    {
      hide LastN, Copied, Window;
      if |p| == 0 {
        EmptyWrite(buf[..], pos, full);
        return;
      }
      if |p| >= buf.Length {
        LongWrite(buf[..], pos, full, p);
        var _ := CopyIn(0, p, |p| - buf.Length);
        pos, full := 0, true;
        return;
      }
      ShortWrite(buf[..], pos, full, p);
      var n := CopyIn(pos, p, 0);
      if n < |p| {
        var _ := CopyIn(0, p, n);
        full := true;
      }
      pos := (pos + |p|) % buf.Length;
      if pos == 0 {
        full := true;
      }
    }

    method Bytes() returns (s: seq<Byte>)
      requires Valid()
      ensures s == Contents()
    {
      if !full {
        return buf[..pos];
      }
      s := buf[pos..];
      s := s + buf[..pos];
    }

    method Reset()
      requires Valid()
      modifies this`pos, this`full
      ensures Valid() && buf == old(buf) && Contents() == []
    {
      pos, full := 0, false;
    }

    method SetLimit(size: int)
      requires Valid()
      modifies this, buf
      ensures Valid() && (buf == old(buf) || fresh(buf))
      ensures buf.Length == if size <= 0 then old(buf.Length) else size
      ensures Contents() == if size <= 0 then old(Contents()) else LastN(size, old(Contents()))
    {
      if size <= 0 || size == buf.Length {
        return;
      }
      var current := Bytes();
      buf := new Byte[size](_ => 0);
      pos, full := 0, false;
      Write(current);
      assert [] + current == current;
    }
  }

  function Window(b: seq<Byte>, pos: nat, full: bool): seq<Byte>
    requires pos <= |b|
  {
    if full then b[pos..] + b[..pos] else b[..pos]
  }

  // A write that ends before the end of the buffer.
  lemma WriteInside(b: seq<Byte>, pos: nat, full: bool, p: seq<Byte>)
    requires pos < |b| && pos + |p| < |b|
    ensures Window(Copied(b, pos, p, 0), pos + |p|, full) == LastN(|b|, Window(b, pos, full) + p)
  {
    var b', pos' := Copied(b, pos, p, 0), pos + |p|;
    assert b'[..pos'] == b[..pos] + p;
    assert b'[pos'..] == b[pos'..];
    if full {
      assert (b[pos..] + b[..pos] + p)[|p|..] == b[pos'..] + (b[..pos] + p);
    }
  }

  // A write that ends with the buffer.
  lemma WriteToEnd(b: seq<Byte>, pos: nat, full: bool, p: seq<Byte>)
    requires pos < |b| && pos + |p| == |b|
    ensures Window(Copied(b, pos, p, 0), 0, true) == LastN(|b|, Window(b, pos, full) + p)
  {
    assert Copied(b, pos, p, 0) == b[..pos] + p;
    if full {
      assert (b[pos..] + b[..pos] + p)[|p|..] == b[..pos] + p;
    }
  }

  // A write that goes on from the start of the buffer.
  lemma WriteAround(b: seq<Byte>, pos: nat, full: bool, p: seq<Byte>)
    requires pos < |b| && |p| < |b| && pos + |p| > |b|
    ensures Window(Copied(Copied(b, pos, p, 0), 0, p, |b| - pos), pos + |p| - |b|, true) ==
            LastN(|b|, Window(b, pos, full) + p)
  {
    var room, pos' := |b| - pos, pos + |p| - |b|;
    var b' := Copied(Copied(b, pos, p, 0), 0, p, room);
    CopiedTwice(b, pos, p);
    OldPart(b, pos, full, p);
    hide Copied, LastN;
    Rejoin(p[room..], b[pos'..pos], p[..room]);
    assert p[..room] + p[room..] == p;
  }

  lemma Rejoin(end: seq<Byte>, kept: seq<Byte>, start: seq<Byte>)
    requires end != []
    ensures Window(end + (kept + start), |end|, true) == kept + (start + end)
  {
    var b := end + (kept + start);
    assert b[|end|..] == kept + start && b[..|end|] == end;
  }

  lemma CopiedTwice(b: seq<Byte>, pos: nat, p: seq<Byte>)
    requires pos < |b| && |p| < |b| && pos + |p| > |b|
    ensures var room, pos' := |b| - pos, pos + |p| - |b|;
      Copied(Copied(b, pos, p, 0), 0, p, room) == p[room..] + (b[pos'..pos] + p[..room])
  {
    var room, pos' := |b| - pos, pos + |p| - |b|;
    var mid := Copied(b, pos, p, 0);
    assert mid == b[..pos] + p[..room];
    assert Copied(mid, 0, p, room) == p[room..] + mid[pos'..];
  }

  lemma OldPart(b: seq<Byte>, pos: nat, full: bool, p: seq<Byte>)
    requires pos < |b| && |p| < |b| && pos + |p| > |b|
    ensures LastN(|b|, Window(b, pos, full) + p) == b[pos + |p| - |b|..pos] + p
  {
    var pos' := pos + |p| - |b|;
    if full {
      assert (b[pos..] + b[..pos] + p)[|p|..] == b[pos'..pos] + p;
    } else {
      assert (b[..pos] + p)[pos'..] == b[pos'..pos] + p;
    }
  }

  lemma EmptyWrite(b: seq<Byte>, pos: nat, full: bool)
    requires pos < |b|
    ensures LastN(|b|, Window(b, pos, full) + []) == Window(b, pos, full)
  {
  }

  lemma LongEnd(n: nat, s: seq<Byte>, p: seq<Byte>)
    requires |p| >= n
    ensures LastN(n, s + p) == p[|p| - n..]
  {
  }

  lemma LongWrite(b: seq<Byte>, pos: nat, full: bool, p: seq<Byte>)
    requires pos < |b| <= |p|
    ensures Window(Copied(b, 0, p, |p| - |b|), 0, true) == LastN(|b|, Window(b, pos, full) + p)
  {
    var w, from := Window(b, pos, full), |p| - |b|;
    assert Copied(b, 0, p, from) == p[from..];
    hide Copied;
    assert Window(p[from..], 0, true) == p[from..];
    hide Window;
    LongEnd(|b|, w, p);
  }

  lemma Wrapped(pos: nat, n: nat, size: nat)
    requires pos < size && n < size
    ensures (pos + n) % size == if pos + n < size then pos + n else pos + n - size
  {
  }

  // What Write leaves for a write shorter than the buffer.
  lemma ShortWrite(b: seq<Byte>, pos: nat, full: bool, p: seq<Byte>)
    requires pos < |b| && 0 < |p| < |b|
    ensures var n, pos' := Fits(|b|, pos, p, 0), (pos + |p|) % |b|;
      var b' := if n < |p| then Copied(Copied(b, pos, p, 0), 0, p, n) else Copied(b, pos, p, 0);
      Window(b', pos', full || n < |p| || pos' == 0) == LastN(|b|, Window(b, pos, full) + p)
  {
    Wrapped(pos, |p|, |b|);
    hide Copied, Window, LastN;
    if pos + |p| < |b| {
      WriteInside(b, pos, full, p);
    } else if pos + |p| == |b| {
      WriteToEnd(b, pos, full, p);
    } else {
      WriteAround(b, pos, full, p);
    }
  }

  // ---- the sequence model over whole histories ----

  datatype RingOp = WriteOp(p: seq<Byte>) | ResetOp | LimitOp(size: int)

  datatype Model = Model(limit: nat, data: seq<Byte>)

  function Apply(m: Model, op: RingOp): Model {
    match op
    case WriteOp(p) => m.(data := LastN(m.limit, m.data + p))
    case ResetOp => m.(data := [])
    case LimitOp(size) => if size <= 0 then m else Model(size, LastN(size, m.data))
  }

  function ApplyAll(m: Model, ops: seq<RingOp>): Model {
    if ops == [] then m else Apply(ApplyAll(m, ops[..|ops| - 1]), ops[|ops| - 1])
  }

  // Everything written since the last reset.
  function Since(ops: seq<RingOp>): seq<Byte> {
    if ops == [] then []
    else
      var before := Since(ops[..|ops| - 1]);
      match ops[|ops| - 1]
      case WriteOp(p) => before + p
      case ResetOp => []
      case LimitOp(_) => before
  }

  // How many of those bytes are left, counted from the sizes of the writes and the limits alone.
  function Fill(limit: nat, ops: seq<RingOp>): (n: nat)
    ensures n <= LimitAfter(limit, ops)
  {
    if ops == [] then 0
    else
      var before := Fill(limit, ops[..|ops| - 1]);
      match ops[|ops| - 1]
      case WriteOp(p) => Min(LimitAfter(limit, ops), before + |p|)
      case ResetOp => 0
      case LimitOp(_) => Min(LimitAfter(limit, ops), before)
  }

  function Min(a: nat, b: nat): nat {
    if a < b then a else b
  }

  function LimitAfter(limit: nat, ops: seq<RingOp>): nat {
    if ops == [] then limit
    else
      var op := ops[|ops| - 1];
      if op.LimitOp? && op.size > 0 then op.size else LimitAfter(limit, ops[..|ops| - 1])
  }

  lemma LastNOfLastN(n: nat, m: nat, s: seq<Byte>, p: seq<Byte>)
    ensures LastN(n, LastN(m, s) + p) == LastN(Min(n, Min(m, |s|) + |p|), s + p)
  {
    var drop := |s| - Min(m, |s|);
    assert LastN(m, s) == s[drop..];
    assert s[drop..] + p == (s + p)[drop..];
  }

  lemma LastNTwice(n: nat, s: seq<Byte>, p: seq<Byte>)
    ensures LastN(n, LastN(n, s) + p) == LastN(n, s + p)
  {
    LastNOfLastN(n, n, s, p);
  }

  /** After any writes, resets and limit changes the buffer is a suffix of what was written since the last
      reset, and its length follows from the sizes of the writes and the limits alone. */
  lemma {:induction false} HistorySuffix(limit: nat, ops: seq<RingOp>)
    ensures var m := ApplyAll(Model(limit, []), ops);
      && m.limit == LimitAfter(limit, ops)
      && m.data == LastN(Fill(limit, ops), Since(ops))
      && |m.data| == Fill(limit, ops) <= |Since(ops)|
  {
    if ops != [] {
      var before := ops[..|ops| - 1];
      HistorySuffix(limit, before);
      var s, k := Since(before), Fill(limit, before);
      hide LastN;
      match ops[|ops| - 1]
      case WriteOp(p) => LastNOfLastN(LimitAfter(limit, ops), k, s, p);
      case ResetOp =>
      case LimitOp(size) =>
        LastNOfLastN(LimitAfter(limit, ops), k, s, []);
        assert s + [] == s && LastN(k, s) + [] == LastN(k, s);
    }
  }

  predicate NoLimitChange(ops: seq<RingOp>) {
    forall op | op in ops :: !op.LimitOp?
  }

  /** Without limit changes the buffer holds the last `limit` bytes written since the last reset. */
  lemma {:induction false} LastBytesWritten(limit: nat, ops: seq<RingOp>)
    requires NoLimitChange(ops)
    ensures ApplyAll(Model(limit, []), ops) == Model(limit, LastN(limit, Since(ops)))
  {
    if ops != [] {
      var before := ops[..|ops| - 1];
      LastBytesWritten(limit, before);
      assert LastN(limit, []) == [];
      hide LastN;
      if ops[|ops| - 1].WriteOp? {
        LastNTwice(limit, Since(before), ops[|ops| - 1].p);
      }
    }
  }
}
