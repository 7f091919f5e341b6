/** The byte accounting of a running command's output: a persisted tail and a tail per flush cycle. */
module OutputLimiter {
  import opened SeqTools
  import opened ByteRing
  import opened Utf8Tail

  const PERSIST_TAIL_BYTES: nat := 64 * 1024
  const FLUSH_TAIL_BYTES: nat := 16 * 1024

  datatype Chunk = Chunk(text: seq<Byte>, skipped: nat)

  // The bytes of one cycle: dropped for size, handed out as text, and trimmed off the kept bytes to make that
  // text valid. The last two together are what the flush retained.
  datatype Flushed = Flushed(skipped: nat, handed: nat, trimmed: nat)

  function Accounted(flushes: seq<Flushed>): nat {
    if flushes == [] then 0
    else
      var last := flushes[|flushes| - 1];
      Accounted(flushes[..|flushes| - 1]) + last.skipped + last.handed + last.trimmed
  }

  lemma AccountOne(flushes: seq<Flushed>, f: Flushed)
    ensures Accounted(flushes + [f]) == Accounted(flushes) + f.skipped + f.handed + f.trimmed
  {
    assert (flushes + [f])[..|flushes|] == flushes;
  }

  // What a flush hands out for the bytes of one cycle.
  function FlushOf(cycle: seq<Byte>): Chunk {
    var kept := LastN(FLUSH_TAIL_BYTES, cycle);
    Chunk(Tail(kept), |cycle| - |kept|)
  }

  // Where the bytes of a cycle go when it is flushed.
  function Split(cycle: seq<Byte>): (f: Flushed)
    ensures f.skipped + f.handed + f.trimmed == |cycle|
  {
    var chunk := FlushOf(cycle);
    Flushed(chunk.skipped, |chunk.text|, |cycle| - chunk.skipped - |chunk.text|)
  }

  lemma EmptyFlush()
    ensures FlushOf([]) == Chunk([], 0) && LastN(FLUSH_TAIL_BYTES, []) == []
  {
  }

  /** A flush skips what exceeds 16 KiB; its text is a valid suffix of the cycle, and no valid suffix of what
      was kept is longer. */
  lemma FlushTextIsLongest(cycle: seq<Byte>, k: nat)
    requires FlushOf(cycle).skipped <= k <= |cycle| && Utf8Tail.Valid(cycle[k..])
    ensures var chunk, n := FlushOf(cycle), |cycle|;
      && chunk.skipped == (if n > FLUSH_TAIL_BYTES then n - FLUSH_TAIL_BYTES else 0)
      && Utf8Tail.Valid(chunk.text)
      && exists from :: chunk.skipped <= from <= k && chunk.text == cycle[from..]
  {
    var skipped := FlushOf(cycle).skipped;
    KeptIsSuffix(cycle);
    hide LastN, Utf8Tail.Valid, Start;
    var kept := cycle[skipped..];
    DropTwice(cycle, skipped, k - skipped);
    TailIsLongest(kept, k - skipped);
    DropTwice(cycle, skipped, Start(kept));
    assert FlushOf(cycle).text == cycle[skipped + Start(kept)..];
  }

  lemma KeptIsSuffix(cycle: seq<Byte>)
    ensures var n, skipped := |cycle|, FlushOf(cycle).skipped;
      && skipped == (if n > FLUSH_TAIL_BYTES then n - FLUSH_TAIL_BYTES else 0)
      && LastN(FLUSH_TAIL_BYTES, cycle) == cycle[skipped..]
  {
  }

  /** When the cycle ends a valid text, the flushed text is short of the kept bytes by at most three. */
  lemma FlushLosesAtMostThree(lost: seq<Byte>, cycle: seq<Byte>)
    requires Utf8Tail.Valid(lost + cycle)
    ensures |cycle| - FlushOf(cycle).skipped - |FlushOf(cycle).text| <= 3
  {
    KeptIsSuffix(cycle);
    hide LastN, Start, Utf8Tail.Valid;
    var skipped := FlushOf(cycle).skipped;
    var kept := cycle[skipped..];
    assert lost + cycle == (lost + cycle[..skipped]) + kept;
    DropsAtMostThree(lost + cycle[..skipped], kept);
  }

  /** A flush hands out text exactly when its cycle ends in a whole character. */
  lemma FlushTextIff(cycle: seq<Byte>)
    ensures FlushOf(cycle).text != [] <==> EndsWhole(cycle)
  {
    KeptIsSuffix(cycle);
    hide LastN, RuneLength;
    var skipped := FlushOf(cycle).skipped;
    var kept := cycle[skipped..];
    KeepsTextIff(kept);
    forall k | |cycle| - 4 <= k < |cycle| && k >= skipped ensures WholeFrom(cycle, k) <==> WholeFrom(kept, k - skipped) {
      DropTwice(cycle, skipped, k - skipped);
    }
    if EndsWhole(kept) {
      var k :| |kept| - 4 <= k < |kept| && WholeFrom(kept, k);
      assert WholeFrom(cycle, k + skipped);
    }
  }

  /** A cycle of at most 16 KiB that is cut inside a character is lost: the flush reports nothing and skips
      nothing, and every byte of the cycle is trimmed. */
  lemma CutCycleIsLost(cycle: seq<Byte>)
    requires |cycle| <= FLUSH_TAIL_BYTES && !EndsWhole(cycle)
    ensures FlushOf(cycle) == Chunk([], 0) && Split(cycle) == Flushed(0, 0, |cycle|)
  {
    FlushTextIff(cycle);
    KeptIsSuffix(cycle);
    hide EndsWhole, Tail;
  }

  class Limiter {
    var totalBytes: nat
    var cycleBytes: nat
    const tailRing: Ring
    const flushTail: Ring

    // Everything written, what of it came after the latest flush, and what every flush did.
    ghost var written: seq<Byte>
    ghost var cycle: seq<Byte>
    ghost var flushes: seq<Flushed>

    ghost predicate Valid()
      reads this, tailRing, flushTail, tailRing.buf, flushTail.buf
    {
      && tailRing != flushTail && tailRing.buf != flushTail.buf
      && tailRing.Valid() && flushTail.Valid()
      && tailRing.buf.Length == PERSIST_TAIL_BYTES && flushTail.buf.Length == FLUSH_TAIL_BYTES
      && totalBytes == |written| && cycleBytes == |cycle|
      && tailRing.Contents() == LastN(PERSIST_TAIL_BYTES, written)
      && flushTail.Contents() == LastN(FLUSH_TAIL_BYTES, cycle)
      && Accounted(flushes) + cycleBytes == totalBytes
    }

    constructor ()
      ensures Valid() && fresh(tailRing) && fresh(flushTail) && fresh(tailRing.buf) && fresh(flushTail.buf)
      ensures written == [] && cycle == [] && flushes == []
    {
      totalBytes, cycleBytes := 0, 0;
      tailRing := new Ring(PERSIST_TAIL_BYTES);
      flushTail := new Ring(FLUSH_TAIL_BYTES);
      written, cycle, flushes := [], [], [];
    }

    method Write(p: seq<Byte>)
      requires Valid()
      modifies this, tailRing, flushTail, tailRing.buf, flushTail.buf
      ensures Valid() && tailRing.buf == old(tailRing.buf) && flushTail.buf == old(flushTail.buf)
      ensures written == old(written) + p && cycle == old(cycle) + p && flushes == old(flushes)
    {
      hide LastN, Window, Accounted;
      if |p| == 0 {
        assert written + p == written && cycle + p == cycle;
        return;
      }
      LastNTwice(PERSIST_TAIL_BYTES, written, p);
      LastNTwice(FLUSH_TAIL_BYTES, cycle, p);
      totalBytes := totalBytes + |p|;
      cycleBytes := cycleBytes + |p|;
      tailRing.Write(p);
      flushTail.Write(p);
      written, cycle := written + p, cycle + p;
    }

    method Flush() returns (chunk: Chunk, ok: bool)
      requires Valid()
      modifies this, flushTail
      ensures Valid() && written == old(written) && cycle == []
      ensures chunk == FlushOf(old(cycle)) && ok == (chunk.text != [] || chunk.skipped > 0)
      ensures ok <==> |old(cycle)| > FLUSH_TAIL_BYTES || EndsWhole(old(cycle))
      ensures flushes == if old(cycle) == [] then old(flushes) else old(flushes) + [Split(old(cycle))]
    {
      EmptyFlush();
      FlushTextIff(cycle);
      hide LastN, Window, Tail, EndsWhole;
      if cycleBytes == 0 {
        return Chunk([], 0), false;
      }
      var textBytes := flushTail.Bytes();
      var skipped := cycleBytes - |textBytes|;
      var text := ValidUTF8Tail(textBytes);
      chunk := Chunk(text, skipped);
      flushTail.Reset();
      AccountOne(flushes, Split(cycle));
      flushes := flushes + [Split(cycle)];
      cycleBytes, cycle := 0, [];
      ok := chunk.text != [] || skipped > 0;
    }

    method PersistedTail() returns (tail: seq<Byte>)
      requires Valid()
      ensures tail == Tail(LastN(PERSIST_TAIL_BYTES, written))
    {
      var bytes := tailRing.Bytes();
      tail := ValidUTF8Tail(bytes);
    }

    method TailBytes() returns (n: nat)
      requires Valid()
      ensures n == if totalBytes < PERSIST_TAIL_BYTES then totalBytes else PERSIST_TAIL_BYTES
    {
      var bytes := tailRing.Bytes();
      n := |bytes|;
    }
  }
}
