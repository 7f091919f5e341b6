/** The streaming parser of a long-lived shell's output: it hands out what a command printed between its
    start and end markers and reads the exit code. */
module ShellParser {
  import opened ShellScan

  datatype Markers = Markers(begin: string, end: string)

  predicate UsableMarkers(m: Markers) {
    m.begin != "" && m.end != ""
  }

  // out is everything handed to the echo filter so far, results what was sent on the done channel.
  datatype Parser = Parser(pending: string, started: bool, finished: bool, out: string, results: seq<int>)

  const FRESH := Parser("", false, false, "", [])

  function Keep(m: Markers): nat {
    |m.end| + CODE_BYTES
  }

  function Finish(p: Parser, code: int): Parser {
    if p.finished then p else p.(finished := true, results := p.results + [code])
  }

  // The loop of consume once the start marker has been seen.
  function Settle(m: Markers, p: Parser): Parser
    requires UsableMarkers(m)
    decreases |p.pending|
  {
    var end := FindEnd(p.pending, m.end);
    if end.Some? then
      Finish(p.(out := p.out + p.pending[..end.value.at], pending := ""), ExitCode(end.value.code))
    else if |p.pending| <= Keep(m) then p
    else
      var (emit, rest) := SplitForEmit(p.pending, Keep(m));
      if emit == "" then p else Settle(m, p.(out := p.out + emit, pending := rest))
  }

  function Drain(m: Markers, p: Parser): Parser
    requires UsableMarkers(m)
  {
    if p.started then Settle(m, p)
    else
      var idx := FindMarkerLine(p.pending, m.begin);
      if idx < 0 then p.(pending := KeepTail(p.pending, |m.begin|))
      else Settle(m, p.(pending := TrimBreaks(p.pending[idx + |m.begin|..]), started := true))
  }

  function Consume(m: Markers, p: Parser, chunk: string): Parser
    requires UsableMarkers(m)
  {
    if chunk == "" || p.finished then p else Drain(m, p.(pending := p.pending + chunk))
  }

  function ConsumeAll(m: Markers, chunks: seq<string>): Parser
    requires UsableMarkers(m)
  {
    if chunks == [] then FRESH else Consume(m, ConsumeAll(m, chunks[..|chunks| - 1]), chunks[|chunks| - 1])
  }

  function Concat(chunks: seq<string>): string {
    if chunks == [] then "" else Concat(chunks[..|chunks| - 1]) + chunks[|chunks| - 1]
  }

  lemma SplitJoins(value: string, keep: nat)
    ensures var (emit, rest) := SplitForEmit(value, keep);
      emit + rest == value && (emit != "" ==> |rest| < |value|)
  {
  }

  class LongShellCommand {
    const startMarker: string
    const endPrefix: string
    var startedOutput: bool
    var pending: string
    var finished: bool
    var out: string
    var results: seq<int>

    predicate Valid() {
      startMarker != "" && endPrefix != ""
    }

    function Marks(): Markers {
      Markers(startMarker, endPrefix)
    }

    function Abs(): Parser
      reads this
    {
      Parser(pending, startedOutput, finished, out, results)
    }

    constructor (id: string)
      ensures Valid() && Abs() == FRESH
      ensures startMarker == StartMarker(id) && endPrefix == EndPrefix(id)
    {
      startMarker := StartMarker(id);
      endPrefix := EndPrefix(id);
      startedOutput, pending, finished, out, results := false, "", false, "", [];
    }

    method FinishLocked(code: int)
      modifies this
      ensures Abs() == Finish(old(Abs()), code)
    {
      if finished {
        return;
      }
      finished := true;
      results := results + [code];
    }

    // The part of consume's loop before the start marker is seen.
    method SeekStart() returns (found: bool)
      requires Valid() && !startedOutput && !finished
      modifies this
      ensures found == startedOutput && !finished
      ensures if found then Settle(Marks(), Abs()) == Drain(Marks(), old(Abs())) else Abs() == Drain(Marks(), old(Abs()))
    {
      hide Settle, TrimBreaks, KeepTail;
      var idx := SearchMarkerLine(pending, startMarker);
      if idx < 0 {
        pending := KeepTail(pending, |startMarker|);
        return false;
      }
      pending := pending[idx + |startMarker|..];
      pending := TrimBreaks(pending);
      startedOutput := true;
      return true;
    }

    // The part of consume's loop after no end marker was found.
    method EmitLines() returns (more: bool)
      requires Valid() && startedOutput && !finished && FindEnd(pending, endPrefix).None?
      modifies this
      ensures startedOutput && !finished
      ensures if more then |pending| < old(|pending|) && Settle(Marks(), Abs()) == Settle(Marks(), old(Abs()))
              else Abs() == Settle(Marks(), old(Abs()))
    {
      hide FindEnd, SplitForEmit;
      var keep := |endPrefix| + CODE_BYTES;
      if |pending| <= keep {
        return false;
      }
      SplitJoins(pending, keep);
      var (emit, rest) := SplitForEmit(pending, keep);
      if emit == "" {
        return false;
      }
      pending := rest;
      out := out + emit;
      return true;
    }

    method ConsumeChunk(chunk: string)
      requires Valid()
      modifies this
      ensures Abs() == Consume(Marks(), old(Abs()), chunk)
    {
      if |chunk| == 0 || finished {
        return;
      }
      hide FindEnd, FindMarkerLine;
      pending := pending + chunk;
      ghost var target := Drain(Marks(), Abs());
      while true
        invariant !finished && Drain(Marks(), Abs()) == target
        decreases !startedOutput, |pending|
      {
        if !startedOutput {
          var found := SeekStart();
          if !found {
            return;
          }
        }
        var endIdx, codeText, ok := SearchEnd(pending, endPrefix);
        if endIdx >= 0 {
          out := out + pending[..endIdx];
          pending := "";
          FinishLocked(ExitCode(codeText));
          return;
        }
        var more := EmitLines();
        if !more {
          return;
        }
      }
    }
  }

  function StartMarker(id: string): string {
    "__MINDFS_CMD_START_" + id + "__"
  }

  function EndPrefix(id: string): string {
    "__MINDFS_CMD_END_" + id + "__:"
  }
}
