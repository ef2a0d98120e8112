/** The diagnostic file of a command: internal/environment/diagnostics.go. Complete lines are redacted
    and written; an over-long line is replaced by one marker, however it arrives. */
module DiagnosticLog {
  import opened Text
  import opened Lines

  const MAX_LINE: nat := 0x1_0000
  const MAX_BYTES: nat := 0x40_0000

  function LineMarker(): string { "[TRUNCATED: diagnostic line limit]\n" }

  function OutputMarker(): string { "[TRUNCATED: diagnostic output limit]\n" }

  /** The file, the line being collected, whether its rest is being dropped. */
  datatype State = State(file: string, pending: string, dropping: bool)

  // ----- one byte at a time -----

  function FeedByte(st: State, c: char, redact: string -> string): State {
    var kept :=
      if st.dropping then st
      else if |st.pending| + 1 > MAX_LINE then State(st.file + LineMarker(), "", true)
      else State(st.file, st.pending + [c], false);
    if c != '\n' then kept
    else State(if kept.dropping then kept.file else kept.file + redact(kept.pending), "", false)
  }

  function Stepper(redact: string -> string): (State, char) -> State {
    (st, c) => FeedByte(st, c, redact)
  }

  function Feed(st: State, data: string, redact: string -> string): State {
    Fold(st, data, Stepper(redact))
  }

  lemma FeedJoin(st: State, a: string, b: string, redact: string -> string)
    ensures Feed(st, a + b, redact) == Feed(Feed(st, a, redact), b, redact)
  {
    FoldJoin(st, a, b, Stepper(redact));
  }

  function Collected(st: State, piece: string): State {
    if st.dropping || piece == "" then st
    else if |st.pending| + |piece| > MAX_LINE then State(st.file + LineMarker(), "", true)
    else State(st.file, st.pending + piece, false)
  }

  lemma {:induction false} FeedPiece(st: State, piece: string, redact: string -> string)
    requires '\n' !in piece
    ensures Feed(st, piece, redact) == Collected(st, piece)
    decreases |piece|
  {
    if piece != "" {
      var next := FeedByte(st, piece[0], redact);
      FeedPiece(next, piece[1..], redact);
      assert st.pending + piece == (st.pending + [piece[0]]) + piece[1..];
    }
  }

  /** A line end writes the line, or ends the dropping of an over-long one. */
  function LineEnded(st: State, redact: string -> string): State {
    State(if st.dropping then st.file else st.file + redact(st.pending), "", false)
  }

  lemma FeedLine(st: State, piece: string, redact: string -> string)
    requires '\n' !in piece && |st.pending| <= MAX_LINE
    ensures Feed(st, piece + "\n", redact) == LineEnded(Collected(st, piece + "\n"), redact)
  {
    hide LineMarker;
    FeedPiece(st, piece, redact);
    FeedJoin(st, piece, "\n", redact);
    FeedNewline(Collected(st, piece), redact);
    hide Feed, LineEnded;
    CollectedJoin(st, piece);
  }

  lemma FeedNewline(st: State, redact: string -> string)
    ensures Feed(st, "\n", redact) == LineEnded(Collected(st, "\n"), redact)
  {
    hide LineMarker;
    assert "\n"[1..] == "";
    assert Feed(st, "\n", redact) == FeedByte(st, '\n', redact);
  }

  lemma CollectedJoin(st: State, piece: string)
    requires |st.pending| <= MAX_LINE
    ensures Collected(Collected(st, piece), "\n") == Collected(st, piece + "\n")
  {
    hide LineMarker;
    if !st.dropping {
      assert (st.pending + piece) + "\n" == st.pending + (piece + "\n");
      if piece == "" { assert piece + "\n" == "\n"; }
    }
  }

  // ----- the stream as a whole, line by line -----

  /** What becomes of one line. */
  function Shown(line: string, redact: string -> string): string {
    if |line| > MAX_LINE then LineMarker() else redact(line)
  }

  function ShownAll(lines: seq<string>, redact: string -> string): string
    decreases |lines|
  {
    if lines == [] then "" else Shown(lines[0], redact) + ShownAll(lines[1..], redact)
  }

  /** `Close`. */
  function Final(st: State, redact: string -> string): string {
    if !st.dropping && st.pending != "" then st.file + redact(st.pending) else st.file
  }

  /** Byte by byte or line by line: the file shows the lines one after the other, each over-long one
      replaced by exactly one marker. */
  lemma {:induction false} FeedShowsLines(data: string, file: string, redact: string -> string)
    ensures Final(Feed(State(file, "", false), data, redact), redact) ==
      file + ShownAll(LineList(Split(data, '\n')), redact)
    decreases |data|
  {
    hide LineMarker, Feed, Final, Shown, LineEnded, Collected;
    if '\n' !in data {
      SplitWhole(data, '\n');
      LastLine(data, file, redact);
    } else {
      var i := FirstNewline(data);
      var line, rest := data[..i], data[i + 1..];
      assert data == line + "\n" + rest && data == line + ['\n'] + rest;
      SplitFirst(line, rest, '\n');
      FeedJoin(State(file, "", false), line + "\n", rest, redact);
      WholeLine(line, file, redact);
      var next := file + Shown(line + "\n", redact);
      FeedShowsLines(rest, next, redact);
      assert ([line] + Split(rest, '\n'))[1..] == Split(rest, '\n');
      var lines := LineList(Split(data, '\n'));
      assert lines[0] == line + "\n" && lines[1..] == LineList(Split(rest, '\n'));
      assert next + ShownAll(lines[1..], redact) == file + (Shown(lines[0], redact) + ShownAll(lines[1..], redact));
    }
  }

  lemma WholeLine(line: string, file: string, redact: string -> string)
    requires '\n' !in line
    ensures Feed(State(file, "", false), line + "\n", redact) == State(file + Shown(line + "\n", redact), "", false)
  {
    hide LineMarker;
    FeedLine(State(file, "", false), line, redact);
    assert "" + (line + "\n") == line + "\n";
  }

  lemma LastLine(line: string, file: string, redact: string -> string)
    requires '\n' !in line
    ensures Final(Feed(State(file, "", false), line, redact), redact) == file + ShownAll(LineList([line]), redact)
  {
    hide LineMarker;
    FeedPiece(State(file, "", false), line, redact);
    if line == "" {
      assert file + "" == file;
    } else {
      assert "" + line == line && [line][1..] == [];
      assert Shown(line, redact) + "" == Shown(line, redact);
    }
  }

  // ----- the log -----

  class Log {
    const redact: string -> string
    var file: string
    var pending: string
    var received: nat
    var dropping: bool
    var truncated: bool
    var closed: bool

    constructor (redact: string -> string)
      ensures Valid() && St() == State("", "", false) && received == 0 && !truncated && !closed && this.redact == redact
    {
      this.redact := redact;
      file, pending, received, dropping, truncated, closed := "", "", 0, false, false, false;
    }

    ghost function St(): State
      reads this
    {
      State(file, pending, dropping)
    }

    ghost predicate Valid()
      reads this
    {
      received <= MAX_BYTES && |pending| <= MAX_LINE && (dropping || closed ==> pending == "")
    }

    /** `Write`: a chunk is the same as its bytes one after the other. The chunk that exceeds the total
        is replaced by one marker and everything after it is ignored. */
    method Write(data: string) returns (ok: bool)
      requires Valid()
      modifies this
      ensures Valid() && closed == old(closed) && ok == !closed
      ensures old(closed) || old(truncated) ==>
        St() == old(St()) && received == old(received) && truncated == old(truncated)
      ensures !old(closed) && !old(truncated) ==>
        if |data| > MAX_BYTES - old(received)
        then truncated && St() == State(old(file) + OutputMarker(), "", old(dropping)) && received == old(received)
        else !truncated && St() == Feed(old(St()), data, redact) && received == old(received) + |data|
    {
      hide LineMarker, OutputMarker;
      if closed {
        return false;
      }
      ok := true;
      if truncated { return; }
      if |data| > MAX_BYTES - received {
        truncated := true;
        pending := "";
        file := file + OutputMarker();
        return;
      }
      received := received + |data|;
      ghost var entry := St();
      var left := data;
      while left != ""
        invariant Valid() && closed == old(closed) && !truncated && received == old(received) + |data|
        invariant Feed(St(), left, redact) == Feed(entry, data, redact)
        decreases |left|
      {
        ghost var before := St();
        var i := FirstNewline(left);
        var end := if i < |left| then i + 1 else |left|;
        assert left == left[..end] + left[end..];
        FeedJoin(before, left[..end], left[end..], redact);
        TakeFeeds(before, left, end, redact);
        if !dropping {
          if |pending| + end > MAX_LINE {
            pending := "";
            dropping := true;
            file := file + LineMarker();
          } else {
            pending := pending + left[..end];
          }
        }
        if end == i + 1 {
          if !dropping {
            file := file + redact(pending);
          }
          pending := "";
          dropping := false;
        }
        left := left[end..];
      }
    }

    /** `Close`. */
    method Close()
      requires Valid()
      modifies this
      ensures Valid() && closed && pending == ""
      ensures file == if old(closed) then old(file) else Final(old(St()), redact)
      ensures received == old(received) && truncated == old(truncated)
    {
      if closed { return; }
      if !dropping && |pending| > 0 {
        file := file + redact(pending);
      }
      pending := "";
      closed := true;
    }

    /** A command's whole output, cut into writes in any way: the file depends on the output alone. */
    method Collect(chunks: seq<string>)
      requires Valid() && St() == State("", "", false) && received == 0 && !truncated && !closed
      requires |Concat(chunks)| <= MAX_BYTES
      modifies this
      ensures file == ShownAll(LineList(Split(Concat(chunks), '\n')), redact)
    {
      var done := "";
      for i := 0 to |chunks|
        invariant Valid() && !closed && !truncated && done + Concat(chunks[i..]) == Concat(chunks)
        invariant St() == Feed(State("", "", false), done, redact) && received == |done|
      {
        assert chunks[i..][0] == chunks[i] && chunks[i..][1..] == chunks[i + 1..];
        assert done + Concat(chunks[i..]) == done + chunks[i] + Concat(chunks[i + 1..]);
        FeedJoin(State("", "", false), done, chunks[i], redact);
        var ok := Write(chunks[i]);
        done := done + chunks[i];
      }
      assert chunks[|chunks|..] == [] && done + "" == done;
      FeedShowsLines(done, "", redact);
      assert forall s: string :: "" + s == s;
      Close();
    }
  }

  /** What one round of `Write` amounts to. */
  lemma TakeFeeds(st: State, left: string, end: nat, redact: string -> string)
    requires left != "" && |st.pending| <= MAX_LINE
    requires end == if FirstNewline(left) < |left| then FirstNewline(left) + 1 else |left|
    ensures Feed(st, left[..end], redact) ==
      if end == FirstNewline(left) + 1 then LineEnded(Collected(st, left[..end]), redact) else Collected(st, left[..end])
  {
    hide Feed, FirstNewline, Collected, LineEnded;
    var i := FirstNewline(left);
    if i < |left| {
      assert left[..end] == left[..i] + "\n";
      FeedLine(st, left[..i], redact);
    } else {
      assert left[..end] == left && left[..i] == left;
      FeedPiece(st, left, redact);
    }
  }
}
