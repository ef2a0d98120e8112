/** Line-buffered publication of a provider's error stream: internal/invocation/stderr.go. Bytes are
    characters; `redact` stands for the conversion to valid text and the redaction of one line, and
    `writable(n)` for whether record n can be stored. */
module StderrLog {
  import opened Ordering
  import opened Text
  import opened Lines

  const MAX_LINE: nat := 0x1_0000
  const MAX_BYTES: nat := 0x40_0000
  const MAX_RECORDS: nat := 16384

  datatype Failure = TotalLimit | LineLimit | CountLimit | Storage(record: nat) | Other(reason: string)

  /** What the log is for: published records, the line being collected, the failure that ended it. */
  datatype State = State(records: seq<string>, pending: string, err: Option<Failure>)

  datatype Sink = Sink(redact: string -> string, writable: nat -> bool)

  function Fails(st: State, f: Failure): State {
    State(st.records, "", Some(f))
  }

  /** Publishing the collected line, if there is one. */
  function Published(st: State, k: Sink): State {
    if st.pending == "" then st
    else if |st.records| >= MAX_RECORDS then Fails(st, CountLimit)
    else if !k.writable(|st.records| + 1) then Fails(st, Storage(|st.records| + 1))
    else State(st.records + [k.redact(st.pending)], "", None)
  }

  // ----- one byte at a time -----

  function FeedByte(st: State, c: char, k: Sink): State {
    if st.err.Some? then st
    else if |st.pending| + 1 > MAX_LINE then Fails(st, LineLimit)
    else
      var next := State(st.records, st.pending + [c], None);
      if c == '\n' then Published(next, k) else next
  }

  function Stepper(k: Sink): (State, char) -> State {
    (st, c) => FeedByte(st, c, k)
  }

  function Feed(st: State, data: string, k: Sink): State {
    Fold(st, data, Stepper(k))
  }

  lemma FeedJoin(st: State, a: string, b: string, k: Sink)
    ensures Feed(st, a + b, k) == Feed(Feed(st, a, k), b, k)
  {
    FoldJoin(st, a, b, Stepper(k));
  }

  lemma {:induction false} FeedFailed(st: State, data: string, k: Sink)
    requires st.err.Some?
    ensures Feed(st, data, k) == st
    decreases |data|
  {
    if data != "" {
      FeedFailed(st, data[1..], k);
    }
  }

  /** A piece of a line is collected, unless the line gets too long. */
  lemma {:induction false} FeedPiece(st: State, piece: string, k: Sink)
    requires st.err.None? && '\n' !in piece
    ensures Feed(st, piece, k) ==
      if |st.pending| + |piece| > MAX_LINE && piece != "" then Fails(st, LineLimit)
      else State(st.records, st.pending + piece, None)
    decreases |piece|
  {
    if piece == "" {
      assert st.pending + piece == st.pending;
    } else if |st.pending| + 1 > MAX_LINE {
      FeedFailed(Fails(st, LineLimit), piece[1..], k);
    } else {
      var next := FeedByte(st, piece[0], k);
      FeedPiece(next, piece[1..], k);
      assert st.pending + piece == next.pending + piece[1..];
    }
  }

  /** The end of a line publishes it, unless it is too long. */
  lemma FeedLine(st: State, piece: string, k: Sink)
    requires st.err.None? && '\n' !in piece
    ensures Feed(st, piece + "\n", k) ==
      if |st.pending| + |piece| + 1 > MAX_LINE then Fails(st, LineLimit)
      else Published(State(st.records, st.pending + piece + "\n", None), k)
  {
    FeedPiece(st, piece, k);
    FeedJoin(st, piece, "\n", k);
    var mid := Feed(st, piece, k);
    assert "\n"[1..] == "";
    assert Feed(mid, "\n", k) == FeedByte(mid, '\n', k);
    assert st.pending + piece + "\n" == (st.pending + piece) + ['\n'];
  }

  // ----- the stream as a whole, line by line -----

  /** The parts of a stream between its newlines: every part but the last is a complete line. */
  function ByLines(parts: seq<string>, records: seq<string>, k: Sink): State
    requires parts != []
    decreases |parts|
  {
    if |parts| == 1 then
      if |parts[0]| > MAX_LINE then State(records, "", Some(LineLimit)) else State(records, parts[0], None)
    else if |parts[0]| + 1 > MAX_LINE then State(records, "", Some(LineLimit))
    else
      var next := Published(State(records, parts[0] + "\n", None), k);
      if next.err.Some? then next else ByLines(parts[1..], next.records, k)
  }

  /** Byte by byte or line by line, a stream is published the same way. */
  lemma {:induction false} FeedIsByLines(data: string, records: seq<string>, k: Sink)
    ensures Feed(State(records, "", None), data, k) == ByLines(Split(data, '\n'), records, k)
    decreases |data|
  {
    var st := State(records, "", None);
    if '\n' !in data {
      SplitWhole(data, '\n');
      FeedPiece(st, data, k);
    } else {
      var i := FirstNewline(data);
      var line, rest := data[..i], data[i + 1..];
      assert data == line + "\n" + rest && data == line + ['\n'] + rest;
      SplitFirst(line, rest, '\n');
      FeedLine(st, line, k);
      FeedJoin(st, line + "\n", rest, k);
      var next := Feed(st, line + "\n", k);
      assert "" + line + "\n" == line + "\n";
      assert (([line] + Split(rest, '\n'))[1..]) == Split(rest, '\n');
      if next.err.Some? {
        FeedFailed(next, rest, k);
      } else {
        FeedIsByLines(rest, next.records, k);
      }
    }
  }


  /** `Close`: an unfinished last line is published as it is. */
  function Final(st: State, k: Sink): State {
    if st.err.Some? then st else Published(st, k)
  }

  function Redacted(lines: seq<string>, k: Sink): (r: seq<string>)
    ensures |r| == |lines|
  {
    if lines == [] then [] else [k.redact(lines[0])] + Redacted(lines[1..], k)
  }

  /** Line i of those after `records` can be published: short enough, within the count, and stored. */
  predicate Publishable(line: string, i: nat, k: Sink) {
    |line| <= MAX_LINE && i < MAX_RECORDS && k.writable(i + 1)
  }

  /** Why a line cannot be published. */
  function WhyNot(line: string, i: nat): Failure {
    if |line| > MAX_LINE then LineLimit else if i >= MAX_RECORDS then CountLimit else Storage(i + 1)
  }

  lemma FirstNotPublishable(parts: seq<string>, records: seq<string>, k: Sink)
    requires parts != [] && (LineList(parts) != [] ==> !Publishable(LineList(parts)[0], |records|, k))
    ensures Final(ByLines(parts, records, k), k) ==
      State(records, "", if LineList(parts) == [] then None else Some(WhyNot(LineList(parts)[0], |records|)))
  {
    if |parts| == 1 && parts[0] != "" { assert LineList(parts)[0] == parts[0]; }
  }

  lemma FirstPublishable(parts: seq<string>, records: seq<string>, k: Sink)
    requires parts != [] && LineList(parts) != [] && Publishable(LineList(parts)[0], |records|, k)
    ensures var next := records + [k.redact(LineList(parts)[0])];
      if |parts| == 1 then Final(ByLines(parts, records, k), k) == State(next, "", None) && |LineList(parts)| == 1
      else ByLines(parts, records, k) == ByLines(parts[1..], next, k) && LineList(parts)[1..] == LineList(parts[1..])
  {
    if |parts| == 1 { assert LineList(parts)[0] == parts[0]; }
  }

  /** The outcome of any stream: the lines before the first one that cannot be published, one redacted record
      each, and the reason why that line could not be, if there is one. */
  lemma {:induction false} OutcomeExact(parts: seq<string>, records: seq<string>, k: Sink, n: nat)
    requires parts != [] && n <= |LineList(parts)|
    requires forall i :: 0 <= i < n ==> Publishable(LineList(parts)[i], |records| + i, k)
    requires n < |LineList(parts)| ==> !Publishable(LineList(parts)[n], |records| + n, k)
    ensures Final(ByLines(parts, records, k), k) ==
      State(records + Redacted(LineList(parts)[..n], k), "",
            if n < |LineList(parts)| then Some(WhyNot(LineList(parts)[n], |records| + n)) else None)
    decreases |parts|
  {
    var lines := LineList(parts);
    if n == 0 {
      FirstNotPublishable(parts, records, k);
      assert records + Redacted(lines[..0], k) == records;
    } else {
      FirstPublishable(parts, records, k);
      hide Publishable, ByLines, LineList, WhyNot, Final;
      var next := records + [k.redact(lines[0])];
      assert lines[..n] == [lines[0]] + lines[1..][..n - 1];
      assert next + Redacted(lines[1..][..n - 1], k) == records + Redacted(lines[..n], k);
      if |parts| > 1 {
        forall i | 0 <= i < n - 1 ensures Publishable(LineList(parts[1..])[i], |next| + i, k) {
          assert LineList(parts[1..])[i] == lines[i + 1] && |next| + i == |records| + (i + 1);
        }
        OutcomeExact(parts[1..], next, k, n - 1);
      }
    }
  }

  /** A stream whose lines all fit is published whole, one redacted record per line. */
  lemma LinesPublished(parts: seq<string>, records: seq<string>, k: Sink)
    requires parts != [] && forall i :: 0 <= i < |LineList(parts)| ==> |LineList(parts)[i]| <= MAX_LINE
    requires |records| + |LineList(parts)| <= MAX_RECORDS && forall n :: k.writable(n)
    ensures Final(ByLines(parts, records, k), k) == State(records + Redacted(LineList(parts), k), "", None)
  {
    var lines := LineList(parts);
    OutcomeExact(parts, records, k, |lines|);
    assert lines[..|lines|] == lines;
  }

  // ----- the log -----

  datatype Reply = Wrote | Errored(f: Failure) | AlreadyClosed

  /** The sidecar status file; the first one stays. */
  datatype Marker = Marker(cursor: nat, err: Failure, truncated: bool)

  predicate Exceeded(f: Failure) {
    f.TotalLimit? || f.LineLimit? || f.CountLimit?
  }

  class Log {
    const sink: Sink
    var pending: string
    var count: nat
    var received: nat
    var err: Option<Failure>
    var closed: bool
    var records: seq<string>
    var marker: Option<Marker>

    constructor (sink: Sink)
      ensures Valid() && St() == State([], "", None) && received == 0 && !closed && this.sink == sink
    {
      this.sink := sink;
      pending, count, received, err, closed, records, marker := "", 0, 0, None, false, [], None;
    }

    ghost function St(): State
      reads this
    {
      State(records, pending, err)
    }

    /** A failure leaves nothing pending and its marker names the records published before it. */
    ghost predicate Valid()
      reads this
    {
      count == |records| && received <= MAX_BYTES && |pending| <= MAX_LINE && (err.Some? <==> marker.Some?) &&
      (err.Some? ==> pending == "" && marker.value.cursor == |records|)
    }

    /** `fail`. */
    method Stop(f: Failure)
      requires count == |records| && received <= MAX_BYTES && (err.Some? <==> marker.Some?)
      requires marker.Some? ==> marker.value.cursor == |records|
      modifies this
      ensures Valid() && St() == Fails(old(St()), f)
      ensures received == old(received) && closed == old(closed)
      ensures marker == if old(marker).Some? then old(marker)
                        else Some(Marker(|records|, f, f.TotalLimit? || f.LineLimit? || f.CountLimit?))
    {
      pending := "";
      err := Some(f);
      if marker.None? {
        marker := Some(Marker(count, f, Exceeded(f)));
      }
    }

    /** `publish`. */
    method Publish()
      requires Valid() && err.None?
      modifies this
      ensures Valid() && St() == Published(old(St()), sink)
      ensures received == old(received) && closed == old(closed)
      ensures err.Some? ==> marker == Some(Marker(|records|, err.value, Exceeded(err.value)))
    {
      if pending == "" { return; }
      if count >= MAX_RECORDS {
        Stop(CountLimit);
      } else if !sink.writable(count + 1) {
        Stop(Storage(count + 1));
      } else {
        records := records + [sink.redact(pending)];
        pending := "";
        count := count + 1;
      }
    }

    /** `Write`: a chunk is the same as its bytes one after the other, unless it exceeds the total. */
    method Write(data: string) returns (reply: Reply)
      requires Valid()
      modifies this
      ensures Valid() && closed == old(closed)
      ensures old(closed) || old(err).Some? ==> St() == old(St()) && received == old(received) && marker == old(marker)
      ensures !old(closed) && old(err).None? ==>
        if |data| > MAX_BYTES - old(received) then St() == Fails(old(St()), TotalLimit) && received == old(received)
        else St() == Feed(old(St()), data, sink) && received == old(received) + |data|
      ensures reply == if old(closed) then AlreadyClosed else if err.Some? then Errored(err.value) else Wrote
    {
      if closed {
        return AlreadyClosed;
      }
      if err.Some? {
        return Errored(err.value);
      }
      if |data| > MAX_BYTES - received {
        Stop(TotalLimit);
        return Errored(TotalLimit);
      }
      received := received + |data|;
      ghost var entry := St();
      var left := data;
      while left != ""
        invariant Valid() && err.None? && closed == old(closed) && received == old(received) + |data|
        invariant Feed(St(), left, sink) == Feed(entry, data, sink)
        decreases |left|
      {
        ghost var before := St();
        var i := FirstNewline(left);
        var take := if i < |left| then i + 1 else |left|;
        assert left == left[..take] + left[take..];
        FeedJoin(before, left[..take], left[take..], sink);
        TakeFeeds(before, left, take, sink);
        if |pending| + take > MAX_LINE {
          Stop(LineLimit);
          FeedFailed(St(), left[take..], sink);
          return Errored(LineLimit);
        }
        pending := pending + left[..take];
        left := left[take..];
        if take == i + 1 {
          Publish();
          if err.Some? {
            FeedFailed(St(), left, sink);
            return Errored(err.value);
          }
        }
      }
      reply := Wrote;
    }

    /** `Close`. */
    method Close() returns (failure: Option<Failure>)
      requires Valid()
      modifies this
      ensures Valid() && closed && failure == err && received == old(received)
      ensures St() == if old(closed) then old(St()) else Final(old(St()), sink)
    {
      if !closed {
        closed := true;
        if err.None? {
          Publish();
        }
      }
      failure := err;
    }

    /** A provider's whole error stream, cut into writes in any way: what ends up published, and the
        failure if there is one, depend on the stream alone. */
    method Collect(chunks: seq<string>) returns (failure: Option<Failure>)
      requires Valid() && St() == State([], "", None) && received == 0 && !closed
      requires |Concat(chunks)| <= MAX_BYTES
      modifies this
      ensures Valid() && failure == err
      ensures St() == Final(ByLines(Split(Concat(chunks), '\n'), [], sink), sink)
    {
      var done := "";
      for i := 0 to |chunks|
        invariant Valid() && !closed && done + Concat(chunks[i..]) == Concat(chunks)
        invariant St() == Feed(State([], "", None), done, sink)
        invariant received <= |done|
      {
        assert chunks[i..][0] == chunks[i] && chunks[i..][1..] == chunks[i + 1..];
        assert done + Concat(chunks[i..]) == done + chunks[i] + Concat(chunks[i + 1..]);
        FeedJoin(State([], "", None), done, chunks[i], sink);
        if err.Some? { FeedFailed(St(), chunks[i], sink); }
        var reply := Write(chunks[i]);
        done := done + chunks[i];
      }
      assert chunks[|chunks|..] == [] && done + "" == done;
      FeedIsByLines(done, [], sink);
      failure := Close();
    }
  }

  /** What one round of `Write` amounts to. */
  lemma TakeFeeds(st: State, left: string, take: nat, k: Sink)
    requires st.err.None? && left != ""
    requires take == if FirstNewline(left) < |left| then FirstNewline(left) + 1 else |left|
    ensures Feed(st, left[..take], k) ==
      if |st.pending| + take > MAX_LINE then Fails(st, LineLimit)
      else
        var next := State(st.records, st.pending + left[..take], None);
        if take == FirstNewline(left) + 1 then Published(next, k) else next
  {
    hide Feed, Published, FirstNewline;
    var i := FirstNewline(left);
    if i < |left| {
      assert left[..take] == left[..i] + "\n";
      FeedLine(st, left[..i], k);
      assert st.pending + left[..i] + "\n" == st.pending + (left[..i] + "\n");
    } else {
      assert left[..take] == left && left[..i] == left;
      FeedPiece(st, left, k);
    }
  }
}
