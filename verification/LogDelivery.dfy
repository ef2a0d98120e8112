/** From durable events to a reader: the record's projection of the log (internal/store/sqlite/invocation.go),
    `Page` of internal/invocation/context.go, the streaming server of internal/api/invocation.go and the
    client of internal/api/invocation_client.go. */
module LogDelivery {
  import opened Ordering
  import opened InvocationLog

  datatype Status = Running | Returned | Failed | Interrupted

  datatype Stream = Stdout | Stderr

  /** An invocation record: what has been indexed of its two streams. */
  datatype Record = Record(
    id: string, status: Status, unavailable: bool, logError: string, stdout: Observation, stderr: Observation)

  datatype Page = Page(
    id: string, stream: Stream, after: int, next: int, boundary: nat, events: seq<LogEvent>, complete: bool,
    status: Status, unavailable: bool, logError: string)

  datatype Answer = Answered(page: Page) | Refused

  datatype Frame = PageFrame(page: Page) | ErrorFrame

  function Boundary(r: Record, stream: Stream): nat {
    if stream == Stdout then r.stdout.cursor else r.stderr.cursor
  }

  /** What a record claims to be durable is there, readable and counted. */
  predicate Indexed(events: Events, o: Observation) {
    o.cursor <= MAX_EVENTS && Readable(events, 0, o.cursor) && o.bytes == SizeSum(events, 0, o.cursor)
  }

  /** Cursors never regress, a finished call never revives and an unavailable log stays unavailable. */
  predicate RecordKept(a: Record, b: Record) {
    b.id == a.id && (a.unavailable ==> b.unavailable) && a.stdout.cursor <= b.stdout.cursor && a.stderr.cursor <= b.stderr.cursor &&
    (a.status != Running ==> b.status == a.status)
  }

  /** A page shows exactly the stretch of the log between its two cursors. */
  predicate Truthful(p: Page, events: Events) {
    0 <= p.after <= p.next <= p.boundary && p.next == p.after + |p.events| &&
    Readable(events, p.after, p.next) && p.events == Slice(events, p.after, p.next)
  }

  /** The cursor has moved a whole batch, or past everything that was durable. */
  predicate CaughtUp(before: nat, after: nat, durable: Events) {
    after == MAX_EVENTS || after == before + SCAN_BATCH || after + 1 !in durable
  }

  predicate CompleteMarker(p: Page) {
    p.next == p.boundary && p.status != Running && !p.unavailable
  }

  class Projection {
    const stdout: LogDirectory
    const stderr: LogDirectory
    var record: Record

    constructor (stdout: LogDirectory, stderr: LogDirectory, id: string)
      requires stdout != stderr && stdout.Valid() && stderr.Valid()
      ensures Valid() && record.status == Running && this.stdout == stdout && this.stderr == stderr
    {
      var none := Observation(0, 0, "", false);
      this.stdout, this.stderr := stdout, stderr;
      record := Record(id, Running, false, "", none, none);
    }

    ghost predicate Valid()
      reads this, stdout, stderr
    {
      stdout != stderr && stdout.Valid() && stderr.Valid() &&
      Indexed(stdout.events, record.stdout) && Indexed(stderr.events, record.stderr)
    }

    function Events(stream: Stream): Events
      reads this, stdout, stderr
    {
      if stream == Stdout then stdout.events else stderr.events
    }

    /** The call is over and the page ends where its log ends. */
    predicate ShowsEnd(p: Page)
      reads this, stdout, stderr
    {
      record.status != Running && p.next == Boundary(record, p.stream) && Boundary(record, p.stream) + 1 !in Events(p.stream)
    }

    /** `RefreshInvocation`: both streams are scanned once and the projection is updated. Meanwhile
        the call may finish. An update lost to a concurrent one leaves that one's result. */
    method Refresh() returns (lost: bool)
      requires Valid()
      modifies this, stdout, stderr
      ensures Valid() && RecordKept(old(record), record)
      ensures !lost && !record.unavailable ==>
        CaughtUp(old(record).stdout.cursor, record.stdout.cursor, old(stdout.events)) &&
        CaughtUp(old(record).stderr.cursor, record.stderr.cursor, old(stderr.events))
      ensures Extends(old(stdout.events), stdout.events) && Extends(old(stderr.events), stderr.events)
    {
      hide Indexed;
      ghost var events0, events1 := stdout.events, stderr.events;
      var prior := record.stderr.(session := "", truncated := false);
      IndexedCursor(events0, record.stdout);
      IndexedCursor(events1, record.stderr);
      ghost var before, seen;
      var out, outErr;
      out, outErr, before, seen := stdout.Scan(record.stdout);
      IndexedFurther(events0, stdout.events, record.stdout, record.stdout, out);
      var err, errErr;
      err, errErr, before, seen := stderr.Scan(prior);
      IndexedFurther(events1, stderr.events, record.stderr, prior, err);
      IndexedKept(events0, stdout.events, record.stdout);
      IndexedKept(events1, stderr.events, record.stderr);
      lost := *;
      if lost {
        var other: Record := *;
        if RecordKept(record, other) && Indexed(stdout.events, other.stdout) && Indexed(stderr.events, other.stderr) {
          record := other;
        }
      } else {
        var status: Status, logError: string := *, *;
        record := record.(
          stdout := out, stderr := err, unavailable := record.unavailable || outErr.Some? || errErr.Some?,
          status := if record.status == Running then status else record.status, logError := logError);
      }
    }

    /** `queryInvocation` with `Page`: refresh, check the cursor, read one page. */
    method Query(stream: Stream, after: int, limit: int) returns (a: Answer)
      requires Valid()
      modifies this, stdout, stderr
      ensures Valid() && RecordKept(old(record), record)
      ensures Extends(old(stdout.events), stdout.events) && Extends(old(stderr.events), stderr.events)
      ensures a.Answered? ==>
        Truthful(a.page, Events(stream)) && a.page.after == after && a.page.stream == stream &&
        a.page.id == record.id && a.page.boundary == Boundary(record, stream) && a.page.status == record.status
      ensures a.Answered? ==>
        a.page.boundary == (if stream == Stdout then record.stdout.cursor else record.stderr.cursor) &&
        a.page.events == Slice(if stream == Stdout then stdout.events else stderr.events, a.page.after, a.page.next)
      // A page below the boundary makes progress; the completion marker means that the call is over
      // and its whole log has been shown.
      ensures a.Answered? && after < a.page.boundary ==> a.page.next > after
      ensures a.Answered? ==>
        (a.page.complete <==>
          CompleteMarker(a.page) && a.page.boundary + 1 !in Events(stream))
      ensures a.Answered? && a.page.complete ==> ShowsEnd(a.page)
      // The only reasons to refuse; an unavailable log is never served again.
      ensures record.unavailable ==> a.Refused?
      ensures a.Refused? ==>
        after < 0 || limit < 1 || limit > 256 || after > Boundary(record, stream) || record.unavailable ||
        ReadEvent(Events(stream), Boundary(record, stream) + 1).Bad?
    {
      hide Readable, Slice, Indexed;
      var lost := Refresh();
      var boundary := Boundary(record, stream);
      if after < 0 || limit < 1 || limit > 256 || after > boundary || record.unavailable {
        return Refused;
      }
      var dir := if stream == Stdout then stdout else stderr;
      ghost var indexed := if stream == Stdout then record.stdout else record.stderr;
      IndexedCursor(dir.events, indexed);
      var err, events := dir.ReadPage(after, boundary, limit);
      if err != None {
        IndexedReadable(dir.events, indexed, err.value.sequence);
        assert false;
        return Refused;
      }
      if |events| > 0 { SliceAt(dir.events, after, after + |events|, |events| - 1); }
      var next := if |events| > 0 then events[|events| - 1].sequence else after;
      var complete := false;
      if record.status != Running && next == boundary {
        var beyond := ReadEvent(dir.events, boundary + 1);
        if beyond.Bad? {
          return Refused;
        }
        complete := beyond.Missing?;
      }
      a := Answered(Page(record.id, stream, after, next, boundary, events, complete,
                         record.status, record.unavailable, record.logError));
    }

    /** `serveInvocationStream`: pages are emitted when they say something new; the reader may be
        gone after any number of polls. `None` if the first query is refused. */
    method ServeStream(stream: Stream, after: int, limit: int, polls: nat) returns (frames: Option<seq<Frame>>)
      requires Valid()
      modifies this, stdout, stderr
      ensures Valid() && RecordKept(old(record), record)
      ensures Extends(old(stdout.events), stdout.events) && Extends(old(stderr.events), stderr.events)
      ensures frames.Some? ==> after >= 0 && FramesOk(frames.value, record.id, stream, after, Events(stream))
      ensures frames.Some? ==> frames.value != [] && frames.value[0].PageFrame?
      ensures frames.Some? && Closes(frames.value) ==> ShowsEnd(frames.value[|frames.value| - 1].page)
    {
      hide Valid, ShowsEnd, GoodPage, FramesOk, Extends;
      ghost var since := record;
      ghost var out0, err0 := stdout.events, stderr.events;
      ExtendsItself(out0);
      ExtendsItself(err0);
      var a := Ask(stream, after, limit, out0, err0);
      if a.Refused? {
        return None;
      }
      var page := a.page;
      var sent: seq<Frame> := [];
      NothingSent(record.id, stream, after, Events(stream));
      var lastStatus, lastError := Running, "";
      var open, i := true, 0;
      while open
        invariant Valid() && RecordKept(since, record)
        invariant Extends(out0, stdout.events) && Extends(err0, stderr.events)
        invariant FramesOk(sent, record.id, stream, after, Events(stream))
        invariant open ==>
          GoodPage(page, record.id, stream, CursorAt(sent, |sent|, after), Events(stream)) &&
          (page.complete ==> ShowsEnd(page)) && Continues(sent)
        invariant (!open ==> sent != []) && (sent != [] ==> sent[0].PageFrame?)
        invariant Closes(sent) ==> !open && ShowsEnd(sent[|sent| - 1].page)
        invariant i <= polls
        decreases polls - i, open
      {
        var late: bool := *;
        if sent == [] || late || |page.events| > 0 || page.complete || page.status != lastStatus || page.logError != lastError {
          FramesGrow(sent, PageFrame(page), record.id, stream, after, Events(stream));
          sent := sent + [PageFrame(page)];
          lastStatus, lastError := page.status, page.logError;
        } else {
          EmptyPage(page, record.id, stream, CursorAt(sent, |sent|, after), Events(stream));
        }
        if page.complete || i == polls {
          open := false;
        } else {
          i := i + 1;
          ghost var before := Events(stream);
          a := Ask(stream, page.next, limit, out0, err0);
          FramesKept(sent, record.id, stream, after, before, Events(stream));
          if a.Refused? {
            FramesGrow(sent, ErrorFrame, record.id, stream, after, Events(stream));
            sent := sent + [ErrorFrame];
            open := false;
          } else {
            page := a.page;
          }
        }
      }
      frames := Some(sent);
    }

    /** One query of the stream. */
    method Ask(stream: Stream, after: int, limit: int, ghost out0: Events, ghost err0: Events) returns (a: Answer)
      requires Valid() && Extends(out0, stdout.events) && Extends(err0, stderr.events)
      modifies this, stdout, stderr
      ensures Valid() && RecordKept(old(record), record)
      ensures Extends(out0, stdout.events) && Extends(err0, stderr.events)
      ensures Extends(old(Events(stream)), Events(stream))
      ensures a.Answered? ==> after >= 0 && GoodPage(a.page, record.id, stream, after, Events(stream))
      ensures a.Answered? && a.page.complete ==> ShowsEnd(a.page)
    {
      hide Valid, Extends, Readable, Slice;
      ghost var out1, err1 := stdout.events, stderr.events;
      a := Query(stream, after, limit);
      ExtendsTransitive(out0, out1, stdout.events);
      ExtendsTransitive(err0, err1, stderr.events);
    }
  }

  // ----- what a conforming server sends -----

  /** The cursor before frame i. */
  function CursorAt(frames: seq<Frame>, i: nat, after: int): int
    requires i <= |frames|
  {
    if i > 0 && frames[i - 1].PageFrame? then frames[i - 1].page.next else after
  }

  predicate GoodPage(p: Page, id: string, stream: Stream, cursor: int, events: Events) {
    p.id == id && p.stream == stream && p.after == cursor && Truthful(p, events) && (p.complete ==> CompleteMarker(p)) &&
    (p.after < p.boundary ==> p.next > p.after)
  }

  predicate FrameOk(frames: seq<Frame>, i: nat, id: string, stream: Stream, after: int, events: Events)
    requires i < |frames|
  {
    if frames[i].ErrorFrame? then i == |frames| - 1
    else
      GoodPage(frames[i].page, id, stream, CursorAt(frames, i, after), events) &&
      (frames[i].page.complete ==> i == |frames| - 1)
  }

  /** Every page starts where the one before it ended; an error or a completion is the last frame. */
  predicate FramesOk(frames: seq<Frame>, id: string, stream: Stream, after: int, events: Events) {
    forall i :: 0 <= i < |frames| ==> FrameOk(frames, i, id, stream, after, events)
  }

  /** The last frame leaves the stream open. */
  predicate Continues(frames: seq<Frame>) {
    frames == [] || (frames[|frames| - 1].PageFrame? && !frames[|frames| - 1].page.complete)
  }

  // ----- facts about projections and pages -----

  /** The last frame is a completed page. */
  predicate Closes(frames: seq<Frame>) {
    frames != [] && frames[|frames| - 1].PageFrame? && frames[|frames| - 1].page.complete
  }

  /** A completed page is the last frame that was sent. */
  lemma ClosedIsWhole(frames: seq<Frame>, part: seq<Frame>, id: string, stream: Stream, after: int, events: Events)
    requires FramesOk(frames, id, stream, after, events) && part <= frames && Closes(part)
    ensures part == frames && frames[|frames| - 1].page.stream == stream
  {
    assert FrameOk(frames, |part| - 1, id, stream, after, events);
    assert part[|part| - 1] == frames[|part| - 1];
  }

  lemma ExtendsTransitive(a: Events, b: Events, c: Events)
    requires Extends(a, b) && Extends(b, c)
    ensures Extends(a, c)
  {
  }

  lemma NothingSent(id: string, stream: Stream, after: int, events: Events)
    ensures FramesOk([], id, stream, after, events)
  {
  }

  /** Leaving out a page without events leaves out nothing. */
  lemma EmptyPage(page: Page, id: string, stream: Stream, cursor: int, events: Events)
    requires GoodPage(page, id, stream, cursor, events) && page.events == []
    ensures page.next == cursor
  {
  }

  lemma IndexedKept(a: Events, b: Events, o: Observation)
    requires Extends(a, b) && Indexed(a, o)
    ensures Indexed(b, o)
  {
    forall n | 0 < n <= o.cursor ensures n in a { assert ReadEvent(a, n).Read?; }
    StretchKept(a, b, "", 0, o.cursor);
  }

  lemma IndexedFurther(a: Events, b: Events, prior: Observation, start: Observation, out: Observation)
    requires Extends(a, b) && Indexed(a, prior) && start.cursor == prior.cursor && start.bytes == prior.bytes
    requires Accounted(b, start, out)
    ensures Indexed(b, out) && prior.cursor <= out.cursor
  {
    IndexedKept(a, b, prior);
    SizesJoin(b, 0, prior.cursor, out.cursor);
    forall n | 0 < n <= out.cursor ensures ReadEvent(b, n).Read? {}
  }

  lemma {:induction false} SizesJoin(events: Events, lo: nat, mid: nat, hi: nat)
    requires lo <= mid <= hi
    ensures SizeSum(events, lo, hi) == SizeSum(events, lo, mid) + SizeSum(events, mid, hi)
    decreases hi
  {
    if mid < hi {
      SizesJoin(events, lo, mid, hi - 1);
    }
  }

  lemma IndexedCursor(events: Events, o: Observation)
    requires Indexed(events, o)
    ensures o.cursor <= MAX_EVENTS
  {
  }

  lemma IndexedReadable(events: Events, o: Observation, n: nat)
    requires Indexed(events, o) && 0 < n <= o.cursor
    ensures ReadEvent(events, n).Read?
  {
  }

  /** The k-th event of a readable stretch is its k-th event file. */
  lemma {:induction false} SliceAt(events: Events, lo: nat, hi: nat, k: nat)
    requires Readable(events, lo, hi) && lo <= hi
    ensures |Slice(events, lo, hi)| == hi - lo
    ensures k < hi - lo ==> lo + 1 + k in events && Slice(events, lo, hi)[k] == LogEvent(lo + 1 + k, events[lo + 1 + k])
    decreases hi
  {
    if lo < hi {
      assert ReadEvent(events, hi).Read?;
      SliceAt(events, lo, hi - 1, k);
    }
  }

  lemma {:induction false} SliceJoin(events: Events, lo: nat, mid: nat, hi: nat)
    requires lo <= mid <= hi
    ensures Slice(events, lo, hi) == Slice(events, lo, mid) + Slice(events, mid, hi)
    decreases hi
  {
    if mid < hi {
      SliceJoin(events, lo, mid, hi - 1);
      var last := if hi in events then [LogEvent(hi, events[hi])] else [];
      assert Slice(events, lo, mid) + (Slice(events, mid, hi - 1) + last) ==
        (Slice(events, lo, mid) + Slice(events, mid, hi - 1)) + last;
    }
  }

  lemma {:induction false} SliceKept(a: Events, b: Events, lo: nat, hi: nat)
    requires Extends(a, b) && Readable(a, lo, hi)
    ensures Readable(b, lo, hi) && Slice(b, lo, hi) == Slice(a, lo, hi)
    decreases hi
  {
    forall n | lo < n <= hi
      ensures ReadEvent(b, n).Read?
    {
      assert ReadEvent(a, n).Read?;
    }
    if lo < hi {
      assert ReadEvent(a, hi).Read?;
      SliceKept(a, b, lo, hi - 1);
    }
  }

  lemma TruthfulKept(a: Events, b: Events, p: Page)
    requires Extends(a, b) && Truthful(p, a)
    ensures Truthful(p, b)
  {
    SliceKept(a, b, p.after, p.next);
  }

  lemma FramesKept(frames: seq<Frame>, id: string, stream: Stream, after: int, a: Events, b: Events)
    requires Extends(a, b) && FramesOk(frames, id, stream, after, a)
    ensures FramesOk(frames, id, stream, after, b)
  {
    forall i | 0 <= i < |frames|
      ensures FrameOk(frames, i, id, stream, after, b)
    {
      assert FrameOk(frames, i, id, stream, after, a);
      if frames[i].PageFrame? { TruthfulKept(a, b, frames[i].page); }
    }
  }

  lemma FramesGrow(frames: seq<Frame>, f: Frame, id: string, stream: Stream, after: int, events: Events)
    requires FramesOk(frames, id, stream, after, events) && Continues(frames)
    requires f.PageFrame? ==> GoodPage(f.page, id, stream, CursorAt(frames, |frames|, after), events)
    ensures FramesOk(frames + [f], id, stream, after, events)
  {
    var all := frames + [f];
    forall i | 0 <= i < |all|
      ensures FrameOk(all, i, id, stream, after, events)
    {
      assert CursorAt(all, i, after) == CursorAt(frames, i, after);
      if i < |frames| {
        assert FrameOk(frames, i, id, stream, after, events);
        assert all[i] == frames[i];
        if i == |frames| - 1 { assert frames[i] == frames[|frames| - 1]; }
      }
    }
  }

  // ----- the client -----

  datatype Result = Finished | ServerError | Rejected | Ended

  function Delivered(pages: seq<Page>): seq<LogEvent> {
    if pages == [] then [] else Delivered(pages[..|pages| - 1]) + pages[|pages| - 1].events
  }

  /** Events numbered without gap or repetition from after + 1 on. */
  predicate Numbered(events: seq<LogEvent>, after: int) {
    forall k :: 0 <= k < |events| ==> events[k].sequence == after + 1 + k
  }

  /** The client's check of one page's events against its cursor. */
  method Follow(page: Page, after: int) returns (ok: bool, cursor: int)
    ensures ok <==> Numbered(page.events, after)
    ensures ok ==> cursor == after + |page.events|
  {
    cursor := after;
    for k := 0 to |page.events|
      invariant cursor == after + k && Numbered(page.events[..k], after)
    {
      if page.events[k].sequence != cursor + 1 {
        return false, cursor;
      }
      cursor := page.events[k].sequence;
    }
    assert page.events[..|page.events|] == page.events;
    ok := true;
  }

  /** `copyInvocationStream`: writes the pages it accepts. Whatever the server sends, what is written
      is numbered without gap or repetition; and what a conforming server sends is never rejected. */
  method CopyStream(id: string, stream: Stream, after: int, frames: seq<Frame>, ghost events: Events)
    returns (result: Result, cursor: int, written: seq<Page>)
    ensures cursor == after + |Delivered(written)| && Numbered(Delivered(written), after)
    ensures result == Finished ==>
      written != [] && written[|written| - 1].complete && CompleteMarker(written[|written| - 1]) &&
      written[|written| - 1].next == cursor
    ensures after >= 0 && FramesOk(frames, id, stream, after, events) ==>
      result != Rejected && Readable(events, after, cursor) && Delivered(written) == Slice(events, after, cursor) &&
      (result == Finished <==> Closes(frames)) && (Closes(frames) ==> frames[|frames| - 1].page.next == cursor) &&
      (frames != [] && frames[0].PageFrame? ==> cursor >= frames[0].page.next)
  {
    hide Readable, Slice, FramesOk;
    cursor, written := after, [];
    ghost var conforming := after >= 0 && FramesOk(frames, id, stream, after, events);
    if conforming { NothingYet(events, after); }
    var i := 0;
    while i < |frames|
      invariant i <= |frames| && cursor == CursorAt(frames, i, after)
      invariant cursor == after + |Delivered(written)| && Numbered(Delivered(written), after)
      invariant conforming ==> Readable(events, after, cursor) && Delivered(written) == Slice(events, after, cursor)
      invariant i > 0 ==> frames[i - 1].PageFrame? && !frames[i - 1].page.complete
      invariant i > 0 && conforming ==> frames[0].PageFrame? && cursor >= frames[0].page.next
    {
      if conforming { FrameOfConforming(frames, i, id, stream, after, events); }
      if frames[i].ErrorFrame? {
        return ServerError, cursor, written;
      }
      var page := frames[i].page;
      if page.id != id || page.stream != stream || page.after != cursor || page.boundary < page.next {
        return Rejected, cursor, written;
      }
      if conforming { PageNumbered(events, page); }
      var ok, next := Follow(page, cursor);
      if !ok || page.next != next {
        return Rejected, cursor, written;
      }
      if conforming { SliceJoined(events, after, cursor, next); }
      Concatenated(written, page, after);
      cursor, written := next, written + [page];
      if page.complete {
        return if CompleteMarker(page) then Finished else Rejected, cursor, written;
      }
      i := i + 1;
    }
    result := Ended;
  }

  lemma NothingYet(events: Events, after: int)
    requires after >= 0
    ensures Readable(events, after, after) && Slice(events, after, after) == []
  {
  }

  lemma FrameOfConforming(frames: seq<Frame>, i: nat, id: string, stream: Stream, after: int, events: Events)
    requires FramesOk(frames, id, stream, after, events) && i < |frames|
    ensures FrameOk(frames, i, id, stream, after, events)
  {
  }

  lemma PageNumbered(events: Events, page: Page)
    requires Truthful(page, events)
    ensures Numbered(page.events, page.after)
  {
    forall k | 0 <= k < |page.events|
      ensures page.events[k].sequence == page.after + 1 + k
    {
      SliceAt(events, page.after, page.next, k);
    }
  }

  lemma SliceJoined(events: Events, lo: nat, mid: nat, hi: nat)
    requires lo <= mid <= hi && Readable(events, lo, mid) && Readable(events, mid, hi)
    ensures Readable(events, lo, hi) && Slice(events, lo, hi) == Slice(events, lo, mid) + Slice(events, mid, hi)
  {
    SliceJoin(events, lo, mid, hi);
  }

  lemma Concatenated(written: seq<Page>, page: Page, after: int)
    requires Numbered(Delivered(written), after) && Numbered(page.events, after + |Delivered(written)|)
    ensures Delivered(written + [page]) == Delivered(written) + page.events
    ensures Numbered(Delivered(written + [page]), after)
  {
    assert (written + [page])[..|written|] == written;
  }

  // ----- from the provider to the reader -----

  /** A reader that reconnects with its last cursor whenever a connection breaks, any number of times.
      Every durable event arrives exactly once and in order, and a finished stream was shown whole. */
  method FollowLog(server: Projection, stream: Stream, limit: int, connections: nat)
    returns (result: Result, cursor: int, received: seq<LogEvent>)
    requires server.Valid()
    modifies server, server.stdout, server.stderr
    ensures server.Valid() && result != Rejected && 0 <= cursor
    ensures Readable(server.Events(stream), 0, cursor) && received == Slice(server.Events(stream), 0, cursor)
    ensures result == Finished ==>
      server.record.status != Running && cursor == Boundary(server.record, stream) &&
      cursor + 1 !in server.Events(stream)
  {
    hide Readable, Slice, Extends, Indexed, FramesOk;
    result, cursor, received := Ended, 0, [];
    ghost var id := server.record.id;
    NothingYet(server.Events(stream), 0);
    for c := 0 to connections
      invariant server.Valid() && server.record.id == id && result != Rejected && 0 <= cursor
      invariant result != Finished
      invariant Readable(server.Events(stream), 0, cursor) && received == Slice(server.Events(stream), 0, cursor)
    {
      var polls: int := *;
      ghost var before := server.Events(stream);
      var sent := server.ServeStream(stream, cursor, limit, if polls < 0 then 0 else polls);
      SliceStays(before, server.Events(stream), cursor);
      if sent.Some? {
        var cut: int := *;
        var arrived := if 0 <= cut < |sent.value| then sent.value[..cut] else sent.value;
        PrefixOk(sent.value, arrived, server.record.id, stream, cursor, server.Events(stream));
        var from := cursor;
        var written;
        result, cursor, written := CopyStream(server.record.id, stream, from, arrived, server.Events(stream));
        SliceJoined(server.Events(stream), 0, from, cursor);
        received := received + Delivered(written);
        if result == Finished {
          ClosedIsWhole(sent.value, arrived, server.record.id, stream, from, server.Events(stream));
          return;
        }
      }
    }
  }

  lemma SliceStays(a: Events, b: Events, cursor: nat)
    requires Extends(a, b) && Readable(a, 0, cursor)
    ensures Readable(b, 0, cursor) && Slice(b, 0, cursor) == Slice(a, 0, cursor)
  {
    SliceKept(a, b, 0, cursor);
  }

  /** A connection cut off after any frame still carries a conforming stream. */
  lemma PrefixOk(frames: seq<Frame>, part: seq<Frame>, id: string, stream: Stream, after: int, events: Events)
    requires FramesOk(frames, id, stream, after, events) && part <= frames
    ensures FramesOk(part, id, stream, after, events)
  {
    forall i | 0 <= i < |part|
      ensures FrameOk(part, i, id, stream, after, events)
    {
      assert FrameOk(frames, i, id, stream, after, events);
      assert part[i] == frames[i] && CursorAt(part, i, after) == CursorAt(frames, i, after);
    }
  }
}
