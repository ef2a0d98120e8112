/** Durable invocation logs: `Scan`, `checkGap` and `ReadPage` of internal/invocation/files.go.
    Events are files numbered from 1; a provider keeps appending while they are read. */
module InvocationLog {
  import opened Ordering

  const MAX_EVENT_BYTES: nat := 0x100_0000
  const MAX_LOG_BYTES: nat := 0x400_0000
  const MAX_EVENTS: nat := 16384
  const SCAN_BATCH: nat := 256

  /** One event file. `valid`: private, regular and JSON with a type; `session`: "" if it names none. */
  datatype Entry = Entry(size: nat, valid: bool, session: string, data: string)

  type Events = map<nat, Entry>

  datatype LogError =
    | InvalidCursor
    | InvalidPage
    | Unreadable(sequence: nat)
    | LimitExceeded
    | SessionChanged
    | Gap(after: nat)
    | EventsMissing
    | BadDirectory

  datatype Observation = Observation(cursor: nat, bytes: nat, session: string, truncated: bool)

  datatype LogEvent = LogEvent(sequence: nat, entry: Entry)

  datatype Reading = Missing | Bad | Read(entry: Entry)

  function ReadEvent(events: Events, sequence: nat): Reading {
    if sequence !in events then Missing
    else if events[sequence].valid && events[sequence].size <= MAX_EVENT_BYTES then Read(events[sequence])
    else Bad
  }

  // ----- what a stretch of the log amounts to -----

  predicate Readable(events: Events, lo: nat, hi: nat) {
    forall n :: lo < n <= hi ==> ReadEvent(events, n).Read?
  }

  function SizeSum(events: Events, lo: nat, hi: nat): nat
    decreases hi
  {
    if hi <= lo then 0
    else SizeSum(events, lo, hi - 1) + (if hi in events then events[hi].size else 0)
  }

  /** The session after a stretch, unless two of its events disagree. */
  function SessionAfter(events: Events, session: string, lo: nat, hi: nat): Option<string>
    decreases hi
  {
    if hi <= lo then Some(session)
    else
      match SessionAfter(events, session, lo, hi - 1)
      case None => None
      case Some(s) =>
        var own := if hi in events then events[hi].session else "";
        if own == "" then Some(s) else if s == "" || s == own then Some(own) else None
  }

  /** Every session named before the stretch or in it is `s`. */
  predicate OneSession(events: Events, session: string, lo: nat, hi: nat, s: string) {
    (session != "" ==> session == s) && forall n :: lo < n <= hi && n in events && events[n].session != "" ==> events[n].session == s
  }

  /** There is a session after a stretch exactly if all that is named is one name, which it then is; without any name
      it is empty. */
  lemma {:induction false} SessionExactly(events: Events, session: string, lo: nat, hi: nat)
    ensures var r := SessionAfter(events, session, lo, hi);
      && (r.Some? <==> exists s :: OneSession(events, session, lo, hi, s))
      && (r.Some? ==> OneSession(events, session, lo, hi, r.value))
      && (OneSession(events, session, lo, hi, "") ==> r == Some(""))
    decreases hi
  {
    if lo < hi {
      SessionExactly(events, session, lo, hi - 1);
      if s :| OneSession(events, session, lo, hi, s) {
        assert OneSession(events, session, lo, hi - 1, s);
        var before := SessionAfter(events, session, lo, hi - 1).value;
        if before != s { assert OneSession(events, session, lo, hi - 1, "") && before == ""; }
        assert hi in events && events[hi].session != "" ==> events[hi].session == s;
        assert SessionAfter(events, session, lo, hi).Some?;
      }
      var r := SessionAfter(events, session, lo, hi);
      if r.Some? { assert OneSession(events, session, lo, hi, r.value); }
    } else {
      assert OneSession(events, session, lo, hi, session);
    }
  }

  /** Events are only ever appended. */
  predicate Extends(a: Events, b: Events) {
    forall n :: n in a ==> n in b && b[n] == a[n]
  }

  /** No event is numbered before its predecessor exists. */
  predicate Contiguous(events: Events) {
    forall n :: n in events ==> 1 <= n <= MAX_EVENTS && (n == 1 || n - 1 in events)
  }

  lemma {:induction false} StretchKept(a: Events, b: Events, session: string, lo: nat, hi: nat)
    requires Extends(a, b) && forall n :: lo < n <= hi ==> n in a
    ensures SizeSum(b, lo, hi) == SizeSum(a, lo, hi)
    ensures SessionAfter(b, session, lo, hi) == SessionAfter(a, session, lo, hi)
    ensures Readable(a, lo, hi) ==> Readable(b, lo, hi)
    decreases hi
  {
    if lo < hi {
      StretchKept(a, b, session, lo, hi - 1);
    }
    forall n | lo < n <= hi && Readable(a, lo, hi)
      ensures ReadEvent(b, n).Read?
    {
      assert ReadEvent(a, n).Read?;
    }
  }

  // ----- the events directory -----

  /** A directory entry: an event file in its canonical form, a temporary file, or anything else. */
  datatype Name = EventFile(n: nat) | Artifact | Foreign

  predicate CleanName(name: Name) {
    name.Artifact? || (name.EventFile? && 1 <= name.n <= MAX_EVENTS)
  }

  /** A listing shows an event behind one that is missing. */
  ghost predicate ShowsGap(seen: set<nat>, cursor: nat) {
    cursor + 1 !in seen && exists n :: n in seen && n > cursor + 1
  }

  /** A listing holds nothing but temporary files and numbered events, and not too many. */
  ghost predicate CleanListing(seen: set<nat>, others: seq<Name>) {
    |seen| + |others| <= MAX_EVENTS + 64 &&
    (forall name :: name in others ==> CleanName(name)) && forall n :: n in seen ==> CleanName(EventFile(n))
  }

  class LogDirectory {
    var present: bool
    var events: Events
    var others: seq<Name>

    ghost predicate Valid()
      reads this
    {
      (!present ==> events == map[]) && forall i :: 0 <= i < |others| ==> !others[i].EventFile?
    }

    /** The provider runs: events are appended, and a contiguous log stays contiguous. */
    method Append()
      requires Valid()
      modifies this
      ensures Valid() && Extends(old(events), events) && others == old(others)
      ensures Contiguous(old(events)) ==> Contiguous(events)
    {
      var next: Events := *;
      if Extends(events, next) && (Contiguous(events) ==> Contiguous(next)) {
        events := next;
        present := present || next != map[];
      }
    }

    /** The names in the directory, in whatever order the system reports them. The provider goes on while
        the directory is read: an event that appears meanwhile may be reported or not. */
    method List() returns (names: seq<Name>, ghost seen: set<nat>)
      requires Valid()
      modifies this
      ensures Valid() && Extends(old(events), events) && others == old(others)
      ensures Contiguous(old(events)) ==> Contiguous(events)
      ensures old(events).Keys <= seen <= events.Keys && |names| == |seen| + |others|
      ensures forall name :: name in names <==> name in others || (name.EventFile? && name.n in seen)
    {
      hide Contiguous, Extends, Valid;
      var durable := events;
      Append();
      KeysKept(durable, events);
      var caught: set<nat> := *;
      var reported := durable.Keys + (caught * events.Keys);
      seen := reported;
      names := Enumerate(reported);
    }

    method Enumerate(reported: set<nat>) returns (names: seq<Name>)
      ensures |names| == |reported| + |others|
      ensures forall name :: name in names <==> name in others || (name.EventFile? && name.n in reported)
    {
      names := others;
      var left := reported;
      while left != {}
        invariant left <= reported && |names| == |reported - left| + |others|
        invariant forall name :: name in names <==>
          name in others || (name.EventFile? && name.n in reported && name.n !in left)
        decreases |left|
      {
        var n :| n in left;
        assert reported - (left - {n}) == (reported - left) + {n};
        left := left - {n};
        names := names + [EventFile(n)];
      }
      assert reported - left == reported;
    }

    /** `checkGap`: complains exactly about a missing directory, an unclean listing and a listing with a gap. */
    method CheckGap(cursor: nat) returns (err: Option<LogError>, ghost seen: set<nat>)
      requires Valid()
      modifies this
      ensures Valid() && Extends(old(events), events) && others == old(others)
      ensures Contiguous(old(events)) ==> Contiguous(events)
      ensures old(events).Keys <= seen <= events.Keys
      ensures !old(present) ==> events == map[] && err == if cursor == 0 then None else Some(EventsMissing)
      ensures old(present) ==>
        err == if !CleanListing(seen, others) then Some(BadDirectory)
               else if ShowsGap(seen, cursor) then Some(Gap(cursor)) else None
    {
      hide Contiguous, Extends, CleanListing, ShowsGap;
      ExtendsItself(events);
      seen := events.Keys;
      if !present {
        return if cursor == 0 then None else Some(EventsMissing), seen;
      }
      var names;
      names, seen := List();
      err := Judge(names, cursor, seen);
    }

    /** What the listed names say. */
    method Judge(names: seq<Name>, cursor: nat, ghost seen: set<nat>) returns (err: Option<LogError>)
      requires Valid() && |names| == |seen| + |others|
      requires forall name :: name in names <==> name in others || (name.EventFile? && name.n in seen)
      ensures err == if !CleanListing(seen, others) then Some(BadDirectory)
                     else if ShowsGap(seen, cursor) then Some(Gap(cursor)) else None
    {
      var hasNext, hasLater := false, false;
      for i := 0 to |names|
        invariant i <= MAX_EVENTS + 64
        invariant forall k :: 0 <= k < i ==> CleanName(names[k])
        invariant hasNext <==> exists k :: 0 <= k < i && names[k] == EventFile(cursor + 1)
        invariant hasLater <==> exists k :: 0 <= k < i && names[k].EventFile? && names[k].n > cursor + 1
      {
        if i + 1 > MAX_EVENTS + 64 {
          return Some(BadDirectory);
        }
        var name := names[i];
        if name == Artifact { continue; }
        if name.Foreign? || name.n == 0 || name.n > MAX_EVENTS {
          assert name in names && !CleanName(name);
          return Some(BadDirectory);
        }
        hasNext := hasNext || name.n == cursor + 1;
        hasLater := hasLater || name.n > cursor + 1;
      }
      AllClean(names, seen);
      assert hasNext <==> EventFile(cursor + 1) in names;
      assert hasLater <==> exists n :: n in seen && n > cursor + 1 by {
        if hasLater {
          var k :| 0 <= k < |names| && names[k].EventFile? && names[k].n > cursor + 1;
          assert names[k] in names;
        }
        if n :| n in seen && n > cursor + 1 {
          assert EventFile(n) in names;
        }
      }
      return if hasLater && !hasNext then Some(Gap(cursor)) else None;
    }

    lemma AllClean(names: seq<Name>, seen: set<nat>)
      requires Valid() && |names| == |seen| + |others| <= MAX_EVENTS + 64
      requires forall name :: name in names <==> name in others || (name.EventFile? && name.n in seen)
      requires forall k :: 0 <= k < |names| ==> CleanName(names[k])
      ensures CleanListing(seen, others)
    {
      forall n | n in seen ensures CleanName(EventFile(n)) { assert EventFile(n) in names; }
      forall name | name in others ensures CleanName(name) { assert name in names; }
    }

    /** `Scan`: at most one batch further, across events that are durable, readable and contiguous,
        while the provider may append between any two reads. `before` are the events when the directory
        was listed, `seen` those the listing reported. */
    method Scan(prior: Observation)
      returns (out: Observation, err: Option<LogError>, ghost before: Events, ghost seen: set<nat>)
      requires Valid()
      modifies this
      ensures Valid() && Extends(old(events), before) && Extends(before, events) && others == old(others)
      ensures Extends(old(events), events) && (Contiguous(old(events)) ==> Contiguous(before) && Contiguous(events))
      ensures err == Some(InvalidCursor) <==> prior.cursor > MAX_EVENTS
      ensures err == Some(InvalidCursor) ==> out == prior
      ensures err != Some(InvalidCursor) ==> Advanced(events, prior, out)
      // What stopped it: a batch, the end, or a stated reason. A gap that was there at the beginning is
      // never passed over, unless it has been filled meanwhile.
      ensures err == None ==> out.cursor == prior.cursor + SCAN_BATCH || AtEnd(old(events), events, out.cursor)
      ensures err == None || err == Some(InvalidCursor) || Stops(events, before, seen, others, out, err.value)
      ensures out.truncated == (prior.truncated || err == Some(LimitExceeded))
    {
      hide Contiguous, Advanced, Stops, Valid, Extends, AtEnd, CleanListing, ShowsGap;
      ghost var since := events;
      before, seen := events, {};
      ExtendsItself(since);
      if prior.cursor > MAX_EVENTS {
        return prior, Some(InvalidCursor), before, seen;
      }
      out := prior;
      err := None;
      AdvancedAtStart(since, prior);
      var scanned := 0;
      while out.cursor < MAX_EVENTS && scanned < SCAN_BATCH
        invariant scanned == out.cursor - prior.cursor <= SCAN_BATCH && out.cursor <= MAX_EVENTS && err.None?
        invariant Valid() && Extends(since, events) && before == events && Extends(before, events) && others == old(others)
        invariant Contiguous(since) ==> Contiguous(events)
        invariant Advanced(events, prior, out) && out.truncated == prior.truncated
        decreases MAX_EVENTS - out.cursor
      {
        ghost var earlier := events;
        Append();
        StillAdvanced(since, earlier, events, prior, out);
        before := events;
        ExtendsItself(before);
        var next := ReadEvent(events, out.cursor + 1);
        if next.Missing? {
          err, before, seen := AtMissing(prior, out, since);
          return;
        }
        out, err := Index(prior, out, next, before, seen);
        if err.Some? { return; }
        scanned := scanned + 1;
      }
      if out.cursor == MAX_EVENTS { EndAtLimit(since, events, out.cursor); }
    }

    /** The next event is not there: the directory decides between the end of the log and a gap. */
    method AtMissing(prior: Observation, out: Observation, ghost since: Events)
      returns (err: Option<LogError>, ghost before: Events, ghost seen: set<nat>)
      requires Valid() && Extends(since, events) && Advanced(events, prior, out) && out.cursor + 1 !in events
      modifies this
      ensures Valid() && Extends(since, before) && Extends(before, events) && Extends(since, events)
      ensures others == old(others) && Advanced(events, prior, out)
      ensures Contiguous(old(events)) ==> Contiguous(before) && Contiguous(events)
      ensures err == None ==> AtEnd(since, events, out.cursor)
      ensures err.Some? ==>
        err != Some(InvalidCursor) && err != Some(LimitExceeded) && Stops(events, before, seen, others, out, err.value)
    {
      hide Contiguous, Advanced, Valid, Extends;
      ghost var missing := events;
      MissingBefore(since, events, out.cursor + 1);
      Append();
      StillAdvanced(since, missing, events, prior, out);
      before := events;
      err, seen := CheckGap(out.cursor);
      StillAdvanced(since, before, events, prior, out);
      if err.None? { NoGapSeen(since, before, events, seen, out.cursor); }
    }

    /** Scanning again and again, as every refresh of the record does, until nothing new is durable. */
    method ScanToEnd(prior: Observation)
      returns (out: Observation, err: Option<LogError>, ghost before: Events, ghost seen: set<nat>)
      requires Valid() && prior.cursor <= MAX_EVENTS
      modifies this
      ensures Valid() && Extends(old(events), events) && others == old(others)
      ensures Contiguous(old(events)) ==> Contiguous(before) && Contiguous(events)
      ensures Accounted(events, prior, out)
      ensures err == None ==> AtEnd(old(events), events, out.cursor)
      ensures err == None && Contiguous(old(events)) ==> forall n :: n in old(events) ==> n <= out.cursor
      ensures err.Some? ==> err != Some(InvalidCursor) && Stops(events, before, seen, others, out, err.value)
    {
      hide Contiguous, Stops, Valid, Extends, Advanced, Accounted, AtEnd;
      out, err, before, seen := prior, None, events, {};
      ghost var since := events;
      ExtendsItself(since);
      AdvancedAtStart(events, prior);
      AdvancedIsAccounted(events, prior, out);
      var moved := true;
      while moved && err == None
        invariant prior.cursor <= out.cursor <= MAX_EVENTS
        invariant Valid() && Extends(since, events) && others == old(others)
        invariant Contiguous(since) ==> Contiguous(before) && Contiguous(events)
        invariant Accounted(events, prior, out)
        invariant err.Some? ==> err != Some(InvalidCursor) && Stops(events, before, seen, others, out, err.value)
        invariant !moved && err == None ==> AtEnd(since, events, out.cursor)
        decreases MAX_EVENTS - out.cursor, moved
      {
        ghost var start, earlier := events, out;
        var cursor := out.cursor;
        out, err, before, seen := Scan(out);
        Chained(since, start, events, prior, earlier, out);
        moved := out.cursor != cursor;
      }
      if err == None && Contiguous(since) { ContiguousEnd(since, events, out.cursor); }
    }

    /** `ReadPage`: as much of the stretch as fits into one page, and always something of it. */
    method ReadPage(after: int, boundary: int, limit: int) returns (err: Option<LogError>, page: seq<LogEvent>)
      ensures err == Some(InvalidPage) <==>
        after < 0 || boundary < 0 || after > boundary || boundary > MAX_EVENTS || limit < 1 || limit > 256
      ensures err == None ==>
        |page| <= limit && after + |page| <= boundary && page == Slice(events, after, after + |page|) &&
        Readable(events, after, after + |page|) && (after < boundary ==> page != [])
      ensures err == None ==>
        after + |page| == boundary || |page| == limit || PageFull(events, after, after + |page|)
      ensures err == None || err == Some(InvalidPage) ||
        (err.value.Unreadable? && after < err.value.sequence <= boundary && !ReadEvent(events, err.value.sequence).Read?)
    {
      err, page := None, [];
      if after < 0 || boundary < 0 || after > boundary || boundary > MAX_EVENTS || limit < 1 || limit > 256 {
        return Some(InvalidPage), page;
      }
      var bytes := 0;
      var sequence := after + 1;
      while sequence <= boundary && |page| < limit
        invariant sequence == after + 1 + |page| <= boundary + 1 && |page| <= limit
        invariant Readable(events, after, sequence - 1) && page == Slice(events, after, sequence - 1)
        invariant bytes == SizeSum(events, after, sequence - 1)
      {
        var next := ReadEvent(events, sequence);
        if !next.Read? {
          return Some(Unreadable(sequence)), page;
        }
        if bytes + next.entry.size > MAX_EVENT_BYTES && |page| > 0 { break; }
        page := page + [LogEvent(sequence, next.entry)];
        bytes := bytes + next.entry.size;
        sequence := sequence + 1;
      }
    }

    /** One event indexed: its size, its session, the cursor. */
    method Index(prior: Observation, last: Observation, next: Reading, ghost before: Events, ghost seen: set<nat>)
      returns (out: Observation, err: Option<LogError>)
      requires Advanced(events, prior, last) && last.cursor < MAX_EVENTS
      requires last.cursor < prior.cursor + SCAN_BATCH
      requires next == ReadEvent(events, last.cursor + 1) && !next.Missing?
      ensures Advanced(events, prior, out) && out.truncated == (last.truncated || err == Some(LimitExceeded))
      ensures err.None? ==> out.cursor == last.cursor + 1
      ensures err.Some? ==> err != Some(InvalidCursor) && Stops(events, before, seen, others, out, err.value)
    {
      out, err := last, None;
      if next.Bad? {
        return out, Some(Unreadable(out.cursor + 1));
      }
      if out.bytes + next.entry.size > MAX_LOG_BYTES {
        return out.(truncated := true), Some(LimitExceeded);
      }
      if next.entry.session != "" {
        if out.session != "" && out.session != next.entry.session {
          return out, Some(SessionChanged);
        }
        out := out.(session := next.entry.session);
      }
      out := out.(cursor := out.cursor + 1, bytes := out.bytes + next.entry.size);
    }
  }

  /** The cursor moved over a stretch of readable events, its bytes and session accounted for. */
  predicate Advanced(events: Events, prior: Observation, out: Observation) {
    Accounted(events, prior, out) && out.cursor <= prior.cursor + SCAN_BATCH
  }

  predicate Accounted(events: Events, prior: Observation, out: Observation) {
    prior.cursor <= out.cursor <= MAX_EVENTS &&
    Readable(events, prior.cursor, out.cursor) &&
    out.bytes == prior.bytes + SizeSum(events, prior.cursor, out.cursor) &&
    (out.cursor > prior.cursor ==> out.bytes <= MAX_LOG_BYTES) &&
    SessionAfter(events, prior.session, prior.cursor, out.cursor) == Some(out.session)
  }

  lemma KeysKept(a: Events, b: Events)
    requires Extends(a, b)
    ensures a.Keys <= b.Keys
  {
  }

  lemma ExtendsItself(a: Events)
    ensures Extends(a, a)
  {
  }

  lemma AdvancedAtStart(a: Events, prior: Observation)
    requires prior.cursor <= MAX_EVENTS
    ensures Advanced(a, prior, prior)
  {
  }

  lemma MissingBefore(a: Events, b: Events, n: nat)
    requires Extends(a, b) && n !in b
    ensures n !in a
  {
  }

  lemma StillAdvanced(since: Events, a: Events, b: Events, prior: Observation, out: Observation)
    requires Extends(since, a) && Extends(a, b) && Advanced(a, prior, out)
    ensures Extends(since, b) && Advanced(b, prior, out)
  {
    AdvancedKept(a, b, prior, out);
  }

  lemma AdvancedKept(a: Events, b: Events, prior: Observation, out: Observation)
    requires Extends(a, b) && Advanced(a, prior, out)
    ensures Advanced(b, prior, out)
  {
    forall n | prior.cursor < n <= out.cursor
      ensures n in a
    {
      assert ReadEvent(a, n).Read?;
    }
    StretchKept(a, b, prior.session, prior.cursor, out.cursor);
  }

  /** The events numbered lo + 1 to hi, in order. */
  function Slice(events: Events, lo: nat, hi: nat): (r: seq<LogEvent>)
    decreases hi
  {
    if hi <= lo then []
    else Slice(events, lo, hi - 1) + (if hi in events then [LogEvent(hi, events[hi])] else [])
  }

  /** One more event would exceed what a page may hold. */
  predicate PageFull(events: Events, lo: nat, hi: nat) {
    lo < hi && ReadEvent(events, hi + 1).Read? && SizeSum(events, lo, hi) + events[hi + 1].size > MAX_EVENT_BYTES
  }

  lemma AdvancedIsAccounted(events: Events, prior: Observation, out: Observation)
    requires Advanced(events, prior, out)
    ensures Accounted(events, prior, out)
  {
  }

  lemma Chained(since: Events, a: Events, b: Events, prior: Observation, mid: Observation, out: Observation)
    requires Extends(since, a) && Extends(a, b) && Accounted(a, prior, mid) && Advanced(b, mid, out)
    ensures Extends(since, b) && Accounted(b, prior, out) && mid.cursor <= out.cursor
    ensures AtEnd(a, b, out.cursor) ==> AtEnd(since, b, out.cursor)
  {
    forall n | prior.cursor < n <= mid.cursor
      ensures n in a
    {
      assert ReadEvent(a, n).Read?;
    }
    StretchKept(a, b, prior.session, prior.cursor, mid.cursor);
    forall n | prior.cursor < n <= out.cursor
      ensures ReadEvent(b, n).Read?
    {
    }
    StretchesJoin(b, prior.session, prior.cursor, mid.cursor, out.cursor);
  }

  lemma {:induction false} StretchesJoin(events: Events, session: string, lo: nat, mid: nat, hi: nat)
    requires lo <= mid <= hi && SessionAfter(events, session, lo, mid).Some?
    ensures SizeSum(events, lo, hi) == SizeSum(events, lo, mid) + SizeSum(events, mid, hi)
    ensures SessionAfter(events, session, lo, hi) ==
      SessionAfter(events, SessionAfter(events, session, lo, mid).value, mid, hi)
    decreases hi
  {
    if mid < hi {
      StretchesJoin(events, session, lo, mid, hi - 1);
    }
  }

  /** A log a provider within the limits leaves behind. */
  ghost predicate Healthy(events: Events) {
    Contiguous(events) &&
    forall n :: n in events ==>
      ReadEvent(events, n).Read? && SizeSum(events, 0, n) <= MAX_LOG_BYTES && SessionAfter(events, "", 0, n).Some?
  }

  /** The scan is at the end of what was durable in `a`: the next event was not there, and none behind it
      was, unless the next event has appeared by `b`. */
  ghost predicate AtEnd(a: Events, b: Events, cursor: nat) {
    cursor == MAX_EVENTS || (cursor + 1 !in a && (cursor + 1 in b || forall n :: n in a ==> n <= cursor))
  }

  lemma EndAtLimit(a: Events, b: Events, cursor: nat)
    requires cursor == MAX_EVENTS
    ensures AtEnd(a, b, cursor)
  {
  }

  lemma NoGapSeen(since: Events, before: Events, events: Events, seen: set<nat>, cursor: nat)
    requires Extends(since, before) && before.Keys <= seen <= events.Keys && cursor + 1 !in since
    requires !ShowsGap(seen, cursor) || before == map[]
    ensures AtEnd(since, events, cursor)
  {
    if n :| n in since && n > cursor { assert n in seen && n > cursor + 1; }
  }

  lemma ContiguousEnd(a: Events, b: Events, cursor: nat)
    requires Contiguous(a) && AtEnd(a, b, cursor)
    ensures forall n :: n in a ==> n <= cursor
  {
    forall n | n in a
      ensures n <= cursor
    {
      if n > cursor && cursor < MAX_EVENTS { PrefixClosed(a, n, cursor + 1); }
    }
  }

  /** Each error names something wrong with the log just behind the cursor, or with the listing. */
  ghost predicate Stops(
      events: Events, before: Events, seen: set<nat>, others: seq<Name>, out: Observation, err: LogError) {
    match err
    case Unreadable(n) => n == out.cursor + 1 && ReadEvent(events, n).Bad?
    case LimitExceeded =>
      ReadEvent(events, out.cursor + 1).Read? && out.bytes + events[out.cursor + 1].size > MAX_LOG_BYTES
    case SessionChanged =>
      ReadEvent(events, out.cursor + 1).Read? && events[out.cursor + 1].session !in ["", out.session] && out.session != ""
    case Gap(n) => n == out.cursor && before.Keys <= seen <= events.Keys && ShowsGap(seen, n)
    case EventsMissing => out.cursor > 0 && events == map[]
    case BadDirectory => before.Keys <= seen <= events.Keys && !CleanListing(seen, others)
    case _ => false
  }

  /** Reading a directory is not atomic, so a provider that appends contiguously can be accused of a gap:
      some listing shows one exactly if the next event and the one after it both appeared while the
      directory was being read. */
  lemma FalseGapExact(before: Events, events: Events, cursor: nat)
    requires Contiguous(before) && Contiguous(events) && Extends(before, events)
    ensures (exists seen: set<nat> :: before.Keys <= seen <= events.Keys && ShowsGap(seen, cursor)) <==>
      cursor + 1 !in before && cursor + 2 in events
  {
    if cursor + 1 !in before && cursor + 2 in events {
      var seen := before.Keys + {cursor + 2};
      assert before.Keys <= seen <= events.Keys && ShowsGap(seen, cursor);
    }
    forall seen: set<nat> | before.Keys <= seen <= events.Keys && ShowsGap(seen, cursor)
      ensures cursor + 1 !in before && cursor + 2 in events
    {
      var n :| n in seen && n > cursor + 1;
      PrefixClosed(events, n, cursor + 2);
    }
  }

  /** So a false gap takes at least two appends during one listing. */
  lemma FalseGapTakesTwo(before: Events, events: Events, seen: set<nat>, cursor: nat)
    requires Contiguous(before) && Contiguous(events) && Extends(before, events)
    requires before.Keys <= seen <= events.Keys && ShowsGap(seen, cursor)
    ensures |events| >= |before| + 2
  {
    FalseGapExact(before, events, cursor);
    hide ShowsGap;
    var two := {cursor + 1, cursor + 2};
    assert (cursor + 2 in before ==> cursor + 1 in before) && cursor + 1 in events;
    hide Contiguous;
    assert before.Keys !! two && before.Keys + two <= events.Keys;
    SubsetSize(before.Keys + two, events.Keys);
    assert |before.Keys + two| == |before.Keys| + |two|;
    assert |before| == |before.Keys| && |events| == |events.Keys|;
  }

  lemma {:induction false} SubsetSize(a: set<nat>, b: set<nat>)
    requires a <= b
    ensures |a| <= |b|
    decreases a
  {
    if a != {} {
      var x :| x in a;
      SubsetSize(a - {x}, b - {x});
    }
  }

  /** A healthy log stops no scan, except for foreign files in its directory or a false gap. */
  lemma HealthyNeverStops(
      events: Events, before: Events, seen: set<nat>, others: seq<Name>, out: Observation, err: LogError)
    requires Healthy(events) && Contiguous(before) && Extends(before, events)
    requires Accounted(events, Observation(0, 0, "", false), out) && Stops(events, before, seen, others, out, err)
    ensures err == BadDirectory || (err == Gap(out.cursor) && |events| >= |before| + 2)
  {
    if err.Gap? { FalseGapTakesTwo(before, events, seen, out.cursor); }
    hide ShowsGap, CleanListing;
    var n := out.cursor + 1;
    assert out.cursor > 0 ==> ReadEvent(events, out.cursor).Read?;
    assert n in events ==> SizeSum(events, 0, n) == SizeSum(events, 0, n - 1) + events[n].size;
    assert n in events ==> SessionAfter(events, "", 0, n).Some?;
  }

  lemma {:induction false} PrefixClosed(events: Events, n: nat, m: nat)
    requires Contiguous(events) && n in events && 1 <= m <= n
    ensures m in events
    decreases n
  {
    if m < n {
      PrefixClosed(events, n - 1, m);
    }
  }
}
