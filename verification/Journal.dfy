/** src/linux/systemd/SystemdJournalProvider.cpp: reading the end of a journal, and following it, while a writer
    keeps appending. The journal is the append-only list of the entries that match the query. */
module Journal {
  import opened Common

  datatype Entry = Entry(timestamp: nat, cursor: string, message: string)

  /** Where a journal handle stands. Seeking only notes a place; the next move resolves it. */
  datatype Position =
    | On(index: nat)
    | Gap(before: nat)
    | Tail(seen: nat)
    | Since(time: nat)
    | AtCursor(cursor: string)

  datatype Status = Failed(code: ErrorCode) | AtEnd | Moved

  ghost predicate Distinct(entries: seq<Entry>) {
    forall i, j :: 0 <= i < j < |entries| ==> entries[i].cursor != entries[j].cursor
  }

  /** The first index below `end` whose entry is at or after `time`, or `end`. */
  function FirstSince(entries: seq<Entry>, end: nat, time: nat, from: nat := 0): (k: nat)
    requires from <= end <= |entries|
    ensures from <= k <= end
    ensures forall i :: from <= i < k ==> entries[i].timestamp < time
    ensures k < end ==> entries[k].timestamp >= time
    decreases end - from
  {
    if from == end || entries[from].timestamp >= time then from
    else FirstSince(entries, end, time, from + 1)
  }

  function LastOf<T>(s: seq<T>, limit: nat): seq<T> {
    if |s| <= limit then s else s[|s| - limit..]
  }

  /** The first index below `end` whose entry has this cursor, or `end`. */
  function FindCursor(entries: seq<Entry>, end: nat, cursor: string, from: nat := 0): (k: nat)
    requires from <= end <= |entries|
    ensures from <= k <= end
    ensures forall i :: from <= i < k ==> entries[i].cursor != cursor
    ensures k < end ==> entries[k].cursor == cursor
    decreases end - from
  {
    if from == end || entries[from].cursor == cursor then from
    else FindCursor(entries, end, cursor, from + 1)
  }

  /** What the system does around one call on the journal: how many entries the writer has appended by then, whether
      the call fails, and, for the first move after seeking to the tail, how far behind the tail of the seek it lands. */
  datatype Turn = Turn(appended: nat, skipped: nat, fault: Option<ErrorCode>)

  const QUIET := Turn(0, 0, None)

  function TurnAt(script: seq<Turn>, n: nat): Turn {
    if n < |script| then script[n] else QUIET
  }

  /** The first of a script's faults among its first `n` turns. */
  function FirstFault(script: seq<Turn>, n: nat): Option<ErrorCode> {
    if n == 0 then None
    else if FirstFault(script, n - 1).Some? then FirstFault(script, n - 1)
    else TurnAt(script, n - 1).fault
  }

  function Min(a: nat, b: nat): nat {
    if a <= b then a else b
  }

  /** sd-journal as documented. `all` is everything that is ever written, of which the first `written` entries are
      there already. The script is arbitrary: it says what happens around each call, and nothing happens once it has run
      out; `turn` calls have been made. */
  class SdJournal {
    const all: seq<Entry>
    var written: nat
    var position: Position
    const script: seq<Turn>
    var turn: nat
    /** For the record: how much was written at the last seek to the tail; and where the last move away from the tail
        took up the journal, and how much was written then. */
    ghost var sought: nat
    ghost var landed: nat
    ghost var moved: nat
    /** How often somebody waited for the writer. */
    ghost var waits: nat

    ghost predicate Valid()
      reads this
    {
      && Distinct(all) && written <= |all|
      && (position.On? ==> position.index < written)
      && (position.Gap? ==> position.before <= written)
      && (position.Tail? ==> position.seen <= written)
    }

    constructor (all: seq<Entry>, written: nat, script: seq<Turn>)
      requires Distinct(all) && written <= |all|
      ensures Valid() && this.all == all && this.written == written && this.script == script && turn == 0 && position == Gap(0)
    {
      this.all, this.written, this.script, turn, position := all, written, script, 0, Gap(0);
      sought, landed, moved, waits := 0, 0, 0, 0;
    }

    /** The fault that has hit the handle, if any. */
    function Fault(): Option<ErrorCode>
      reads this
    {
      FirstFault(script, turn)
    }

    /** How many entries are there when the next call is made. */
    function Grown(): (n: nat)
      requires Valid()
      reads this
      ensures written <= n <= |all|
    {
      Min(|all|, written + TurnAt(script, turn).appended)
    }

    /** Where the next move forward will find the entry to move to. */
    function NextIndex(): (target: nat)
      requires Valid()
      reads this
      ensures target <= Grown()
    {
      match position
      case On(index) => index + 1
      case Gap(before) => before
      case Tail(seen) => Min(Grown(), seen + TurnAt(script, turn).skipped)
      case Since(time) => FirstSince(all, Grown(), time)
      case AtCursor(cursor) => FindCursor(all, Grown(), cursor)
    }

    /** Every call takes one turn of the script. */
    method Take() returns (now: Turn)
      requires Valid()
      modifies this`written, this`turn
      ensures Valid() && now == TurnAt(script, old(turn)) && turn == old(turn) + 1 && written == old(Grown())
    {
      now := TurnAt(script, turn);
      written := Grown();
      turn := turn + 1;
    }

    method Seek(to: Position) returns (status: Status)
      requires Valid() && (to.Since? || to.AtCursor?)
      modifies this`written, this`turn, this`position
      ensures Valid() && turn == old(turn) + 1 && written == old(Grown())
      ensures TurnAt(script, old(turn)).fault == if status.Failed? then Some(status.code) else None
      ensures status.Failed? ==> position == old(position)
      ensures !status.Failed? ==> position == to
    {
      var now := Take();
      if now.fault.Some? {
        return Failed(now.fault.value);
      }
      position := to;
      return Moved;
    }

    method SeekTail() returns (status: Status)
      requires Valid()
      modifies this
      ensures Valid() && turn == old(turn) + 1 && written == old(Grown())
      ensures TurnAt(script, old(turn)).fault == if status.Failed? then Some(status.code) else None
      ensures status.Failed? ==> position == old(position)
      ensures !status.Failed? ==> position == Tail(written) && sought == written
    {
      var now := Take();
      if now.fault.Some? {
        return Failed(now.fault.value);
      }
      position, sought := Tail(written), written;
      return Moved;
    }

    /** Moves on; at the end, a handle that only stood at the tail settles there. */
    method Next() returns (status: Status)
      requires Valid()
      modifies this
      ensures Valid() && turn == old(turn) + 1 && written == old(Grown())
      ensures TurnAt(script, old(turn)).fault == if status.Failed? then Some(status.code) else None
      ensures status.Failed? ==> position == old(position)
      ensures status.Moved? ==> old(NextIndex()) < written && position == On(old(NextIndex()))
      ensures status.AtEnd? ==>
                && old(NextIndex()) == written
                && position == if old(position).Tail? then Gap(written) else old(position)
      ensures sought == old(sought) && waits == old(waits)
      ensures if old(position).Tail? && !status.Failed? then landed == old(NextIndex()) && moved == written
              else landed == old(landed) && moved == old(moved)
    {
      var target := NextIndex();
      var now := Take();
      if now.fault.Some? {
        return Failed(now.fault.value);
      }
      if position.Tail? { landed, moved := target, written; }
      if target < written {
        position := On(target);
        return Moved;
      }
      if position.Tail? { position := Gap(written); }
      return AtEnd;
    }

    method Previous() returns (status: Status)
      requires Valid() && (position.On? || position.Tail?)
      modifies this
      ensures Valid() && turn == old(turn) + 1 && written == old(Grown())
      ensures TurnAt(script, old(turn)).fault == if status.Failed? then Some(status.code) else None
      ensures var behind := if old(position).On? then old(position).index else old(NextIndex());
              && (status.Moved? ==> behind > 0 && position == On(behind - 1))
              && (status.AtEnd? ==> behind == 0 && position == old(position))
    {
      var behind := if position.On? then position.index else NextIndex();
      var now := Take();
      if now.fault.Some? {
        return Failed(now.fault.value);
      }
      if behind > 0 {
        position := On(behind - 1);
        return Moved;
      }
      return AtEnd;
    }

    /** readCurrentEntry: any of its field reads may fail. */
    method ReadCurrent() returns (entry: Reply<Entry>)
      requires Valid() && position.On?
      modifies this`written, this`turn
      ensures Valid() && turn == old(turn) + 1 && written == old(Grown())
      ensures TurnAt(script, old(turn)).fault == if entry.Err? then Some(entry.code) else None
      ensures entry.Ok? ==> entry.value == all[position.index]
    {
      var now := Take();
      return if now.fault.Some? then Err(now.fault.value) else Ok(all[position.index]);
    }

    /** sd_journal_wait: blocks for a while, or fails. */
    method Wait() returns (status: Status)
      requires Valid()
      modifies this`written, this`turn, this`waits
      ensures Valid() && turn == old(turn) + 1 && written == old(Grown())
      ensures TurnAt(script, old(turn)).fault == if status.Failed? then Some(status.code) else None
      ensures waits == old(waits) + 1
    {
      waits := waits + 1;
      var now := Take();
      return if now.fault.Some? then Failed(now.fault.value) else Moved;
    }
  }

  // ----- the initial batch -----

  function Reversed<T>(s: seq<T>): (r: seq<T>)
    ensures |r| == |s|
  {
    seq(|s|, i requires 0 <= i < |s| => s[|s| - 1 - i])
  }

  lemma ReversedGrows<T>(s: seq<T>, x: T)
    ensures Reversed(s + [x]) == [x] + Reversed(s)
  {
  }

  /** What the backward scan holds after reading down from `end`. */
  ghost predicate ReadBack(journal: SdJournal, reversed: seq<Entry>, end: nat)
    reads journal
  {
    && end <= journal.written <= |journal.all| && 0 < |reversed| <= end
    && journal.position == On(end - |reversed|)
    && Reversed(reversed) == journal.all[end - |reversed|..end]
  }

  /** Nothing has been written, and nothing happens while the next two calls are made. */
  ghost predicate EmptyAndQuiet(journal: SdJournal)
    reads journal
  {
    journal.written == 0 && TurnAt(journal.script, journal.turn) == QUIET && TurnAt(journal.script, journal.turn + 1) == QUIET
  }

  /** The backward scan returns the last `limit` of the entries there were when it found the end. */
  method QueryTail(journal: SdJournal, limit: nat) returns (r: Result<seq<Entry>>, ghost end: nat)
    requires journal.Valid() && journal.Fault() == None && limit > 0
    modifies journal
    ensures journal.Valid() && journal.written >= old(journal.written)
    ensures r.Success? ==> old(journal.written) <= end <= journal.written
    ensures r.Success? ==> r.value == LastOf(journal.all[..end], limit)
    ensures old(EmptyAndQuiet(journal)) ==>
              r == Success([]) && journal.written == 0 && journal.turn == old(journal.turn) + 2
    ensures journal.Fault() == if r.Failure? then Some(r.error.code) else None
  {
    end := 0;
    var seek := journal.SeekTail();
    if seek.Failed? {
      r := Fail(seek.code);
      return;
    }
    r, end := ReadDown(journal, limit);
  }

  /** One entry further back. */
  method ReadOne(journal: SdJournal, before: seq<Entry>, ghost end: nat) returns (r: Result<seq<Entry>>)
    requires journal.Valid() && journal.Fault() == None && journal.position.On?
    requires end <= journal.written && journal.position.index + |before| + 1 == end
    requires Reversed(before) == journal.all[journal.position.index + 1..end]
    modifies journal`written, journal`turn
    ensures journal.Valid() && journal.written >= old(journal.written)
    ensures r.Success? ==> ReadBack(journal, r.value, end)
    ensures journal.Fault() == if r.Failure? then Some(r.error.code) else None
  {
    ghost var index := journal.position.index;
    var entry := journal.ReadCurrent();
    if entry.Err? {
      return Fail(entry.code);
    }
    ReversedGrows(before, entry.value);
    assert journal.all[index..end] == [entry.value] + journal.all[index + 1..end];
    return Success(before + [entry.value]);
  }

  method ReadDown(journal: SdJournal, limit: nat) returns (r: Result<seq<Entry>>, ghost end: nat)
    requires journal.Valid() && journal.Fault() == None && limit > 0 && journal.position.Tail?
    modifies journal
    ensures journal.Valid() && journal.written >= old(journal.written)
    ensures r.Success? ==> old(journal.position.seen) <= end <= journal.written
    ensures r.Success? ==> r.value == LastOf(journal.all[..end], limit)
    ensures old(journal.written == 0 && TurnAt(journal.script, journal.turn) == QUIET) ==>
              r == Success([]) && journal.written == 0 && journal.turn == old(journal.turn) + 1
    ensures journal.Fault() == if r.Failure? then Some(r.error.code) else None
  {
    end := 0;
    var status := journal.Previous();
    if status.Failed? {
      r := Fail(status.code);
      return;
    }
    if status.AtEnd? {
      r := Success([]);
      return;
    }
    end := journal.position.index + 1;
    r := ReadOne(journal, [], end);
    if r.Success? {
      r := ReadMore(journal, r.value, end, limit);
    }
  }

  method ReadMore(journal: SdJournal, first: seq<Entry>, ghost end: nat, limit: nat) returns (r: Result<seq<Entry>>)
    requires journal.Valid() && journal.Fault() == None && ReadBack(journal, first, end) && |first| <= limit
    modifies journal
    ensures journal.Valid() && journal.written >= old(journal.written)
    ensures r.Success? ==> end <= journal.written && r.value == LastOf(journal.all[..end], limit)
    ensures journal.Fault() == if r.Failure? then Some(r.error.code) else None
  {
    r := Success(first);
    var more := true;
    while more && r.Success? && |r.value| < limit
      invariant journal.Valid() && journal.written >= old(journal.written)
      invariant r.Success? ==> |r.value| <= limit && ReadBack(journal, r.value, end)
      invariant journal.Fault() == if r.Failure? then Some(r.error.code) else None
      invariant r.Success? && !more ==> |r.value| == end
      decreases more, r.Success?, if r.Success? then limit - |r.value| else 0
    {
      var status := journal.Previous();
      if status.Failed? {
        r := Fail(status.code);
      } else if status.AtEnd? {
        more := false;
      } else {
        r := ReadOne(journal, r.value, end);
      }
    }
    if r.Success? {
      ReadIsLast(journal.all, r.value, end, limit);
      r := Success(Reversed(r.value));
    }
  }

  lemma ReadIsLast(all: seq<Entry>, reversed: seq<Entry>, end: nat, limit: nat)
    requires |reversed| <= end <= |all| && |reversed| <= limit && (|reversed| == limit || |reversed| == end)
    requires Reversed(reversed) == all[end - |reversed|..end]
    ensures Reversed(reversed) == LastOf(all[..end], limit)
  {
    assert all[end - |reversed|..end] == all[..end][end - |reversed|..];
  }

  /** The last `limit` of the entries below `end` from the first one at or after `since`. */
  function WindowOf(all: seq<Entry>, end: nat, since: nat, limit: nat): seq<Entry>
    requires end <= |all|
  {
    LastOf(all[FirstSince(all, end, since)..end], limit)
  }

  /** What the forward scan's window holds after reading from the first entry at or after `since` up to `end`;
      nothing has been read while `end` is 0. */
  ghost predicate Window(journal: SdJournal, window: seq<Entry>, end: nat, since: nat, limit: nat)
    reads journal
  {
    if end == 0 then window == [] && journal.position == Since(since)
    else
      && end <= journal.written <= |journal.all|
      && journal.position == On(end - 1)
      && FirstSince(journal.all, end, since) < end
      && window == WindowOf(journal.all, end, since, limit)
  }

  function Slid(window: seq<Entry>, entry: Entry, limit: nat): seq<Entry> {
    var wider := window + [entry];
    if |wider| > limit then wider[1..] else wider
  }

  lemma WindowSlides(all: seq<Entry>, first: nat, end: nat, limit: nat)
    requires first <= end < |all| && limit > 0
    ensures LastOf(all[first..end + 1], limit) == Slid(LastOf(all[first..end], limit), all[end], limit)
  {
    assert all[first..end + 1] == all[first..end] + [all[end]];
    LastSlides(all[first..end], all[end], limit);
  }

  lemma LastSlides(s: seq<Entry>, x: Entry, limit: nat)
    requires limit > 0
    ensures LastOf(s + [x], limit) == Slid(LastOf(s, limit), x, limit)
  {
    if |s| >= limit { assert (s + [x])[|s| + 1 - limit..] == (s[|s| - limit..] + [x])[1..]; }
  }

  /** `before` is the window when entry `index` is about to be read. */
  ghost predicate WindowBefore(all: seq<Entry>, before: seq<Entry>, end: nat, index: nat, written: nat, since: nat, limit: nat) {
    && end <= index < written <= |all|
    && if end == 0 then before == [] && index == FirstSince(all, written, since)
       else index == end && FirstSince(all, end, since) < end
            && before == WindowOf(all, end, since, limit)
  }

  lemma WindowMoves(all: seq<Entry>, before: seq<Entry>, end: nat, index: nat, written: nat, since: nat, limit: nat)
    requires limit > 0 && WindowBefore(all, before, end, index, written, since, limit)
    ensures FirstSince(all, index + 1, since) <= index
    ensures Slid(before, all[index], limit) == WindowOf(all, index + 1, since, limit)
  {
    FirstStays(all, end, index, written, since);
    WindowSlides(all, FirstSince(all, index + 1, since), index, limit);
  }

  /** One entry further: the oldest one leaves the window when it is full. */
  method Slide(journal: SdJournal, before: seq<Entry>, limit: nat) returns (r: Result<seq<Entry>>)
    requires journal.Valid() && journal.Fault() == None && journal.position.On?
    modifies journal`written, journal`turn
    ensures journal.Valid() && journal.written >= old(journal.written)
    ensures r.Success? ==> r.value == Slid(before, journal.all[journal.position.index], limit)
    ensures journal.Fault() == if r.Failure? then Some(r.error.code) else None
  {
    var entry := journal.ReadCurrent();
    if entry.Err? {
      return Fail(entry.code);
    }
    var window := before + [entry.value];
    if |window| > limit { window := window[1..]; }
    return Success(window);
  }

  /** The entry read next does not change which is the first at or after the time; it is that one if none was. */
  lemma FirstStays(all: seq<Entry>, end: nat, index: nat, written: nat, time: nat)
    requires end <= index < written <= |all|
    requires end == 0 ==> index == FirstSince(all, written, time)
    requires end > 0 ==> index == end && FirstSince(all, end, time) < end
    ensures FirstSince(all, index + 1, time) == (if end == 0 then index else FirstSince(all, end, time))
    ensures end == 0 ==> all[FirstSince(all, index + 1, time)..index] == []
  {
    if end == 0 {
      FirstSinceSettles(all, index + 1, written, time);
    } else {
      FirstSinceSettles(all, end, index + 1, time);
    }
  }

  /** The forward scan returns the last `limit` of the entries from the first one at or after `since` to the end it
      found. */
  method QuerySince(journal: SdJournal, since: int, limit: nat) returns (r: Result<seq<Entry>>, ghost end: nat)
    requires journal.Valid() && journal.Fault() == None && limit > 0
    modifies journal
    ensures journal.Valid() && journal.written >= old(journal.written)
    ensures r.Success? ==> since >= 0 && old(journal.written) <= end <= journal.written
    ensures r.Success? ==> r.value == WindowOf(journal.all, end, since, limit)
    ensures since < 0 ==> r == Fail(InvalidArgument)
    ensures journal.Fault() == if r.Failure? && since >= 0 then Some(r.error.code) else None
  {
    end := 0;
    if since < 0 {
      r := Fail(InvalidArgument);
      return;
    }
    var seek := journal.Seek(Since(since));
    if seek.Failed? {
      r := Fail(seek.code);
      return;
    }
    r, end := SlideToEnd(journal, since, limit);
  }

  /** The wider window, with the entry the handle stands on. */
  method SlideHere(journal: SdJournal, window: seq<Entry>, ghost end: nat, since: nat, limit: nat)
    returns (r: Result<seq<Entry>>, ghost next: nat)
    requires journal.Valid() && journal.Fault() == None && limit > 0 && journal.position.On?
    requires WindowBefore(journal.all, window, end, journal.position.index, journal.written, since, limit)
    modifies journal`written, journal`turn
    ensures journal.Valid() && journal.written >= old(journal.written)
    ensures end < next <= journal.written && (r.Success? ==> Window(journal, r.value, next, since, limit))
    ensures journal.Fault() == if r.Failure? then Some(r.error.code) else None
  {
    next := journal.position.index + 1;
    WindowMoves(journal.all, window, end, journal.position.index, journal.written, since, limit);
    r := Slide(journal, window, limit);
  }

  method SlideToEnd(journal: SdJournal, since: nat, limit: nat) returns (r: Result<seq<Entry>>, ghost end: nat)
    requires journal.Valid() && journal.Fault() == None && limit > 0 && journal.position == Since(since)
    modifies journal
    ensures journal.Valid() && journal.written >= old(journal.written)
    ensures r.Success? ==> old(journal.written) <= end <= journal.written
    ensures r.Success? ==> r.value == WindowOf(journal.all, end, since, limit)
    ensures journal.Fault() == if r.Failure? then Some(r.error.code) else None
  {
    end := 0;
    r := Success([]);
    var more := true;
    while more
      invariant journal.Valid() && journal.written >= old(journal.written)
      invariant more ==> r.Success? && Window(journal, r.value, end, since, limit)
      invariant journal.Fault() == if r.Failure? then Some(r.error.code) else None
      invariant !more && r.Success? ==>
                  old(journal.written) <= end <= journal.written && r.value == WindowOf(journal.all, end, since, limit)
      decreases more, |journal.all| - end
    {
      var status := journal.Next();
      if status.Failed? {
        r, more := Fail(status.code), false;
      } else if status.AtEnd? {
        if end == 0 { NoneSince(journal.all, journal.written, since, limit); }
        end, more := journal.written, false;
      } else {
        r, end := SlideHere(journal, r.value, end, since, limit);
        more := r.Success?;
      }
    }
  }

  lemma NoneSince(all: seq<Entry>, end: nat, since: nat, limit: nat)
    requires end <= |all| && FirstSince(all, end, since) == end
    ensures WindowOf(all, end, since, limit) == []
  {
  }

  /** Once an entry at or after the time is in sight, later appends do not change which is the first. */
  lemma {:induction false} FirstSinceSettles(all: seq<Entry>, end: nat, later: nat, time: nat, from: nat := 0)
    requires from <= end <= later <= |all|
    requires FirstSince(all, end, time, from) < end || FirstSince(all, later, time, from) < end
    ensures FirstSince(all, later, time, from) == FirstSince(all, end, time, from)
    decreases end - from
  {
    if from < end && all[from].timestamp < time {
      FirstSinceSettles(all, end, later, time, from + 1);
    }
  }

  // ----- following -----

  datatype LogQuery = LogQuery(since: Option<int>, limit: nat)

  /** The caller's sink. It may refuse an entry, which ends the follow; `replies` are its answers to the entries it is
      given, and it accepts once they have run out. */
  class Sink {
    const replies: seq<Reply<()>>
    var received: seq<Entry>

    constructor (replies: seq<Reply<()>>)
      ensures received == [] && this.replies == replies
    {
      this.replies, received := replies, [];
    }

    /** The first refusal so far. */
    function Refusal(): Option<ErrorCode>
      reads this
    {
      FirstRefusal(replies, |received|)
    }

    method Accept(entry: Entry) returns (reply: Reply<()>)
      modifies this
      ensures received == old(received) + [entry]
      ensures reply == ReplyAt(replies, |old(received)|)
    {
      reply := ReplyAt(replies, |received|);
      received := received + [entry];
    }
  }

  function ReplyAt(replies: seq<Reply<()>>, n: nat): Reply<()> {
    if n < |replies| then replies[n] else Ok(())
  }

  function FirstRefusal(replies: seq<Reply<()>>, n: nat): Option<ErrorCode> {
    if n == 0 then None
    else if FirstRefusal(replies, n - 1).Some? then FirstRefusal(replies, n - 1)
    else match ReplyAt(replies, n - 1) case Ok(_) => None case Err(code) => Some(code)
  }

  /** The caller's stop predicate: `answers` are its answers, of which it has given `asked`, and it says stop once they
      have run out. A follow that is never stopped is the limit of these. */
  class StopFlag {
    const answers: seq<bool>
    var asked: nat

    constructor (answers: seq<bool>)
      ensures this.answers == answers && asked == 0
    {
      this.answers, asked := answers, 0;
    }

    predicate Stopped()
      reads this
    {
      AnyYes(answers, asked)
    }

    /** How many more times it may say no. */
    function Patience(): nat
      reads this
    {
      if asked < |answers| then |answers| - asked else 0
    }

    method Requested() returns (stop: bool)
      modifies this
      ensures stop == AnswerAt(answers, old(asked)) && asked == old(asked) + 1
    {
      stop := AnswerAt(answers, asked);
      asked := asked + 1;
    }
  }

  predicate AnswerAt(answers: seq<bool>, n: nat) {
    n >= |answers| || answers[n]
  }

  predicate AnyYes(answers: seq<bool>, n: nat) {
    n > 0 && (AnyYes(answers, n - 1) || AnswerAt(answers, n - 1))
  }

  /** How a follow stands: it goes on while the journal has not failed, the sink has not refused and the stop predicate
      has not said yes; one of these ends it with a code. */
  datatype Standing = Going | EndedBy(code: ErrorCode) | TroubledTwice

  ghost function StandingOf(journal: SdJournal, sink: Sink, stop: StopFlag): Standing
    reads journal, sink, stop
  {
    match (journal.Fault(), sink.Refusal(), stop.Stopped())
    case (None, None, false) => Going
    case (Some(code), None, false) => EndedBy(code)
    case (None, Some(code), false) => EndedBy(code)
    case (None, None, true) => EndedBy(Interrupted)
    case _ => TroubledTwice
  }

  /** The batch a query starts with, when its scan ended at `end`. */
  function InitialBatch(query: LogQuery, all: seq<Entry>, end: nat): seq<Entry>
    requires end <= |all| && (query.since.Some? ==> query.since.value >= 0)
  {
    match query.since
    case Some(since) => WindowOf(all, end, since, query.limit)
    case None => LastOf(all[..end], query.limit)
  }

  predicate Legal(query: LogQuery) {
    query.limit > 0 && (query.since.Some? ==> query.since.value >= 0)
  }

  method Query(journal: SdJournal, query: LogQuery) returns (r: Result<seq<Entry>>, ghost end: nat)
    requires journal.Valid() && journal.Fault() == None
    modifies journal
    ensures journal.Valid() && journal.written >= old(journal.written)
    ensures query.limit == 0 ==> r == Fail(InvalidArgument)
    ensures r.Success? ==>
              && Legal(query)
              && old(journal.written) <= end <= journal.written
              && r.value == InitialBatch(query, journal.all, end)
    ensures old(EmptyAndQuiet(journal)) && query.limit > 0 && query.since.None? ==>
              r == Success([]) && journal.written == 0 && journal.turn == old(journal.turn) + 2
    ensures query.since.Some? && query.since.value < 0 ==> r == Fail(InvalidArgument)
    ensures journal.Fault() == if r.Failure? && Legal(query) then Some(r.error.code) else None
  {
    end := 0;
    if query.limit == 0 {
      r := Fail(InvalidArgument);
    } else if query.since.Some? {
      r, end := QuerySince(journal, query.since.value, query.limit);
    } else {
      r, end := QueryTail(journal, query.limit);
    }
  }

  /** The batch is a stretch of the journal that ends where the scan ended. */
  lemma BatchIsStretch(query: LogQuery, all: seq<Entry>, end: nat)
    requires end <= |all| && (query.since.Some? ==> query.since.value >= 0)
    ensures var batch := InitialBatch(query, all, end);
            |batch| <= end && |batch| <= query.limit && batch == all[end - |batch|..end]
  {
  }

  /** It is as long as the limit lets it be: without a time it goes back to the first entry, with one to the first entry
      at or after that time. */
  lemma BatchExactly(query: LogQuery, all: seq<Entry>, end: nat)
    requires end <= |all| && Legal(query)
    ensures var n := |InitialBatch(query, all, end)|;
            && n <= end && n <= query.limit
            && (query.since.None? && n < query.limit ==> n == end)
            && (query.since.Some? && n < query.limit ==>
                  && (forall i :: 0 <= i < end - n ==> all[i].timestamp < query.since.value)
                  && (n > 0 ==> all[end - n].timestamp >= query.since.value))
            && (query.since.Some? && n == query.limit ==>
                  exists i :: 0 <= i <= end - n && all[i].timestamp >= query.since.value)
  {
    if query.since.Some? {
      var first := FirstSince(all, end, query.since.value);
      assert |InitialBatch(query, all, end)| == Min(query.limit, end - first);
    }
  }

  method PositionAfterInitial(journal: SdJournal, batch: seq<Entry>, ghost end: nat) returns (r: Result<()>)
    requires journal.Valid() && journal.Fault() == None
    requires |batch| <= end <= journal.written && batch == journal.all[end - |batch|..end]
    modifies journal
    ensures journal.Valid() && journal.written >= old(journal.written)
    ensures r.Success? ==> journal.position == if batch == [] then Tail(journal.written) else On(end - 1)
    ensures r.Success? && batch == [] ==> journal.sought == journal.written
    ensures batch == [] ==> journal.written == old(journal.Grown()) && journal.turn == old(journal.turn) + 1
    ensures journal.Fault() == if r.Failure? then Some(r.error.code) else None
  {
    if batch == [] {
      var seek := journal.SeekTail();
      r := if seek.Failed? then Fail(seek.code) else Success(());
    } else {
      r := SeekLast(journal, batch[|batch| - 1], end - 1);
    }
  }

  /** Finds the last entry of the batch again: the journal only grows, so its cursor is still there. */
  method SeekLast(journal: SdJournal, last: Entry, ghost index: nat) returns (r: Result<()>)
    requires journal.Valid() && journal.Fault() == None && index < journal.written && last == journal.all[index]
    modifies journal
    ensures journal.Valid() && journal.written >= old(journal.written)
    ensures r.Success? ==> journal.position == On(index)
    ensures journal.Fault() == if r.Failure? then Some(r.error.code) else None
  {
    var seek := journal.Seek(AtCursor(last.cursor));
    if seek.Failed? {
      return Fail(seek.code);
    }
    assert journal.Fault() == None && journal.NextIndex() <= index;
    var status := journal.Next();
    r := if status.Failed? then Fail(status.code) else if status.AtEnd? then Fail(Conflict) else Success(());
  }

  /** Hands out the batch, checking for a stop before each entry: all of it, unless the sink refuses an entry or the
      stop predicate says yes. */
  method DeliverBatch(batch: seq<Entry>, sink: Sink, stop: StopFlag) returns (r: Result<()>, ghost count: nat)
    requires sink.Refusal() == None && !stop.Stopped()
    modifies sink, stop
    ensures count <= |batch| && sink.received == old(sink.received) + batch[..count]
    ensures r.Success? ==>
              count == |batch| && stop.asked == old(stop.asked) + count && sink.Refusal() == None && !stop.Stopped()
    ensures r.Failure? ==>
              || (sink.Refusal() == Some(r.error.code) && !stop.Stopped() && stop.asked == old(stop.asked) + count)
              || (sink.Refusal() == None && stop.Stopped() && r.error.code == Interrupted
                  && count < |batch| && stop.asked == old(stop.asked) + count + 1)
  {
    count := 0;
    for i := 0 to |batch|
      invariant count == i && sink.received == old(sink.received) + batch[..i]
      invariant stop.asked == old(stop.asked) + i
      invariant sink.Refusal() == None && !stop.Stopped()
    {
      var stopped := stop.Requested();
      if stopped {
        r := Fail(Interrupted);
        return;
      }
      var accepted := sink.Accept(batch[i]);
      count := i + 1;
      assert batch[..i + 1] == batch[..i] + [batch[i]];
      if accepted.Err? {
        r := Fail(accepted.code);
        return;
      }
    }
    r := Success(());
  }

  /** Where the entries still to be delivered start. */
  ghost predicate Ahead(journal: SdJournal, next: nat)
    reads journal
  {
    journal.position == Gap(next) || (next > 0 && journal.position == On(next - 1))
  }

  /** The handle has been moved, or stands at the tail. */
  ghost predicate Placed(journal: SdJournal)
    reads journal
  {
    journal.position.On? || journal.position.Gap? || journal.position.Tail?
  }

  datatype Step = Delivered | Drained | Ended(error: ErrorCode)

  /** The next move finds an entry, and neither moving nor reading fails. */
  ghost predicate Finds(journal: SdJournal)
    requires journal.Valid()
    reads journal
  {
    && journal.NextIndex() < journal.Grown()
    && TurnAt(journal.script, journal.turn).fault.None? && TurnAt(journal.script, journal.turn + 1).fault.None?
  }

  /** The last seek to the tail stays on record, and so does the last move away from it; if the handle stood at the tail
      and has left it since, that was the first move since. */
  twostate predicate TailRecorded(journal: SdJournal)
    requires old(journal.Valid())
    reads journal
  {
    && journal.sought == old(journal.sought)
    && (!old(journal.position.Tail?) ==>
          !journal.position.Tail? && journal.landed == old(journal.landed) && journal.moved == old(journal.moved))
    && (old(journal.position.Tail?) && !journal.position.Tail? ==>
          journal.landed == old(journal.NextIndex()) && journal.moved == old(journal.Grown()))
  }

  /** One turn of the inner loop: delivers at most the entry the next move finds. */
  method DeliverNext(journal: SdJournal, sink: Sink, stop: StopFlag) returns (step: Step, ghost upTo: nat)
    requires journal.Valid() && Placed(journal) && StandingOf(journal, sink, stop) == Going
    modifies journal, sink, stop
    ensures journal.Valid() && journal.written >= old(journal.written)
    ensures old(journal.NextIndex()) <= upTo <= old(journal.NextIndex()) + 1 && upTo <= journal.written
    ensures sink.received == old(sink.received) + journal.all[old(journal.NextIndex())..upTo]
    ensures step.Delivered? || step.Drained? ==> Ahead(journal, upTo)
    ensures step.Delivered? ==> upTo > old(journal.NextIndex())
    ensures step.Drained? ==> upTo == old(journal.NextIndex()) == journal.written
    ensures old(Finds(journal)) ==> upTo > old(journal.NextIndex())
    ensures TailRecorded(journal) && (upTo > old(journal.NextIndex()) || step.Drained? ==> !journal.position.Tail?)
    ensures StandingOf(journal, sink, stop) == if step.Ended? then EndedBy(step.error) else Going
    ensures stop.asked >= old(stop.asked) && stop.Patience() <= old(stop.Patience())
    ensures step.Delivered? ==> stop.asked == old(stop.asked) + 1 && stop.Patience() < old(stop.Patience())
    ensures stop.asked - old(stop.asked) <= upTo - old(journal.NextIndex())
    ensures journal.waits == old(journal.waits)
  {
    ghost var at := journal.NextIndex();
    upTo := at;
    var status := journal.Next();
    assert status.Failed? || journal.Fault() == None;
    if status.Failed? {
      step := Ended(status.code);
    } else if status.AtEnd? {
      step := Drained;
    } else {
      step, upTo := DeliverHere(journal, sink, stop);
    }
  }

  /** Reads the entry the handle stands on, hands it out and asks for a stop. */
  method DeliverHere(journal: SdJournal, sink: Sink, stop: StopFlag) returns (step: Step, ghost upTo: nat)
    requires journal.Valid() && journal.position.On? && StandingOf(journal, sink, stop) == Going
    modifies journal`written, journal`turn, sink, stop
    ensures journal.Valid() && journal.written >= old(journal.written) && !step.Drained?
    ensures journal.position.index <= upTo <= journal.position.index + 1
    ensures sink.received == old(sink.received) + journal.all[journal.position.index..upTo]
    ensures step.Delivered? || TurnAt(journal.script, old(journal.turn)).fault.None? ==> upTo == journal.position.index + 1
    ensures StandingOf(journal, sink, stop) == if step.Ended? then EndedBy(step.error) else Going
    ensures stop.asked >= old(stop.asked) && stop.Patience() <= old(stop.Patience())
    ensures step.Delivered? ==> stop.asked == old(stop.asked) + 1 && stop.Patience() < old(stop.Patience())
    ensures stop.asked - old(stop.asked) <= upTo - journal.position.index
  {
    upTo := journal.position.index;
    var entry := journal.ReadCurrent();
    if entry.Err? {
      step := Ended(entry.code);
    } else {
      assert journal.Fault() == None;
      upTo := upTo + 1;
      assert journal.all[upTo - 1..upTo] == [entry.value];
      var accepted := sink.Accept(entry.value);
      if accepted.Err? {
        step := Ended(accepted.code);
      } else {
        var stopped := stop.Requested();
        step := if stopped then Ended(Interrupted) else Step.Delivered;
      }
    }
  }

  lemma StretchGrows(all: seq<Entry>, from: nat, upTo: nat, last: nat)
    requires from <= upTo <= last <= |all|
    ensures all[from..upTo] + all[upTo..last] == all[from..last]
  {
  }

  /** Delivers what is there, entry by entry, until the end, an error or a stop. */
  method Drain(journal: SdJournal, sink: Sink, stop: StopFlag) returns (r: Result<()>, ghost upTo: nat)
    requires journal.Valid() && Placed(journal) && StandingOf(journal, sink, stop) == Going
    modifies journal, sink, stop
    ensures journal.Valid() && journal.written >= old(journal.written) && stop.Patience() <= old(stop.Patience())
    ensures old(journal.NextIndex()) <= upTo <= journal.written
    ensures sink.received == old(sink.received) + journal.all[old(journal.NextIndex())..upTo]
    ensures r.Success? ==> Ahead(journal, upTo) && upTo == journal.written
    ensures old(Finds(journal)) ==> upTo > old(journal.NextIndex())
    ensures TailRecorded(journal) && (upTo > old(journal.NextIndex()) || r.Success? ==> !journal.position.Tail?)
    ensures StandingOf(journal, sink, stop) == if r.Failure? then EndedBy(r.error.code) else Going
    ensures upTo - old(journal.NextIndex()) <= stop.asked - old(stop.asked) + if r.Success? then 0 else 1
    ensures stop.asked - old(stop.asked) <= upTo - old(journal.NextIndex())
    ensures journal.waits == old(journal.waits)
  {
    ghost var from := journal.NextIndex();
    var step;
    step, upTo := DeliverNext(journal, sink, stop);
    if step.Delivered? {
      ghost var last;
      r, last := DrainOn(journal, sink, stop, upTo);
      DeliveredStretch(old(sink.received), journal.all, from, upTo, last);
      upTo := last;
    } else {
      r := if step.Drained? then Success(()) else Fail(step.error);
    }
  }

  /** Goes on behind an entry that was delivered. */
  method DrainOn(journal: SdJournal, sink: Sink, stop: StopFlag, ghost from: nat) returns (r: Result<()>, ghost upTo: nat)
    requires journal.Valid() && Ahead(journal, from) && StandingOf(journal, sink, stop) == Going
    modifies journal, sink, stop
    ensures journal.Valid() && journal.written >= old(journal.written) && stop.Patience() <= old(stop.Patience())
    ensures from <= upTo <= journal.written
    ensures sink.received == old(sink.received) + journal.all[from..upTo]
    ensures r.Success? ==> Ahead(journal, upTo) && upTo == journal.written
    ensures TailRecorded(journal)
    ensures StandingOf(journal, sink, stop) == if r.Failure? then EndedBy(r.error.code) else Going
    ensures upTo - from <= stop.asked - old(stop.asked) + if r.Success? then 0 else 1
    ensures stop.asked - old(stop.asked) <= upTo - from
    ensures journal.waits == old(journal.waits)
  {
    var step := Step.Delivered;
    upTo := from;
    while step.Delivered?
      invariant journal.Valid() && journal.written >= old(journal.written) && stop.Patience() <= old(stop.Patience())
      invariant from <= upTo <= journal.written
      invariant TailRecorded(journal) && journal.waits == old(journal.waits)
      invariant step.Delivered? || step.Drained? ==> Ahead(journal, upTo)
      invariant step.Drained? ==> upTo == journal.written
      invariant sink.received == old(sink.received) + journal.all[from..upTo]
      invariant StandingOf(journal, sink, stop) == if step.Ended? then EndedBy(step.error) else Going
      invariant upTo - from <= stop.asked - old(stop.asked) + if step.Ended? then 1 else 0
      invariant stop.asked - old(stop.asked) <= upTo - from
      decreases stop.Patience(), step.Delivered?
    {
      ghost var last;
      step, last := DeliverNext(journal, sink, stop);
      DeliveredStretch(old(sink.received), journal.all, from, upTo, last);
      upTo := last;
    }
    r := if step.Drained? then Success(()) else Fail(step.error);
  }

  /** One round of the endless part of follow: unless a stop is asked for, drain and wait. */
  method Round(journal: SdJournal, sink: Sink, stop: StopFlag) returns (r: Result<()>, ghost upTo: nat)
    requires journal.Valid() && Placed(journal) && StandingOf(journal, sink, stop) == Going
    modifies journal, sink, stop
    ensures journal.Valid() && journal.written >= old(journal.written)
    ensures old(journal.NextIndex()) <= upTo <= |journal.all|
    ensures upTo <= journal.written || upTo == old(journal.NextIndex())
    ensures sink.received == old(sink.received) + journal.all[old(journal.NextIndex())..upTo]
    ensures r.Success? ==> Ahead(journal, upTo) && stop.Patience() < old(stop.Patience())
    ensures old(Finds(journal)) && !AnswerAt(stop.answers, old(stop.asked)) ==> upTo > old(journal.NextIndex())
    ensures TailRecorded(journal) && (upTo > old(journal.NextIndex()) || r.Success? ==> !journal.position.Tail?)
    ensures StandingOf(journal, sink, stop) == if r.Failure? then EndedBy(r.error.code) else Going
    ensures upTo - old(journal.NextIndex()) <= stop.asked - old(stop.asked)
    ensures r.Success? ==> upTo >= old(journal.written)
    ensures stop.asked - old(stop.asked) <= upTo - old(journal.NextIndex()) + 1
    ensures r.Success? ==> journal.waits == old(journal.waits) + 1
  {
    upTo := journal.NextIndex();
    var stopped := stop.Requested();
    if stopped {
      r := Fail(Interrupted);
    } else {
      r, upTo := Drain(journal, sink, stop);
      if r.Success? {
        var status := journal.Wait();
        if status.Failed? { r := Fail(status.code); }
      }
    }
  }

  /** The endless part of follow: it only ends with an error or a stop. */
  method Keep(journal: SdJournal, sink: Sink, stop: StopFlag) returns (r: Result<()>, ghost upTo: nat)
    requires journal.Valid() && Placed(journal) && StandingOf(journal, sink, stop) == Going
    modifies journal, sink, stop
    ensures journal.Valid() && r.Failure? && journal.written >= old(journal.written)
    ensures old(journal.NextIndex()) <= upTo <= |journal.all|
    ensures upTo <= journal.written || upTo == old(journal.NextIndex())
    ensures sink.received == old(sink.received) + journal.all[old(journal.NextIndex())..upTo]
    ensures old(Finds(journal)) && !AnswerAt(stop.answers, old(stop.asked)) ==> upTo > old(journal.NextIndex())
    ensures TailRecorded(journal) && (upTo > old(journal.NextIndex()) ==> !journal.position.Tail?)
    ensures StandingOf(journal, sink, stop) == EndedBy(r.error.code)
    ensures upTo - old(journal.NextIndex()) <= stop.asked - old(stop.asked)
    ensures upTo < old(journal.written) ==> stop.asked - old(stop.asked) <= upTo - old(journal.NextIndex()) + 1
  {
    ghost var from := journal.NextIndex();
    r, upTo := Round(journal, sink, stop);
    while r.Success?
      invariant journal.Valid() && journal.written >= old(journal.written) && from <= upTo
      invariant upTo <= journal.written || upTo == from
      invariant old(Finds(journal)) && !AnswerAt(stop.answers, old(stop.asked)) ==> upTo > from
      invariant TailRecorded(journal) && (upTo > from || r.Success? ==> !journal.position.Tail?)
      invariant r.Success? ==> Ahead(journal, upTo)
      invariant sink.received == old(sink.received) + journal.all[from..upTo]
      invariant StandingOf(journal, sink, stop) == if r.Failure? then EndedBy(r.error.code) else Going
      invariant upTo - from <= stop.asked - old(stop.asked)
      invariant upTo < old(journal.written) ==> r.Failure? && stop.asked - old(stop.asked) <= upTo - from + 1
      decreases r.Success?, stop.Patience()
    {
      ghost var last;
      r, last := Round(journal, sink, stop);
      DeliveredStretch(old(sink.received), journal.all, from, upTo, last);
      upTo := last;
    }
  }

  /** How a follow went. With a non-empty batch it started with that batch, when `seen` entries were written. With an
      empty one it sought the tail when `seek` entries were written, and its first move, when `moved` were, took up the
      journal at entry `landed`. */
  datatype FollowRun =
    | NotBegun
    | FromBatch(end: nat, seen: nat, upTo: nat)
    | FromTail(end: nat, seek: nat, landed: nat, moved: nat, upTo: nat)

  ghost predicate FollowPhase(query: LogQuery, all: seq<Entry>, run: FollowRun) {
    run != NotBegun ==>
      && Legal(query)
      && run.end <= |all| && run.upTo <= |all|
      && var batch := InitialBatch(query, all, run.end);
         match run
         case FromBatch(end, seen, upTo) => batch != [] && end - |batch| <= upTo && end <= seen <= |all|
         case FromTail(end, seek, landed, moved, upTo) =>
           batch == [] && end <= seek <= landed <= moved <= |all| && landed <= upTo
  }

  /** What the sink is given. */
  ghost function Handed(query: LogQuery, all: seq<Entry>, run: FollowRun): seq<Entry>
    requires FollowPhase(query, all, run)
  {
    match run
    case NotBegun => []
    case FromBatch(end, _, upTo) =>
      var batch := InitialBatch(query, all, end);
      assert |batch| <= end;
      all[end - |batch|..upTo]
    case FromTail(_, _, landed, _, upTo) => all[landed..upTo]
  }

  /** The writer is at work just when a query finds nothing: it appends before the seek, and enough before the first
      move for that move to find an entry. */
  ghost predicate Overtaken(journal: SdJournal, query: LogQuery, stop: StopFlag)
    reads journal, stop
  {
    && EmptyAndQuiet(journal) && query.limit > 0 && query.since.None?
    && !AnswerAt(stop.answers, stop.asked) && Overtakes(journal.script, |journal.all|)
  }

  predicate Overtakes(script: seq<Turn>, total: nat) {
    && |script| >= 5 && script[2].fault.None? && script[3].fault.None? && script[4].fault.None?
    && 0 < script[2].appended && script[2].appended + script[3].skipped < Min(total, script[2].appended + script[3].appended)
  }

  /** Once the tail was sought, the next move of such a handle skips what was appended before. */
  lemma OvertakenFinds(journal: SdJournal)
    requires journal.Valid() && Overtakes(journal.script, |journal.all|)
    requires journal.turn == 3 && journal.position == Tail(journal.written)
    requires journal.written == Min(|journal.all|, journal.script[2].appended)
    ensures Finds(journal) && journal.NextIndex() > 0
  {
  }

  /** What the sink gets is one stretch of the journal, each entry once and in order. With a non-empty initial batch
      it starts with the batch and runs on without a gap into whatever is appended meanwhile; with an empty one it
      starts where the first move after the seek landed. It ends for one reason, a fault, a refusal or a yes, and unless
      that came first it has handed out the batch and what was written behind it when it had been placed. */
  method Follow(journal: SdJournal, query: LogQuery, sink: Sink, stop: StopFlag)
    returns (r: Result<()>, ghost run: FollowRun)
    requires journal.Valid() && journal.turn == 0 && StandingOf(journal, sink, stop) == Going
    modifies journal, sink, stop
    ensures journal.Valid() && r.Failure?
    ensures FollowPhase(query, journal.all, run)
    ensures sink.received == old(sink.received) + Handed(query, journal.all, run)
    ensures run != NotBegun ==> old(journal.written) <= run.end
    ensures Handed(query, journal.all, run) != [] ==> run.upTo <= journal.written
    ensures run.FromTail? ==> run.seek == journal.sought
    ensures run.FromTail? && Handed(query, journal.all, run) != [] ==>
              run.landed == journal.landed && run.moved == journal.moved
    ensures old(Overtaken(journal, query, stop)) ==> run.FromTail? && run.end < run.landed < run.upTo
    ensures !Legal(query) ==> r == Fail(InvalidArgument) && StandingOf(journal, sink, stop) == Going
    ensures Legal(query) ==>
              StandingOf(journal, sink, stop) == EndedBy(r.error.code) && (run == NotBegun ==> journal.Fault().Some?)
    ensures |Handed(query, journal.all, run)| <= stop.asked - old(stop.asked)
    ensures run.FromBatch? && run.upTo < run.end ==> journal.Fault() == None
    ensures run.FromBatch? && run.upTo < run.seen ==>
              stop.asked - old(stop.asked) <= |Handed(query, journal.all, run)| + 1
  {
    var batch;
    ghost var end;
    r, batch, end := Begin(journal, query);
    if r.Failure? {
      run := NotBegun;
      return;
    }
    ghost var seek, landed, moved, upTo := journal.written, journal.NextIndex(), journal.Grown(), end;
    if old(Overtaken(journal, query, stop)) { OvertakenFinds(journal); }
    r, upTo := Run(journal, batch, end, sink, stop);
    run := if batch == [] then FromTail(end, seek, landed, moved, upTo) else FromBatch(end, seek, upTo);
  }

  /** The initial batch, with the handle placed behind it. */
  method Begin(journal: SdJournal, query: LogQuery) returns (r: Result<()>, batch: seq<Entry>, ghost end: nat)
    requires journal.Valid() && journal.Fault() == None
    modifies journal
    ensures journal.Valid() && journal.written >= old(journal.written)
    ensures r.Success? ==>
              && Legal(query)
              && old(journal.written) <= end <= journal.written
              && batch == InitialBatch(query, journal.all, end)
              && |batch| <= end && batch == journal.all[end - |batch|..end]
              && journal.position == (if batch == [] then Tail(journal.written) else On(end - 1))
              && (batch == [] ==> journal.sought == journal.written)
    ensures old(EmptyAndQuiet(journal)) && query.limit > 0 && query.since.None?
            && TurnAt(journal.script, old(journal.turn) + 2).fault.None? ==>
              && r.Success? && batch == [] && end == 0 && journal.turn == old(journal.turn) + 3
              && journal.written == Min(|journal.all|, TurnAt(journal.script, old(journal.turn) + 2).appended)
    ensures !Legal(query) ==> r == Fail(InvalidArgument)
    ensures journal.Fault() == if r.Failure? && Legal(query) then Some(r.error.code) else None
  {
    var initial;
    initial, end := Query(journal, query);
    if initial.Failure? {
      return Failure(initial.error), [], end;
    }
    batch := initial.value;
    BatchIsStretch(query, journal.all, end);
    r := PositionAfterInitial(journal, batch, end);
  }

  /** Hands out the batch and goes on from there. */
  method Run(journal: SdJournal, batch: seq<Entry>, ghost end: nat, sink: Sink, stop: StopFlag)
    returns (r: Result<()>, ghost upTo: nat)
    requires journal.Valid() && StandingOf(journal, sink, stop) == Going
    requires |batch| <= end <= journal.written && batch == journal.all[end - |batch|..end]
    requires journal.position == if batch == [] then Tail(journal.written) else On(end - 1)
    modifies journal, sink, stop
    ensures journal.Valid() && r.Failure? && upTo <= |journal.all|
    ensures var from := if batch == [] then old(journal.NextIndex()) else end - |batch|;
            && from <= upTo && (upTo <= journal.written || upTo == from)
            && sink.received == old(sink.received) + journal.all[from..upTo]
    ensures batch == [] && old(Finds(journal)) && !AnswerAt(stop.answers, old(stop.asked)) ==>
              upTo > old(journal.NextIndex())
    ensures batch == [] ==> journal.sought == old(journal.sought)
    ensures batch == [] && upTo > old(journal.NextIndex()) ==>
              journal.landed == old(journal.NextIndex()) && journal.moved == old(journal.Grown())
    ensures StandingOf(journal, sink, stop) == EndedBy(r.error.code)
    ensures var from := if batch == [] then old(journal.NextIndex()) else end - |batch|;
            && from <= upTo && upTo - from <= stop.asked - old(stop.asked)
            && (batch != [] && upTo < end ==> journal.Fault() == None)
            && (batch != [] && upTo < old(journal.written) ==> stop.asked - old(stop.asked) <= upTo - from + 1)
  {
    ghost var next := journal.NextIndex();
    ghost var count, last;
    r, count := DeliverBatch(batch, sink, stop);
    upTo := end - |batch| + count;
    Front(journal.all, end - |batch|, end, count);
    if r.Failure? {
      return;
    }
    r, last := Keep(journal, sink, stop);
    if batch != [] {
      DeliveredStretch(old(sink.received), journal.all, end - |batch|, end, last);
    }
    upTo := last;
  }

  lemma Front(all: seq<Entry>, from: nat, end: nat, count: nat)
    requires from + count <= end <= |all|
    ensures all[from..end][..count] == all[from..from + count]
  {
  }

  lemma DeliveredStretch(before: seq<Entry>, all: seq<Entry>, from: nat, middle: nat, last: nat)
    requires from <= middle <= last <= |all|
    ensures before + all[from..middle] + all[middle..last] == before + all[from..last]
  {
    StretchGrows(all, from, middle, last);
  }

  // ----- why a follow ends -----

  lemma {:induction false} FirstFaultExactly(script: seq<Turn>, n: nat)
    ensures FirstFault(script, n) == None ==> forall k :: 0 <= k < n && k < |script| ==> script[k].fault == None
    ensures FirstFault(script, n).Some? ==> exists k :: 0 <= k < n && k < |script| && script[k].fault == FirstFault(script, n)
  {
    if n > 0 {
      FirstFaultExactly(script, n - 1);
      if FirstFault(script, n - 1).None? && FirstFault(script, n).Some? {
        assert script[n - 1].fault == FirstFault(script, n);
      }
    }
  }

  lemma {:induction false} FirstRefusalExactly(replies: seq<Reply<()>>, n: nat)
    ensures FirstRefusal(replies, n) == None ==> forall k :: 0 <= k < n && k < |replies| ==> replies[k].Ok?
    ensures FirstRefusal(replies, n).Some? ==>
              exists k :: 0 <= k < n && k < |replies| && replies[k] == Err(FirstRefusal(replies, n).value)
  {
    if n > 0 {
      FirstRefusalExactly(replies, n - 1);
      if FirstRefusal(replies, n - 1).None? && FirstRefusal(replies, n).Some? {
        assert replies[n - 1] == Err(FirstRefusal(replies, n).value);
      }
    }
  }

  lemma {:induction false} AnyYesExactly(answers: seq<bool>, n: nat)
    ensures AnyYes(answers, n) <==> n > |answers| || exists k :: 0 <= k < n && k < |answers| && answers[k]
  {
    if n > 0 {
      AnyYesExactly(answers, n - 1);
      if AnyYes(answers, n) && n <= |answers| && !AnyYes(answers, n - 1) { assert answers[n - 1]; }
    }
  }

  /** A follow ends for one reason, and it is in the scripts: a call on the journal failed with the code, or the sink
      refused an entry with it, or the stop predicate said yes and the code is Interrupted. */
  lemma EndsForOneReason(journal: SdJournal, sink: Sink, stop: StopFlag, code: ErrorCode)
    requires StandingOf(journal, sink, stop) == EndedBy(code)
    ensures var failed := exists k :: 0 <= k < journal.turn && k < |journal.script| && journal.script[k].fault == Some(code);
            var refused := exists k :: 0 <= k < |sink.received| && k < |sink.replies| && sink.replies[k] == Err(code);
            var stopped := stop.asked > |stop.answers|
                           || exists k :: 0 <= k < stop.asked && k < |stop.answers| && stop.answers[k];
            || (failed && !refused && !stopped) || (!failed && refused && !stopped)
            || (!failed && !refused && stopped && code == Interrupted)
  {
    FirstFaultExactly(journal.script, journal.turn);
    FirstRefusalExactly(sink.replies, |sink.received|);
    AnyYesExactly(stop.answers, stop.asked);
  }

  /** A journal that holds these entries and is left alone, a sink that takes everything and a stop predicate that says
      no often enough: the follow hands out the last `limit` entries, all of them and nothing else, and it ends because
      it is told to. */
  method HandsOutTheBatch(all: seq<Entry>, limit: nat, patience: nat) returns (r: Result<()>, received: seq<Entry>)
    requires Distinct(all) && 0 < limit && |all| <= patience
    ensures r.Failure? && r.error.code == Interrupted
    ensures received == if |all| <= limit then all else all[|all| - limit..]
  {
    var journal := new SdJournal(all, |all|, []);
    var sink := new Sink([]);
    var stop := new StopFlag(seq(patience, _ => false));
    ghost var run;
    r, run := Follow(journal, LogQuery(None, limit), sink, stop);
    received := sink.received;
    EndsForOneReason(journal, sink, stop, r.error.code);
    FirstFaultExactly(journal.script, journal.turn);
    if run.FromBatch? { AnyYesExactly(stop.answers, stop.asked); }
    WholeBatch(LogQuery(None, limit), all, run);
  }

  /** With everything written from the start, what is handed out once the batch was, is the batch. */
  lemma WholeBatch(query: LogQuery, all: seq<Entry>, run: FollowRun)
    requires FollowPhase(query, all, run) && run != NotBegun && query.since.None? && run.end == |all|
    requires run.FromBatch? ==> run.upTo >= run.end
    ensures Handed(query, all, run) == if |all| <= query.limit then all else all[|all| - query.limit..]
  {
    assert all[..|all|] == all;
    var first := if |all| <= query.limit then 0 else |all| - query.limit;
    assert InitialBatch(query, all, run.end) == all[first..];
    if run.FromBatch? { assert all[first..run.upTo] == all[first..]; }
  }

  // ----- what a follow loses -----

  /** After a non-empty batch, nothing: the sink gets a prefix of what starts with the batch. */
  lemma BatchIsContinued(query: LogQuery, all: seq<Entry>, run: FollowRun)
    requires FollowPhase(query, all, run) && run.FromBatch?
    ensures var batch := InitialBatch(query, all, run.end);
            |batch| <= run.end && Handed(query, all, run) <= all[run.end - |batch|..]
            && (run.upTo >= run.end ==> batch <= Handed(query, all, run))
  {
    BatchIsStretch(query, all, run.end);
    var first := run.end - |InitialBatch(query, all, run.end)|;
    assert all[first..run.upTo] == all[first..][..run.upTo - first];
    if run.upTo >= run.end { StretchGrows(all, first, run.end, run.upTo); }
  }

  /** After an empty batch the sink gets what it should, a prefix of everything from the end the query saw, exactly
      when nothing was appended up to where the first move after the seek landed, or nothing was delivered at all.
      The entries in between are never delivered. */
  lemma NothingLostExactly(query: LogQuery, all: seq<Entry>, run: FollowRun)
    requires Distinct(all) && FollowPhase(query, all, run) && run.FromTail?
    ensures Handed(query, all, run) <= all[run.end..] <==> run.landed == run.end || Handed(query, all, run) == []
    ensures forall i :: run.end <= i < run.landed ==> all[i] !in Handed(query, all, run)
    ensures run.moved == run.end ==> run.landed == run.end
    ensures run.seek > run.end ==> run.landed > run.end
  {
    var handed := Handed(query, all, run);
    if handed != [] {
      assert handed[0] == all[run.landed] && all[run.end..][0] == all[run.end];
    }
    if run.landed == run.end {
      assert handed == all[run.end..][..run.upTo - run.end];
    }
  }

  /** And it happens: a query that finds nothing, one entry appended before the seek and one before the first move.
      Only the second is ever delivered, though the caller never refuses an entry and nothing fails. */
  method LosesAnEntry(first: Entry, second: Entry, limit: nat) returns (r: Result<()>, received: seq<Entry>)
    requires first.cursor != second.cursor && limit > 0
    ensures r.Failure? && received == [second]
  {
    var append := Turn(1, 0, None);
    var all := [first, second];
    var journal := new SdJournal(all, 0, [QUIET, QUIET, append, append, QUIET]);
    var sink := new Sink([]);
    var stop := new StopFlag([false]);
    var query := LogQuery(None, limit);
    ghost var run;
    r, run := Follow(journal, query, sink, stop);
    received := sink.received;
    assert run.landed == 1 && run.upTo == 2;
  }
}
