/** src/linux/procfs/StatParser.cpp: one line of /proc/PID/stat, whose second field may contain anything. */
module StatParser {
  import opened Common
  import opened Text
  import Decimal

  datatype StatRecord = StatRecord(pid: nat, name: string, state: char, ppid: nat)

  datatype CpuSample = CpuSample(pid: nat, startTime: nat, cpuTime: nat)

  predicate IsClose(s: string, i: int) {
    0 <= i < |s| - 1 && s[i] == ')' && s[i + 1] == ' '
  }

  /** rfind(") "). */
  function LastClose(s: string): (k: Option<nat>)
    ensures k.Some? ==> IsClose(s, k.value) && forall i :: i > k.value ==> !IsClose(s, i)
    ensures k.None? ==> forall i :: !IsClose(s, i)
  {
    LastCloseBelow(s, |s|)
  }

  function LastCloseBelow(s: string, n: nat): (k: Option<nat>)
    requires n <= |s|
    ensures k.Some? ==> k.value < n && IsClose(s, k.value) && forall i :: k.value < i < n ==> !IsClose(s, i)
    ensures k.None? ==> forall i :: i < n ==> !IsClose(s, i)
  {
    if n == 0 then None
    else if IsClose(s, n - 1) then Some(n - 1)
    else LastCloseBelow(s, n - 1)
  }

  function TrimRight(s: string): string {
    if s != "" && s[|s| - 1] == ' ' then TrimRight(s[..|s| - 1]) else s
  }

  function ParsePid(text: string): Option<nat> {
    match Decimal.ParseInt32(text)
    case Some(value) => if value >= 0 then Some(value) else None
    case None => None
  }

  /** Where the parent's field ends: at the next blank, else at the next newline, else with the text. */
  function FieldEnd(s: string, begin: nat): (end: nat)
    requires begin <= |s|
    ensures begin <= end <= |s|
  {
    match Find(s, ' ', begin)
    case Some(k) => k
    case None =>
      match Find(s, '\n', begin)
      case Some(k) => k
      case None => |s|
  }

  /** What the text says once its parentheses have been found. */
  function RecordAt(s: string, open: nat, close: nat): Result<StatRecord>
    requires open < close && close + 4 <= |s|
  {
    match ParsePid(TrimRight(s[..open]))
    case None => Fail(ParseError)
    case Some(pid) =>
      match ParsePid(s[close + 4..FieldEnd(s, close + 4)])
      case None => Fail(ParseError)
      case Some(ppid) => Success(StatRecord(pid, s[open + 1..close], s[close + 2], ppid))
  }

  function StatOf(s: string): Result<StatRecord> {
    match Find(s, '(')
    case None => Fail(ParseError)
    case Some(open) =>
      match LastClose(s)
      case None => Fail(ParseError)
      case Some(close) =>
        if open == 0 || close <= open || close + 4 > |s| then Fail(ParseError) else RecordAt(s, open, close)
  }

  method ParseStat(contents: string) returns (r: Result<StatRecord>)
    ensures r == StatOf(contents)
  {
    var open, close := Find(contents, '('), LastClose(contents);
    if open.None? || close.None? || open.value == 0 || close.value <= open.value || close.value + 4 > |contents| {
      return Fail(ParseError);
    }
    var pidText := contents[..open.value];
    while pidText != "" && pidText[|pidText| - 1] == ' '
      invariant TrimRight(pidText) == TrimRight(contents[..open.value])
      decreases |pidText|
    {
      pidText := pidText[..|pidText| - 1];
    }
    var pid := ParsePid(pidText);
    if pid.None? {
      return Fail(ParseError);
    }
    var begin := close.value + 4;
    var ppid := ParsePid(contents[begin..FieldEnd(contents, begin)]);
    if ppid.None? {
      return Fail(ParseError);
    }
    return Success(StatRecord(pid.value, contents[open.value + 1..close.value], contents[close.value + 2], ppid.value));
  }

  // ----- the CPU reader -----

  predicate Blank(c: char) { c in " \t\r\n" }

  /** Fields 14, 15 and 22 of the record; field 4 is number 0 here. */
  function CpuFrom(pid: nat, fields: seq<string>): Result<CpuSample> {
    if |fields| <= 18 then Fail(ParseError)
    else
      var user := Decimal.ParseUnsigned(fields[10], MAX_UINT64);
      var system := Decimal.ParseUnsigned(fields[11], MAX_UINT64);
      var start := Decimal.ParseUnsigned(fields[18], MAX_UINT64);
      if user.None? || system.None? || start.None? || system.value > MAX_UINT64 - user.value then Fail(ParseError)
      else Success(CpuSample(pid, start.value, user.value + system.value))
  }

  /** The text from the parent's field on. */
  function Tail(s: string): string {
    match LastClose(s)
    case Some(close) => if close + 4 <= |s| then s[close + 4..] else ""
    case None => ""
  }

  function CpuOf(s: string): Result<CpuSample> {
    match StatOf(s)
    case Failure(error) => Failure(error)
    case Success(basic) => CpuFrom(basic.pid, Split(Tail(s), Blank))
  }

  method ParseProcessCpuStat(contents: string) returns (r: Result<CpuSample>)
    ensures r == CpuOf(contents)
  {
    var basic := ParseStat(contents);
    if basic.Failure? {
      return Failure(basic.error);
    }
    var fields := SplitFields(Tail(contents), Blank);
    return CpuFrom(basic.value.pid, fields);
  }

  // ----- what is read, and what is refused -----

  /** Trimming drops the blanks at the end and nothing else. */
  lemma {:induction false} TrimExactly(s: string)
    ensures TrimRight(s) <= s && (TrimRight(s) != "" ==> TrimRight(s)[|TrimRight(s)| - 1] != ' ')
    ensures forall i :: |TrimRight(s)| <= i < |s| ==> s[i] == ' '
  {
    if s != "" && s[|s| - 1] == ' ' { TrimExactly(s[..|s| - 1]); }
  }

  /** `end` is the first blank from `begin` on; without one the first newline, and without that the end. */
  ghost predicate EndsField(s: string, begin: nat, end: nat) {
    && begin <= end <= |s|
    && (forall i :: begin <= i < end ==> s[i] != ' ')
    && ((end < |s| && s[end] == ' ')
        || ((forall i :: end <= i < |s| ==> s[i] != ' ') && (forall i :: begin <= i < end ==> s[i] != '\n')
            && (end < |s| ==> s[end] == '\n')))
  }

  lemma FieldEndExactly(s: string, begin: nat, end: nat)
    requires EndsField(s, begin, end)
    ensures FieldEnd(s, begin) == end
  {
  }

  /** A record is read from any text with a first "(" behind its pid, a last ") " behind that, a state and a blank, and
      a parent; blanks after the pid do not matter, and neither number may be negative. Every other text is refused. */
  lemma StatExactly(s: string, open: nat, close: nat, end: nat)
    requires open < |s| && s[open] == '(' && forall i :: 0 <= i < open ==> s[i] != '('
    requires close + 1 < |s| && s[close] == ')' && s[close + 1] == ' '
    requires forall i :: close < i < |s| - 1 ==> !(s[i] == ')' && s[i + 1] == ' ')
    requires close + 4 <= |s| ==> EndsField(s, close + 4, end)
    ensures StatOf(s).Success? <==>
              && 0 < open < close && close + 4 <= |s|
              && ParsePid(TrimRight(s[..open])).Some? && ParsePid(s[close + 4..end]).Some?
    ensures StatOf(s).Success? ==>
              StatOf(s).value == StatRecord(ParsePid(TrimRight(s[..open])).value, s[open + 1..close], s[close + 2],
                                            ParsePid(s[close + 4..end]).value)
  {
    FindIs(s, '(', open);
    assert IsClose(s, close);
    assert LastClose(s) == Some(close);
    if close + 4 <= |s| { FieldEndExactly(s, close + 4, end); }
  }

  lemma StatRefuses(s: string)
    ensures (forall i :: 0 <= i < |s| ==> s[i] != '(') ==> StatOf(s).Failure?
    ensures (forall i :: 0 <= i < |s| - 1 ==> !(s[i] == ')' && s[i + 1] == ' ')) ==> StatOf(s).Failure?
    ensures StatOf(s).Failure? ==> StatOf(s).error.code == ParseError
  {
    if LastClose(s).Some? { assert IsClose(s, LastClose(s).value); }
  }

  lemma ParsePidExactly(text: string, n: nat)
    ensures ParsePid(text) == Some(n) <==> Decimal.ParseInt32(text) == Some(n as int)
  {
  }

  /** The CPU time needs 19 fields from the parent's on, three of them 64-bit counters, and a sum that fits as well. */
  lemma CpuFromExactly(pid: nat, fields: seq<string>, start: nat, time: nat)
    ensures CpuFrom(pid, fields) == Success(CpuSample(pid, start, time)) <==>
              && |fields| >= 19
              && Decimal.ParseUnsigned(fields[18], 0xFFFF_FFFF_FFFF_FFFF) == Some(start)
              && Decimal.ParseUnsigned(fields[10], 0xFFFF_FFFF_FFFF_FFFF).Some?
              && Decimal.ParseUnsigned(fields[11], 0xFFFF_FFFF_FFFF_FFFF).Some?
              && time == Decimal.ParseUnsigned(fields[10], 0xFFFF_FFFF_FFFF_FFFF).value
                         + Decimal.ParseUnsigned(fields[11], 0xFFFF_FFFF_FFFF_FFFF).value
              && time <= 0xFFFF_FFFF_FFFF_FFFF
    ensures CpuFrom(pid, fields).Failure? ==> CpuFrom(pid, fields).error.code == ParseError
    ensures CpuFrom(pid, fields).Success? ==> CpuFrom(pid, fields).value.pid == pid
  {
  }

  lemma BlankExactly(c: char)
    ensures Blank(c) <==> c == ' ' || c == '\t' || c == '\r' || c == '\n'
  {
  }

  // ----- round trip -----

  function Print(r: StatRecord, more: string): string {
    Decimal.Print(r.pid) + " (" + r.name + ") " + [r.state] + " " + Decimal.Print(r.ppid) + more
  }

  /** What follows the real closing parenthesis and its blank. */
  function AfterName(r: StatRecord, more: string): string {
    [r.state] + " " + Decimal.Print(r.ppid) + more
  }

  lemma TrimOne(s: string)
    requires s != "" && s[|s| - 1] != ' '
    ensures TrimRight(s + " ") == s
  {
    assert (s + " ")[..|s|] == s;
  }

  /** Three pieces of a text, at their places. */
  lemma Pieces(a: string, b: string, c: string)
    ensures (a + b + c)[..|a|] == a && (a + b + c)[|a|..|a| + |b|] == b && (a + b + c)[|a| + |b|..] == c
  {
  }

  lemma PrintPieces(r: StatRecord, more: string)
    ensures Print(r, more) == (Decimal.Print(r.pid) + " (") + r.name + (") " + AfterName(r, more))
  {
  }

  lemma PrintLayout(r: StatRecord, more: string)
    ensures var s, open := Print(r, more), |Decimal.Print(r.pid)| + 1;
            var close := open + 1 + |r.name|;
            && Find(s, '(') == Some(open)
            && IsClose(s, close) && close + 2 < |s| && s[close + 2..] == AfterName(r, more)
            && s[open + 1..close] == r.name && s[..open] == Decimal.Print(r.pid) + " "
  {
    var digits := Decimal.Print(r.pid);
    var head, tail := digits + " (", ") " + AfterName(r, more);
    var open := |digits| + 1;
    PrintPieces(r, more);
    assert head[..open] == digits + " ";
    forall i | 0 <= i < open ensures head[i] != '(' {
      assert i < |digits| ==> Decimal.IsDigit(digits[i]);
    }
    assert tail[2..] == AfterName(r, more);
    PlacesInPieces(head, r.name, tail, open);
  }

  lemma PlacesInPieces(head: string, name: string, tail: string, open: nat)
    requires |head| == open + 1 && head[open] == '(' && forall i :: 0 <= i < open ==> head[i] != '('
    requires |tail| > 2 && tail[0] == ')' && tail[1] == ' '
    ensures var s, close := head + name + tail, open + 1 + |name|;
            && Find(s, '(') == Some(open)
            && IsClose(s, close) && s[close + 2..] == tail[2..]
            && s[open + 1..close] == name && s[..open] == head[..open]
  {
    var s, close := head + name + tail, open + 1 + |name|;
    Pieces(head, name, tail);
    FindIs(s, '(', open);
    assert s[close + 0] == tail[0] && s[close + 1] == tail[1];
    assert s[close + 2..] == s[close..][2..];
    assert s[..open] == s[..open + 1][..open];
  }

  ghost predicate HasClose(s: string) {
    exists i :: IsClose(s, i)
  }

  lemma CloseExactly(s: string)
    ensures !HasClose(s) <==> forall i :: 0 <= i < |s| - 1 ==> !(s[i] == ')' && s[i + 1] == ' ')
  {
    if i :| 0 <= i < |s| - 1 && s[i] == ')' && s[i + 1] == ' ' {
      assert IsClose(s, i);
    }
  }

  /** The last closing mark is the real one exactly when nothing after the name looks like one. */
  lemma RealCloseIsLast(r: StatRecord, more: string)
    ensures var s, close := Print(r, more), |Decimal.Print(r.pid)| + 2 + |r.name|;
            && (LastClose(s) == Some(close) <==> !HasClose(AfterName(r, more)))
            && LastClose(s).Some? && LastClose(s).value >= close
  {
    PrintLayout(r, more);
    var s, close := Print(r, more), |Decimal.Print(r.pid)| + 2 + |r.name|;
    var rest := AfterName(r, more);
    forall i ensures IsClose(rest, i) <==> i >= 0 && IsClose(s, close + 2 + i) {
      if 0 <= i < |rest| - 1 { assert rest[i] == s[close + 2 + i] && rest[i + 1] == s[close + 2 + i + 1]; }
    }
    if LastClose(s).value > close {
      assert s[close + 1] == ' ';
      assert IsClose(rest, LastClose(s).value - close - 2);
    }
    if i :| IsClose(rest, i) {
      assert IsClose(s, close + 2 + i);
    }
  }

  lemma PrintReadsBack(r: StatRecord, more: string)
    requires r.pid <= MAX_INT32 && r.ppid <= MAX_INT32
    requires more == "" || more[0] == ' ' || (more[0] == '\n' && ' ' !in more)
    ensures StatOf(Print(r, more)) == Success(r) <==> !HasClose(AfterName(r, more))
  {
    var s := Print(r, more);
    PrintLayout(r, more);
    RealCloseIsLast(r, more);
    var open, close := |Decimal.Print(r.pid)| + 1, |Decimal.Print(r.pid)| + 2 + |r.name|;
    if LastClose(s) == Some(close) {
      PrintedFields(r, more);
    } else {
      var wrong := LastClose(s).value;
      assert |s[open + 1..wrong]| > |r.name|;
    }
  }

  /** Printing a record and parsing it back returns it, whatever the name contains, exactly when nothing after the
      name looks like its end. */
  lemma StatRoundTrip(r: StatRecord, more: string)
    requires r.pid <= 2147483647 && r.ppid <= 2147483647
    requires more == "" || more[0] == ' ' || (more[0] == '\n' && ' ' !in more)
    ensures StatOf(Decimal.Print(r.pid) + " (" + r.name + ") " + [r.state] + " " + Decimal.Print(r.ppid) + more) == Success(r)
       <==> forall i :: 0 <= i < |AfterName(r, more)| - 1 ==>
              !(AfterName(r, more)[i] == ')' && AfterName(r, more)[i + 1] == ' ')
  {
    CloseExactly(AfterName(r, more));
    PrintReadsBack(r, more);
  }

  lemma PrintedFields(r: StatRecord, more: string)
    requires r.pid <= MAX_INT32 && r.ppid <= MAX_INT32
    requires more == "" || more[0] == ' ' || (more[0] == '\n' && ' ' !in more)
    ensures var s, open := Print(r, more), |Decimal.Print(r.pid)| + 1;
            var close := open + 1 + |r.name|;
            close + 4 <= |s| && s[close + 4..] == Decimal.Print(r.ppid) + more && RecordAt(s, open, close) == Success(r)
  {
    PrintLayout(r, more);
    AfterNameParts(r, more);
    var open := |Decimal.Print(r.pid)| + 1;
    RecordFromParts(Print(r, more), open, open + 1 + |r.name|, r, more);
  }

  lemma RecordFromParts(s: string, open: nat, close: nat, r: StatRecord, more: string)
    requires r.pid <= MAX_INT32 && r.ppid <= MAX_INT32
    requires more == "" || more[0] == ' ' || (more[0] == '\n' && ' ' !in more)
    requires open < close && close + 2 <= |s| && s[close + 2..] == AfterName(r, more)
    requires s[..open] == Decimal.Print(r.pid) + " " && s[open + 1..close] == r.name
    ensures close + 4 <= |s| && s[close + 4..] == Decimal.Print(r.ppid) + more && RecordAt(s, open, close) == Success(r)
  {
    AfterNameParts(r, more);
    SuffixParts(s, close + 2, AfterName(r, more));
    RecordReads(s, open, close, r, more);
  }

  lemma RecordReads(s: string, open: nat, close: nat, r: StatRecord, more: string)
    requires r.pid <= MAX_INT32 && r.ppid <= MAX_INT32
    requires more == "" || more[0] == ' ' || (more[0] == '\n' && ' ' !in more)
    requires open < close && close + 4 <= |s| && s[close + 4..] == Decimal.Print(r.ppid) + more
    requires s[..open] == Decimal.Print(r.pid) + " " && s[open + 1..close] == r.name && s[close + 2] == r.state
    ensures RecordAt(s, open, close) == Success(r)
  {
    PidReads(r.pid, s[..open]);
    ParentReads(s, close + 4, r.ppid, more);
  }

  lemma AfterNameParts(r: StatRecord, more: string)
    ensures |AfterName(r, more)| >= 2 && AfterName(r, more)[0] == r.state
    ensures AfterName(r, more)[2..] == Decimal.Print(r.ppid) + more
  {
  }

  lemma SuffixParts(s: string, at: nat, rest: string)
    requires at <= |s| && s[at..] == rest && |rest| >= 2
    ensures at + 2 <= |s| && s[at] == rest[0] && s[at + 2..] == rest[2..]
  {
  }

  lemma PidReads(pid: nat, text: string)
    requires pid <= MAX_INT32 && text == Decimal.Print(pid) + " "
    ensures ParsePid(TrimRight(text)) == Some(pid)
  {
    TrimOne(Decimal.Print(pid));
    Decimal.ParseInt32InvertsPrint(pid);
  }

  lemma ParentReads(s: string, begin: nat, ppid: nat, more: string)
    requires ppid <= MAX_INT32 && begin <= |s| && s[begin..] == Decimal.Print(ppid) + more
    requires more == "" || more[0] == ' ' || (more[0] == '\n' && ' ' !in more)
    ensures ParsePid(s[begin..FieldEnd(s, begin)]) == Some(ppid)
  {
    FieldEndIs(s, begin, Decimal.Print(ppid), more);
    Decimal.ParseInt32InvertsPrint(ppid);
  }

  lemma FieldEndIs(s: string, begin: nat, digits: string, more: string)
    requires begin <= |s| && s[begin..] == digits + more && Decimal.AllDigits(digits)
    requires more == "" || more[0] == ' ' || (more[0] == '\n' && ' ' !in more)
    ensures FieldEnd(s, begin) == begin + |digits| && s[begin..begin + |digits|] == digits
  {
    forall i | begin <= i < |s|
      ensures s[i] == if i < begin + |digits| then digits[i - begin] else more[i - begin - |digits|]
    {
      assert s[i] == s[begin..][i - begin];
    }
    forall i | begin <= i < begin + |digits| ensures s[i] != ' ' && s[i] != '\n' {
      assert Decimal.IsDigit(digits[i - begin]);
    }
    assert |s| == begin + |digits| + |more|;
    if more != "" {
      assert s[begin + |digits|] == more[0];
      if more[0] == '\n' {
        forall i | begin <= i < |s| ensures s[i] != ' ' {
          if i >= begin + |digits| { assert more[i - begin - |digits|] in more; }
        }
      }
    }
    assert s[begin..][..|digits|] == digits;
  }

  /** The CPU reader picks fields 14, 15 and 22 of whatever record it is given, adds the first two without
      wrap-around, or fails. */
  lemma CpuReadsFields(r: StatRecord, fields: seq<string>)
    requires r.pid <= MAX_INT32 && r.ppid <= MAX_INT32
    requires forall i :: 0 <= i < |fields| ==> Token(fields[i], Blank)
    requires !HasClose(AfterName(r, Spaced(fields)))
    ensures CpuOf(Decimal.Print(r.pid) + " (" + r.name + ") " + [r.state] + " " + Decimal.Print(r.ppid) + Spaced(fields))
         == CpuFrom(r.pid, [Decimal.Print(r.ppid)] + fields)
  {
    var more := Spaced(fields);
    assert more == "" || more[0] == ' ';
    PrintReadsBack(r, more);
    PrintedTail(r, more);
    SplitPrinted(r.ppid, fields);
  }

  lemma PrintedTail(r: StatRecord, more: string)
    requires r.pid <= MAX_INT32 && r.ppid <= MAX_INT32
    requires more == "" || more[0] == ' '
    requires !HasClose(AfterName(r, more))
    ensures Tail(Print(r, more)) == Decimal.Print(r.ppid) + more
  {
    RealCloseIsLast(r, more);
    PrintedFields(r, more);
  }

  lemma SplitPrinted(ppid: nat, fields: seq<string>)
    requires forall i :: 0 <= i < |fields| ==> Token(fields[i], Blank)
    ensures Split(Decimal.Print(ppid) + Spaced(fields), Blank) == [Decimal.Print(ppid)] + fields
  {
    var digits := Decimal.Print(ppid);
    forall i | 0 <= i < |digits| ensures !Blank(digits[i]) {
      assert Decimal.IsDigit(digits[i]);
    }
    SplitInvertsSpaced(digits, fields, Blank);
  }

  /** With printed counters the sum is exact, and a sum that does not fit 64 bits is refused. */
  lemma CpuSumIsExact(pid: nat, fields: seq<string>, user: nat, system: nat, start: nat)
    requires |fields| > 18
    requires fields[10] == Decimal.Print(user) && fields[11] == Decimal.Print(system) && fields[18] == Decimal.Print(start)
    ensures CpuFrom(pid, fields) == if user + system <= 0xFFFF_FFFF_FFFF_FFFF && start <= 0xFFFF_FFFF_FFFF_FFFF
                                    then Success(CpuSample(pid, start, user + system)) else Fail(ParseError)
  {
    Decimal.ParseInvertsPrint(user, MAX_UINT64);
    Decimal.ParseInvertsPrint(system, MAX_UINT64);
    Decimal.ParseInvertsPrint(start, MAX_UINT64);
  }
}
