/** src/linux/procfs/SystemMetricsParser.cpp:19-63: the aggregate CPU row of /proc/stat. */
module SystemMetricsParser {
  import opened Common
  import opened Text
  import opened Metrics
  import Decimal

  /** std::isspace in the C locale. */
  predicate Space(c: char) {
    c in " \t\n\r" || c == '\U{000B}' || c == '\U{000C}'
  }

  function FirstLine(contents: string): string {
    match Find(contents, '\n')
    case Some(end) => contents[..end]
    case None => contents
  }

  function Sum(values: seq<nat>): nat {
    if values == [] then 0 else Sum(values[..|values| - 1]) + values[|values| - 1]
  }

  /** Columns 3 and 4 of the row: idle and waiting for I/O. */
  function Idle(values: seq<nat>): nat {
    (if |values| > 3 then values[3] else 0) + if |values| > 4 then values[4] else 0
  }

  predicate Counters(tokens: seq<string>) {
    forall i :: 0 <= i < |tokens| ==> Decimal.ParseUnsigned(tokens[i], MAX_UINT64).Some?
  }

  function ValuesOf(tokens: seq<string>): (values: seq<nat>)
    requires Counters(tokens)
    ensures |values| == |tokens|
  {
    seq(|tokens|, i requires 0 <= i < |tokens| => Decimal.ParseUnsigned(tokens[i], MAX_UINT64).value)
  }

  /** The sum, if it fits 64 bits. */
  method CheckedAdd(sum: nat, value: nat) returns (ok: bool, total: nat)
    requires sum <= MAX_UINT64
    ensures ok <==> sum + value <= MAX_UINT64
    ensures total == if ok then sum + value else sum
  {
    if value > MAX_UINT64 - sum {
      return false, sum;
    }
    return true, sum + value;
  }

  lemma {:induction false} SumGrows(values: seq<nat>, n: nat)
    requires n <= |values|
    ensures Sum(values[..n]) <= Sum(values)
  {
    if n < |values| {
      SumGrows(values[..|values| - 1], n);
      assert values[..|values| - 1][..n] == values[..n];
    } else {
      assert values[..n] == values;
    }
  }

  /** Idle are the fourth and fifth counter, the sum counts each of them once, and 64 bits bound each. */
  lemma TicksExactly(values: seq<nat>, more: nat, tokens: seq<string>)
    ensures Sum([]) == 0 && Sum(values + [more]) == Sum(values) + more
    ensures |values| == 4 ==> Idle(values) == values[3]
    ensures |values| >= 5 ==> Idle(values) == values[3] + values[4]
    ensures Counters(tokens) <==> forall i :: 0 <= i < |tokens| ==> Decimal.ParseUnsigned(tokens[i], 0xFFFF_FFFF_FFFF_FFFF).Some?
    ensures Counters(tokens) ==> forall i :: 0 <= i < |tokens| ==>
              ValuesOf(tokens)[i] == Decimal.ParseUnsigned(tokens[i], 0xFFFF_FFFF_FFFF_FFFF).value
  {
    assert (values + [more])[..|values|] == values;
  }

  /** The row is the text up to the first newline, and its fields are separated by blanks, tabs, vertical tabs, form
      feeds or carriage returns. */
  lemma RowExactly(contents: string, c: char)
    ensures '\n' !in FirstLine(contents) && FirstLine(contents) <= contents
    ensures |FirstLine(contents)| < |contents| ==> contents[|FirstLine(contents)|] == '\n'
    ensures Space(c) <==> c as int == 32 || 9 <= c as int <= 13
  {
    if c as int == 32 { assert c == ' '; }
    if c as int == 9 { assert c == '\t'; }
    if c as int == 10 { assert c == '\n'; }
    if c as int == 13 { assert c == '\r'; }
  }

  lemma {:induction false} IdleWithinSum(values: seq<nat>)
    ensures Idle(values) <= Sum(values)
  {
    if |values| > 5 {
      IdleWithinSum(values[..|values| - 1]);
    } else if |values| == 5 {
      assert values[..4][3] == values[3];
      assert values[..4] == values[..4][..3] + [values[3]];
      assert Sum(values[..4]) == Sum(values[..4][..3]) + values[3];
    }
  }

  /** A row is accepted exactly when it is labelled "cpu", has four or more 64-bit counters and their sum fits 64 bits;
      then the total is the exact sum. Since idle is part of the sum, its own overflow check never fires. */
  method ParseCpuTimes(contents: string) returns (r: Result<CpuTimes>)
    ensures var tokens := Split(FirstLine(contents), Space);
            var good := tokens != [] && tokens[0] == "cpu" && Counters(tokens[1..]) && |tokens| >= 5
                        && Sum(ValuesOf(tokens[1..])) <= 0xFFFF_FFFF_FFFF_FFFF;
            r == if good then Success(CpuTimes(Sum(ValuesOf(tokens[1..])), Idle(ValuesOf(tokens[1..])))) else Fail(ParseError)
  {
    var tokens := SplitFields(FirstLine(contents), Space);
    if tokens == [] || tokens[0] != "cpu" {
      return Fail(ParseError);
    }
    r := AddCounters(tokens[1..]);
  }

  lemma OneMoreCounter(tokens: seq<string>, n: nat)
    requires n < |tokens| && Counters(tokens[..n]) && Decimal.ParseUnsigned(tokens[n], MAX_UINT64).Some?
    ensures var value := Decimal.ParseUnsigned(tokens[n], MAX_UINT64).value;
            && Counters(tokens[..n + 1])
            && Sum(ValuesOf(tokens[..n + 1])) == Sum(ValuesOf(tokens[..n])) + value
            && Idle(ValuesOf(tokens[..n + 1])) == Idle(ValuesOf(tokens[..n])) + (if n == 3 || n == 4 then value else 0)
            && Idle(ValuesOf(tokens[..n + 1])) <= Sum(ValuesOf(tokens[..n + 1]))
            && (Counters(tokens) ==> Sum(ValuesOf(tokens[..n + 1])) <= Sum(ValuesOf(tokens)))
  {
    var more := tokens[..n + 1];
    assert more == tokens[..n] + [tokens[n]];
    assert ValuesOf(more)[..n] == ValuesOf(tokens[..n]);
    IdleWithinSum(ValuesOf(more));
    if Counters(tokens) {
      assert ValuesOf(tokens)[..n + 1] == ValuesOf(more);
      SumGrows(ValuesOf(tokens), n + 1);
    }
  }

  method AddCounters(tokens: seq<string>) returns (r: Result<CpuTimes>)
    ensures r == if Counters(tokens) && |tokens| >= 4 && Sum(ValuesOf(tokens)) <= MAX_UINT64
                 then Success(CpuTimes(Sum(ValuesOf(tokens)), Idle(ValuesOf(tokens)))) else Fail(ParseError)
  {
    var total, idle := 0, 0;
    var index := 0;
    while index < |tokens|
      invariant index <= |tokens| && Counters(tokens[..index])
      invariant total == Sum(ValuesOf(tokens[..index])) <= MAX_UINT64
      invariant idle == Idle(ValuesOf(tokens[..index]))
    {
      var value := Decimal.ParseUnsigned(tokens[index], MAX_UINT64);
      if value.None? {
        assert !Counters(tokens);
        return Fail(ParseError);
      }
      OneMoreCounter(tokens, index);
      var ok;
      ok, total := CheckedAdd(total, value.value);
      if !ok {
        return Fail(ParseError);
      }
      if index == 3 || index == 4 {
        ok, idle := CheckedAdd(idle, value.value);
        if !ok {
          return Fail(ParseError);
        }
      }
      index := index + 1;
    }
    assert tokens[..index] == tokens;
    if index < 4 {
      return Fail(ParseError);
    }
    r := Success(CpuTimes(total, idle));
  }

  function PrintCounters(values: seq<nat>): (tokens: seq<string>)
    ensures |tokens| == |values|
  {
    seq(|values|, i requires 0 <= i < |values| => Decimal.Print(values[i]))
  }

  /** A printed row reads back as its counters, whatever lines follow it. */
  lemma PrintedRow(values: seq<nat>, rest: string)
    requires forall i :: 0 <= i < |values| ==> values[i] <= MAX_UINT64
    ensures var tokens := Split(FirstLine("cpu" + Spaced(PrintCounters(values)) + "\n" + rest), Space);
            tokens != [] && tokens[0] == "cpu" && Counters(tokens[1..]) && ValuesOf(tokens[1..]) == values
  {
    var printed := PrintCounters(values);
    forall i | 0 <= i < |printed|
      ensures Token(printed[i], Space) && Decimal.ParseUnsigned(printed[i], MAX_UINT64) == Some(values[i])
    {
      Decimal.ParseInvertsPrint(values[i], MAX_UINT64);
      forall k | 0 <= k < |printed[i]| ensures !Space(printed[i][k]) {
        assert Decimal.IsDigit(printed[i][k]);
      }
    }
    RowEnds(printed, rest);
    assert Token("cpu", Space);
    SplitInvertsSpaced("cpu", printed, Space);
    assert (["cpu"] + printed)[1..] == printed;
  }

  lemma FirstLineIs(row: string, rest: string)
    requires forall i :: 0 <= i < |row| ==> row[i] != '\n'
    ensures FirstLine(row + "\n" + rest) == row
  {
    var tail := "\n" + rest;
    assert row + "\n" + rest == row + tail;
    assert (row + tail)[|row|] == tail[0];
    FindIs(row + tail, '\n', |row|);
  }

  lemma RowEnds(tokens: seq<string>, rest: string)
    requires forall i :: 0 <= i < |tokens| ==> Token(tokens[i], Space)
    ensures FirstLine("cpu" + Spaced(tokens) + "\n" + rest) == "cpu" + Spaced(tokens)
  {
    NoNewline(tokens);
    BehindLabel(Spaced(tokens), rest);
  }

  lemma BehindLabel(counters: string, rest: string)
    requires forall i :: 0 <= i < |counters| ==> counters[i] != '\n'
    ensures FirstLine("cpu" + counters + "\n" + rest) == "cpu" + counters
  {
    FirstLineIs("cpu" + counters, rest);
  }

  lemma {:induction false} NoNewline(tokens: seq<string>)
    requires forall i :: 0 <= i < |tokens| ==> Token(tokens[i], Space)
    ensures forall i :: 0 <= i < |Spaced(tokens)| ==> Spaced(tokens)[i] != '\n'
  {
    if tokens != [] {
      NoNewline(tokens[1..]);
      var first, rest := " " + tokens[0], Spaced(tokens[1..]);
      assert Spaced(tokens) == first + rest;
      forall i | 0 <= i < |first + rest| ensures (first + rest)[i] != '\n' {
        if 0 < i < |first| { assert (first + rest)[i] == tokens[0][i - 1] && !Space(tokens[0][i - 1]); }
      }
    }
  }
}
