/**
 The summary shown after the task list is generated: a fixed sentence when
 there is nothing to render, otherwise a sentence that reports the number of
 tasks in decimal and names them, separated by commas.
 */
module Messages {

  // Written as two literals so that the verifier can read the sentence's first character.
  const UpToDateMessage: string := "All files " + "are up to date, no tasks to render."
  const CountPrefix: string := "There are "
  const CountSuffix: string := " new or updated materials in the task list: "
  const NameSeparator: string := ", "

  predicate IsDigit(c: char)
  {
    '0' <= c <= '9'
  }

  predicate AllDigits(s: string)
  {
    forall i :: 0 <= i < |s| ==> IsDigit(s[i])
  }

  function DigitChar(d: nat): (c: char)
    requires d < 10
    ensures IsDigit(c) && c as int - '0' as int == d
  {
    ('0' as int + d) as char
  }

  /** The decimal spelling of a count, without leading zeros. */
  function NatToString(n: nat): (s: string)
    ensures |s| > 0 && AllDigits(s)
    ensures s[0] == '0' <==> n == 0
    decreases n
  {
    if n < 10 then [DigitChar(n)] else NatToString(n / 10) + [DigitChar(n % 10)]
  }

  /** The number a string of decimal digits denotes. */
  function DecimalValue(s: string): nat
    requires AllDigits(s)
    decreases |s|
  {
    if s == [] then 0 else DecimalValue(s[..|s| - 1]) * 10 + (s[|s| - 1] as int - '0' as int)
  }

  lemma {:induction false} NatToStringValue(n: nat)
    ensures DecimalValue(NatToString(n)) == n
    decreases n
  {
    var s := NatToString(n);
    if n >= 10 {
      NatToStringValue(n / 10);
      assert s[..|s| - 1] == NatToString(n / 10);
    }
  }

  /** The run of decimal digits a string starts with. */
  function LeadingDigits(s: string): (d: string)
    ensures d <= s && AllDigits(d)
    decreases |s|
  {
    if s != [] && IsDigit(s[0]) then [s[0]] + LeadingDigits(s[1..]) else ""
  }

  lemma {:induction false} LeadingDigitsOf(d: string, rest: string)
    requires AllDigits(d)
    requires rest == [] || !IsDigit(rest[0])
    ensures LeadingDigits(d + rest) == d
    decreases |d|
  {
    if d != [] {
      assert (d + rest)[1..] == d[1..] + rest;
      LeadingDigitsOf(d[1..], rest);
    } else {
      assert d + rest == rest;
    }
  }

  /** The count a summary sentence reports. */
  function ReportedCount(msg: string): nat
    requires CountPrefix <= msg
  {
    DecimalValue(LeadingDigits(msg[|CountPrefix|..]))
  }

  /** The total length of a list of strings. */
  function TotalLength(parts: seq<string>): nat
    decreases |parts|
  {
    if parts == [] then 0 else |parts[0]| + TotalLength(parts[1..])
  }

  /** The parts in order with the separator between each two of them. */
  function Join(sep: string, parts: seq<string>): (r: string)
    ensures parts != [] ==> parts[0] <= r
    ensures |r| == TotalLength(parts) + if parts == [] then 0 else (|parts| - 1) * |sep|
    decreases |parts|
  {
    if parts == [] then ""
    else if |parts| == 1 then parts[0]
    else parts[0] + sep + Join(sep, parts[1..])
  }

  /** Appending a part appends the separator and then that part, so the parts keep their order. */
  lemma {:induction false} JoinSnoc(sep: string, parts: seq<string>, p: string)
    requires parts != []
    ensures Join(sep, parts + [p]) == Join(sep, parts) + sep + p
    decreases |parts|
  {
    if |parts| > 1 {
      assert (parts + [p])[1..] == parts[1..] + [p];
      JoinSnoc(sep, parts[1..], p);
    }
  }

  /**
   The summary of a task list: the fixed up-to-date sentence exactly when the
   list is empty; otherwise a sentence that reports the length of the list.
   */
  function TaskMessage(tasks: seq<string>): (msg: string)
    ensures msg == UpToDateMessage <==> tasks == []
    ensures tasks != [] ==> CountPrefix <= msg && ReportedCount(msg) == |tasks|
  {
    if tasks == [] then UpToDateMessage
    else
      var count := NatToString(|tasks|);
      var rest := CountSuffix + Join(NameSeparator, tasks) + ".";
      var msg := CountPrefix + count + rest;
      assert msg[0] == 'T';
      assert msg[|CountPrefix|..] == count + rest;
      assert rest[0] == CountSuffix[0] == ' ';
      LeadingDigitsOf(count, rest);
      NatToStringValue(|tasks|);
      msg
  }
}
