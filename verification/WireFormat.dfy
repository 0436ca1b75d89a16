/** The line a client sends, how the server reads it, and the statement it inserts. */
module WireFormat {
  import opened Strings

  /** One report of a client, as the server holds it; the numbers are `size_t`. */
  datatype ClientDetail = ClientDetail(
    clientKey: string, memoryPct: nat, cpuPct: nat, processesCnt: nat, dateTime: string)

  // ----- decimal numbers -----

  function Digit(d: nat): char
    requires d < 10
  {
    '0' + d as char
  }

  predicate IsDigit(c: char) { '0' <= c <= '9' }

  function ToDecimal(n: nat): (s: string)
    ensures s != "" && forall i :: 0 <= i < |s| ==> IsDigit(s[i])
  {
    if n < 10 then [Digit(n)] else ToDecimal(n / 10) + [Digit(n % 10)]
  }

  /** The number of leading digits. */
  function DigitsIn(s: string): (n: nat)
    ensures n <= |s|
  {
    if s == "" || !IsDigit(s[0]) then 0 else 1 + DigitsIn(s[1..])
  }

  /** The value of a string of digits. */
  function FromDigits(s: string): nat
    requires forall i :: 0 <= i < |s| ==> IsDigit(s[i])
  {
    if s == "" then 0
    else
      assert IsDigit(s[|s| - 1]);
      10 * FromDigits(s[..|s| - 1]) + (s[|s| - 1] - '0') as nat
  }

  predicate IsSpace(c: char) { c == ' ' || '\t' <= c <= '\r' }

  function SkipSpaces(s: string): string {
    if s != "" && IsSpace(s[0]) then SkipSpaces(s[1..]) else s
  }

  lemma {:induction false} LeadingDigitsAreDigits(s: string)
    ensures forall i :: 0 <= i < DigitsIn(s) ==> IsDigit(s[i])
  {
    if s != "" && IsDigit(s[0]) {
      LeadingDigitsAreDigits(s[1..]);
    }
  }

  /** C's `atoi`: blanks, a sign, digits; whatever follows is ignored. */
  function Atoi(s: string): int {
    var t := SkipSpaces(s);
    var signed := t != "" && (t[0] == '-' || t[0] == '+');
    var u := if signed then t[1..] else t;
    LeadingDigitsAreDigits(u);
    var magnitude: int := FromDigits(u[..DigitsIn(u)]);
    if signed && t[0] == '-' then -magnitude else magnitude
  }

  const SIZE_MODULUS: nat := 0x1_0000_0000_0000_0000

  /** An `int` stored in a `size_t`. */
  function ToSize(n: int): nat {
    n % SIZE_MODULUS
  }

  lemma {:induction false} DigitsRoundTrip(n: nat)
    ensures FromDigits(ToDecimal(n)) == n
  {
    if n >= 10 {
      DigitsRoundTrip(n / 10);
      assert ToDecimal(n)[..|ToDecimal(n)| - 1] == ToDecimal(n / 10);
    }
  }

  lemma {:induction false} AllDigits(s: string)
    requires forall i :: 0 <= i < |s| ==> IsDigit(s[i])
    ensures DigitsIn(s) == |s|
  {
    if s == "" {
    } else {
      AllDigits(s[1..]);
    }
  }

  /** Reading back a printed number. */
  lemma AtoiOfDecimal(n: nat)
    ensures Atoi(ToDecimal(n)) == n
  {
    var s := ToDecimal(n);
    assert IsDigit(s[0]);
    AllDigits(s);
    DigitsRoundTrip(n);
    assert s[..|s|] == s;
  }

  lemma {:induction false} SpacesSkipped(blanks: string, s: string)
    requires (forall c <- blanks :: IsSpace(c)) && s != "" && !IsSpace(s[0])
    ensures SkipSpaces(blanks + s) == s
    decreases |blanks|
  {
    if blanks == "" {
      assert blanks + s == s;
    } else {
      assert (blanks + s)[1..] == blanks[1..] + s && blanks[0] in blanks;
      SpacesSkipped(blanks[1..], s);
    }
  }

  lemma {:induction false} DigitsUpTo(digits: string, rest: string)
    requires (forall i :: 0 <= i < |digits| ==> IsDigit(digits[i])) && (rest == "" || !IsDigit(rest[0]))
    ensures DigitsIn(digits + rest) == |digits|
    decreases |digits|
  {
    if digits == "" {
      assert digits + rest == rest;
    } else {
      assert (digits + rest)[1..] == digits[1..] + rest;
      DigitsUpTo(digits[1..], rest);
    }
  }

  /** Blanks in front of a number are skipped, a sign is heeded, and what follows the digits is
      not. */
  lemma AtoiOfSigned(blanks: string, sign: string, n: nat, rest: string)
    requires (forall c <- blanks :: IsSpace(c)) && sign in ["", "+", "-"] && (rest == "" || !IsDigit(rest[0]))
    ensures Atoi(blanks + (sign + (ToDecimal(n) + rest))) == if sign == "-" then -(n as int) else n as int
  {
    var digits := ToDecimal(n);
    var u := digits + rest;
    var t := sign + u;
    assert IsDigit(digits[0]) && u[0] == digits[0];
    assert t == if sign == "" then u else sign + u;
    assert sign != "" ==> t[0] == sign[0] && t[1..] == u;
    SpacesSkipped(blanks, t);
    DigitsUpTo(digits, rest);
    assert u[..|digits|] == digits;
    DigitsRoundTrip(n);
  }

  /** A negative number wraps around in a `size_t`. */
  lemma SizeOfInt(n: int)
    requires -0x8000_0000 <= n < 0x8000_0000
    ensures ToSize(n) == if n < 0 then n + 0x1_0000_0000_0000_0000 else n
  {
  }

  // ----- fields -----

  /** The fields between bars; there is always at least one, possibly empty. */
  function Fields(s: string): (fields: seq<string>)
    ensures |fields| > 0
    decreases |s|
  {
    var n := FirstOf('|', s);
    if n == |s| then [s] else [s[..n]] + Fields(s[n + 1..])
  }

  function JoinFields(fields: seq<string>): string
    requires |fields| > 0
  {
    if |fields| == 1 then fields[0] else fields[0] + "|" + JoinFields(fields[1..])
  }

  lemma FirstField(field: string, rest: string)
    requires '|' !in field
    ensures Fields(field) == [field]
    ensures Fields(field + "|" + rest) == [field] + Fields(rest)
  {
    FirstOfBehind('|', field, rest);
    var s := field + "|" + rest;
    assert s[..|field|] == field && s[|field| + 1..] == rest;
  }

  /** Splitting distributes over a bar. */
  lemma {:induction false} FieldsAppend(s: string, t: string)
    ensures Fields(s + "|" + t) == Fields(s) + Fields(t)
    decreases |s|
  {
    FirstOfBehind('|', s, t);
    var n := FirstOf('|', s);
    if n == |s| {
      FirstField(s, t);
    } else {
      FieldsAppend(s[n + 1..], t);
      CutInFront(s, t, n);
      FieldsInFront(s + "|" + t, s, n, Fields(t));
    }
  }

  lemma FieldsInFront(u: string, s: string, n: nat, rest: seq<string>)
    requires n < |s| && n < |u| && FirstOf('|', s) == n && FirstOf('|', u) == n && u[..n] == s[..n]
    requires Fields(u[n + 1..]) == Fields(s[n + 1..]) + rest
    ensures Fields(u) == Fields(s) + rest
  {
    assert Fields(u) == [s[..n]] + Fields(u[n + 1..]) && Fields(s) == [s[..n]] + Fields(s[n + 1..]);
    hide Fields, FirstOf;
    AppendIsAssociative([s[..n]], Fields(s[n + 1..]), rest);
  }

  lemma CutInFront(s: string, t: string, n: nat)
    requires n < |s|
    ensures (s + "|" + t)[..n] == s[..n]
    ensures (s + "|" + t)[n + 1..] == s[n + 1..] + "|" + t
  {
  }

  /** Splitting and joining are inverses: bar-free fields survive, and so does every line. */
  lemma {:induction false} FieldsOfJoined(fields: seq<string>)
    requires fields != [] && forall f <- fields :: '|' !in f
    ensures Fields(JoinFields(fields)) == fields
  {
    if |fields| == 1 {
      FirstField(fields[0], "");
    } else {
      FieldsOfJoined(fields[1..]);
      FirstField(fields[0], JoinFields(fields[1..]));
    }
  }

  lemma {:induction false} JoinedFields(s: string)
    ensures JoinFields(Fields(s)) == s && forall f <- Fields(s) :: '|' !in f
    decreases |s|
  {
    var n := FirstOf('|', s);
    if n < |s| {
      JoinedFields(s[n + 1..]);
      assert Fields(s)[1..] == Fields(s[n + 1..]);
      assert s == s[..n] + "|" + s[n + 1..];
    } else {
      assert s[..n] == s;
    }
  }

  // ----- the line -----

  function WithoutNewlines(s: string): string {
    if s == "" then "" else (if s[0] == '\n' then "" else [s[0]]) + WithoutNewlines(s[1..])
  }

  lemma {:induction false} ReplacingNewlines(s: string)
    ensures Replaced(s, "\n", "") == WithoutNewlines(s)
    decreases |s|
  {
    var i := Find(s, "\n", 0);
    if i < 0 {
      NoNewline(s);
    } else {
      ReplacingNewlines(s[i + 1..]);
      NewlineAt(s, i);
    }
  }

  lemma {:induction false} NoNewline(s: string)
    requires Find(s, "\n", 0) < 0
    ensures WithoutNewlines(s) == s
  {
    if s == "" {
    } else {
      assert !OccursAt(s, "\n", 0);
      assert [s[0]] + s[1..] == s;
      FindBehind([s[0]], s[1..], "\n", 0);
      assert Find(s, "\n", 1) < 0;
      NoNewline(s[1..]);
    }
  }

  lemma {:induction false} NewlineAt(s: string, i: nat)
    requires Find(s, "\n", 0) == i
    ensures WithoutNewlines(s) == s[..i] + WithoutNewlines(s[i + 1..])
  {
    assert s[i..i + 1] == "\n";
    if i > 0 {
      assert !OccursAt(s, "\n", 0) && s[0..1] == [s[0]];
      var tail := s[1..];
      assert [s[0]] + tail == s;
      FindBehind([s[0]], tail, "\n", 0);
      assert Find(s, "\n", 1) == i;
      NewlineAt(tail, i - 1);
      AppendIsAssociative([s[0]], tail[..i - 1], WithoutNewlines(tail[i..]));
      assert s[..i] == [s[0]] + tail[..i - 1] && tail[i..] == s[i + 1..];
    }
  }

  /** The line for a key, three numbers and the text of the current time. */
  function Line(key: string, memory: nat, cpu: nat, processes: nat, time: string): string {
    key + "|" + (ToDecimal(memory) + "|" + (ToDecimal(cpu) + "|" + (ToDecimal(processes) + "|" + time)))
  }

  /** What the server makes of a line; without five fields the source reads past the end. */
  function Parsed(line: string): ClientDetail
    requires |Fields(line)| >= 5
  {
    var info := Fields(line);
    ClientDetail(info[0], ToSize(Atoi(info[1])), ToSize(Atoi(info[2])), ToSize(Atoi(info[3])), WithoutNewlines(info[4]))
  }

  method ParseToClientDetail(line: string) returns (detail: ClientDetail)
    requires |Fields(line)| >= 5
    ensures detail == Parsed(line)
  {
    var info := Fields(line);
    detail := ClientDetail(info[0], 0, 0, 0, "");
    detail := detail.(memoryPct := ToSize(Atoi(info[1])));
    detail := detail.(cpuPct := ToSize(Atoi(info[2])));
    detail := detail.(processesCnt := ToSize(Atoi(info[3])));
    var time, _ := ReplaceInPlace(info[4], "\n", "");
    info := info[4 := time];
    ReplacingNewlines(Fields(line)[4]);
    detail := detail.(dateTime := info[4]);
  }

  lemma DecimalHasNoBar(n: nat)
    ensures '|' !in ToDecimal(n)
  {
    forall c | c in ToDecimal(n) ensures c != '|' {
      var i :| 0 <= i < |ToDecimal(n)| && ToDecimal(n)[i] == c;
      assert IsDigit(ToDecimal(n)[i]);
    }
  }

  /** The fields of a line: those of the key, the numbers, those of the time. */
  lemma LineFields(key: string, memory: nat, cpu: nat, processes: nat, time: string)
    ensures Fields(Line(key, memory, cpu, processes, time)) ==
              Fields(key) + ([ToDecimal(memory)] + ([ToDecimal(cpu)] + ([ToDecimal(processes)] + Fields(time))))
  {
    DecimalHasNoBar(memory);
    DecimalHasNoBar(cpu);
    DecimalHasNoBar(processes);
    FirstField(ToDecimal(processes), time);
    FirstField(ToDecimal(cpu), ToDecimal(processes) + "|" + time);
    FirstField(ToDecimal(memory), ToDecimal(cpu) + "|" + (ToDecimal(processes) + "|" + time));
    FieldsAppend(key, ToDecimal(memory) + "|" + (ToDecimal(cpu) + "|" + (ToDecimal(processes) + "|" + time)));
  }

  /** The key as the server sees it: up to its first bar. Every line has enough fields. */
  lemma KeyOfLine(key: string, memory: nat, cpu: nat, processes: nat, time: string)
    ensures |Fields(Line(key, memory, cpu, processes, time))| >= 5
    ensures Parsed(Line(key, memory, cpu, processes, time)).clientKey == key[..FirstOf('|', key)]
  {
    LineFields(key, memory, cpu, processes, time);
  }

  /** Parsing a formatted line recovers the key, the numbers and, without its newlines, the time
      up to any bar in it: fields after the fifth do not matter. */
  lemma LineRoundTrip(key: string, memory: nat, cpu: nat, processes: nat, time: string)
    requires '|' !in key
    requires memory < 0x8000_0000 && cpu < 0x8000_0000 && processes < 0x8000_0000
    ensures |Fields(Line(key, memory, cpu, processes, time))| >= 5
    ensures Parsed(Line(key, memory, cpu, processes, time)) ==
              ClientDetail(key, memory, cpu, processes, WithoutNewlines(time[..FirstOf('|', time)]))
    ensures '|' !in time ==> time[..FirstOf('|', time)] == time
  {
    LineFields(key, memory, cpu, processes, time);
    FirstField(key, "");
    ParsedFields(Line(key, memory, cpu, processes, time), key, ToDecimal(memory), ToDecimal(cpu), ToDecimal(processes), Fields(time));
    SizeRoundTrip(memory);
    SizeRoundTrip(cpu);
    SizeRoundTrip(processes);
    FirstOfBehind('|', time, "");
    assert time[..|time|] == time;
  }

  lemma SizeRoundTrip(n: nat)
    requires n < 0x8000_0000
    ensures ToSize(Atoi(ToDecimal(n))) == n
  {
    AtoiOfDecimal(n);
  }

  lemma ParsedFields(line: string, key: string, m: string, c: string, p: string, rest: seq<string>)
    requires Fields(line) == [key] + ([m] + ([c] + ([p] + rest))) && |rest| > 0
    ensures |Fields(line)| >= 5
    ensures Parsed(line) == ClientDetail(key, ToSize(Atoi(m)), ToSize(Atoi(c)), ToSize(Atoi(p)), WithoutNewlines(rest[0]))
  {
  }

  /** The key survives exactly if it holds no bar. */
  lemma KeySurvivesIffBarFree(key: string, memory: nat, cpu: nat, processes: nat, time: string)
    ensures |Fields(Line(key, memory, cpu, processes, time))| >= 5
    ensures Parsed(Line(key, memory, cpu, processes, time)).clientKey == key <==> '|' !in key
  {
    KeyOfLine(key, memory, cpu, processes, time);
    FirstOfBehind('|', key, "");
    if '|' !in key {
      assert key[..|key|] == key;
    }
  }

  // ----- the inserted row -----

  function ColumnNames(): seq<string> { ["CLIENT_KEY", "MEMORY_PCT", "CPU_PCT", "NO_PROCESSES", "DT_TIME"] }

  function InsertStatement(d: ClientDetail, table: string): string {
    "INSERT INTO " + table + " (" + (Join(ColumnNames(), ", ") + (") VALUES (" + ValueList(d)))
  }

  function ValueList(d: ClientDetail): string {
    "'" + (d.clientKey + "'" + ("," + AfterKey(d)))
  }

  function AfterKey(d: ClientDetail): string {
    " " + (ToDecimal(d.memoryPct) + "," + AfterMemory(d))
  }

  function AfterMemory(d: ClientDetail): string {
    " " + (ToDecimal(d.cpuPct) + "," + AfterCpu(d))
  }

  function AfterCpu(d: ClientDetail): string {
    " " + (ToDecimal(d.processesCnt) + "," + AfterProcesses(d))
  }

  function AfterProcesses(d: ClientDetail): string {
    " '" + (d.dateTime + "'" + ");")
  }
}
