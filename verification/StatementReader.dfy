/** Reading an inserted row back from the statement: which value stands under which column. */
module StatementReader {
  import opened Options
  import opened Strings
  import opened WireFormat

  /** A value of the list, in single quotes or not. */
  datatype Value = Quoted(text: string) | Plain(text: string)

  datatype Cell = Cell(column: string, value: Value)

  function SkipBlanks(s: string): (r: string)
    ensures |r| <= |s|
  {
    if s != "" && s[0] == ' ' then SkipBlanks(s[1..]) else s
  }

  /** The names between commas, blanks in front of them left out. */
  function Columns(s: string): seq<string>
    decreases |s|
  {
    var n := FirstOf(',', s);
    if n == |s| then [SkipBlanks(s)] else [SkipBlanks(s[..n])] + Columns(s[n + 1..])
  }

  /** The number of characters in front of the first comma or closing parenthesis. */
  function PlainLength(s: string): (n: nat)
    ensures n <= |s|
  {
    if s == "" || s[0] == ',' || s[0] == ')' then 0 else 1 + PlainLength(s[1..])
  }

  /** The first value of a text, and what follows it. */
  function ReadValue(s: string): (r: Option<(Value, string)>)
    ensures r.Some? ==> |r.value.1| <= |s|
  {
    if s == "" then None
    else if s[0] == '\'' then
      var n := FirstOf('\'', s[1..]);
      if n == |s| - 1 then None else Some((Quoted(s[1..][..n]), s[1..][n + 1..]))
    else Some((Plain(s[..PlainLength(s)]), s[PlainLength(s)..]))
  }

  /** The values up to the closing parenthesis, and what follows that. */
  function ReadValues(s: string): Option<(seq<Value>, string)>
    decreases |s|
  {
    var first := ReadValue(SkipBlanks(s));
    if first.None? || first.value.1 == "" then None
    else
      var (value, rest) := first.value;
      if rest[0] == ')' then Some(([value], rest[1..]))
      else if rest[0] != ',' then None
      else
        var others := ReadValues(rest[1..]);
        if others.None? then None else Some(([value] + others.value.0, others.value.1))
  }

  function Pairs(columns: seq<string>, values: seq<Value>): seq<Cell>
    requires |columns| == |values|
  {
    if columns == [] then [] else [Cell(columns[0], values[0])] + Pairs(columns[1..], values[1..])
  }

  /** The row an INSERT statement for a table holds; None if it is not one. */
  function ReadInsert(sql: string, table: string): Option<seq<Cell>> {
    var head := "INSERT INTO " + table + " (";
    if !StartsWith(sql, head) then None
    else
      var body := sql[|head|..];
      var n := FirstOf(')', body);
      if !StartsWith(body[n..], ") VALUES (") then None
      else
        var values := ReadValues(body[n..][10..]);
        if values.None? || values.value.1 != ";" || |Columns(body[..n])| != |values.value.0| then None
        else Some(Pairs(Columns(body[..n]), values.value.0))
  }

  // ----- the parts of a statement -----

  lemma QuotedRead(text: string, rest: string)
    requires '\'' !in text
    ensures ReadValue("'" + (text + "'" + rest)) == Some((Quoted(text), rest))
  {
    var s := "'" + (text + "'" + rest);
    assert s[1..] == text + ['\''] + rest;
    FirstOfBehind('\'', text, rest);
    assert s[1..][..|text|] == text && s[1..][|text| + 1..] == rest;
  }

  lemma {:induction false} PlainScanned(text: string, rest: string)
    requires ',' !in text && ')' !in text && rest != "" && rest[0] == ','
    ensures PlainLength(text + rest) == |text|
    decreases |text|
  {
    if text == "" {
      assert text + rest == rest;
    } else {
      assert (text + rest)[1..] == text[1..] + rest;
      PlainScanned(text[1..], rest);
    }
  }

  lemma NumberRead(n: nat, rest: string)
    ensures ReadValue(ToDecimal(n) + ("," + rest)) == Some((Plain(ToDecimal(n)), "," + rest))
    ensures ToDecimal(n)[0] != ' '
  {
    var text := ToDecimal(n);
    forall c | c in text ensures c != ',' && c != ')' {
      var i :| 0 <= i < |text| && text[i] == c;
      assert IsDigit(text[i]);
    }
    assert IsDigit(text[0]);
    PlainScanned(text, "," + rest);
    var s := text + ("," + rest);
    assert s[0] == text[0] && s[..|text|] == text && s[|text|..] == "," + rest;
  }

  /** A number behind a blank, and the values that follow it. */
  lemma NumberThenMore(n: nat, more: string)
    requires ReadValues(more).Some?
    ensures ReadValues(" " + (ToDecimal(n) + "," + more)) ==
              Some(([Plain(ToDecimal(n))] + ReadValues(more).value.0, ReadValues(more).value.1))
  {
    NumberRead(n, more);
    var s := ToDecimal(n) + ("," + more);
    assert " " + (ToDecimal(n) + "," + more) == " " + s && (" " + s)[1..] == s && s[0] == ToDecimal(n)[0];
    assert SkipBlanks(" " + s) == s;
    assert ("," + more)[1..] == more;
  }

  lemma LastRead(time: string)
    requires '\'' !in time
    ensures ReadValues(" '" + (time + "'" + ");")) == Some(([Quoted(time)], ";"))
  {
    QuotedRead(time, ");");
    var s := "'" + (time + "'" + ");");
    assert " '" + (time + "'" + ");") == " " + s && (" " + s)[1..] == s;
    assert SkipBlanks(" " + s) == s;
    assert ");"[1..] == ";";
  }

  lemma ValuesRead(d: ClientDetail)
    requires '\'' !in d.clientKey && '\'' !in d.dateTime
    ensures ReadValues(ValueList(d)) ==
              Some(([Quoted(d.clientKey)]
                    + ([Plain(ToDecimal(d.memoryPct))]
                       + ([Plain(ToDecimal(d.cpuPct))] + ([Plain(ToDecimal(d.processesCnt))] + [Quoted(d.dateTime)]))), ";"))
  {
    LastRead(d.dateTime);
    NumberThenMore(d.processesCnt, AfterProcesses(d));
    NumberThenMore(d.cpuPct, AfterCpu(d));
    NumberThenMore(d.memoryPct, AfterMemory(d));
    assert ReadValues(AfterKey(d)).Some?;
    hide AfterKey;
    KeyThenMore(d.clientKey, AfterKey(d));
  }

  lemma KeyThenMore(key: string, more: string)
    requires '\'' !in key && ReadValues(more).Some?
    ensures ReadValues("'" + (key + "'" + ("," + more))) == Some(([Quoted(key)] + ReadValues(more).value.0, ReadValues(more).value.1))
  {
    QuotedRead(key, "," + more);
    assert ("," + more)[1..] == more;
  }

  // ----- the columns -----

  /** A name that a list of columns can hold. */
  predicate IsColumn(name: string) {
    name != "" && name[0] != ' ' && ',' !in name && ')' !in name
  }

  lemma ColumnThenMore(blank: string, name: string, more: string)
    requires IsColumn(name) && blank in ["", " "]
    ensures Columns(blank + name + ", " + more) == [name] + Columns(" " + more)
    ensures Columns(blank + name) == [name]
  {
    var first := blank + name;
    assert SkipBlanks(first) == name by {
      assert blank == "" ==> first == name;
      assert blank == " " ==> first[1..] == name;
    }
    FirstOfBehind(',', first, " " + more);
    var s := first + "," + (" " + more);
    assert blank + name + ", " + more == s;
    assert s[..|first|] == first && s[|first| + 1..] == " " + more;
  }

  lemma {:induction false} ColumnsOfJoined(blank: string, names: seq<string>)
    requires names != [] && blank in ["", " "] && forall name <- names :: IsColumn(name)
    ensures Columns(blank + Join(names, ", ")) == names
    ensures ')' !in Join(names, ", ")
    decreases |names|
  {
    assert IsColumn(names[0]) && forall name <- names[1..] :: name in names;
    NoParenthesis(names[0]);
    JoinParts(blank, names);
    hide Columns, IsColumn, Join;
    if |names| == 1 {
      ColumnThenMore(blank, names[0], "");
    } else {
      ColumnThenMore(blank, names[0], Join(names[1..], ", "));
      ColumnsOfJoined(" ", names[1..]);
      assert [names[0]] + names[1..] == names;
    }
  }

  lemma JoinParts(blank: string, names: seq<string>)
    requires names != []
    ensures |names| == 1 ==> Join(names, ", ") == names[0]
    ensures |names| > 1 ==>
              && blank + Join(names, ", ") == blank + names[0] + ", " + Join(names[1..], ", ")
              && forall c <- Join(names, ", ") :: c in names[0] || c == ',' || c == ' ' || c in Join(names[1..], ", ")
  {
    if |names| > 1 {
      AppendIsAssociative(blank, names[0] + ", ", Join(names[1..], ", "));
      AppendIsAssociative(blank, names[0], ", ");
    }
  }

  lemma NoParenthesis(name: string)
    requires IsColumn(name)
    ensures ')' !in name
  {
  }

  /** For every table, the value under each column of the statement is that figure of the report:
      key and time quoted, the three numbers as they are printed. */
  lemma StatementHoldsRow(d: ClientDetail, table: string)
    requires '\'' !in d.clientKey && '\'' !in d.dateTime
    ensures ReadInsert(InsertStatement(d, table), table) == Some([
              Cell("CLIENT_KEY", Quoted(d.clientKey)),
              Cell("MEMORY_PCT", Plain(ToDecimal(d.memoryPct))),
              Cell("CPU_PCT", Plain(ToDecimal(d.cpuPct))),
              Cell("NO_PROCESSES", Plain(ToDecimal(d.processesCnt))),
              Cell("DT_TIME", Quoted(d.dateTime))])
  {
    var values := [Quoted(d.clientKey), Plain(ToDecimal(d.memoryPct)), Plain(ToDecimal(d.cpuPct)),
                   Plain(ToDecimal(d.processesCnt)), Quoted(d.dateTime)];
    hide ReadInsert, Columns, ReadValues, Join, ValueList, ToDecimal, IsColumn, Pairs;
    ValuesRead(d);
    FiveInOrder(values);
    AllAreColumns();
    ColumnsOfJoined("", ColumnNames());
    var columns := Join(ColumnNames(), ", ");
    assert "" + columns == columns;
    InsertRead(table, columns, ValueList(d), values);
    PairsOf(ColumnNames(), values);
  }

  lemma FiveInOrder<T>(s: seq<T>)
    requires |s| == 5
    ensures [s[0]] + ([s[1]] + ([s[2]] + ([s[3]] + [s[4]]))) == s
  {
  }

  lemma AllAreColumns()
    ensures forall name <- ColumnNames() :: IsColumn(name)
  {
  }

  lemma InsertRead(table: string, columns: string, list: string, values: seq<Value>)
    requires ')' !in columns && ReadValues(list) == Some((values, ";")) && |Columns(columns)| == |values|
    ensures ReadInsert("INSERT INTO " + table + " (" + (columns + (") VALUES (" + list)), table) == Some(Pairs(Columns(columns), values))
  {
    hide Columns, ReadValues, Pairs, StartsWith, FirstOf;
    HeadAndRest("INSERT INTO " + table + " (", columns + (") VALUES (" + list));
    BodyParts(columns, list);
    HeadAndRest(") VALUES (", list);
  }

  lemma BodyParts(columns: string, list: string)
    requires ')' !in columns
    ensures var tail := ") VALUES (" + list;
            && FirstOf(')', columns + tail) == |columns|
            && (columns + tail)[..|columns|] == columns && (columns + tail)[|columns|..] == tail
  {
    var tail := ") VALUES (" + list;
    FirstOfBehind(')', columns, tail[1..]);
    hide FirstOf;
    assert [')'] + tail[1..] == tail;
    AppendIsAssociative(columns, [')'], tail[1..]);
  }

  lemma HeadAndRest(head: string, rest: string)
    ensures StartsWith(head + rest, head) && (head + rest)[|head|..] == rest
  {
  }

  lemma PairsOf(columns: seq<string>, values: seq<Value>)
    requires |columns| == |values| == 5
    ensures Pairs(columns, values) == [
              Cell(columns[0], values[0]), Cell(columns[1], values[1]), Cell(columns[2], values[2]),
              Cell(columns[3], values[3]), Cell(columns[4], values[4])]
  {
    assert columns == [columns[0]] + ([columns[1]] + ([columns[2]] + ([columns[3]] + ([columns[4]] + []))));
    PairsAt(columns, values, 0);
    PairsAt(columns, values, 1);
    PairsAt(columns, values, 2);
    PairsAt(columns, values, 3);
    PairsAt(columns, values, 4);
  }

  lemma {:induction false} PairsAt(columns: seq<string>, values: seq<Value>, i: nat)
    requires i < |columns| == |values|
    ensures |Pairs(columns, values)| == |columns| && Pairs(columns, values)[i] == Cell(columns[i], values[i])
  {
    if |columns| == 1 {
    } else {
      PairsAt(columns[1..], values[1..], if i == 0 then 0 else i - 1);
    }
  }

  /** In particular different rows are inserted by different statements. */
  lemma StatementDeterminesRow(d: ClientDetail, e: ClientDetail, table: string)
    requires '\'' !in d.clientKey && '\'' !in e.clientKey && '\'' !in d.dateTime && '\'' !in e.dateTime
    requires InsertStatement(d, table) == InsertStatement(e, table)
    ensures d == e
  {
    StatementHoldsRow(d, table);
    StatementHoldsRow(e, table);
    hide ReadInsert, InsertStatement, ToDecimal;
    DigitsRoundTrip(d.memoryPct);
    DigitsRoundTrip(e.memoryPct);
    DigitsRoundTrip(d.cpuPct);
    DigitsRoundTrip(e.cpuPct);
    DigitsRoundTrip(d.processesCnt);
    DigitsRoundTrip(e.processesCnt);
  }
}
