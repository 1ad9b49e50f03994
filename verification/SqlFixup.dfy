/** The SQL dump fix-up: a filter over lines, written in one go or read through buffers. */
module SqlFixup {
  import opened Wrappers

  /** How the input ends: at its end, or with a read error. */
  datatype Ending = EOF | Failed

  /** The length of the first line, with its line feed if it has one: bufio.Reader.ReadString('\n'). */
  function LineLength(s: string): (n: nat)
    ensures n <= |s| && (s != "" ==> n > 0)
    ensures forall i :: 0 <= i < n - 1 ==> s[i] != '\n'
    ensures 0 < n < |s| ==> s[n - 1] == '\n'
  {
    if s == "" then 0
    else if s[0] == '\n' then 1
    else
      var n := LineLength(s[1..]);
      assert forall i :: 0 < i < n ==> s[i] == s[1..][i - 1];
      n + 1
  }

  /** Whether reading the first line also meets the end of the input. */
  predicate MeetsEnd(s: string) { s == "" || (LineLength(s) == |s| && s[|s| - 1] != '\n') }

  lemma {:induction false} MeetsEndIs(s: string)
    ensures MeetsEnd(s) <==> '\n' !in s
  {
    if s != "" {
      var n := LineLength(s);
      if n < |s| { assert s[n - 1] in s; }
    }
  }

  // ---------------------------------------------------------------- one line

  predicate Blank(c: char) { c == ' ' || c == '\t' }

  function IndentLength(s: string): (n: nat)
    ensures n <= |s| && (n < |s| ==> !Blank(s[n]))
  {
    if s == "" || !Blank(s[0]) then 0 else 1 + IndentLength(s[1..])
  }

  /** unicode.ToUpper where the result can be an ASCII letter. */
  function Upper(c: char): char {
    if 'a' <= c <= 'z' then c - 32 as char
    else if c == '\U{131}' then 'I'
    else if c == '\U{17F}' then 'S'
    else c
  }

  predicate StartsUpper(s: string, prefix: string) {
    |prefix| <= |s| && forall i :: 0 <= i < |prefix| ==> Upper(s[i]) == prefix[i]
  }

  predicate IsAlterDatabase(line: string) { StartsUpper(line[IndentLength(line)..], "ALTER DATABASE ") }

  const COLUMN: string := "`AliaseId` int(11) NOT NULL auto_increment,"
  const COLUMN_UPPER: string := "`AliaseId` int(11) NOT NULL AUTO_INCREMENT,"
  const DUMMY: string := "`dummyId` int(11) NOT NULL default '0',\n"
  const INSERT: string := "INSERT INTO `libavtoraliase`"
  const INSERT_NAMED: string := "INSERT INTO `libavtoraliase` (dummyId, BadId, GoodId)"

  /** `fixAuthorAliasSQLLine`. */
  function FixAlias(line: string): string {
    var n := IndentLength(line);
    var indent, trimmed := line[..n], line[n..];
    if COLUMN <= trimmed || COLUMN_UPPER <= trimmed then line + indent + DUMMY
    else if INSERT <= trimmed then indent + INSERT_NAMED + trimmed[|INSERT|..]
    else line
  }

  /** `fixImportSQLLine`. */
  function FixLine(line: string, aliases: bool): string {
    if IsAlterDatabase(line) then "" else if aliases then FixAlias(line) else line
  }

  /** The fix-up of a dump: alias dumps get the missing column as well. */
  function Fixer(aliases: bool): string -> string { line => FixLine(line, aliases) }

  lemma {:induction false} FixerKeepsEmpty(aliases: bool)
    ensures Fixer(aliases)("") == ""
  {
    assert IndentLength("") == 0;
  }

  // ---------------------------------------------------------------- all lines

  /** The lines of the text, each fixed. */
  function FixAll(text: string, fix: string -> string): string
    decreases |text|
  {
    if text == "" then ""
    else
      var n := LineLength(text);
      fix(text[..n]) + FixAll(text[n..], fix)
  }

  lemma {:induction false} FixFirst(text: string, fix: string -> string)
    requires fix("") == ""
    ensures FixAll(text, fix) == fix(text[..LineLength(text)]) + FixAll(text[LineLength(text)..], fix)
  {
    if text == "" {
      assert text[..0] == "" && text[0..] == "";
    }
  }

  /** A bufio.Reader over the text. */
  class LineReader {
    var rest: string
    const ending: Ending

    constructor (text: string, ending: Ending)
      ensures rest == text && this.ending == ending
    {
      rest, this.ending := text, ending;
    }

    method ReadLine() returns (line: string, e: Option<Ending>)
      modifies this
      ensures line == old(rest)[..LineLength(old(rest))] && rest == old(rest)[LineLength(old(rest))..]
      ensures e == if '\n' in old(rest) then None else Some(ending)
      ensures e.Some? ==> rest == ""
      ensures e.None? ==> |rest| < |old(rest)|
    {
      var n := LineLength(rest);
      MeetsEndIs(rest);
      line := rest[..n];
      e := if MeetsEnd(rest) then Some(ending) else None;
      rest := rest[n..];
    }
  }

  // ---------------------------------------------------------------- writing

  /** An io.Writer; with a limit it fails once the limit is reached, having taken what fits. */
  class Sink {
    var written: string
    var room: Option<nat>

    constructor (room: Option<nat>)
      ensures written == "" && this.room == room
    {
      written, this.room := "", room;
    }

    method Write(text: string) returns (ok: bool)
      modifies this
      ensures ok == (old(room).None? || |text| <= old(room).value)
      ensures ok ==> written == old(written) + text
      ensures !ok ==> written == old(written) + text[..old(room).value]
      ensures room == if old(room).None? then None else Some(if ok then old(room).value - |text| else 0)
    {
      if room.Some? && |text| > room.value {
        written, room := written + text[..room.value], Some(0);
        return false;
      }
      written := written + text;
      if room.Some? { room := Some(room.value - |text|); }
      ok := true;
    }
  }

  datatype Outcome = Done | ReadFailed | WriteFailed

  lemma {:induction false} FirstLine(before: string, fixed: string, rest: string, all: string)
    requires all == before + (fixed + rest)
    ensures all == before + fixed + rest
    ensures forall n :: 0 <= n <= |fixed| ==> before + fixed[..n] <= all
  {
  }

  /** Some more of the fixed text has been written: what is left is the text of the remaining lines. */
  ghost predicate Progress(was: string, all: string, now: string, left: string) {
    was + all == now + left
  }

  lemma {:induction false} NothingWritten(was: string, all: string)
    ensures Progress(was, all, was, all)
  {
  }

  lemma {:induction false} NextLine(was: string, all: string, now: string, fixed: string, rest: string)
    requires Progress(was, all, now, fixed + rest)
    ensures Progress(was, all, now + fixed, rest) && (fixed == "" ==> Progress(was, all, now, rest))
    ensures forall n :: 0 <= n <= |fixed| ==> now + fixed[..n] <= was + all
    ensures |now| + |fixed| <= |was| + |all|
  {
    FirstLine(now, fixed, rest, was + all);
  }

  lemma {:induction false} AllWritten(was: string, all: string, now: string)
    requires Progress(was, all, now, "")
    ensures now == was + all
  {
  }

  lemma {:induction false} NoLines(fix: string -> string)
    ensures FixAll("", fix) == ""
  {
  }

  /** `writeImportFixup`: all lines are written in order, up to the first failure. */
  method WriteImportFixup(reader: LineReader, sink: Sink, fix: string -> string) returns (outcome: Outcome)
    requires fix("") == ""
    modifies reader, sink
    ensures sink.written <= old(sink.written) + FixAll(old(reader.rest), fix)
    ensures old(sink.written) <= sink.written
    ensures !outcome.WriteFailed? ==> sink.written == old(sink.written) + FixAll(old(reader.rest), fix)
    ensures !outcome.WriteFailed? ==> (outcome.Done? <==> reader.ending == EOF)
    ensures outcome.WriteFailed? <==> old(sink.room).Some? && old(sink.room).value < |FixAll(old(reader.rest), fix)|
  {
    hide FixAll, Progress;
    ghost var was, all := sink.written, FixAll(reader.rest, fix);
    NothingWritten(was, all);
    while true
      invariant Progress(was, all, sink.written, FixAll(reader.rest, fix)) && was <= sink.written
      invariant sink.room.None? <==> old(sink.room).None?
      invariant sink.room.Some? ==> sink.room.value + |sink.written| == old(sink.room).value + |was|
      decreases |reader.rest|
    {
      FixFirst(reader.rest, fix);
      var line, end := reader.ReadLine();
      var fixed := fix(line);
      NextLine(was, all, sink.written, fixed, FixAll(reader.rest, fix));
      if fixed != "" {
        var ok := sink.Write(fixed);
        if !ok { return WriteFailed; }
      }
      if end.Some? {
        NoLines(fix);
        AllWritten(was, all, sink.written);
        return if end.value == EOF then Done else ReadFailed;
      }
    }
  }

  // ---------------------------------------------------------------- reading

  lemma {:induction false} Regroup(a: string, b: string, c: string)
    ensures a + (b + c) == a + b + c
  {
  }

  class SqlFixupReader {
    const reader: LineReader
    const fix: string -> string
    var pending: string
    var err: Option<Ending>

    constructor (reader: LineReader, aliases: bool)
      ensures this.reader == reader && fix == Fixer(aliases) && pending == "" && err == None
    {
      this.reader, fix, pending, err := reader, Fixer(aliases), "", None;
    }

    ghost predicate Valid()
      reads this, reader
    {
      fix("") == "" && (err.Some? ==> reader.rest == "" && err.value == reader.ending)
    }

    /** What is still to be read. */
    ghost function Remaining(): string
      reads this, reader
    {
      pending + FixAll(reader.rest, fix)
    }

    /** The loop of Read: fixes lines until one is not deleted or the input has ended. */
    method Fetch()
      requires Valid()
      modifies this, reader
      ensures Valid() && Remaining() == old(Remaining())
      ensures pending == "" ==> err.Some?
    {
      while pending == "" && err.None?
        invariant Valid() && Remaining() == old(Remaining())
        decreases if err.None? then 1 else 0, |reader.rest|
      {
        FixFirst(reader.rest, fix);
        var line, end := reader.ReadLine();
        pending, err := fix(line), end;
      }
    }

    /** One Read into a buffer of some size. */
    method Read(size: nat) returns (out: string, e: Option<Ending>)
      requires Valid()
      modifies this, reader
      ensures Valid()
      ensures old(Remaining()) == out + Remaining()
      ensures |out| <= size
      ensures size == 0 ==> e == None
      ensures size > 0 ==> (e.Some? <==> out == "")
      ensures e.Some? ==> e.value == reader.ending && Remaining() == ""
    {
      if size == 0 { return "", None; }
      Fetch();
      if pending != "" {
        var n := if size < |pending| then size else |pending|;
        out, e := pending[..n], None;
        Split(pending, n, FixAll(reader.rest, fix));
        pending := pending[n..];
        return;
      }
      return "", err;
    }

    /** Reading with buffers of any sizes above zero until the end gives the same text as writing. */
    method ReadFully(sizes: nat -> nat) returns (out: string, e: Option<Ending>)
      requires Valid() && forall i :: sizes(i) > 0
      modifies this, reader
      ensures out == old(Remaining()) && e == Some(reader.ending)
    {
      hide FixAll;
      out, e := "", None;
      ghost var all := Remaining();
      var i := 0;
      while e.None?
        invariant Valid() && all == out + Remaining()
        invariant e.Some? ==> e.value == reader.ending && Remaining() == ""
        decreases |Remaining()|, if e.None? then 1 else 0
      {
        var chunk;
        chunk, e := Read(sizes(i));
        Regroup(out, chunk, Remaining());
        out := out + chunk;
        i := i + 1;
      }
    }
  }

  lemma {:induction false} Split(pending: string, n: nat, rest: string)
    requires n <= |pending|
    ensures pending + rest == pending[..n] + (pending[n..] + rest)
  {
  }

  /** Reading a whole dump through buffers of any sizes gives exactly what writing it gives. */
  method ReadMatchesWrite(text: string, ending: Ending, aliases: bool, sizes: nat -> nat)
    returns (out: string, written: string)
    requires forall i :: sizes(i) > 0
    ensures out == written == FixAll(text, Fixer(aliases))
  {
    FixerKeepsEmpty(aliases);
    var first := new LineReader(text, ending);
    var fixup := new SqlFixupReader(first, aliases);
    var end;
    out, end := fixup.ReadFully(sizes);
    var second := new LineReader(text, ending);
    var sink := new Sink(None);
    var _ := WriteImportFixup(second, sink, Fixer(aliases));
    assert "" + FixAll(text, Fixer(aliases)) == FixAll(text, Fixer(aliases));
    written := sink.written;
  }

  // ---------------------------------------------------------------- what the filter does

  /** No line of the text is an ALTER DATABASE statement. */
  predicate NoAlter(text: string)
    decreases |text|
  {
    text == "" || (!IsAlterDatabase(text[..LineLength(text)]) && NoAlter(text[LineLength(text)..]))
  }

  /** Outside alias dumps the filter is the identity exactly when no line is deleted, and it never
      makes the text longer. */
  lemma {:induction false} IdentityIff(text: string)
    ensures |FixAll(text, Fixer(false))| <= |text|
    ensures FixAll(text, Fixer(false)) == text <==> NoAlter(text)
    decreases |text|
  {
    if text != "" {
      hide LineLength, FixAll;
      var n := LineLength(text);
      FixFirst(text, Fixer(false));
      IdentityIff(text[n..]);
      assert text == text[..n] + text[n..];
      FixedHead(text[..n], FixAll(text[n..], Fixer(false)), text[n..]);
    }
  }

  lemma {:induction false} FixedHead(line: string, fixed: string, rest: string)
    requires line != "" && |fixed| <= |rest|
    ensures Fixer(false)(line) == if IsAlterDatabase(line) then "" else line
    ensures Fixer(false)(line) + fixed == line + rest <==> !IsAlterDatabase(line) && fixed == rest
  {
    if !IsAlterDatabase(line) && line + fixed == line + rest {
      assert (line + fixed)[|line|..] == fixed && (line + rest)[|line|..] == rest;
    }
    if IsAlterDatabase(line) {
      assert |"" + fixed| < |line + rest|;
    }
  }

  // ---------------------------------------------------------------- what happens to a line

  ghost predicate AllBlank(indent: string) { forall i :: 0 <= i < |indent| ==> indent[i] == ' ' || indent[i] == '\t' }

  lemma {:induction false} IndentIs(indent: string, rest: string)
    requires AllBlank(indent) && (rest != "" ==> rest[0] != ' ' && rest[0] != '\t')
    ensures IndentLength(indent + rest) == |indent|
    ensures (indent + rest)[..|indent|] == indent && (indent + rest)[|indent|..] == rest
  {
    if indent == "" {
      assert indent + rest == rest;
    } else {
      IndentIs(indent[1..], rest);
      assert (indent + rest)[1..] == indent[1..] + rest;
    }
  }

  /** A letter of a keyword: the capital, the small one, or the long s that is capitalised to S. */
  predicate IsLetterOf(c: char, capital: char) {
    || c == capital
    || (c as int - 'a' as int == capital as int - 'A' as int && 'a' <= c <= 'z')
    || (c == '\U{17F}' && capital == 'S')
  }

  ghost predicate Spells(s: string, capitals: string) {
    |capitals| <= |s| && forall i :: 0 <= i < |capitals| ==> IsLetterOf(s[i], capitals[i])
  }

  /** A statement that alters a database is deleted, however it is indented and in whichever case it is written. */
  lemma {:induction false} AlterIsDeleted(indent: string, statement: string, aliases: bool)
    requires AllBlank(indent) && Spells(statement, "ALTER DATABASE ")
    ensures FixLine(indent + statement, aliases) == ""
  {
    var capitals := "ALTER DATABASE ";
    assert IsLetterOf(statement[0], capitals[0]);
    IndentIs(indent, statement);
    forall i | 0 <= i < |capitals| ensures Upper(statement[i]) == capitals[i] {
      assert IsLetterOf(statement[i], capitals[i]);
    }
  }

  lemma {:induction false} StartsWith(line: string, first: string, rest: string)
    requires line == first + rest && |first| > 1 && (first[0] == '`' || first[0] == 'I')
    ensures first <= line && line[|first|..] == rest && line[0] == first[0] && line[1] == first[1]
    ensures !StartsUpper(line, "ALTER DATABASE ")
  {
    assert Upper(line[0]) != "ALTER DATABASE "[0];
  }

  /** In an alias dump the column line is followed by one for the dummy column, with the same indent. */
  lemma {:induction false} ColumnIsDoubled(indent: string, column: string, rest: string)
    requires AllBlank(indent)
    requires column in {"`AliaseId` int(11) NOT NULL auto_increment,", "`AliaseId` int(11) NOT NULL AUTO_INCREMENT,"}
    ensures var line := indent + (column + rest);
            && FixLine(line, true) == line + indent + "`dummyId` int(11) NOT NULL default '0',\n"
            && FixLine(line, false) == line
  {
    StartsWith(column + rest, column, rest);
    IndentIs(indent, column + rest);
  }

  /** In an alias dump an insert names the three columns its values are for. */
  lemma {:induction false} InsertIsNamed(indent: string, rest: string)
    requires AllBlank(indent)
    ensures var line := indent + ("INSERT INTO `libavtoraliase`" + rest);
            && FixLine(line, true) == indent + "INSERT INTO `libavtoraliase` (dummyId, BadId, GoodId)" + rest
            && FixLine(line, false) == line
  {
    assert COLUMN[0] == COLUMN_UPPER[0] == '`';
    StartsWith("INSERT INTO `libavtoraliase`" + rest, "INSERT INTO `libavtoraliase`", rest);
    IndentIs(indent, "INSERT INTO `libavtoraliase`" + rest);
  }

  /** Any other line stays as it is. */
  lemma {:induction false} OthersStay(indent: string, statement: string, aliases: bool)
    requires AllBlank(indent) && (statement != "" ==> statement[0] != ' ' && statement[0] != '\t')
    requires |statement| >= 15 ==> exists i :: 0 <= i < 15 && !IsLetterOf(statement[i], "ALTER DATABASE "[i])
    requires aliases ==>
      && !("`AliaseId` int(11) NOT NULL auto_increment," <= statement)
      && !("`AliaseId` int(11) NOT NULL AUTO_INCREMENT," <= statement)
      && !("INSERT INTO `libavtoraliase`" <= statement)
    ensures FixLine(indent + statement, aliases) == indent + statement
  {
    if |statement| >= 15 {
      var i :| 0 <= i < 15 && !IsLetterOf(statement[i], "ALTER DATABASE "[i]);
      assert "ALTER DATABASE "[i] in {'A', 'L', 'T', 'E', 'R', ' ', 'D', 'B', 'S'};
      assert Upper(statement[i]) != "ALTER DATABASE "[i];
    }
    IndentIs(indent, statement);
  }
}
