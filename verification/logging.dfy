/**
 * The log sink of source/LogHandler.py. A `LogHandler` holds the level it
 * was constructed with and never changes it, so it is a value here; each
 * severity method yields the line it would print, or None when its gate
 * is closed. Python's `print(tag, msg)` separates its two arguments with one
 * space, which is why every line is the tag, a space, then the message.
 */
module Logging {
  import opened Wrappers
  import opened Text

  datatype Severity = Debug | Info | Warning | Critical | Fatal

  /** Position of a severity in the order Debug < Info < Warning < Critical < Fatal. */
  function Rank(s: Severity): nat
  {
    match s
    case Debug => 0
    case Info => 1
    case Warning => 2
    case Critical => 3
    case Fatal => 4
  }

  /** The bracketed tag and the tabs that follow it. */
  function Tag(s: Severity): string
  {
    match s
    case Debug => "[DEBUG]\t\t"
    case Info => "[INFO]\t\t"
    case Warning => "[WARNING]\t"
    case Critical => "[CRITICAL]\t"
    case Fatal => "[FATAL]\t\t"
  }

  /**
   * The gating rule of the five methods: a message of severity `s` is printed when
   * the configured level is at most the severity's rank, except that debug
   * messages are printed only at level 0 exactly.
   */
  predicate Emits(level: int, s: Severity)
    ensures Emits(level, s) ==> level <= Rank(s)
    ensures level < 0 ==> (Emits(level, s) <==> s != Debug)
    ensures level > 4 ==> !Emits(level, s)
  {
    if s == Debug then level == 0 else level <= Rank(s)
  }

  /** What a logger at `level` prints for a message of severity `s`. */
  function Line(level: int, s: Severity, msg: string): (line: Option<string>)
    ensures line.Some? <==> Emits(level, s)
    ensures line.Some? ==> StartsWith(line.value, Tag(s) + " ") && EndsWith(line.value, msg)
    ensures line.Some? ==> |line.value| == |Tag(s)| + 1 + |msg|
  {
    if Emits(level, s) then Some(Tag(s) + " " + msg) else None
  }

  /** Display column reached after printing `s` from column `col`, tab stops every 8 columns. */
  function ColumnAfter(col: nat, s: string): nat
    decreases |s|
  {
    if s == [] then col
    else ColumnAfter(if s[0] == '\t' then (col / 8 + 1) * 8 else col + 1, s[1..])
  }

  datatype LogHandler = LogHandler(logLevel: int)
  {
    function Debug(msg: string): (line: Option<string>)
      ensures line == Line(logLevel, Severity.Debug, msg)
    {
      if logLevel == 0 then Some("[DEBUG]\t\t" + " " + msg) else None
    }

    function Info(msg: string): (line: Option<string>)
      ensures line == Line(logLevel, Severity.Info, msg)
    {
      if logLevel <= 1 then Some("[INFO]\t\t" + " " + msg) else None
    }

    function Warning(msg: string): (line: Option<string>)
      ensures line == Line(logLevel, Severity.Warning, msg)
    {
      if logLevel <= 2 then Some("[WARNING]\t" + " " + msg) else None
    }

    function Critical(msg: string): (line: Option<string>)
      ensures line == Line(logLevel, Severity.Critical, msg)
    {
      if logLevel <= 3 then Some("[CRITICAL]\t" + " " + msg) else None
    }

    function Fatal(msg: string): (line: Option<string>)
      ensures line == Line(logLevel, Severity.Fatal, msg)
    {
      if logLevel <= 4 then Some("[FATAL]\t\t" + " " + msg) else None
    }

    /**
     * The adapter for a caught exception. `typeName` is the name of the
     * exception's class, which the source reads from `sys.exc_info()`, and
     * `text` is the exception's string form.
     */
    function ExceptionHandling(typeName: string, text: string): (line: Option<string>)
      ensures line.Some? <==> logLevel <= 3
      ensures line.Some? ==>
        line.value == "[CRITICAL]\t Exception type " + typeName + " caught: " + text
    {
      var msg := "Exception type " + typeName + " caught: " + text;
      assert "[CRITICAL]\t" + " " + msg == "[CRITICAL]\t Exception type " + typeName + " caught: " + text;
      Critical(msg)
    }
  }

  /** Apart from debug, raising the level only ever silences a severity. */
  lemma EmitsMonotoneInLevel(lower: int, level: int, s: Severity)
    requires s != Debug && lower <= level && Emits(level, s)
    ensures Emits(lower, s)
  {
  }

  /** Apart from debug, a level that lets a severity through lets every higher one through. */
  lemma EmitsMonotoneInSeverity(level: int, s: Severity, t: Severity)
    requires s != Debug && Rank(s) <= Rank(t) && Emits(level, s)
    ensures Emits(level, t)
  {
  }

  /**
   * Debug is the one severity off the "rank at least level" rule, and it
   * departs from it exactly at negative levels, which silence debug while
   * letting every other severity through.
   */
  lemma DebugDeparture(level: int)
    ensures Emits(level, Debug) != (level <= Rank(Debug)) <==> level < 0
    ensures level < 0 ==> forall s :: s != Debug ==> Emits(level, s)
  {
  }

  /** At level 2 debug and info are silent, and the three others print one line each. */
  lemma LevelTwo(msg: string)
    ensures LogHandler(2).Debug(msg) == None
    ensures LogHandler(2).Info(msg) == None
    ensures LogHandler(2).Warning(msg) == Some("[WARNING]\t " + msg)
    ensures LogHandler(2).Critical(msg) == Some("[CRITICAL]\t " + msg)
    ensures LogHandler(2).Fatal(msg) == Some("[FATAL]\t\t " + msg)
  {
    assert "[WARNING]\t" + " " + msg == "[WARNING]\t " + msg;
    assert "[CRITICAL]\t" + " " + msg == "[CRITICAL]\t " + msg;
    assert "[FATAL]\t\t" + " " + msg == "[FATAL]\t\t " + msg;
  }

  /** Printing text without tabs advances one column per character. */
  lemma {:induction false} ColumnAfterPlain(col: nat, s: string)
    requires '\t' !in s
    ensures ColumnAfter(col, s) == col + |s|
    decreases |s|
  {
    if s != [] {
      assert s[0] in s;
      assert forall c :: c in s[1..] ==> c in s;
      ColumnAfterPlain(col + 1, s[1..]);
    }
  }

  /** Printing `a + b` from `col` is printing `b` from where `a` left off. */
  lemma {:induction false} ColumnAfterAppend(col: nat, a: string, b: string)
    ensures ColumnAfter(col, a + b) == ColumnAfter(ColumnAfter(col, a), b)
    decreases |a|
  {
    if a == [] {
      assert a + b == b;
    } else {
      assert (a + b)[1..] == a[1..] + b;
      ColumnAfterAppend(if a[0] == '\t' then (col / 8 + 1) * 8 else col + 1, a[1..], b);
    }
  }

  /** A tab moves to the next multiple of 8. */
  lemma TabStop(col: nat)
    ensures ColumnAfter(col, "\t") == (col / 8 + 1) * 8
  {
  }

  /** A tab-free name followed by `tabs`: the tabs start at the name's length. */
  lemma TagColumn(name: string, tabs: string)
    requires '\t' !in name
    ensures ColumnAfter(0, name + tabs) == ColumnAfter(|name|, tabs)
  {
    ColumnAfterAppend(0, name, tabs);
    ColumnAfterPlain(0, name);
  }

  /** The tabs after each tag bring every message to the same column. */
  lemma TagsAlign(s: Severity)
    ensures ColumnAfter(0, Tag(s)) == 16
  {
    assert "\t\t" == "\t" + "\t";
    ColumnAfterAppend(6, "\t", "\t");
    ColumnAfterAppend(7, "\t", "\t");
    TabStop(6); TabStop(7); TabStop(8); TabStop(9); TabStop(10);
    match s
    case Debug =>
      assert Tag(s) == "[DEBUG]" + "\t\t";
      TagColumn("[DEBUG]", "\t\t");
    case Info =>
      assert Tag(s) == "[INFO]" + "\t\t";
      TagColumn("[INFO]", "\t\t");
    case Warning =>
      assert Tag(s) == "[WARNING]" + "\t";
      TagColumn("[WARNING]", "\t");
    case Critical =>
      assert Tag(s) == "[CRITICAL]" + "\t";
      TagColumn("[CRITICAL]", "\t");
    case Fatal =>
      assert Tag(s) == "[FATAL]" + "\t\t";
      TagColumn("[FATAL]", "\t\t");
  }
}
