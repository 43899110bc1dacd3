/**
 * `ExceptionString` of binding.cc: the text stored in `last_exception` after
 * a script fault. What V8 reports about the fault (the `TryCatch` and its
 * `Message`) is an input.
 */
module Exceptions {
  import opened Wrappers
  import opened CStrings

  /** The fields of a `v8::Message` that the formatter reads. */
  datatype Message = Message(
    resourceName: Option<string>,  // the script origin's resource name
    lineNumber: int32,              // GetLineNumber
    sourceLine: Option<string>,     // GetSourceLine
    startColumn: int32,             // GetStartColumn
    endColumn: int32)               // GetEndColumn

  /**
   * What a `v8::TryCatch` holds once it has caught: the exception value, the
   * message (absent when V8 gave none) and the stack trace. `None` stands
   * for a value that did not convert to UTF-8.
   */
  datatype Caught = Caught(exception: Option<string>, message: Option<Message>, stackTrace: Option<string>)

  /** `n` copies of `c`; none when `n` is not positive, as a `for` loop up to `n` gives. */
  function Repeat(c: char, n: int): (r: string)
    ensures |r| == if n > 0 then n else 0
    ensures forall k :: 0 <= k < |r| ==> r[k] == c
    decreases n
  {
    if n <= 0 then [] else Repeat(c, n - 1) + [c]
  }

  /** The size of the scratch buffer the line number is printed into. */
  const ScratchSize: nat := 20

  /** The first two lines: `file:line` and the offending source line. */
  function Header(m: Message): CString {
    ToCString(m.resourceName) + ":" + Decimal(m.lineNumber) + "\n" + ToCString(m.sourceLine) + "\n"
  }

  /** Whether the `Utf8Value` of the stack trace has a positive length. */
  predicate HasStackTrace(c: Caught) {
    c.stackTrace.Some? && |c.stackTrace.value| > 0
  }

  /** The text of the last line: the stack trace when there is one, the exception text otherwise. */
  function LastLine(c: Caught): CString {
    if HasStackTrace(c) then ToCString(c.stackTrace) else ToCString(c.exception)
  }

  /** The header followed by the underline line: `start` spaces, `end - start` carets, a newline. */
  function Underlined(m: Message): CString {
    Header(m) + Repeat(' ', m.startColumn) + Repeat('^', m.endColumn - m.startColumn) + "\n"
  }

  /**
   * The text `ExceptionString` builds for a caught fault: without a message,
   * the exception text; with one, the `file:line` line, the source line,
   * the underline and the last line.
   */
  function ExceptionReport(c: Caught): (r: string)
    ensures '\0' !in r
  {
    match c.message
    case None => ToCString(c.exception) + "\n"
    case Some(m) => Underlined(m) + LastLine(c) + "\n"
  }

  /** One of the underline loops: appends `c` once for each column from `from` up to `to`. */
  method AppendColumns(text: string, c: char, from: int, to: int) returns (t: string)
    ensures t == text + Repeat(c, to - from)
  {
    t := text;
    var i := from;
    while i < to
      invariant from <= i && (i <= to || i == from)
      invariant t == text + Repeat(c, i - from)
    {
      t := t + [c];
      i := i + 1;
    }
  }

  /** The message branch of `ExceptionString` up to the underline's newline. */
  method AppendUnderlined(m: Message) returns (out: string)
    ensures out == Underlined(m)
  {
    // The line number goes through the 20-byte scratch buffer, which it always fits.
    DecimalFitsScratch(m.lineNumber);
    out := ToCString(m.resourceName) + ":" + Snprintf(Decimal(m.lineNumber), ScratchSize) + "\n";
    out := out + ToCString(m.sourceLine) + "\n";
    assert out == Header(m);
    var start := m.startColumn;
    var end := m.endColumn;
    out := AppendColumns(out, ' ', 0, start);
    out := AppendColumns(out, '^', start, end);
    out := out + "\n";
  }

  /** `ExceptionString`, appending piece by piece as the source does. */
  method ExceptionString(c: Caught) returns (out: string)
    ensures out == ExceptionReport(c)
  {
    var exceptionString := ToCString(c.exception);
    if c.message.None? {
      out := exceptionString + "\n";
      return;
    }
    out := AppendUnderlined(c.message.value);
    var last := if c.stackTrace.Some? && |c.stackTrace.value| > 0 then ToCString(c.stackTrace) else exceptionString;
    out := out + last + "\n";
  }

  /** Without a message the report is the exception text and a newline. */
  lemma ReportWithoutMessage(c: Caught)
    requires c.message.None?
    ensures ExceptionReport(c) == ToCString(c.exception) + "\n"
  {
  }

  /** A prefix of `s` stays a prefix of `s + t`. */
  lemma PrefixOfAppend<T>(p: seq<T>, s: seq<T>, t: seq<T>)
    requires |p| <= |s| && s[..|p|] == p
    ensures |p| <= |s + t| && (s + t)[..|p|] == p
  {
    assert (s + t)[..|p|] == s[..|p|];
  }

  /** What follows `a` in `a + b + c` is `b + c`. */
  lemma SuffixOfAppend<T>(a: seq<T>, b: seq<T>, c: seq<T>)
    ensures (a + b + c)[|a|..] == b + c
  {
    assert a + b + c == a + (b + c);
  }

  /** With a message the report opens with `file:line`, then the source line. */
  lemma ReportHeader(c: Caught)
    requires c.message.Some?
    ensures var m := c.message.value;
            var h := ToCString(m.resourceName) + ":" + Decimal(m.lineNumber) + "\n" + ToCString(m.sourceLine) + "\n";
            |h| <= |ExceptionReport(c)| && ExceptionReport(c)[..|h|] == h
  {
    var m := c.message.value;
    var h := Header(m);
    var hs := h + Repeat(' ', m.startColumn);
    var hsc := hs + Repeat('^', m.endColumn - m.startColumn);
    var u := Underlined(m);
    assert u == hsc + "\n";
    assert hs[..|h|] == h;
    PrefixOfAppend(h, hs, Repeat('^', m.endColumn - m.startColumn));
    PrefixOfAppend(h, hsc, "\n");
    PrefixOfAppend(h, u, LastLine(c));
    PrefixOfAppend(h, u + LastLine(c), "\n");
    assert ExceptionReport(c) == u + LastLine(c) + "\n";
  }

  /**
   * When the message names the resource `name` (for a classic script, the
   * name `worker_load` gives V8 as its `ScriptOrigin`), the report opens
   * with that name and a colon, so the error names the script.
   */
  lemma ReportNamesResource(c: Caught, name: CString)
    requires c.message.Some? && c.message.value.resourceName == Some(name)
    ensures name + ":" <= ExceptionReport(c)
  {
    var m := c.message.value;
    var p := ToCString(m.resourceName) + ":";
    assert p == name + ":";
    var pd := p + Decimal(m.lineNumber);
    var pdn := pd + "\n";
    var pdns := pdn + ToCString(m.sourceLine);
    assert pd[..|p|] == p;
    PrefixOfAppend(p, pd, "\n");
    PrefixOfAppend(p, pdn, ToCString(m.sourceLine));
    PrefixOfAppend(p, pdns, "\n");
    ReportHeader(c);
    var r := ExceptionReport(c);
    assert r[..|pdns + "\n"|][..|p|] == r[..|p|];
  }

  /** The underline line of `Underlined(m)`, read by position. */
  lemma UnderlinedColumns(m: Message)
    ensures var u := Underlined(m);
            var o := |Header(m)|;
            var s := if m.startColumn > 0 then m.startColumn else 0;
            var e := if m.endColumn - m.startColumn > 0 then m.endColumn - m.startColumn else 0;
            && |u| == o + s + e + 1
            && (forall k :: o <= k < o + s ==> u[k] == ' ')
            && (forall k :: o + s <= k < o + s + e ==> u[k] == '^')
            && u[o + s + e] == '\n'
  {
    var h := Header(m);
    var spaces := Repeat(' ', m.startColumn);
    var carets := Repeat('^', m.endColumn - m.startColumn);
    var hs := h + spaces;
    var hsc := hs + carets;
    var u := Underlined(m);
    assert u == hsc + "\n";
    forall k | |h| <= k < |h| + |spaces|
      ensures u[k] == ' '
    {
      assert hs[k] == spaces[k - |h|];
      assert u[k] == hsc[k] == hs[k];
    }
    forall k | |hs| <= k < |hs| + |carets|
      ensures u[k] == '^'
    {
      assert hsc[k] == carets[k - |hs|];
      assert u[k] == hsc[k];
    }
  }

  /**
   * After the header comes exactly `start` spaces (none when `start` is not
   * positive), then `end - start` carets (none when that is not positive),
   * then a newline.
   */
  lemma ReportUnderline(c: Caught)
    requires c.message.Some?
    ensures var m := c.message.value;
            var r := ExceptionReport(c);
            var o := |Header(m)|;
            var s := if m.startColumn > 0 then m.startColumn else 0;
            var e := if m.endColumn - m.startColumn > 0 then m.endColumn - m.startColumn else 0;
            && o + s + e < |r|
            && (forall k :: o <= k < o + s ==> r[k] == ' ')
            && (forall k :: o + s <= k < o + s + e ==> r[k] == '^')
            && r[o + s + e] == '\n'
  {
    var m := c.message.value;
    var u := Underlined(m);
    var ul := u + LastLine(c);
    var r := ExceptionReport(c);
    assert r == ul + "\n";
    UnderlinedColumns(m);
    forall k | 0 <= k < |u|
      ensures r[k] == u[k]
    {
      assert r[k] == ul[k] == u[k];
    }
  }

  /**
   * The report ends with the stack trace and a newline when the stack trace
   * is not empty, and with the exception text and a newline otherwise.
   */
  lemma ReportLastLine(c: Caught)
    requires c.message.Some?
    ensures var t := if HasStackTrace(c) then ToCString(c.stackTrace) else ToCString(c.exception);
            var r := ExceptionReport(c);
            |t| + 1 <= |r| && r[|r| - |t| - 1..] == t + "\n"
  {
    var u := Underlined(c.message.value);
    var l := LastLine(c);
    var r := ExceptionReport(c);
    assert r == u + l + "\n";
    SuffixOfAppend(u, l, "\n");
    assert |r| - |l| - 1 == |u|;
  }
}
