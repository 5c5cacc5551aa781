/** The compilation-database writer: shell-style quoting of a command line, nested in a JSON string.

    The reading side follows the "Format" section of Clang's JSON Compilation Database Format
    Specification, where `"` and `\` are the only special characters, and section 7 of RFC 8259. */
module CompileCommands {
  import opened Basics
  import opened Text

  // ----- Writing the command -----

  function Replace(s: string, c: char, with: string): string {
    if s == [] then [] else (if s[0] == c then with else [s[0]]) + Replace(s[1..], c, with)
  }

  predicate NeedsQuotes(value: string) {
    value == [] || exists i :: 0 <= i < |value| && (IsWhitespace(value[i]) || value[i] in "\"\\$`'!&|")
  }

  function ShellEscape(value: string): string {
    if NeedsQuotes(value) then "\"" + Replace(Replace(value, '\\', "\\\\"), '"', "\\\"") + "\"" else value
  }

  function Join(parts: seq<string>): string {
    if parts == [] then [] else if |parts| == 1 then parts[0] else parts[0] + " " + Join(parts[1..])
  }

  function Escaped(args: seq<string>): (r: seq<string>)
    ensures |r| == |args| && forall i :: 0 <= i < |r| ==> r[i] == ShellEscape(args[i])
  {
    seq(|args|, i requires 0 <= i < |args| => ShellEscape(args[i]))
  }

  /** The words the command stands for. */
  function CommandWords(compiler: string, args: seq<string>, source: string, output: string): seq<string> {
    [compiler] + args + ["-c", source, "-o", output]
  }

  lemma FlagsUnquoted()
    ensures ShellEscape("-c") == "-c" && ShellEscape("-o") == "-o"
  {
    hide Replace;
  }

  method CompileCommand(compiler: string, args: seq<string>, source: string, output: string) returns (command: string)
    ensures command == Join(Escaped(CommandWords(compiler, args, source, output)))
  {
    FlagsUnquoted();
    hide ShellEscape;
    var parts := [ShellEscape(compiler)];
    for i := 0 to |args|
      invariant parts == Escaped([compiler] + args[..i])
    {
      parts := parts + [ShellEscape(args[i])];
    }
    assert args[..|args|] == args;
    parts := parts + ["-c"];
    parts := parts + [ShellEscape(source)];
    parts := parts + ["-o"];
    parts := parts + [ShellEscape(output)];
    assert parts == Escaped(CommandWords(compiler, args, source, output));
    command := Join(parts);
  }

  // ----- Splitting the command -----

  /** Which white space separates words is left to the reader. */
  ghost predicate Separates(sep: char -> bool) {
    sep(' ') && forall c :: sep(c) ==> IsWhitespace(c)
  }

  function TextOf(word: Option<string>): string { if word.Some? then word.value else [] }

  function Finished(word: Option<string>): seq<string> { if word.Some? then [word.value] else [] }

  function Prepended(words: seq<string>, rest: Option<seq<string>>): Option<seq<string>> {
    if rest.None? then None else Some(words + rest.value)
  }

  /** The words of `s`, `word` being the one under way and `quoted` whether it is inside quotes. `None`
      when a quote is left open or a backslash ends the text. */
  function SplitFrom(s: string, sep: char -> bool, word: Option<string>, quoted: bool): Option<seq<string>> {
    if s == [] then (if quoted then None else Some(Finished(word)))
    else if s[0] == '\\' then
      if |s| < 2 then None else SplitFrom(s[2..], sep, Some(TextOf(word) + [s[1]]), quoted)
    else if s[0] == '"' then SplitFrom(s[1..], sep, Some(TextOf(word)), !quoted)
    else if !quoted && sep(s[0]) then Prepended(Finished(word), SplitFrom(s[1..], sep, None, false))
    else SplitFrom(s[1..], sep, Some(TextOf(word) + [s[0]]), quoted)
  }

  function Split(s: string, sep: char -> bool): Option<seq<string>> { SplitFrom(s, sep, None, false) }

  // ----- Splitting inverts writing -----

  predicate Special(c: char) { c == '"' || c == '\\' }

  /** Character by character, what the two replacements make of a text. */
  function Guarded(s: string): string {
    if s == [] then [] else GuardedChar(s[0]) + Guarded(s[1..])
  }

  function GuardedChar(c: char): string {
    if Special(c) then ['\\', c] else [c]
  }

  lemma {:induction false} ReplaceJoin(a: string, b: string, c: char, with: string)
    ensures Replace(a + b, c, with) == Replace(a, c, with) + Replace(b, c, with)
  {
    if a == [] {
      assert a + b == b;
    } else {
      assert (a + b)[1..] == a[1..] + b;
      ReplaceJoin(a[1..], b, c, with);
    }
  }

  lemma {:induction false} ReplacedIsGuarded(s: string)
    ensures Replace(Replace(s, '\\', "\\\\"), '"', "\\\"") == Guarded(s)
  {
    if s != [] {
      ReplacedIsGuarded(s[1..]);
      var first := if s[0] == '\\' then "\\\\" else [s[0]];
      ReplaceJoin(first, Replace(s[1..], '\\', "\\\\"), '"', "\\\"");
      FirstReplaced(s[0]);
    }
  }

  lemma FirstReplaced(c: char)
    ensures Replace(if c == '\\' then "\\\\" else [c], '"', "\\\"") == if Special(c) then ['\\', c] else [c]
  {
    if c == '\\' {
      assert "\\\\"[1..] == "\\" && "\\"[1..] == "";
      assert Replace("\\\\", '"', "\\\"") == ['\\'] + (['\\'] + Replace("", '"', "\\\""));
    } else {
      assert [c][1..] == [];
    }
  }

  /** Inside quotes a guarded text reads back up to the closing quote. */
  lemma {:induction false} ReadGuarded(v: string, rest: string, sep: char -> bool, word: string)
    ensures SplitFrom(Guarded(v) + "\"" + rest, sep, Some(word), true) == SplitFrom(rest, sep, Some(word + v), false)
    decreases |v|
  {
    if v == [] {
      assert (Guarded(v) + "\"" + rest)[1..] == rest && word + v == word;
    } else {
      var c, tail := v[0], Guarded(v[1..]) + "\"" + rest;
      assert Guarded(v) + "\"" + rest == GuardedChar(c) + tail;
      assert word + [c] + v[1..] == word + v;
      hide SplitFrom, Guarded, GuardedChar;
      ReadGuardedChar(c, tail, sep, word);
      ReadGuarded(v[1..], rest, sep, word + [c]);
    }
  }

  lemma ReadGuardedChar(c: char, tail: string, sep: char -> bool, word: string)
    ensures SplitFrom(GuardedChar(c) + tail, sep, Some(word), true) == SplitFrom(tail, sep, Some(word + [c]), true)
  {
    var s := GuardedChar(c) + tail;
    if Special(c) { assert s[2..] == tail; } else { assert s[1..] == tail; }
  }

  /** A word is quoted exactly when it is empty or holds white space or a character that shells treat in
      their own way; inside quotes a backslash goes before every quote and every backslash. */
  lemma EscapedExactly(v: string)
    ensures ShellEscape(v) ==
      if v == "" || exists i :: 0 <= i < |v| && QuotedFor(v[i]) then "\"" + Guarded(v) + "\"" else v
  {
    ReplacedIsGuarded(v);
    hide Guarded, Replace, IsWhitespace;
    forall i | 0 <= i < |v| ensures QuotedFor(v[i]) <==> IsWhitespace(v[i]) || v[i] in "\"\\$`'!&|" {}
  }

  predicate QuotedFor(c: char) {
    IsWhitespace(c) || c == '"' || c == '\\' || c == '$' || c == '`' || c == '\'' || c == '!' || c == '&' || c == '|'
  }

  lemma GuardedPieces(a: string, c: char, b: string)
    ensures Guarded(a + [c] + b) == Guarded(a) + (if c == '"' || c == '\\' then ['\\', c] else [c]) + Guarded(b)
  {
    GuardedJoin(a, [c] + b);
    assert a + [c] + b == a + ([c] + b) && ([c] + b)[1..] == b;
  }

  lemma {:induction false} GuardedJoin(a: string, b: string)
    ensures Guarded(a + b) == Guarded(a) + Guarded(b)
  {
    if a == [] {
      assert a + b == b;
    } else {
      assert (a + b)[1..] == a[1..] + b;
      GuardedJoin(a[1..], b);
    }
  }

  /** Words are separated by one space. */
  lemma {:induction false} JoinPieces(a: seq<string>, b: seq<string>)
    requires a != [] && b != []
    ensures Join(a + b) == Join(a) + " " + Join(b)
  {
    if |a| == 1 {
      assert (a + b)[1..] == b;
    } else {
      assert (a + b)[1..] == a[1..] + b;
      JoinPieces(a[1..], b);
    }
  }

  predicate Ordinary(c: char) { !IsWhitespace(c) && !Special(c) }

  lemma {:induction false} ReadOrdinary(v: string, rest: string, sep: char -> bool, word: Option<string>)
    requires Separates(sep) && v != [] && forall i :: 0 <= i < |v| ==> Ordinary(v[i])
    ensures SplitFrom(v + rest, sep, word, false) == SplitFrom(rest, sep, Some(TextOf(word) + v), false)
    decreases |v|
  {
    assert (v + rest)[0] == v[0] && (v + rest)[1..] == v[1..] + rest && Ordinary(v[0]);
    if |v| == 1 {
      assert v[1..] + rest == rest && v == [v[0]];
    } else {
      ReadOrdinary(v[1..], rest, sep, Some(TextOf(word) + [v[0]]));
      assert TextOf(word) + [v[0]] + v[1..] == TextOf(word) + v;
    }
  }

  /** One escaped word reads back as itself. */
  lemma ReadEscaped(v: string, rest: string, sep: char -> bool)
    requires Separates(sep)
    ensures SplitFrom(ShellEscape(v) + rest, sep, None, false) == SplitFrom(rest, sep, Some(v), false)
  {
    if NeedsQuotes(v) {
      ReplacedIsGuarded(v);
      ReadQuoted(v, rest, sep);
    } else {
      assert forall i :: 0 <= i < |v| ==> Ordinary(v[i]);
      hide SplitFrom;
      ReadOrdinary(v, rest, sep, None);
      assert [] + v == v;
    }
  }

  lemma ReadQuoted(v: string, rest: string, sep: char -> bool)
    ensures SplitFrom("\"" + Guarded(v) + "\"" + rest, sep, None, false) == SplitFrom(rest, sep, Some(v), false)
  {
    var s, tail := "\"" + Guarded(v) + "\"" + rest, Guarded(v) + "\"" + rest;
    assert s[0] == '"' && s[1..] == tail;
    hide Guarded;
    assert SplitFrom(s, sep, None, false) == SplitFrom(tail, sep, Some([]), true);
    hide SplitFrom;
    ReadGuarded(v, rest, sep, []);
    assert [] + v == v;
  }

  lemma SplitFirst(v: string, tail: string, sep: char -> bool)
    requires Separates(sep)
    ensures Split(ShellEscape(v) + " " + tail, sep) == Prepended([v], Split(tail, sep))
    ensures Split(ShellEscape(v), sep) == Some([v])
  {
    ReadEscaped(v, " " + tail, sep);
    ReadEscaped(v, "", sep);
    hide ShellEscape;
    assert ShellEscape(v) + "" == ShellEscape(v);
    assert ShellEscape(v) + (" " + tail) == ShellEscape(v) + " " + tail;
    assert (" " + tail)[1..] == tail;
  }

  /** Splitting the joined, escaped words returns the words: any words, empty ones included. */
  lemma {:induction false} SplitInvertsJoin(words: seq<string>, sep: char -> bool)
    requires Separates(sep)
    ensures Split(Join(Escaped(words)), sep) == Some(words)
    decreases |words|
  {
    if words == [] {
      assert Join(Escaped(words)) == [];
    } else {
      var parts := Escaped(words);
      SplitFirst(words[0], Join(parts[1..]), sep);
      if |words| == 1 {
        assert Join(parts) == ShellEscape(words[0]) && words == [words[0]];
      } else {
        assert Join(parts) == ShellEscape(words[0]) + " " + Join(parts[1..]);
        assert parts[1..] == Escaped(words[1..]);
        hide ShellEscape, Join, Escaped, Split;
        SplitInvertsJoin(words[1..], sep);
        assert [words[0]] + words[1..] == words;
      }
    }
  }

  /** `compile_command` followed by a conforming split is the identity on its arguments. */
  lemma CommandRoundTrip(compiler: string, args: seq<string>, source: string, output: string, sep: char -> bool)
    requires Separates(sep)
    ensures Split(Join(Escaped(CommandWords(compiler, args, source, output))), sep) ==
            Some([compiler] + args + ["-c", source, "-o", output])
  {
    SplitInvertsJoin(CommandWords(compiler, args, source, output), sep);
  }

  // ----- JSON -----

  function JsonChar(c: char): string {
    match c
    case '\\' => "\\\\"
    case '"' => "\\\""
    case '\n' => "\\n"
    case '\r' => "\\r"
    case '\t' => "\\t"
    case _ => [c]
  }

  function JsonEscaped(value: string): string {
    if value == [] then [] else JsonEscaped(value[..|value| - 1]) + JsonChar(value[|value| - 1])
  }

  method JsonEscape(value: string) returns (escaped: string)
    ensures escaped == JsonEscaped(value)
  {
    escaped := "";
    for i := 0 to |value|
      invariant escaped == JsonEscaped(value[..i])
    {
      assert value[..i + 1][..i] == value[..i];
      match value[i] {
        case '\\' => escaped := escaped + "\\\\";
        case '"' => escaped := escaped + "\\\"";
        case '\n' => escaped := escaped + "\\n";
        case '\r' => escaped := escaped + "\\r";
        case '\t' => escaped := escaped + "\\t";
        case _ => escaped := escaped + [value[i]];
      }
    }
    assert value[..|value|] == value;
  }

  predicate IsControl(c: char) { c as int < 0x20 }

  function HexDigit(c: char): Option<nat> {
    if '0' <= c <= '9' then Some(c as int - '0' as int)
    else if 'a' <= c <= 'f' then Some(10 + c as int - 'a' as int)
    else if 'A' <= c <= 'F' then Some(10 + c as int - 'A' as int)
    else None
  }

  /** The character that `\` followed by `c` stands for, `\u` aside. */
  function Unescaped(c: char): Option<char> {
    match c
    case '"' => Some('"')
    case '\\' => Some('\\')
    case '/' => Some('/')
    case 'b' => Some(8 as char)
    case 'f' => Some(12 as char)
    case 'n' => Some('\n')
    case 'r' => Some('\r')
    case 't' => Some('\t')
    case _ => None
  }

  function Hex4(s: string): Option<nat>
    requires |s| == 4
  {
    match (HexDigit(s[0]), HexDigit(s[1]), HexDigit(s[2]), HexDigit(s[3]))
    case (Some(a), Some(b), Some(c), Some(d)) => Some(((a * 16 + b) * 16 + c) * 16 + d)
    case _ => None
  }

  function Consed(c: char, rest: Option<(string, string)>): Option<(string, string)> {
    if rest.None? then None else Some(([c] + rest.value.0, rest.value.1))
  }

  /** Reads a JSON string whose opening quote is behind it: the value and what follows the closing quote.
      A surrogate escape, which this printer never writes, is not read. */
  function ReadString(s: string): Option<(string, string)> {
    if s == [] || IsControl(s[0]) then None
    else if s[0] == '"' then Some(([], s[1..]))
    else if s[0] != '\\' then Consed(s[0], ReadString(s[1..]))
    else if |s| < 2 then None
    else if s[1] == 'u' then
      if |s| < 6 || Hex4(s[2..6]).None? || 0xD800 <= Hex4(s[2..6]).value < 0xE000 then None
      else Consed(CharOf(Hex4(s[2..6]).value), ReadString(s[6..]))
    else if Unescaped(s[1]).None? then None
    else Consed(Unescaped(s[1]).value, ReadString(s[2..]))
  }

  function CharOf(n: nat): char {
    if n < 0xD800 || 0xE000 <= n < 0x11_0000 then n as char else '?'
  }

  predicate Clean(c: char) { IsControl(c) ==> c in "\n\r\t" }

  /** No control character that the printer leaves bare. */
  predicate Printable(value: string) { forall i :: 0 <= i < |value| ==> Clean(value[i]) }

  lemma JsonEscapedSnoc(s: string, c: char)
    ensures JsonEscaped(s + [c]) == JsonEscaped(s) + JsonChar(c)
  {
    hide JsonChar;
    assert (s + [c])[..|s|] == s;
  }

  lemma {:induction false} JsonEscapedJoin(a: string, b: string)
    ensures JsonEscaped(a + b) == JsonEscaped(a) + JsonEscaped(b)
    decreases |b|
  {
    hide JsonEscaped, JsonChar;
    var n := |b|;
    if n == 0 {
      assert a + b == a && b == [];
      JsonEscapedNothing(a);
    } else {
      var front, c := b[..n - 1], b[n - 1];
      assert b == front + [c];
      Regrouped(a, front, [c]);
      JsonEscapedJoin(a, front);
      JsonEscapedSnoc(front, c);
      JsonEscapedSnoc(a + front, c);
      Regrouped(JsonEscaped(a), JsonEscaped(front), JsonChar(c));
    }
  }

  lemma JsonEscapedNothing(a: string)
    ensures JsonEscaped(a) + JsonEscaped([]) == JsonEscaped(a)
  {
    assert JsonEscaped([]) == [];
    hide JsonEscaped;
  }

  lemma JsonEscapedFirst(value: string)
    requires value != []
    ensures JsonEscaped(value) == JsonChar(value[0]) + JsonEscaped(value[1..])
  {
    hide JsonChar;
    var first := [value[0]];
    assert value == first + value[1..] && first[..0] == [];
    assert JsonEscaped(first) == JsonEscaped(first[..0]) + JsonChar(value[0]);
    JsonEscapedJoin(first, value[1..]);
  }

  /** A JSON text piece by piece: five characters get an escape of their own, all others stay. */
  lemma JsonPieces(a: string, c: char, b: string)
    ensures JsonEscaped(a + [c] + b) == JsonEscaped(a) + JsonPiece(c) + JsonEscaped(b)
  {
    JsonEscapedJoin(a + [c], b);
    JsonEscapedSnoc(a, c);
    assert JsonChar(c) == JsonPiece(c);
    hide JsonEscaped, JsonChar, JsonPiece;
  }

  function JsonPiece(c: char): string {
    if c == '"' || c == '\\' then ['\\', c] else if c == '\n' then ['\\', 'n'] else if c == '\r' then ['\\', 'r']
    else if c == '\t' then ['\\', 't'] else [c]
  }

  lemma ReadOne(c: char, rest: string)
    ensures ReadString(JsonChar(c) + rest) == if Clean(c) then Consed(c, ReadString(rest)) else None
  {
    var s := JsonChar(c) + rest;
    if |JsonChar(c)| == 2 {
      assert s[2..] == rest;
    } else {
      assert s[1..] == rest;
    }
  }

  /** Reading a printed string gives it back exactly when it has no control characters but `\n`, `\r`, `\t`. */
  lemma {:induction false} JsonRoundTrip(value: string, rest: string)
    ensures ReadString(JsonEscaped(value) + "\"" + rest) == if Printable(value) then Some((value, rest)) else None
    decreases |value|
  {
    if value == [] {
      assert (JsonEscaped(value) + "\"" + rest)[1..] == rest;
    } else {
      JsonEscapedFirst(value);
      var tail := JsonEscaped(value[1..]) + "\"" + rest;
      assert JsonEscaped(value) + "\"" + rest == JsonChar(value[0]) + tail;
      ReadOne(value[0], tail);
      JsonRoundTrip(value[1..], rest);
      assert value == [value[0]] + value[1..];
      assert Printable(value) <==> Clean(value[0]) && Printable(value[1..]);
    }
  }

  // ----- The file -----

  datatype Compilation = Compilation(directory: string, file: string, command: string)

  const OPENING: string := "[\n  {\n    \"directory\": \""
  const THEN_FILE: string := ",\n    \"file\": \""
  const THEN_COMMAND: string := ",\n    \"command\": \""
  const CLOSING: string := "\n  }\n]\n"

  /** What `maybe_write_compile_commands` writes. */
  function Contents(c: Compilation): string {
    OPENING + (JsonEscaped(c.directory) + "\"" + (THEN_FILE + (JsonEscaped(c.file) + "\"" +
      (THEN_COMMAND + (JsonEscaped(c.command) + "\"" + CLOSING)))))
  }

  /** The text after `expected`, if `s` starts with it. */
  function Expect(s: string, expected: string): Option<string> {
    if expected <= s then Some(s[|expected|..]) else None
  }

  /** Reads a string after `expected`. */
  function ReadAfter(s: string, expected: string): Option<(string, string)> {
    var rest := Expect(s, expected);
    if rest.None? then None else ReadString(rest.value)
  }

  function ReadDatabase(s: string): Option<Compilation> {
    var directory := ReadAfter(s, OPENING);
    if directory.None? then None else
      var file := ReadAfter(directory.value.1, THEN_FILE);
      if file.None? then None else
        var command := ReadAfter(file.value.1, THEN_COMMAND);
        if command.None? || command.value.1 != CLOSING then None
        else Some(Compilation(directory.value.0, file.value.0, command.value.0))
  }

  lemma ReadAfterHolds(expected: string, value: string, rest: string)
    ensures ReadAfter(expected + (JsonEscaped(value) + "\"" + rest), expected) ==
            if Printable(value) then Some((value, rest)) else None
  {
    var s := expected + (JsonEscaped(value) + "\"" + rest);
    assert expected <= s && s[|expected|..] == JsonEscaped(value) + "\"" + rest;
    JsonRoundTrip(value, rest);
  }

  /** The file reads back as what was written exactly when all three texts are printable. */
  lemma DatabaseRoundTrip(c: Compilation)
    ensures ReadDatabase(Contents(c)) ==
            if Printable(c.directory) && Printable(c.file) && Printable(c.command) then Some(c) else None
  {
    var third := THEN_COMMAND + (JsonEscaped(c.command) + "\"" + CLOSING);
    var second := THEN_FILE + (JsonEscaped(c.file) + "\"" + third);
    hide Printable, JsonEscaped, ReadString, ReadAfter;
    ReadAfterHolds(OPENING, c.directory, second);
    ReadAfterHolds(THEN_FILE, c.file, third);
    ReadAfterHolds(THEN_COMMAND, c.command, CLOSING);
  }

  // ----- Both layers -----

  predicate AllPrintable(words: seq<string>) { forall i :: 0 <= i < |words| ==> Printable(words[i]) }

  lemma PrintableJoin(a: string, b: string)
    ensures Printable(a + b) <==> Printable(a) && Printable(b)
  {
    forall i | 0 <= i < |b| ensures (a + b)[|a| + i] == b[i] {}
    if Printable(a + b) {
      forall i | 0 <= i < |a| ensures Clean(a[i]) { assert (a + b)[i] == a[i]; }
      forall i | 0 <= i < |b| ensures Clean(b[i]) { assert (a + b)[|a| + i] == b[i]; }
    }
  }

  lemma {:induction false} PrintableGuarded(v: string)
    ensures Printable(Guarded(v)) <==> Printable(v)
  {
    if v != [] {
      PrintableGuarded(v[1..]);
      PrintableJoin(if Special(v[0]) then ['\\', v[0]] else [v[0]], Guarded(v[1..]));
      PrintableJoin([v[0]], v[1..]);
      assert v == [v[0]] + v[1..];
      assert Printable([v[0]]) <==> Printable(['\\', v[0]]) by {
        assert ['\\', v[0]][1] == v[0] && [v[0]][0] == v[0];
      }
    }
  }

  lemma PrintableEscaped(v: string)
    ensures Printable(ShellEscape(v)) <==> Printable(v)
  {
    if NeedsQuotes(v) {
      ReplacedIsGuarded(v);
      PrintableGuarded(v);
      PrintableJoin("\"", Guarded(v));
      PrintableJoin("\"" + Guarded(v), "\"");
    }
  }

  lemma {:induction false} PrintableCommand(words: seq<string>)
    ensures Printable(Join(Escaped(words))) <==> AllPrintable(words)
    decreases |words|
  {
    if words != [] {
      var parts := Escaped(words);
      PrintableEscaped(words[0]);
      assert words == [words[0]] + words[1..];
      hide ShellEscape, Printable;
      if |words| > 1 {
        assert parts[1..] == Escaped(words[1..]);
        PrintableCommand(words[1..]);
        assert AllPrintable(words) <==> Printable(words[0]) && AllPrintable(words[1..]);
        PrintableJoin(parts[0], " ");
        PrintableJoin(parts[0] + " ", Join(parts[1..]));
        SpacePrintable();
      }
    }
  }

  lemma SpacePrintable()
    ensures Printable(" ")
  {
  }

  /** The entry written for a compilation, read back and split, names exactly the compiler, the arguments,
      `-c`, the source, `-o` and the object; it is readable exactly when every text is printable. */
  lemma CompilationReadBack(directory: string, file: string, words: seq<string>, sep: char -> bool)
    requires Separates(sep)
    ensures var c := Compilation(directory, file, Join(Escaped(words)));
      var read := ReadDatabase(Contents(c));
      && (read.Some? <==> Printable(directory) && Printable(file) && AllPrintable(words))
      && (read.Some? ==> read.value == c && Split(read.value.command, sep) == Some(words))
  {
    DatabaseRoundTrip(Compilation(directory, file, Join(Escaped(words))));
    PrintableCommand(words);
    SplitInvertsJoin(words, sep);
  }

  /** `maybe_write_compile_commands`, the file system aside. */
  method CompileCommandsFile(directory: string, compiler: string, args: seq<string>, source: string, output: string)
    returns (contents: string)
    ensures contents ==
      Contents(Compilation(directory, source, Join(Escaped(CommandWords(compiler, args, source, output)))))
  {
    var command := CompileCommand(compiler, args, source, output);
    var escapedDirectory := JsonEscape(directory);
    var escapedSource := JsonEscape(source);
    var escapedCommand := JsonEscape(command);
    contents :=
      "[\n  {\n    \"directory\": \"" + escapedDirectory + "\",\n    \"file\": \"" + escapedSource +
      "\",\n    \"command\": \"" + escapedCommand + "\"\n  }\n]\n";
    FileLayout(escapedDirectory, escapedSource, escapedCommand);
  }

  /** The format string of the original and the nested form used for reading are one text. */
  lemma FileLayout(d: string, f: string, c: string)
    ensures "[\n  {\n    \"directory\": \"" + d + "\",\n    \"file\": \"" + f + "\",\n    \"command\": \"" + c
        + "\"\n  }\n]\n" ==
      OPENING + (d + "\"" + (THEN_FILE + (f + "\"" + (THEN_COMMAND + (c + "\"" + CLOSING)))))
  {
    assert "\",\n    \"file\": \"" == "\"" + THEN_FILE;
    assert "\",\n    \"command\": \"" == "\"" + THEN_COMMAND;
    assert "\"\n  }\n]\n" == "\"" + CLOSING;
    Nested(OPENING, d, f, c, "\"", THEN_FILE, THEN_COMMAND, CLOSING);
  }

  /** The text of the file around its three escaped values. */
  lemma ContentsText(c: Compilation)
    ensures Contents(c) ==
      "[\n  {\n    \"directory\": \"" + JsonEscaped(c.directory) + "\",\n    \"file\": \"" + JsonEscaped(c.file)
        + "\",\n    \"command\": \"" + JsonEscaped(c.command) + "\"\n  }\n]\n"
  {
    hide JsonEscaped;
    FileLayout(JsonEscaped(c.directory), JsonEscaped(c.file), JsonEscaped(c.command));
  }

  lemma Nested(opening: string, d: string, f: string, c: string, quote: string, file: string, command: string,
               closing: string)
    ensures opening + d + (quote + file) + f + (quote + command) + c + (quote + closing)
         == opening + (d + quote + (file + (f + quote + (command + (c + quote + closing)))))
  {
  }
}
