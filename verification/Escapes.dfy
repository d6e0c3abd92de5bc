/** Two escape and unescape pairs: the command inside a shell invocation (`unwrapShell` in
    `codex.ts`) and a value on one env-file line (`envFileValue` in `sandbox.ts`). */
module Escapes {
  import opened Text

  function One(x: char, c: char, token: string): string { if x == c then token else [x] }

  /** Replacing one character, character by character. */
  function Put(s: string, c: char, token: string): string {
    if s == "" then "" else One(s[0], c, token) + Put(s[1..], c, token)
  }

  lemma {:induction false} ReplaceChar(s: string, c: char, token: string)
    ensures ReplaceAll(s, [c], token) == Put(s, c, token)
  {
    if s != "" {
      ReplaceChar(s[1..], c, token);
      if s[0] == c {
        assert Split(s, [c])[1..] == Split(s[1..], [c]);
      } else {
        JoinHead([s[0]], Split(s[1..], [c]), token);
      }
    }
  }

  lemma PutCons(x: char, s: string, c: char, token: string)
    ensures Put([x] + s, c, token) == One(x, c, token) + Put(s, c, token)
  {
    assert ([x] + s)[1..] == s;
  }

  lemma PutAppendCons(x: char, a: string, b: string, c: char, token: string)
    requires Put(a + b, c, token) == Put(a, c, token) + Put(b, c, token)
    ensures Put([x] + a + b, c, token) == Put([x] + a, c, token) + Put(b, c, token)
  {
    hide Put, One;
    assert [x] + a + b == [x] + (a + b);
    PutCons(x, a, c, token);
    PutCons(x, a + b, c, token);
  }

  lemma {:induction false} PutAppend(a: string, b: string, c: char, token: string)
    ensures Put(a + b, c, token) == Put(a, c, token) + Put(b, c, token)
  {
    if a == "" {
      assert a + b == b;
    } else {
      hide Put, One;
      PutAppend(a[1..], b, c, token);
      PutAppendCons(a[0], a[1..], b, c, token);
      assert [a[0]] + a[1..] == a;
    }
  }

  lemma {:induction false} JoinShorter(parts: seq<string>, sep: string, token: string)
    requires parts != [] && |token| <= |sep|
    ensures |Join(parts, token)| <= |Join(parts, sep)|
  {
    if |parts| > 1 { JoinShorter(parts[1..], sep, token); }
  }

  // ----- the shell wrapper ----------------------------------------------------------------------

  const SHELLS := ["/bin/bash -lc ", "/bin/bash -c ", "/bin/sh -lc ", "/bin/sh -c "]

  predicate Framed(command: string, shell: string, quote: char) {
    |command| >= |shell| + 2 && shell + [quote] <= command && command[|command| - 1] == quote
  }

  predicate AnyFramed(command: string, quote: char) {
    exists i :: 0 <= i < |SHELLS| && Framed(command, SHELLS[i], quote)
  }

  /** What the shell regex captures between the quotes. */
  function Captured(command: string, quote: char, i: nat): (r: Option<string>)
    requires i <= |SHELLS|
    decreases |SHELLS| - i
  {
    if i == |SHELLS| then None
    else if Framed(command, SHELLS[i], quote) then Some(command[|SHELLS[i]| + 1..|command| - 1])
    else Captured(command, quote, i + 1)
  }

  predicate Special(c: char) { c == '"' || c == '\\' || c == '$' || c == '`' }

  /** A backslash before a special character goes. */
  function UnescapeDouble(s: string): string {
    if s == "" then ""
    else if |s| >= 2 && s[0] == '\\' && Special(s[1]) then [s[1]] + UnescapeDouble(s[2..])
    else [s[0]] + UnescapeDouble(s[1..])
  }

  function UnwrapShell(command: string): string {
    var quoted := Captured(command, '\'', 0);
    if quoted.Some? then ReplaceAll(quoted.value, "'\\''", "'")
    else
      var doubled := Captured(command, '"', 0);
      if doubled.Some? then UnescapeDouble(doubled.value) else command
  }

  /** How a shell quotes a word: `'` ends the quote, is escaped, and reopens it. */
  function SingleQuoted(command: string): string { "'" + ReplaceAll(command, "'", "'\\''") + "'" }

  function EscapeDouble(command: string): string {
    if command == "" then ""
    else (if Special(command[0]) then ['\\', command[0]] else [command[0]]) + EscapeDouble(command[1..])
  }

  function DoubleQuoted(command: string): string { "\"" + EscapeDouble(command) + "\"" }

  lemma {:induction false} SingleBack(s: string)
    ensures ReplaceAll(Put(s, '\'', "'\\''"), "'\\''", "'") == s
  {
    var sep := "'\\''";
    if s == "" {
    } else {
      var rest := Put(s[1..], '\'', sep);
      SingleBack(s[1..]);
      if s[0] == '\'' {
        var t := sep + rest;
        assert sep <= t && t[|sep|..] == rest;
        assert Split(t, sep)[1..] == Split(rest, sep);
      } else {
        var t := [s[0]] + rest;
        assert t[1..] == rest && t[0] != sep[0];
        if |t| < |sep| {
          NoRoom(s[1..], sep);
          assert Split(t, sep) == [t];
        } else {
          JoinHead([s[0]], Split(rest, sep), "'");
        }
      }
    }
  }

  lemma {:induction false} NoRoom(s: string, sep: string)
    requires |Put(s, '\'', sep)| < |sep|
    ensures Put(s, '\'', sep) == s
  {
    if s != "" { NoRoom(s[1..], sep); }
  }

  lemma {:induction false} DoubleBack(s: string)
    ensures UnescapeDouble(EscapeDouble(s)) == s
  {
    if s != "" {
      DoubleBack(s[1..]);
      var rest := EscapeDouble(s[1..]);
      if Special(s[0]) {
        assert (['\\', s[0]] + rest)[2..] == rest;
      } else {
        assert ([s[0]] + rest)[1..] == rest;
      }
    }
  }

  lemma ShellsApart(i: nat, j: nat, q: char, r: char, command: string)
    requires i < |SHELLS| && j < |SHELLS| && Framed(command, SHELLS[i], q) && Framed(command, SHELLS[j], r)
    ensures i == j && q == r
  {
    var s, t := SHELLS[i], SHELLS[j];
    assert forall k :: 0 <= k < |s| ==> command[k] == (s + [q])[k];
    assert forall k :: 0 <= k < |t| ==> command[k] == (t + [r])[k];
    assert command[5] == s[5] == t[5];
    assert command[9] == s[9] == t[9];
    assert command[11] == (s + [q])[11] && command[11] == (t + [r])[11];
    assert command[|s|] == q && command[|t|] == r;
  }

  lemma {:induction false} CapturedAt(command: string, q: char, i: nat, from: nat)
    requires from <= i < |SHELLS| && Framed(command, SHELLS[i], q)
    ensures Captured(command, q, from) == Some(command[|SHELLS[i]| + 1..|command| - 1])
    decreases i - from
  {
    hide Framed;
    if Framed(command, SHELLS[from], q) { ShellsApart(i, from, q, q, command); }
    if from < i { CapturedAt(command, q, i, from + 1); }
  }

  lemma {:induction false} NotCaptured(command: string, q: char, from: nat)
    requires from <= |SHELLS|
    ensures Captured(command, q, from).None? <==> forall i :: from <= i < |SHELLS| ==> !Framed(command, SHELLS[i], q)
    decreases |SHELLS| - from
  {
    hide Framed;
    if from < |SHELLS| { NotCaptured(command, q, from + 1); }
  }

  lemma FrameOf(i: nat, q: char, inner: string)
    requires i < |SHELLS|
    ensures var command := SHELLS[i] + [q] + inner + [q];
            Framed(command, SHELLS[i], q) && command[|SHELLS[i]| + 1..|command| - 1] == inner
  {
  }

  /** Unwrapping gives back every command, from either quoting, under any of the four shells. */
  lemma UnwrapRecovers(command: string, i: nat)
    requires i < |SHELLS|
    ensures UnwrapShell(SHELLS[i] + SingleQuoted(command)) == command
    ensures UnwrapShell(SHELLS[i] + DoubleQuoted(command)) == command
  {
    hide Framed, Captured, UnescapeDouble, EscapeDouble, ReplaceAll;
    var inner := ReplaceAll(command, "'", "'\\''");
    var single := SHELLS[i] + ['\''] + inner + ['\''];
    assert SHELLS[i] + SingleQuoted(command) == single;
    FrameOf(i, '\'', inner);
    CapturedAt(single, '\'', i, 0);
    ReplaceChar(command, '\'', "'\\''");
    SingleBack(command);

    var double := SHELLS[i] + ['"'] + EscapeDouble(command) + ['"'];
    assert SHELLS[i] + DoubleQuoted(command) == double;
    FrameOf(i, '"', EscapeDouble(command));
    CapturedAt(double, '"', i, 0);
    NotCaptured(double, '\'', 0);
    forall j | 0 <= j < |SHELLS| ensures !Framed(double, SHELLS[j], '\'') {
      if Framed(double, SHELLS[j], '\'') { ShellsApart(i, j, '"', '\'', double); }
    }
    DoubleBack(command);
  }

  /** In double quotes a backslash goes where it stands before a quote, another backslash, a dollar or a
      backtick, which then stays; everything else is kept. */
  lemma UnescapesExactly(c: char, s: string)
    ensures c in {'"', '\\', '$', '`'} ==> UnescapeDouble(['\\', c] + s) == [c] + UnescapeDouble(s)
    ensures c !in {'"', '\\', '$', '`'} ==> UnescapeDouble(['\\', c] + s) == ['\\'] + UnescapeDouble([c] + s)
    ensures c != '\\' ==> UnescapeDouble([c] + s) == [c] + UnescapeDouble(s)
    ensures UnescapeDouble("") == "" && UnescapeDouble(['\\']) == ['\\']
  {
    assert (['\\', c] + s)[1..] == [c] + s && (['\\', c] + s)[2..] == s && ([c] + s)[1..] == s;
    assert ['\\'][1..] == "";
  }

  /** And a shell's double quotes put it there. */
  lemma EscapesExactly(c: char, s: string)
    ensures EscapeDouble([c] + s) == (if c in {'"', '\\', '$', '`'} then ['\\', c] else [c]) + EscapeDouble(s)
    ensures EscapeDouble("") == ""
  {
    assert ([c] + s)[1..] == s;
  }

  /** The four shells by name. */
  lemma UnwrapsEach(command: string)
    ensures UnwrapShell("/bin/bash -lc " + SingleQuoted(command)) == command && UnwrapShell("/bin/bash -lc " + DoubleQuoted(command)) == command
    ensures UnwrapShell("/bin/bash -c " + SingleQuoted(command)) == command && UnwrapShell("/bin/bash -c " + DoubleQuoted(command)) == command
    ensures UnwrapShell("/bin/sh -lc " + SingleQuoted(command)) == command && UnwrapShell("/bin/sh -lc " + DoubleQuoted(command)) == command
    ensures UnwrapShell("/bin/sh -c " + SingleQuoted(command)) == command && UnwrapShell("/bin/sh -c " + DoubleQuoted(command)) == command
    ensures |SHELLS| == 4
  {
    hide UnwrapShell, SingleQuoted, DoubleQuoted;
    UnwrapRecovers(command, 0);
    UnwrapRecovers(command, 1);
    UnwrapRecovers(command, 2);
    UnwrapRecovers(command, 3);
  }

  lemma {:induction false} UnescapeShorter(s: string)
    ensures |UnescapeDouble(s)| <= |s|
  {
    if |s| >= 2 && s[0] == '\\' && Special(s[1]) {
      UnescapeShorter(s[2..]);
    } else if s != "" {
      UnescapeShorter(s[1..]);
    }
  }

  /** A command is left as it is exactly when it is not one of the wrapped forms. */
  lemma UnwrapIdentity(command: string)
    ensures UnwrapShell(command) == command <==> !AnyFramed(command, '\'') && !AnyFramed(command, '"')
  {
    hide ReplaceAll, UnescapeDouble;
    NotCaptured(command, '\'', 0);
    NotCaptured(command, '"', 0);
    var quoted, doubled := Captured(command, '\'', 0), Captured(command, '"', 0);
    if quoted.Some? {
      CapturedShorter(command, '\'', 0);
      ReplaceShorter(quoted.value, "'\\''", "'");
    } else if doubled.Some? {
      CapturedShorter(command, '"', 0);
      UnescapeShorter(doubled.value);
    }
  }

  lemma {:induction false} CapturedShorter(command: string, q: char, from: nat)
    requires from <= |SHELLS| && Captured(command, q, from).Some?
    ensures |Captured(command, q, from).value| < |command|
    decreases |SHELLS| - from
  {
    hide SHELLS;
    if from < |SHELLS| && !Framed(command, SHELLS[from], q) { CapturedShorter(command, q, from + 1); }
  }

  lemma ReplaceShorter(s: string, sep: string, token: string)
    requires sep != "" && |token| <= |sep|
    ensures |ReplaceAll(s, sep, token)| <= |s|
  {
    JoinShorter(Split(s, sep), sep, token);
    JoinOfSplit(s, sep);
  }

  // ----- env-file values ----------------------------------------------------------------------

  /** The four replacements, one after the other. */
  function Escaped(value: string): string {
    var slashes := ReplaceAll(value, "\\", "\\\\");
    var quotes := ReplaceAll(slashes, "\"", "\\\"");
    var dollars := ReplaceAll(quotes, "$", "$$");
    ReplaceAll(dollars, "\n", "\\n")
  }

  function EnvFileValue(value: string): string {
    if '\n' !in value then value else "\"" + Escaped(value) + "\""
  }

  function EscapedChar(c: char): string {
    if c == '\\' then "\\\\" else if c == '"' then "\\\"" else if c == '$' then "$$" else if c == '\n' then "\\n" else [c]
  }

  function EachEscaped(value: string): string {
    if value == "" then "" else EscapedChar(value[0]) + EachEscaped(value[1..])
  }

  function Escaped4(value: string): string {
    Put(Put(Put(Put(value, '\\', "\\\\"), '"', "\\\""), '$', "$$"), '\n', "\\n")
  }

  lemma EscapedAppend(a: string, b: string)
    ensures Escaped4(a + b) == Escaped4(a) + Escaped4(b)
  {
    hide Put;
    PutAppend(a, b, '\\', "\\\\");
    var a1, b1 := Put(a, '\\', "\\\\"), Put(b, '\\', "\\\\");
    PutAppend(a1, b1, '"', "\\\"");
    var a2, b2 := Put(a1, '"', "\\\""), Put(b1, '"', "\\\"");
    PutAppend(a2, b2, '$', "$$");
    PutAppend(Put(a2, '$', "$$"), Put(b2, '$', "$$"), '\n', "\\n");
  }

  lemma PutOne(x: char, c: char, token: string)
    ensures Put([x], c, token) == if x == c then token else [x]
  {
    assert [x][1..] == "";
  }

  lemma PutTwo(x: char, y: char, c: char, token: string)
    ensures Put([x, y], c, token) == (if x == c then token else [x]) + (if y == c then token else [y])
  {
    PutOne(y, c, token);
    assert [x, y][1..] == [y];
  }

  lemma EscapedOne(c: char)
    ensures Escaped4([c]) == EscapedChar(c)
  {
    hide Put;
    assert "\\\\" == ['\\', '\\'] == ['\\'] + ['\\'];
    assert "\\\"" == ['\\', '"'] == ['\\'] + ['"'];
    assert "$$" == ['$', '$'] == ['$'] + ['$'];
    PutOne(c, '\\', "\\\\");
    PutOne(c, '"', "\\\"");
    PutOne(c, '$', "$$");
    PutOne(c, '\n', "\\n");
    PutTwo('\\', '\\', '"', "\\\"");
    PutTwo('\\', '\\', '$', "$$");
    PutTwo('\\', '\\', '\n', "\\n");
    PutTwo('\\', '"', '$', "$$");
    PutTwo('\\', '"', '\n', "\\n");
    PutTwo('$', '$', '\n', "\\n");
  }

  /** The chain of replacements never escapes its own escapes: it acts one character at a time. */
  lemma {:induction false} EscapedIsPerChar(value: string)
    ensures Escaped(value) == EachEscaped(value)
  {
    Chain(value);
    EachIsFour(value);
  }

  lemma Chain(value: string)
    ensures Escaped(value) == Escaped4(value)
  {
    hide Put, ReplaceAll;
    assert "\\" == ['\\'] && "\"" == ['"'] && "$" == ['$'] && "\n" == ['\n'];
    ReplaceChar(value, '\\', "\\\\");
    var slashes := ReplaceAll(value, "\\", "\\\\");
    ReplaceChar(slashes, '"', "\\\"");
    var quotes := ReplaceAll(slashes, "\"", "\\\"");
    ReplaceChar(quotes, '$', "$$");
    ReplaceChar(ReplaceAll(quotes, "$", "$$"), '\n', "\\n");
  }

  lemma {:induction false} EachIsFour(value: string)
    ensures Escaped4(value) == EachEscaped(value)
  {
    if value != "" {
      hide Escaped4;
      EscapedOne(value[0]);
      EachIsFour(value[1..]);
      EscapedAppend([value[0]], value[1..]);
      assert [value[0]] + value[1..] == value;
    }
  }

  lemma {:induction false} EachOneLine(value: string)
    ensures '\n' !in EachEscaped(value)
  {
    if value != "" { EachOneLine(value[1..]); }
  }

  /** Whatever the value, it takes one line, and one that has only one is written as it is. */
  lemma EnvFileOneLine(value: string)
    ensures '\n' !in EnvFileValue(value)
    ensures '\n' !in value ==> EnvFileValue(value) == value
  {
    EscapedIsPerChar(value);
    EachOneLine(value);
  }

  function Unescaped(s: string): string {
    if s == "" then ""
    else if |s| >= 2 && s[0] == '\\' && s[1] == 'n' then "\n" + Unescaped(s[2..])
    else if |s| >= 2 && (s[0] == '\\' || s[..2] == "$$") then [s[1]] + Unescaped(s[2..])
    else [s[0]] + Unescaped(s[1..])
  }

  /** A double-quoted value with its escapes undone; `None` for a line not in double quotes,
      which Compose reads by other rules. */
  function ReadQuoted(line: string): Option<string> {
    if |line| >= 2 && line[0] == '"' && line[|line| - 1] == '"' then Some(Unescaped(line[1..|line| - 1])) else None
  }

  lemma UnescapedPair(a: char, b: char, rest: string)
    requires a == '\\' || (a == '$' && b == '$')
    ensures Unescaped([a, b] + rest) == [if a == '\\' && b == 'n' then '\n' else b] + Unescaped(rest)
  {
    var s := [a, b] + rest;
    assert s[2..] == rest && s[..2] == [a, b];
  }

  lemma UnescapedPlain(c: char, rest: string)
    requires c != '\\' && c != '$'
    ensures Unescaped([c] + rest) == [c] + Unescaped(rest)
  {
    assert ([c] + rest)[1..] == rest;
  }

  lemma UnescapedStep(c: char, rest: string)
    ensures Unescaped(EscapedChar(c) + rest) == [c] + Unescaped(rest)
  {
    hide Unescaped;
    if c == '\\' || c == '"' {
      UnescapedPair('\\', c, rest);
    } else if c == '\n' {
      UnescapedPair('\\', 'n', rest);
    } else if c == '$' {
      UnescapedPair('$', '$', rest);
    } else {
      UnescapedPlain(c, rest);
    }
  }

  lemma {:induction false} UnescapedBack(value: string)
    ensures Unescaped(EachEscaped(value)) == value
  {
    if value != "" {
      hide Unescaped, EscapedChar;
      UnescapedBack(value[1..]);
      UnescapedStep(value[0], EachEscaped(value[1..]));
    }
  }

  /** Every multi-line value reads back as itself. */
  lemma EnvFileRoundTrip(value: string)
    requires '\n' in value
    ensures ReadQuoted(EnvFileValue(value)) == Some(value)
  {
    hide Unescaped;
    EscapedIsPerChar(value);
    UnescapedBack(value);
    var line := EnvFileValue(value);
    assert line[1..|line| - 1] == Escaped(value);
  }

  /** Two values are written alike exactly when one spans lines and the other is its written form
      as it stands: then no reader can tell them apart. */
  lemma EnvFileCollision(a: string, b: string)
    requires a != b
    ensures EnvFileValue(a) == EnvFileValue(b)
       <==> ('\n' in a && b == EnvFileValue(a)) || ('\n' in b && a == EnvFileValue(b))
  {
    EnvFileOneLine(a);
    EnvFileOneLine(b);
    if '\n' in a { EnvFileRoundTrip(a); }
    if '\n' in b { EnvFileRoundTrip(b); }
    hide Escaped, ReadQuoted;
  }

  /** Whether a value shares its written form can be told from the value alone: one that spans lines
      always does; a one-line value does exactly when it reads, in double quotes, as a value that
      spans lines and is written so. */
  lemma EnvFileShared(b: string)
    ensures (exists a :: a != b && EnvFileValue(a) == EnvFileValue(b))
       <==> '\n' in b || (var read := ReadQuoted(b); read.Some? && '\n' in read.value && EnvFileValue(read.value) == b)
  {
    hide Escaped, ReadQuoted;
    if '\n' in b {
      EnvFileOneLine(b);
      assert EnvFileValue(EnvFileValue(b)) == EnvFileValue(b);
    } else {
      if a :| a != b && EnvFileValue(a) == EnvFileValue(b) {
        EnvFileCollision(a, b);
        EnvFileRoundTrip(a);
      }
      var read := ReadQuoted(b);
      if read.Some? && '\n' in read.value && EnvFileValue(read.value) == b { assert read.value != b; }
    }
  }

  lemma EachCons(c: char, s: string)
    ensures EachEscaped([c] + s) == EscapedChar(c) + EachEscaped(s)
    ensures EachEscaped("") == ""
  {
    assert ([c] + s)[1..] == s;
  }

  /** A failing input: the one-line value `"a\nb"`, with its quotes and backslash, is written like
      `a` and `b` on two lines. */
  lemma QuotedCollides()
    ensures EnvFileValue("\"a\\nb\"") == EnvFileValue("a\nb")
  {
    hide Escaped, EachEscaped;
    EscapedIsPerChar("a\nb");
    EachCons('b', "");
    EachCons('\n', "b");
    EachCons('a', "\nb");
    assert ['b'] + "" == "b" && ['\n'] + "b" == "\nb" && ['a'] + "\nb" == "a\nb";
    assert EachEscaped("b") == "b" && EachEscaped("\nb") == "\\nb" && EachEscaped("a\nb") == "a\\nb";
  }
}
