/**
  The dotenv loader (dotenv/load_env.go): which text sets which variables, and that it undoes a simple
  printer. A Go string is shown as its code points.
 */
module Dotenv {
  import opened Wrappers
  import opened Text

  /** unicode.IsSpace. */
  predicate IsSpace(c: char) {
    || c == '\t' || c == '\n' || c == '\U{00000B}' || c == '\U{00000C}' || c == '\r' || c == ' '
    || c == '\U{000085}' || c == '\U{0000A0}' || c == '\U{001680}' || '\U{002000}' <= c <= '\U{00200A}'
    || c == '\U{002028}' || c == '\U{002029}' || c == '\U{00202F}' || c == '\U{00205F}' || c == '\U{003000}'
  }

  /** The code points with the property White_Space. */
  lemma {:induction false} SpacesAreUnicode(c: char)
    ensures IsSpace(c) <==>
      var n := c as int;
      || 0x9 <= n <= 0xd || n == 0x20 || n == 0x85 || n == 0xa0 || n == 0x1680 || 0x2000 <= n <= 0x200a
      || n == 0x2028 || n == 0x2029 || n == 0x202f || n == 0x205f || n == 0x3000
  {
  }

  type Env = map<string, string>

  /** strings.Split by one character. */
  function Split(s: string, sep: char): (parts: seq<string>)
    ensures parts != []
    ensures forall i :: 0 <= i < |parts| ==> sep !in parts[i]
  {
    if sep !in s then [s]
    else
      var i := FirstOf(s, sep);
      assert sep !in s[..i];
      [s[..i]] + Split(s[i + 1..], sep)
  }

  function FirstOf(s: string, c: char): (i: nat)
    requires c in s
    ensures i < |s| && s[i] == c && c !in s[..i]
  {
    if s[0] == c then 0
    else
      assert s == [s[0]] + s[1..];
      FirstOf(s[1..], c) + 1
  }

  lemma {:induction false} FirstOfAppend(a: string, c: char, b: string)
    requires c !in a
    ensures c in a + [c] + b && FirstOf(a + [c] + b, c) == |a|
  {
    var s := a + [c] + b;
    assert s[|a|] == c;
    var i := FirstOf(s, c);
    assert forall j :: 0 <= j < i ==> s[..i][j] == s[j] && s[j] != c;
    assert forall j :: 0 <= j < |a| ==> s[j] == a[j] && a[j] != c;
  }

  /** strings.Join. */
  function Join(parts: seq<string>, sep: char): string {
    if parts == [] then "" else if |parts| == 1 then parts[0] else parts[0] + [sep] + Join(parts[1..], sep)
  }

  /** os.Setenv; the loader ignores its errors. */
  function SetEnv(env: Env, key: string, value: string): Env {
    if ValidKey(key) && '\0' !in value then env[key := value] else env
  }

  predicate ValidKey(key: string) {
    key != "" && '=' !in key && '\0' !in key
  }

  function LoadedLine(env: Env, line: string): Env {
    if "#" <= line then env
    else
      var parts := Split(line, '=');
      SetEnv(env, Trim(parts[0], IsSpace), Trim(Join(parts[1..], '='), IsSpace))
  }

  function LoadedLines(env: Env, lines: seq<string>): Env {
    if lines == [] then env else LoadedLine(LoadedLines(env, lines[..|lines| - 1]), lines[|lines| - 1])
  }

  function Loaded(env: Env, text: string): Env {
    LoadedLines(env, Split(text, '\n'))
  }

  /** Loading files in order up to the first that cannot be read. */
  function LoadedFiles(env: Env, files: seq<Option<string>>): (Env, bool)
    decreases |files|
  {
    if files == [] then (env, true)
    else if files[0].None? then (env, false)
    else LoadedFiles(Loaded(env, files[0].value), files[1..])
  }

  class Process {
    var env: Env

    constructor (env: Env)
      ensures this.env == env
    {
      this.env := env;
    }

    method Setenv(key: string, value: string) returns (ok: bool)
      modifies this
      ensures env == SetEnv(old(env), key, value)
      ensures ok == (ValidKey(key) && '\0' !in value)
    {
      ok := ValidKey(key) && '\0' !in value;
      if ok {
        env := env[key := value];
      }
    }
  }

  method LoadEnvFromString(p: Process, text: string)
    modifies p
    ensures p.env == Loaded(old(p.env), text)
  {
    var lines := Split(text, '\n');
    for i := 0 to |lines|
      invariant p.env == LoadedLines(old(p.env), lines[..i])
    {
      assert lines[..i + 1][..i] == lines[..i];
      if "#" <= lines[i] {
        continue;
      }
      var parts := Split(lines[i], '=');
      var key := Trim(parts[0], IsSpace);
      var value := Trim(Join(parts[1..], '='), IsSpace);
      var _ := p.Setenv(key, value);
    }
    assert lines[..|lines|] == lines;
  }

  method LoadEnv(p: Process, files: seq<Option<string>>) returns (ok: bool)
    modifies p
    ensures (p.env, ok) == LoadedFiles(old(p.env), files)
  {
    for i := 0 to |files|
      invariant LoadedFiles(p.env, files[i..]) == LoadedFiles(old(p.env), files)
    {
      assert files[i..][1..] == files[i + 1..];
      if files[i] == None {
        return false;
      }
      LoadEnvFromString(p, files[i].value);
    }
    return true;
  }

  // ---------- what a line assigns ----------

  lemma {:induction false} SplitFirst(s: string, sep: char)
    ensures var parts := Split(s, sep);
      if sep in s then
        var i := FirstOf(s, sep);
        parts[0] == s[..i] && Join(parts[1..], sep) == s[i + 1..]
      else parts == [s]
  {
    if sep in s {
      var i := FirstOf(s, sep);
      JoinSplit(s[i + 1..], sep);
      assert Split(s, sep)[1..] == Split(s[i + 1..], sep);
    }
  }

  lemma {:induction false} SplitAtFirst(s: string, sep: char)
    requires sep in s
    ensures var i := FirstOf(s, sep);
      && Split(s, sep) == [s[..i]] + Split(s[i + 1..], sep)
      && s == s[..i] + [sep] + s[i + 1..]
  {
  }

  lemma {:induction false} JoinFirst(part: string, parts: seq<string>, sep: char)
    requires parts != []
    ensures Join([part] + parts, sep) == part + [sep] + Join(parts, sep)
  {
    assert ([part] + parts)[1..] == parts;
  }

  lemma {:induction false} JoinSplit(s: string, sep: char)
    ensures Join(Split(s, sep), sep) == s
    decreases |s|
  {
    if sep in s {
      hide Split, Join, FirstOf;
      var i := FirstOf(s, sep);
      SplitAtFirst(s, sep);
      JoinSplit(s[i + 1..], sep);
      JoinFirst(s[..i], Split(s[i + 1..], sep), sep);
    }
  }

  /** The key is the trimmed text before the first '=', the value the trimmed text after it. */
  function Assignment(line: string): Option<(string, string)> {
    var i := if '=' in line then FirstOf(line, '=') else |line|;
    var key := Trim(line[..i], IsSpace);
    var value := Trim(if i < |line| then line[i + 1..] else "", IsSpace);
    if "#" <= line || key == "" || '=' in key || '\0' in key || '\0' in value then None else Some((key, value))
  }

  lemma {:induction false} LineAssigns(env: Env, line: string)
    ensures LoadedLine(env, line)
         == match Assignment(line) case Some(kv) => env[kv.0 := kv.1] case None => env
  {
    SplitFirst(line, '=');
    assert line[..|line|] == line;
  }

  predicate AssignsTo(line: string, key: string) {
    Assignment(line).Some? && Assignment(line).value.0 == key
  }

  /** The last line that assigns to a key decides; without one the variable is as before. */
  lemma {:induction false} LastAssignmentWins(env: Env, lines: seq<string>, key: string) returns (w: int)
    ensures -1 <= w < |lines| && forall i :: w < i < |lines| ==> !AssignsTo(lines[i], key)
    ensures var r := LoadedLines(env, lines);
      if w == -1 then (key in r <==> key in env) && (key in env ==> r[key] == env[key])
      else AssignsTo(lines[w], key) && key in r && r[key] == Assignment(lines[w]).value.1
  {
    if lines == [] {
      w := -1;
    } else {
      var (init, last) := (lines[..|lines| - 1], lines[|lines| - 1]);
      LineAssigns(LoadedLines(env, init), last);
      if AssignsTo(last, key) {
        w := |lines| - 1;
      } else {
        w := LastAssignmentWins(env, init, key);
        forall i | w < i < |lines| ensures !AssignsTo(lines[i], key) {
          assert i == |lines| - 1 || lines[i] == init[i];
        }
      }
    }
  }

  // ---------- printing and loading ----------

  function Line(key: string, value: string): string {
    key + "=" + value
  }

  function Printed(m: Env, order: seq<string>): string {
    if order == [] then ""
    else (if order[0] in m then Line(order[0], m[order[0]]) else "") + "\n" + Printed(m, order[1..])
  }

  /** What a loaded variable can look like. */
  predicate Loadable(key: string, value: string) {
    && key != "" && '=' !in key && '\0' !in key && '\n' !in key && Trimmed(key, IsSpace)
    && '\0' !in value && '\n' !in value && Trimmed(value, IsSpace)
  }

  predicate Printable(key: string, value: string) {
    Loadable(key, value) && !("#" <= key)
  }

  lemma {:induction false} TrimKeepsOut(s: string, c: char)
    requires c !in s
    ensures c !in Trim(s, IsSpace)
  {
    TrimIsTrimmed(s, IsSpace);
    var a, b :| 0 <= a <= b <= |s| && Trim(s, IsSpace) == s[a..b];
    assert forall x :: x in s[a..b] ==> x in s;
  }

  lemma {:induction false} AssignmentIsLoadable(line: string)
    requires '\n' !in line && Assignment(line).Some?
    ensures Loadable(Assignment(line).value.0, Assignment(line).value.1)
  {
    var i := if '=' in line then FirstOf(line, '=') else |line|;
    var (k, v) := (line[..i], if i < |line| then line[i + 1..] else "");
    assert '\n' !in k && '\n' !in v;
    TrimIsTrimmed(k, IsSpace);
    TrimIsTrimmed(v, IsSpace);
    TrimKeepsOut(k, '\n');
    TrimKeepsOut(v, '\n');
  }

  /** Whatever is loaded into an empty environment is loadable. */
  lemma {:induction false} LoadedIsLoadable(lines: seq<string>, key: string)
    requires forall i :: 0 <= i < |lines| ==> '\n' !in lines[i]
    requires key in LoadedLines(map[], lines)
    ensures Loadable(key, LoadedLines(map[], lines)[key])
  {
    var w := LastAssignmentWins(map[], lines, key);
    AssignmentIsLoadable(lines[w]);
  }

  /** A printed entry is read back as that entry, or is a comment. */
  lemma {:induction false} PrintedLineAssigns(key: string, value: string)
    requires Loadable(key, value)
    ensures '\n' !in Line(key, value)
    ensures Assignment(Line(key, value)) == if "#" <= key then None else Some((key, value))
  {
    var line := Line(key, value);
    FirstOfAppend(key, '=', value);
    var i := |key|;
    assert line[..i] == key && line[i + 1..] == value;
    TrimOfTrimmed(key, IsSpace);
    TrimOfTrimmed(value, IsSpace);
    assert "#" <= line <==> "#" <= key;
  }

  function LinesOf(m: Env, order: seq<string>): seq<string> {
    if order == [] then [""]
    else [if order[0] in m then Line(order[0], m[order[0]]) else ""] + LinesOf(m, order[1..])
  }

  lemma {:induction false} SplitLine(line: string, rest: string)
    requires '\n' !in line
    ensures Split(line + "\n" + rest, '\n') == [line] + Split(rest, '\n')
  {
    var s := line + "\n" + rest;
    FirstOfAppend(line, '\n', rest);
    var i := |line|;
    assert s[..i] == line && s[i + 1..] == rest;
  }

  lemma {:induction false} PrintedLines(m: Env, order: seq<string>)
    requires forall k :: k in m ==> Loadable(k, m[k])
    ensures Split(Printed(m, order), '\n') == LinesOf(m, order)
  {
    if order != [] {
      PrintedLines(m, order[1..]);
      var line := if order[0] in m then Line(order[0], m[order[0]]) else "";
      if order[0] in m {
        PrintedLineAssigns(order[0], m[order[0]]);
      }
      SplitLine(line, Printed(m, order[1..]));
    }
  }

  lemma {:induction false} LinesOfAt(m: Env, order: seq<string>, i: nat)
    requires i <= |order|
    ensures |LinesOf(m, order)| == |order| + 1
    ensures LinesOf(m, order)[i]
         == if i < |order| && order[i] in m then Line(order[i], m[order[i]]) else ""
  {
    if order != [] {
      LinesOfAt(m, order[1..], if i == 0 then 0 else i - 1);
    }
  }

  lemma {:induction false} EmptyLineAssignsNothing()
    ensures Assignment("") == None
  {
  }

  /** What each line of a printed environment assigns. */
  lemma {:induction false} LinesOfAssign(m: Env, order: seq<string>, i: nat)
    requires Lists(order, m.Keys) && i <= |order| && forall k :: k in m ==> Loadable(k, m[k])
    ensures |LinesOf(m, order)| == |order| + 1
    ensures Assignment(LinesOf(m, order)[i])
         == if i < |order| && !("#" <= order[i]) then Some((order[i], m[order[i]])) else None
  {
    LinesOfAt(m, order, i);
    if i < |order| {
      PrintedLineAssigns(order[i], m[order[i]]);
    } else {
      EmptyLineAssignsNothing();
    }
  }

  /** The loaded value of a key, when everything printed is loadable. */
  lemma {:induction false} LoadOfPrinted(env: Env, m: Env, order: seq<string>, key: string)
    requires Lists(order, m.Keys) && forall k :: k in m ==> Loadable(k, m[k])
    ensures var r := Loaded(env, Printed(m, order));
      if key in m && !("#" <= key) then key in r && r[key] == m[key]
      else (key in r <==> key in env) && (key in env ==> r[key] == env[key])
  {
    PrintedLines(m, order);
    var lines := LinesOf(m, order);
    LinesOfAt(m, order, 0);
    var w := LastAssignmentWins(env, lines, key);
    if w != -1 {
      LinesOfAssign(m, order, w);
    } else if key in m {
      var i :| 0 <= i < |order| && order[i] == key;
      LinesOfAssign(m, order, i);
      assert !AssignsTo(lines[i], key);
    }
  }

  /** Loading a printed environment into a process lays it over what is set there. */
  lemma {:induction false} PrintLoadOverlays(env: Env, m: Env, order: seq<string>)
    requires Lists(order, m.Keys) && forall k :: k in m ==> Printable(k, m[k])
    ensures Loaded(env, Printed(m, order)) == env + m
  {
    var r := Loaded(env, Printed(m, order));
    forall k ensures (k in r <==> k in env + m) && (k in r ==> r[k] == (env + m)[k]) {
      LoadOfPrinted(env, m, order, k);
    }
  }

  /** Printing an environment and loading it gives it back exactly when every entry is printable. */
  lemma {:induction false} PrintLoadIff(m: Env, order: seq<string>)
    requires Lists(order, m.Keys)
    ensures Loaded(map[], Printed(m, order)) == m <==> forall k :: k in m ==> Printable(k, m[k])
  {
    var r := Loaded(map[], Printed(m, order));
    if r == m {
      forall k | k in m ensures Loadable(k, m[k]) {
        LoadedIsLoadable(Split(Printed(m, order), '\n'), k);
      }
      forall k | k in m ensures Printable(k, m[k]) {
        LoadOfPrinted(map[], m, order, k);
      }
    }
    if forall k :: k in m ==> Printable(k, m[k]) {
      PrintLoadOverlays(map[], m, order);
      assert map[] + m == m;
    }
  }

  /**
    The same for any process: every environment it may start with ends up overridden by what was printed
    exactly when every entry is printable.
   */
  lemma {:induction false} PrintLoadAnywhereIff(m: Env, order: seq<string>)
    requires Lists(order, m.Keys)
    ensures (forall env :: Loaded(env, Printed(m, order)) == env + m) <==> forall k :: k in m ==> Printable(k, m[k])
  {
    if forall k :: k in m ==> Printable(k, m[k]) {
      forall env ensures Loaded(env, Printed(m, order)) == env + m {
        PrintLoadOverlays(env, m, order);
      }
    }
    if forall env :: Loaded(env, Printed(m, order)) == env + m {
      assert Loaded(map[], Printed(m, order)) == map[] + m == m;
      PrintLoadIff(m, order);
    }
  }

  // ---------- several files ----------

  /** The lines of the files, one file after the other. */
  function LinesOfFiles(files: seq<Option<string>>): seq<string> {
    if files == [] then []
    else (if files[0].Some? then Split(files[0].value, '\n') else []) + LinesOfFiles(files[1..])
  }

  lemma {:induction false} LoadedLinesOfSum(env: Env, a: seq<string>, b: seq<string>)
    ensures LoadedLines(env, a + b) == LoadedLines(LoadedLines(env, a), b)
  {
    if b == [] {
      assert a + b == a;
    } else {
      assert (a + b)[..|a + b| - 1] == a + b[..|b| - 1];
      LoadedLinesOfSum(env, a, b[..|b| - 1]);
    }
  }

  /** The first `n` files can be read, and the next one, if there is one, cannot. */
  predicate ReadableUpTo(files: seq<Option<string>>, n: int) {
    && 0 <= n <= |files| && (n < |files| ==> files[n].None?)
    && forall i :: 0 <= i < n ==> files[i].Some?
  }

  /**
    Loading succeeds exactly when every file can be read; what is loaded are all lines of the files before
    the first that cannot, as of one file.
   */
  lemma {:induction false} FilesLoadUpToUnreadable(env: Env, files: seq<Option<string>>, n: nat)
    requires ReadableUpTo(files, n)
    ensures var (r, ok) := LoadedFiles(env, files);
      && (ok <==> forall i :: 0 <= i < |files| ==> files[i].Some?)
      && r == LoadedLines(env, LinesOfFiles(files[..n]))
    decreases |files|
  {
    if n > 0 {
      hide Split, LoadedLines;
      var (lines, rest) := (Split(files[0].value, '\n'), files[1..]);
      assert forall i :: 0 <= i < |rest| ==> rest[i] == files[i + 1];
      FilesLoadUpToUnreadable(LoadedLines(env, lines), rest, n - 1);
      assert files[..n][1..] == rest[..n - 1];
      LoadedLinesOfSum(env, lines, LinesOfFiles(rest[..n - 1]));
      if forall i :: 0 <= i < |rest| ==> rest[i].Some? {
        forall i | 0 <= i < |files| ensures files[i].Some? {
          assert i == 0 || files[i] == rest[i - 1];
        }
      }
    }
  }
}
