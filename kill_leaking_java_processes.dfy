/**
 * The process-line classifier of the build's cleanup tool: it reads the
 * output of a process listing, keeps the lines that describe a Java process,
 * splits each command line into tokens, picks out the main class and the
 * classpath, and decides whether the process is a leaked Gradle or Kotlin
 * daemon that should be killed.
 *
 * The two line patterns (one for Unix `ps`, one for Windows `wmic`) are
 * abstracted as functions from a trimmed line to its capture groups. The
 * working directory of the tool is a parameter.
 */
module ProcessCleanup {
  import opened Wrappers

  // ---------------------------------------------------------------------------
  // Characters and strings

  /** The characters matched by `\s` in a Java regular expression. */
  predicate IsWhitespace(c: char) {
    c == ' ' || c == '\t' || c == '\n' || c == '\r' || c as int == 11 || c as int == 12
  }

  /** The characters `String.trim` removes: every code point up to and including the space. */
  predicate IsTrimmed(c: char) {
    c as int <= 32
  }

  predicate NoWhitespace(s: string) {
    forall i :: 0 <= i < |s| ==> !IsWhitespace(s[i])
  }

  predicate StartsWith(s: string, prefix: string) {
    |prefix| <= |s| && s[..|prefix|] == prefix
  }

  predicate EndsWith(s: string, suffix: string) {
    |suffix| <= |s| && s[|s| - |suffix|..] == suffix
  }

  function Concat(ss: seq<string>): string {
    if ss == [] then [] else ss[0] + Concat(ss[1..])
  }

  /** The characters of `s` that are not whitespace, in order. */
  function DropWhitespace(s: string): (r: string)
    ensures NoWhitespace(r)
  {
    if s == [] then []
    else if IsWhitespace(s[0]) then DropWhitespace(s[1..])
    else [s[0]] + DropWhitespace(s[1..])
  }

  function WhitespaceCount(s: string): nat {
    if s == [] then 0 else (if IsWhitespace(s[0]) then 1 else 0) + WhitespaceCount(s[1..])
  }

  /**
   * Splitting at every single whitespace character: the fields between them, empty
   * fields included. (Java also drops trailing empty fields; every empty field
   * is dropped later anyway, so the difference is never seen.)
   */
  function SplitOnWhitespace(s: string): (r: seq<string>)
    ensures |r| == WhitespaceCount(s) + 1
    ensures forall i :: 0 <= i < |r| ==> NoWhitespace(r[i])
    ensures Concat(r) == DropWhitespace(s)
  {
    if s == [] then [""]
    else
      var rest := SplitOnWhitespace(s[1..]);
      if IsWhitespace(s[0]) then
        [""] + rest
      else
        assert Concat(rest) == rest[0] + Concat(rest[1..]);
        assert ([[s[0]] + rest[0]] + rest[1..])[1..] == rest[1..];
        [[s[0]] + rest[0]] + rest[1..]
  }

  /** A string without whitespace is a single field. */
  lemma {:induction false} SplitWithoutWhitespace(s: string)
    requires NoWhitespace(s)
    ensures SplitOnWhitespace(s) == [s]
  {
    if s != [] {
      assert NoWhitespace(s[1..]) by {
        assert forall i :: 0 <= i < |s| - 1 ==> s[1..][i] == s[i + 1];
      }
      SplitWithoutWhitespace(s[1..]);
      assert [s[0]] + s[1..] == s;
    }
  }

  /** A whitespace character closes the field before it: the fields of `a`, a whitespace, `b` are `a`, then those of `b`. */
  lemma {:induction false} SplitAtWhitespace(a: string, w: char, b: string)
    requires NoWhitespace(a) && IsWhitespace(w)
    ensures SplitOnWhitespace(a + [w] + b) == [a] + SplitOnWhitespace(b)
    decreases |a|
  {
    var s := a + [w] + b;
    if a == [] {
      assert s[1..] == b;
    } else {
      assert s[0] == a[0] && s[1..] == a[1..] + [w] + b;
      assert NoWhitespace(a[1..]) by {
        assert forall i :: 0 <= i < |a| - 1 ==> a[1..][i] == a[i + 1];
      }
      SplitAtWhitespace(a[1..], w, b);
      assert [a[0]] + a[1..] == a;
    }
  }

  /** The first index at or after `start` whose character `trim` keeps, or `|s|`. */
  function SkipLeading(s: string, start: nat): (r: nat)
    requires start <= |s|
    ensures start <= r <= |s|
    ensures forall k :: start <= k < r ==> IsTrimmed(s[k])
    ensures r < |s| ==> !IsTrimmed(s[r])
    decreases |s| - start
  {
    if start < |s| && IsTrimmed(s[start]) then SkipLeading(s, start + 1) else start
  }

  /** The end of `s[start..len]` once trailing characters that `trim` removes are dropped. */
  function SkipTrailing(s: string, start: nat, len: nat): (r: nat)
    requires start <= len <= |s|
    ensures start <= r <= len
    ensures forall k :: r <= k < len ==> IsTrimmed(s[k])
    ensures start < r ==> !IsTrimmed(s[r - 1])
    decreases len
  {
    if start < len && IsTrimmed(s[len - 1]) then SkipTrailing(s, start, len - 1) else len
  }

  /** `r` stands in `s` at `st`, and everything around it is trimmed away. */
  predicate TrimmedOut(s: string, st: int, r: string) {
    && 0 <= st <= st + |r| <= |s| && r == s[st..st + |r|]
    && (forall k :: 0 <= k < st ==> IsTrimmed(s[k]))
    && (forall k :: st + |r| <= k < |s| ==> IsTrimmed(s[k]))
  }

  /** `String.trim`: the longest middle part of `s` that neither starts nor ends with a character up to the space. */
  function Trim(s: string): (r: string)
    ensures |r| <= |s|
    ensures r == [] || (!IsTrimmed(r[0]) && !IsTrimmed(r[|r| - 1]))
  {
    var st := SkipLeading(s, 0);
    var len := SkipTrailing(s, st, |s|);
    s[st..len]
  }

  /** What `trim` removes are the characters up to the space at both ends, and nothing else. */
  lemma TrimmedAtBothEnds(s: string)
    ensures TrimmedOut(s, SkipLeading(s, 0), Trim(s))
  {
    var st := SkipLeading(s, 0);
    var len := SkipTrailing(s, st, |s|);
    assert Trim(s) == s[st..len];
  }

  /** Trimming twice is trimming once. */
  lemma TrimIdempotent(s: string)
    ensures Trim(Trim(s)) == Trim(s)
  {
    var t := Trim(s);
    var st := SkipLeading(t, 0);
    assert st == 0;
    var len := SkipTrailing(t, 0, |t|);
    assert len == |t|;
    assert t[0..|t|] == t;
  }

  // ---------------------------------------------------------------------------
  // The tokens of a command line

  /** Each field trimmed, in order. */
  function TrimEach(pieces: seq<string>): (r: seq<string>)
    ensures |r| == |pieces|
    ensures forall i :: 0 <= i < |pieces| ==> r[i] == Trim(pieces[i])
  {
    seq(|pieces|, i requires 0 <= i < |pieces| => Trim(pieces[i]))
  }

  /** Trimming each field keeps the order of the fields. */
  lemma TrimEachAppend(a: seq<string>, b: seq<string>)
    ensures TrimEach(a + b) == TrimEach(a) + TrimEach(b)
  {
    var ab, ta, tb := TrimEach(a + b), TrimEach(a), TrimEach(b);
    forall i | 0 <= i < |a| ensures ab[i] == (ta + tb)[i] {
      assert (a + b)[i] == a[i];
    }
    forall i | |a| <= i < |ab| ensures ab[i] == (ta + tb)[i] {
      assert (a + b)[i] == b[i - |a|];
    }
  }

  /** The non-empty strings, in order. */
  function DropEmpty(ts: seq<string>): (r: seq<string>)
    ensures |r| <= |ts|
    ensures forall t :: t in r <==> t in ts && t != ""
    decreases |ts|
  {
    if ts == [] then []
    else
      var rest := DropEmpty(ts[..|ts| - 1]);
      assert forall t :: t in ts <==> t in ts[..|ts| - 1] || t == ts[|ts| - 1];
      if ts[|ts| - 1] == "" then rest else rest + [ts[|ts| - 1]]
  }

  /** Dropping the empty strings keeps the order of the others. */
  lemma {:induction false} DropEmptyAppend(a: seq<string>, b: seq<string>)
    ensures DropEmpty(a + b) == DropEmpty(a) + DropEmpty(b)
    decreases |b|
  {
    if b == [] {
      assert a + b == a;
    } else {
      var init := b[..|b| - 1];
      DropEmptyAppend(a, init);
      assert (a + b)[..|a + b| - 1] == a + init;
      assert (a + b)[|a + b| - 1] == b[|b| - 1];
    }
  }

  /** A single field gives its trimmed text, or nothing when that is empty. */
  lemma OneField(p: string)
    ensures DropEmpty(TrimEach([p])) == if Trim(p) == "" then [] else [Trim(p)]
  {
    assert TrimEach([p]) == [Trim(p)];
    assert [Trim(p)][..0] == [];
  }

  /** One more field: its trimmed text, unless empty, follows the tokens of the fields before it. */
  lemma OneMorePiece(pieces: seq<string>, k: nat)
    requires k < |pieces|
    ensures DropEmpty(TrimEach(pieces[..k + 1]))
         == DropEmpty(TrimEach(pieces[..k])) + (if Trim(pieces[k]) == "" then [] else [Trim(pieces[k])])
  {
    assert pieces[..k + 1] == pieces[..k] + [pieces[k]];
    TrimEachAppend(pieces[..k], [pieces[k]]);
    DropEmptyAppend(TrimEach(pieces[..k]), TrimEach([pieces[k]]));
    OneField(pieces[k]);
  }

  /** A trimmed field without whitespace has none, and is empty or has no trimmable character at either end. */
  lemma TrimmedPiecesAreWords(pieces: seq<string>)
    requires forall i :: 0 <= i < |pieces| ==> NoWhitespace(pieces[i])
    ensures forall t :: t in TrimEach(pieces) ==>
      NoWhitespace(t) && (t == "" || (!IsTrimmed(t[0]) && !IsTrimmed(t[|t| - 1])))
  {
    var ts := TrimEach(pieces);
    forall t | t in ts ensures NoWhitespace(t) {
      var i :| 0 <= i < |ts| && ts[i] == t;
      TrimmedAtBothEnds(pieces[i]);
      var st := SkipLeading(pieces[i], 0);
      assert forall k :: 0 <= k < |t| ==> t[k] == pieces[i][st + k];
    }
  }

  /**
   * The tokens of the arguments that follow the Java executable: the fields
   * between whitespace characters, each trimmed, the empty ones dropped. Every
   * token is a non-empty word without whitespace or trimmable ends.
   */
  function Tokens(otherCommands: string): (r: seq<string>)
    ensures forall t :: t in r ==> t != "" && NoWhitespace(t) && !IsTrimmed(t[0]) && !IsTrimmed(t[|t| - 1])
  {
    TrimmedPiecesAreWords(SplitOnWhitespace(otherCommands));
    DropEmpty(TrimEach(SplitOnWhitespace(otherCommands)))
  }

  /** The tokens of `a`, a whitespace, `b` are those of `a`, then those of `b`. */
  lemma TokensAtWhitespace(a: string, w: char, b: string)
    requires NoWhitespace(a) && IsWhitespace(w)
    ensures Tokens(a + [w] + b) == Tokens(a) + Tokens(b)
  {
    SplitAtWhitespace(a, w, b);
    SplitWithoutWhitespace(a);
    TrimEachAppend([a], SplitOnWhitespace(b));
    DropEmptyAppend(TrimEach([a]), TrimEach(SplitOnWhitespace(b)));
  }

  /** `commands`: the Java executable followed by the tokens of the other arguments. */
  function Commands(javaCommand: string, otherCommands: string): (r: seq<string>)
    ensures |r| >= 1 && r[0] == javaCommand && r[1..] == Tokens(otherCommands)
  {
    [javaCommand] + Tokens(otherCommands)
  }

  /** Arguments made of one word, without whitespace or surrounding characters that `trim` removes, are that one token. */
  lemma SingleWordIsOneToken(w: string)
    requires w != "" && NoWhitespace(w) && !IsTrimmed(w[0]) && !IsTrimmed(w[|w| - 1])
    ensures Tokens(w) == [w]
  {
    SplitWithoutWhitespace(w);
    assert SkipLeading(w, 0) == 0;
    assert SkipTrailing(w, 0, |w|) == |w|;
    assert w[0..|w|] == w;
    OneField(w);
  }

  // ---------------------------------------------------------------------------
  // The main-class pattern `([a-z]+\.)+[A-Z]\w+`

  predicate IsLowerLetter(c: char) {
    'a' <= c <= 'z'
  }

  predicate IsWordChar(c: char) {
    'a' <= c <= 'z' || 'A' <= c <= 'Z' || '0' <= c <= '9' || c == '_'
  }

  /**
   * The language of `([a-z]+\.)+`: lower-case letters and dots, starting with a
   * letter, ending with a dot, with no two dots in a row.
   */
  predicate IsPackagePrefix(p: string) {
    && |p| >= 2
    && IsLowerLetter(p[0])
    && p[|p| - 1] == '.'
    && (forall i :: 0 <= i < |p| ==> IsLowerLetter(p[i]) || p[i] == '.')
    && (forall i :: 0 < i < |p| && p[i] == '.' ==> p[i - 1] != '.')
  }

  /** The language of `[A-Z]\w+`. */
  predicate IsSimpleClassName(q: string) {
    |q| >= 2 && 'A' <= q[0] <= 'Z' && forall i :: 1 <= i < |q| ==> IsWordChar(q[i])
  }

  /**
   * The whole token matches the main-class pattern: a package prefix followed
   * by a simple class name. A match starts with a lower-case letter, holds a
   * dot, ends with a word character and has at least four characters.
   */
  function IsMainClass(s: string): (r: bool)
    ensures r ==> |s| >= 4 && IsLowerLetter(s[0]) && '.' in s && IsWordChar(s[|s| - 1])
  {
    if exists k :: 0 < k < |s| && IsPackagePrefix(s[..k]) && IsSimpleClassName(s[k..]) then
      var k :| 0 < k < |s| && IsPackagePrefix(s[..k]) && IsSimpleClassName(s[k..]);
      assert s[0] == s[..k][0] && s[k - 1] == s[..k][k - 1] && s[|s| - 1] == s[k..][|s| - k - 1];
      true
    else false
  }

  /** A token matches with exactly one split: right after its last dot. */
  lemma MainClassSplitIsUnique(s: string, k1: nat, k2: nat)
    requires 0 < k1 < |s| && IsPackagePrefix(s[..k1]) && IsSimpleClassName(s[k1..])
    requires 0 < k2 < |s| && IsPackagePrefix(s[..k2]) && IsSimpleClassName(s[k2..])
    ensures k1 == k2
  {
  }

  /** One lower-case segment followed by a dot is a package prefix. */
  lemma SegmentIsPackagePrefix(seg: string)
    requires seg != [] && forall i :: 0 <= i < |seg| ==> IsLowerLetter(seg[i])
    ensures IsPackagePrefix(seg + ".")
  {
  }

  /** A package prefix followed by one more segment and a dot is a package prefix. */
  lemma PackagePrefixExtends(p: string, seg: string)
    requires IsPackagePrefix(p)
    requires seg != [] && forall i :: 0 <= i < |seg| ==> IsLowerLetter(seg[i])
    ensures IsPackagePrefix(p + seg + ".")
  {
    var r := p + seg + ".";
    forall i | 0 < i < |r| && r[i] == '.' ensures r[i - 1] != '.' {
      if i < |p| {
        assert r[i] == p[i] && r[i - 1] == p[i - 1];
      } else if i == |r| - 1 {
        assert r[i - 1] == seg[|seg| - 1];
      }
    }
  }

  /** A package prefix followed by a simple class name matches the main-class pattern. */
  lemma QualifiedNameIsMainClass(p: string, q: string)
    requires IsPackagePrefix(p) && IsSimpleClassName(q)
    ensures IsMainClass(p + q)
  {
    assert (p + q)[..|p|] == p && (p + q)[|p|..] == q;
  }

  /** The package of the Gradle daemon's main class is a package prefix. */
  lemma DaemonPackageIsPrefix()
    ensures IsPackagePrefix("org.gradle.launcher.daemon.bootstrap.")
  {
    SegmentIsPackagePrefix("org");
    assert "org" + "." == "org.";
    PackagePrefixExtends("org.", "gradle");
    assert "org." + "gradle" + "." == "org.gradle.";
    PackagePrefixExtends("org.gradle.", "launcher");
    assert "org.gradle." + "launcher" + "." == "org.gradle.launcher.";
    DaemonPackageTail();
  }

  lemma DaemonPackageTail()
    requires IsPackagePrefix("org.gradle.launcher.")
    ensures IsPackagePrefix("org.gradle.launcher.daemon.bootstrap.")
  {
    PackagePrefixExtends("org.gradle.launcher.", "daemon");
    assert "org.gradle.launcher." + "daemon" + "." == "org.gradle.launcher.daemon.";
    PackagePrefixExtends("org.gradle.launcher.daemon.", "bootstrap");
    assert "org.gradle.launcher.daemon." + "bootstrap" + "." == "org.gradle.launcher.daemon.bootstrap.";
  }

  /** The main class of a Gradle daemon matches the pattern. */
  lemma DaemonMainClassMatches()
    ensures IsMainClass("org.gradle.launcher.daemon.bootstrap.GradleDaemon")
  {
    DaemonPackageIsPrefix();
    QualifiedNameIsMainClass("org.gradle.launcher.daemon.bootstrap.", "GradleDaemon");
    assert "org.gradle.launcher.daemon.bootstrap." + "GradleDaemon" == "org.gradle.launcher.daemon.bootstrap.GradleDaemon";
  }

  /** A bare simple name, without a package, does not match. */
  lemma BareClassNameDoesNotMatch()
    ensures !IsMainClass("GradleDaemon")
  {
    var g := "GradleDaemon";
    forall k | 0 < k < |g| ensures !IsPackagePrefix(g[..k]) {
      assert g[..k][0] == 'G';
    }
  }

  /** `cmds[i]` matches the main-class pattern and no later token does. */
  predicate IsLastMainClassAt(cmds: seq<string>, i: int) {
    && 0 <= i < |cmds|
    && IsMainClass(cmds[i])
    && forall j :: i < j < |cmds| ==> !IsMainClass(cmds[j])
  }

  /** At most one token is the last to match. */
  lemma LastMainClassAtIsUnique(cmds: seq<string>, i: int, j: int)
    requires IsLastMainClassAt(cmds, i) && IsLastMainClassAt(cmds, j)
    ensures i == j
  {
  }

  /**
   * The main class: the last token that matches the pattern, or none.
   */
  function LastMainClass(cmds: seq<string>): (r: Option<string>)
    ensures r.None? <==> forall i :: 0 <= i < |cmds| ==> !IsMainClass(cmds[i])
    ensures r.Some? ==> exists i :: IsLastMainClassAt(cmds, i) && cmds[i] == r.value
    decreases |cmds|
  {
    if cmds == [] then None
    else if IsMainClass(cmds[|cmds| - 1]) then
      assert IsLastMainClassAt(cmds, |cmds| - 1);
      Some(cmds[|cmds| - 1])
    else
      var r := LastMainClass(cmds[..|cmds| - 1]);
      assert forall i :: 0 <= i < |cmds| - 1 ==> cmds[..|cmds| - 1][i] == cmds[i];
      if r.Some? then
        LastMainClassStaysLast(cmds, cmds[..|cmds| - 1], r.value);
        r
      else r
  }

  /** A last match among all tokens but the last stays last when the last token does not match. */
  lemma LastMainClassStaysLast(cmds: seq<string>, init: seq<string>, v: string)
    requires |cmds| >= 1 && !IsMainClass(cmds[|cmds| - 1]) && init == cmds[..|cmds| - 1]
    requires exists i :: IsLastMainClassAt(init, i) && init[i] == v
    ensures exists i :: IsLastMainClassAt(cmds, i) && cmds[i] == v
  {
    var i :| IsLastMainClassAt(init, i) && init[i] == v;
    assert forall k :: i < k < |cmds| - 1 ==> init[k] == cmds[k];
    assert IsLastMainClassAt(cmds, i);
  }

  // ---------------------------------------------------------------------------
  // The classpath

  predicate IsClasspathFlag(s: string) {
    s == "-classpath" || s == "-cp"
  }

  /**
   * `r` is `s` less its first character (`st` is 1) exactly when that is a
   * double quote, and then less its last remaining character exactly when
   * that is a double quote.
   */
  predicate QuotesStripped(s: string, st: int, r: string) {
    && 0 <= st <= 1 && st + |r| <= |s| && |s| <= st + |r| + 1 && r == s[st..st + |r|]
    && (st == 1 <==> |s| > 0 && s[0] == '"')
    && (st + |r| < |s| <==> |s| > st && s[|s| - 1] == '"')
  }

  /** `cmds[j]` is a classpath flag with a token after it, and no later token before the last is one. */
  predicate IsLastClasspathFlag(cmds: seq<string>, j: int) {
    && 0 <= j < |cmds| - 1
    && IsClasspathFlag(cmds[j])
    && forall k :: j < k < |cmds| - 1 ==> !IsClasspathFlag(cmds[k])
  }

  /** A last flag of all tokens but the last stays last when the token before the last is not a flag. */
  lemma LastFlagStaysLast(cmds: seq<string>, init: seq<string>, v: string)
    requires |cmds| >= 2 && !IsClasspathFlag(cmds[|cmds| - 2]) && init == cmds[..|cmds| - 1]
    requires exists j :: IsLastClasspathFlag(init, j) && v == StripQuotes(init[j + 1])
    ensures exists j :: IsLastClasspathFlag(cmds, j) && v == StripQuotes(cmds[j + 1])
  {
    var j :| IsLastClasspathFlag(init, j) && v == StripQuotes(init[j + 1]);
    assert init[j + 1] == cmds[j + 1];
    assert forall k :: j < k < |cmds| - 2 ==> init[k] == cmds[k];
    assert IsLastClasspathFlag(cmds, j);
  }

  /** At most one leading and one trailing double quote removed. */
  function StripQuotes(s: string): (r: string)
    ensures (forall i :: 0 <= i < |s| ==> s[i] != '"') ==> r == s
    ensures exists st :: QuotesStripped(s, st, r)
  {
    var a := if |s| > 0 && s[0] == '"' then s[1..] else s;
    var b := if |a| > 0 && a[|a| - 1] == '"' then a[..|a| - 1] else a;
    if |s| > 0 && s[0] == '"' then
      assert QuotesStripped(s, 1, b);
      b
    else
      assert QuotesStripped(s, 0, b);
      b
  }

  /** A token wrapped in double quotes loses exactly those two quotes. */
  lemma QuotedIsUnquoted(x: string)
    ensures StripQuotes("\"" + x + "\"") == x
  {
    var s := "\"" + x + "\"";
    assert s[0] == '"' && s[|s| - 1] == '"';
    var st :| QuotesStripped(s, st, StripQuotes(s));
    assert s[1..|s| - 1] == x;
  }

  /**
   * The classpath as intended: the token that follows the last `-classpath` or
   * `-cp` flag standing before the last token, quotes stripped; none without such a flag.
   */
  function ClasspathOf(cmds: seq<string>): (r: Option<string>)
    ensures r.None? <==> forall j :: 0 <= j < |cmds| - 1 ==> !IsClasspathFlag(cmds[j])
    ensures r.Some? ==> exists j :: IsLastClasspathFlag(cmds, j) && r.value == StripQuotes(cmds[j + 1])
    decreases |cmds|
  {
    if |cmds| < 2 then None
    else if IsClasspathFlag(cmds[|cmds| - 2]) then
      assert IsLastClasspathFlag(cmds, |cmds| - 2);
      Some(StripQuotes(cmds[|cmds| - 1]))
    else
      var r := ClasspathOf(cmds[..|cmds| - 1]);
      assert forall i :: 0 <= i < |cmds| - 1 ==> cmds[..|cmds| - 1][i] == cmds[i];
      if r.Some? then
        LastFlagStaysLast(cmds, cmds[..|cmds| - 1], r.value);
        r
      else r
  }

  // ---------------------------------------------------------------------------
  // The process description

  /** A Java process found in the listing. */
  datatype JavaProcessInfo = JavaProcessInfo(
    pid: string,
    commands: seq<string>,
    mainClass: Option<string>,
    classpath: Option<string>)

  /** What the constructor throws: a read of the element one past the end of the command list. */
  datatype ConstructionError = IndexOutOfBounds(index: nat, length: nat)

  /** The process description, with the classpath guard as intended. */
  function Info(pid: string, javaCommand: string, otherCommands: string): (p: JavaProcessInfo)
    ensures p.pid == pid && p.commands == Commands(javaCommand, otherCommands)
  {
    var cmds := Commands(javaCommand, otherCommands);
    JavaProcessInfo(pid, cmds, LastMainClass(cmds), ClasspathOf(cmds))
  }

  /** The commands end in `-cp`, the flag the guard against the last index misses. */
  predicate EndsInCp(cmds: seq<string>) {
    |cmds| > 0 && cmds[|cmds| - 1] == "-cp"
  }

  /**
   * The constructor as written: the guard against the last index binds only to
   * `-classpath`, so a last token `-cp` reads past the end of the list.
   */
  function InfoAsWritten(pid: string, javaCommand: string, otherCommands: string)
    : (r: Result<JavaProcessInfo, ConstructionError>)
    ensures r.Failure? <==> EndsInCp(Commands(javaCommand, otherCommands))
    ensures r.Failure? ==> r.error == IndexOutOfBounds(|Commands(javaCommand, otherCommands)|, |Commands(javaCommand, otherCommands)|)
    ensures r.Success? ==> r.value == Info(pid, javaCommand, otherCommands)
  {
    var cmds := Commands(javaCommand, otherCommands);
    if cmds[|cmds| - 1] == "-cp" then Failure(IndexOutOfBounds(|cmds|, |cmds|))
    else Success(Info(pid, javaCommand, otherCommands))
  }

  /** A listed process whose command line ends in `-cp` makes the constructor throw. */
  lemma TrailingCpThrows()
    ensures InfoAsWritten("4242", "/usr/bin/java", "-cp").Failure?
  {
    SingleWordIsOneToken("-cp");
    var cmds := Commands("/usr/bin/java", "-cp");
    assert cmds == ["/usr/bin/java"] + Tokens("-cp");
    assert cmds[|cmds| - 1] == "-cp";
  }

  /** One more token: the main class of a longer prefix. */
  lemma LastMainClassStep(cmds: seq<string>, i: int)
    requires 0 <= i < |cmds|
    ensures LastMainClass(cmds[..i + 1]) == if IsMainClass(cmds[i]) then Some(cmds[i]) else LastMainClass(cmds[..i])
  {
    assert cmds[..i + 1][..i] == cmds[..i];
  }

  /** One more token: the classpath of a longer prefix. */
  lemma ClasspathOfStep(cmds: seq<string>, i: int)
    requires 0 <= i < |cmds| - 1
    ensures ClasspathOf(cmds[..i + 2])
         == if IsClasspathFlag(cmds[i]) then Some(StripQuotes(cmds[i + 1])) else ClasspathOf(cmds[..i + 1])
  {
    assert cmds[..i + 2][..i + 1] == cmds[..i + 1];
  }

  /** The first half of the constructor: the Java executable, then each trimmed non-empty field of the other arguments. */
  method CollectCommands(javaCommand: string, otherCommands: string) returns (commands: seq<string>)
    ensures commands == Commands(javaCommand, otherCommands)
  {
    commands := AddTokens([javaCommand], SplitOnWhitespace(otherCommands));
  }

  /** Appends each field of the other arguments, trimmed, unless it is empty. */
  method AddTokens(start: seq<string>, pieces: seq<string>) returns (commands: seq<string>)
    ensures commands == start + DropEmpty(TrimEach(pieces))
  {
    commands := start;
    assert TrimEach(pieces[..0]) == [];
    for k := 0 to |pieces|
      invariant commands == start + DropEmpty(TrimEach(pieces[..k]))
    {
      var piece := Trim(pieces[k]);
      ghost var done := DropEmpty(TrimEach(pieces[..k]));
      OneMorePiece(pieces, k);
      if piece != "" {
        assert start + (done + [piece]) == start + done + [piece];
        commands := commands + [piece];
      } else {
        assert done + [] == done;
      }
    }
    assert pieces[..|pieces|] == pieces;
  }

  /**
   * The second half of the constructor, as written: walk the tokens,
   * overwriting the main class and the classpath at each match; the guard
   * against the last index binds only to `-classpath`, so a last `-cp` reads
   * past the end of the list.
   */
  method ScanCommands(commands: seq<string>) returns (r: Result<(Option<string>, Option<string>), ConstructionError>)
    requires |commands| >= 1
    ensures r.Failure? <==> commands[|commands| - 1] == "-cp"
    ensures r.Failure? ==> r.error == IndexOutOfBounds(|commands|, |commands|)
    ensures r.Success? ==> r.value == (LastMainClass(commands), ClasspathOf(commands))
  {
    var mainClass: Option<string> := None;
    var classpath: Option<string> := None;
    for i := 0 to |commands|
      invariant mainClass == LastMainClass(commands[..i])
      invariant i < |commands| ==> classpath == ClasspathOf(commands[..i + 1])
      invariant i == |commands| ==> classpath == ClasspathOf(commands) && commands[|commands| - 1] != "-cp"
    {
      var command := commands[i];
      LastMainClassStep(commands, i);
      if IsMainClass(command) {
        mainClass := Some(command);
      }
      if (i != |commands| - 1 && command == "-classpath") || command == "-cp" {
        if i + 1 >= |commands| {
          return Failure(IndexOutOfBounds(i + 1, |commands|));
        }
        var value := commands[i + 1];
        if |value| > 0 && value[0] == '"' {
          value := value[1..];
        }
        if |value| > 0 && value[|value| - 1] == '"' {
          value := value[..|value| - 1];
        }
        assert value == StripQuotes(commands[i + 1]);
        classpath := Some(value);
      }
      if i + 1 < |commands| {
        ClasspathOfStep(commands, i);
      } else {
        assert commands[..i + 1] == commands;
      }
    }
    assert commands[..|commands|] == commands;
    return Success((mainClass, classpath));
  }

  /** The constructor of `JavaProcessInfo`, as written: collect the tokens, then scan them. */
  method NewJavaProcessInfo(pid: string, javaCommand: string, otherCommands: string)
    returns (r: Result<JavaProcessInfo, ConstructionError>)
    ensures r == InfoAsWritten(pid, javaCommand, otherCommands)
  {
    var commands := CollectCommands(javaCommand, otherCommands);
    var scanned := ScanCommands(commands);
    if scanned.Failure? {
      assert EndsInCp(commands);
      return Failure(scanned.error);
    }
    assert !EndsInCp(commands);
    assert JavaProcessInfo(pid, commands, scanned.value.0, scanned.value.1) == Info(pid, javaCommand, otherCommands);
    return Success(JavaProcessInfo(pid, commands, scanned.value.0, scanned.value.1));
  }

  // ---------------------------------------------------------------------------
  // The verdict

  /** The main classes that are leaked whatever their classpath. */
  predicate IsWorkerOrCompilerDaemon(mainClass: string) {
    EndsWith(mainClass, ".GradleWorkerMain") || EndsWith(mainClass, ".KotlinCompileDaemon")
  }

  /** `isLeakingJavaProcess`: a worker or Kotlin daemon always, a Gradle daemon only when run from the working directory. */
  function IsLeakingJavaProcess(p: JavaProcessInfo, workingDirectory: string): (r: bool)
    ensures p.mainClass.None? ==> !r
    ensures p.mainClass.Some? && IsWorkerOrCompilerDaemon(p.mainClass.value) ==> r
    ensures p.mainClass.Some? && !IsWorkerOrCompilerDaemon(p.mainClass.value) ==>
      (r <==> EndsWith(p.mainClass.value, ".GradleDaemon")
              && p.classpath.Some? && StartsWith(p.classpath.value, workingDirectory))
  {
    match p.mainClass
    case None => false
    case Some(m) =>
      if EndsWith(m, ".GradleWorkerMain") || EndsWith(m, ".KotlinCompileDaemon") then true
      else if EndsWith(m, ".GradleDaemon") then
        p.classpath.Some? && StartsWith(p.classpath.value, workingDirectory)
      else false
  }

  /** At most one flag is the last. */
  lemma LastClasspathFlagIsUnique(cmds: seq<string>, i: int, j: int)
    requires IsLastClasspathFlag(cmds, i) && IsLastClasspathFlag(cmds, j)
    ensures i == j
  {
  }

  /**
   * The verdict on a listed process in terms of its tokens: without a
   * main-class token it is kept; otherwise the last main-class token decides:
   * a worker or Kotlin daemon is killed, and a Gradle daemon is killed exactly
   * when the token after its last classpath flag, unquoted, lies under the
   * working directory.
   */
  lemma LeakingVerdictFromTokens(pid: string, javaCommand: string, otherCommands: string, workingDirectory: string)
    ensures var cmds := Commands(javaCommand, otherCommands);
      (forall i :: 0 <= i < |cmds| ==> !IsMainClass(cmds[i])) ==>
        !IsLeakingJavaProcess(Info(pid, javaCommand, otherCommands), workingDirectory)
    ensures var cmds := Commands(javaCommand, otherCommands);
      forall i :: IsLastMainClassAt(cmds, i) ==>
        (IsLeakingJavaProcess(Info(pid, javaCommand, otherCommands), workingDirectory) <==>
          || IsWorkerOrCompilerDaemon(cmds[i])
          || (&& EndsWith(cmds[i], ".GradleDaemon")
              && exists j :: IsLastClasspathFlag(cmds, j) && StartsWith(StripQuotes(cmds[j + 1]), workingDirectory)))
  {
    var cmds := Commands(javaCommand, otherCommands);
    var p := Info(pid, javaCommand, otherCommands);
    assert p.mainClass == LastMainClass(cmds) && p.classpath == ClasspathOf(cmds);
    var cp := ClasspathOf(cmds);
    var underWd := exists j :: IsLastClasspathFlag(cmds, j) && StartsWith(StripQuotes(cmds[j + 1]), workingDirectory);
    assert underWd <==> cp.Some? && StartsWith(cp.value, workingDirectory) by {
      if cp.Some? {
        var j0 :| IsLastClasspathFlag(cmds, j0) && cp.value == StripQuotes(cmds[j0 + 1]);
        forall j | IsLastClasspathFlag(cmds, j) ensures j == j0 {
          LastClasspathFlagIsUnique(cmds, j, j0);
        }
      } else {
        assert forall j :: !IsLastClasspathFlag(cmds, j);
      }
    }
    forall i | IsLastMainClassAt(cmds, i) ensures p.mainClass == Some(cmds[i]) {
      var i0 :| IsLastMainClassAt(cmds, i0) && cmds[i0] == p.mainClass.value;
      LastMainClassAtIsUnique(cmds, i, i0);
    }
  }

  // ---------------------------------------------------------------------------
  // Reading the process listing

  /** The first line terminator (`\n` or `\r`) at or after `from`, or `|s|`. */
  function LineEnd(s: string, from: nat): (k: nat)
    requires from <= |s|
    ensures from <= k <= |s|
    ensures forall j :: from <= j < k ==> s[j] != '\n' && s[j] != '\r'
    ensures k < |s| ==> s[k] == '\n' || s[k] == '\r'
    decreases |s| - from
  {
    if from == |s| || s[from] == '\n' || s[from] == '\r' then from else LineEnd(s, from + 1)
  }

  /**
   * `String.lines`: the lines of `s`, split at `\n`, `\r` or `\r\n`, without
   * their terminators; a final terminator does not start an empty line.
   */
  function Lines(s: string): (r: seq<string>)
    ensures forall i :: 0 <= i < |r| ==> forall j :: 0 <= j < |r[i]| ==> r[i][j] != '\n' && r[i][j] != '\r'
    ensures |r| <= |s|
    decreases |s|
  {
    if s == [] then []
    else
      var k := LineEnd(s, 0);
      if k == |s| then [s]
      else
        var next := if s[k] == '\r' && k + 1 < |s| && s[k + 1] == '\n' then k + 2 else k + 1;
        [s[..k]] + Lines(s[next..])
  }

  /** Joins lines, ending each one with `\n`. */
  function JoinLines(ls: seq<string>): string {
    if ls == [] then [] else ls[0] + "\n" + JoinLines(ls[1..])
  }

  /** Round trip: an output without `\r` that ends in `\n` is its lines, each followed by `\n`. */
  lemma {:induction false} LinesRoundTrip(s: string)
    requires forall j :: 0 <= j < |s| ==> s[j] != '\r'
    requires s == [] || s[|s| - 1] == '\n'
    ensures JoinLines(Lines(s)) == s
    decreases |s|
  {
    if s != [] {
      var k := LineEnd(s, 0);
      FirstLineEndsAtNewline(s, k);
      var rest := s[k + 1..];
      SplitAtNewline(s, k, rest);
      SuffixHasNoCarriageReturn(s, k + 1, rest);
      LinesRoundTrip(rest);
      var ls := [s[..k]] + Lines(rest);
      assert ls[0] == s[..k] && ls[1..] == Lines(rest);
      assert JoinLines(ls) == s[..k] + "\n" + JoinLines(Lines(rest));
    }
  }

  /** In an output without `\r` that ends in `\n`, the first line ends at a `\n`. */
  lemma FirstLineEndsAtNewline(s: string, k: nat)
    requires s != [] && k == LineEnd(s, 0)
    requires forall j :: 0 <= j < |s| ==> s[j] != '\r'
    requires s[|s| - 1] == '\n'
    ensures k < |s| && s[k] == '\n'
  {
  }

  /** A suffix of an output without `\r` has none either. */
  lemma SuffixHasNoCarriageReturn(s: string, i: nat, rest: string)
    requires i <= |s| && rest == s[i..]
    requires forall j :: 0 <= j < |s| ==> s[j] != '\r'
    ensures forall j :: 0 <= j < |rest| ==> rest[j] != '\r'
  {
    assert forall j :: 0 <= j < |rest| ==> rest[j] == s[i + j];
  }

  /** Cutting an output at the end of its first line, a `\n`: that line, then the lines of the rest. */
  lemma SplitAtNewline(s: string, k: nat, rest: string)
    requires k < |s| && k == LineEnd(s, 0) && s[k] == '\n' && rest == s[k + 1..]
    ensures s == s[..k] + "\n" + rest
    ensures Lines(s) == [s[..k]] + Lines(rest)
  {
    assert "\n" == [s[k]];
    assert s[k..] == [s[k]] + rest;
    assert s == s[..k] + s[k..];
  }

  /** The capture groups of a line pattern; a pattern fills the groups it has. */
  datatype Groups = Groups(group1: string, group2: string, group3: string, group4: string)

  /**
   * The two line patterns, as functions from a trimmed line to the groups of
   * their match, or none. On Unix: pid, the `.../bin/java` executable, the rest.
   * On Windows: the executable, an optional `.exe`, the rest, the pid.
   */
  datatype LinePatterns = LinePatterns(unix: string -> Option<Groups>, windows: string -> Option<Groups>)

  /** The groups of the platform's pattern on the trimmed line, or none when it does not match. */
  function MatchLine(line: string, isWindows: bool, patterns: LinePatterns): Option<Groups> {
    if isWindows then patterns.windows(Trim(line)) else patterns.unix(Trim(line))
  }

  /** `parseLine`: the process a line describes, or none when the line does not match. */
  function ParseLine(line: string, isWindows: bool, patterns: LinePatterns): (r: Option<JavaProcessInfo>)
    ensures r.Some? <==> MatchLine(line, isWindows, patterns).Some?
    ensures r.Some? && isWindows ==>
      var g := MatchLine(line, isWindows, patterns).value;
      r.value.pid == g.group4 && r.value.commands == Commands(g.group1, g.group3)
    ensures r.Some? && !isWindows ==>
      var g := MatchLine(line, isWindows, patterns).value;
      r.value.pid == g.group1 && r.value.commands == Commands(g.group2, g.group3)
  {
    var m := MatchLine(line, isWindows, patterns);
    if m.None? then None
    else if isWindows then Some(Info(m.value.group4, m.value.group1, m.value.group3))
    else Some(Info(m.value.group1, m.value.group2, m.value.group3))
  }

  /** The values that are present, in order, the absent ones dropped. */
  function Present<T(!new)>(opts: seq<Option<T>>): (r: seq<T>)
    ensures |r| <= |opts|
    ensures forall x :: x in r <==> Some(x) in opts
    decreases |opts|
  {
    if opts == [] then []
    else
      var rest := Present(opts[1..]);
      assert forall o :: o in opts <==> o == opts[0] || o in opts[1..];
      match opts[0]
      case None => rest
      case Some(x) => [x] + rest
  }

  /** Filtering keeps the order: the present values of a concatenation are those of each part, in turn. */
  lemma {:induction false} PresentAppend<T(!new)>(a: seq<Option<T>>, b: seq<Option<T>>)
    ensures Present(a + b) == Present(a) + Present(b)
    decreases |a|
  {
    if a == [] {
      assert a + b == b;
    } else {
      assert (a + b)[1..] == a[1..] + b;
      PresentAppend(a[1..], b);
    }
  }

  /** The parse of each line, in the order of the lines. */
  function ParseEach(lines: seq<string>, isWindows: bool, patterns: LinePatterns): (r: seq<Option<JavaProcessInfo>>)
    ensures |r| == |lines|
    ensures forall i :: 0 <= i < |lines| ==> r[i] == ParseLine(lines[i], isWindows, patterns)
  {
    seq(|lines|, i requires 0 <= i < |lines| => ParseLine(lines[i], isWindows, patterns))
  }

  /** `parsePsOutput`: parse every line of the listing and keep the matches, in line order. */
  function ParsePsOutput(psOutput: string, isWindows: bool, patterns: LinePatterns): (r: seq<JavaProcessInfo>)
    ensures |r| <= |Lines(psOutput)|
    ensures forall p :: p in r <==>
      exists i :: 0 <= i < |Lines(psOutput)| && ParseLine(Lines(psOutput)[i], isWindows, patterns) == Some(p)
  {
    var opts := ParseEach(Lines(psOutput), isWindows, patterns);
    assert forall p :: Some(p) in opts <==> exists i :: 0 <= i < |opts| && opts[i] == Some(p);
    Present(opts)
  }

  /** A matched line whose commands end in `-cp`: `parseLine` as written throws on it. */
  predicate LineThrows(line: string, isWindows: bool, patterns: LinePatterns) {
    var p := ParseLine(line, isWindows, patterns);
    p.Some? && EndsInCp(p.value.commands)
  }

  /** `parseLine` as written: the constructor's exception escapes it. */
  function ParseLineAsWritten(line: string, isWindows: bool, patterns: LinePatterns)
    : (r: Result<Option<JavaProcessInfo>, ConstructionError>)
    ensures r.Failure? <==> LineThrows(line, isWindows, patterns)
    ensures r.Success? ==> r.value == ParseLine(line, isWindows, patterns)
  {
    var m := MatchLine(line, isWindows, patterns);
    if m.None? then Success(None)
    else
      var pid := if isWindows then m.value.group4 else m.value.group1;
      var javaCommand := if isWindows then m.value.group1 else m.value.group2;
      var built := InfoAsWritten(pid, javaCommand, m.value.group3);
      assert ParseLine(line, isWindows, patterns) == Some(Info(pid, javaCommand, m.value.group3));
      if built.Failure? then Failure(built.error) else Success(Some(built.value))
  }

  /** The stream of `parsePsOutput` as written: lines in order, the first exception ending the whole listing. */
  function ParseLinesAsWritten(lines: seq<string>, isWindows: bool, patterns: LinePatterns)
    : (r: Result<seq<JavaProcessInfo>, ConstructionError>)
    ensures r.Failure? <==> exists i :: 0 <= i < |lines| && LineThrows(lines[i], isWindows, patterns)
    ensures r.Success? ==> r.value == Present(ParseEach(lines, isWindows, patterns))
    decreases |lines|
  {
    if lines == [] then Success([])
    else
      var first := ParseLineAsWritten(lines[0], isWindows, patterns);
      var rest := ParseLinesAsWritten(lines[1..], isWindows, patterns);
      ThrowsInTail(lines, isWindows, patterns);
      if first.Failure? then Failure(first.error)
      else if rest.Failure? then rest
      else
        ParseEachCons(lines, isWindows, patterns);
        Success(Present([first.value]) + rest.value)
  }

  /** Some line throws exactly when the first one does or some later one does. */
  lemma ThrowsInTail(lines: seq<string>, isWindows: bool, patterns: LinePatterns)
    requires lines != []
    ensures (exists i :: 0 <= i < |lines| && LineThrows(lines[i], isWindows, patterns))
        <==> LineThrows(lines[0], isWindows, patterns)
             || exists i :: 0 <= i < |lines[1..]| && LineThrows(lines[1..][i], isWindows, patterns)
  {
    assert forall i :: 0 <= i < |lines| - 1 ==> lines[1..][i] == lines[i + 1];
    if exists i :: 0 <= i < |lines| && LineThrows(lines[i], isWindows, patterns) {
      var i :| 0 <= i < |lines| && LineThrows(lines[i], isWindows, patterns);
      if i > 0 {
        assert LineThrows(lines[1..][i - 1], isWindows, patterns);
      }
    }
  }

  /** The kept processes of a listing: those of its first line, then those of the rest. */
  lemma ParseEachCons(lines: seq<string>, isWindows: bool, patterns: LinePatterns)
    requires lines != []
    ensures Present(ParseEach(lines, isWindows, patterns))
         == Present([ParseLine(lines[0], isWindows, patterns)]) + Present(ParseEach(lines[1..], isWindows, patterns))
  {
    ParseEachConcat([lines[0]], lines[1..], isWindows, patterns);
    assert [lines[0]] + lines[1..] == lines;
    assert ParseEach([lines[0]], isWindows, patterns) == [ParseLine(lines[0], isWindows, patterns)];
    PresentAppend([ParseLine(lines[0], isWindows, patterns)], ParseEach(lines[1..], isWindows, patterns));
  }

  /** `parsePsOutput` as written: it throws exactly when some matched line's commands end in `-cp`, and otherwise lists the processes. */
  function ParsePsOutputAsWritten(psOutput: string, isWindows: bool, patterns: LinePatterns)
    : (r: Result<seq<JavaProcessInfo>, ConstructionError>)
    ensures r.Failure? <==> exists i :: 0 <= i < |Lines(psOutput)| && LineThrows(Lines(psOutput)[i], isWindows, patterns)
    ensures r.Success? ==> r.value == ParsePsOutput(psOutput, isWindows, patterns)
  {
    var r := ParseLinesAsWritten(Lines(psOutput), isWindows, patterns);
    assert ParsePsOutput(psOutput, isWindows, patterns) == Present(ParseEach(Lines(psOutput), isWindows, patterns));
    r
  }

  /** Parsing two listings, one after the other, parses each in turn. */
  lemma {:induction false} ParseEachConcat(a: seq<string>, b: seq<string>, isWindows: bool, patterns: LinePatterns)
    ensures ParseEach(a + b, isWindows, patterns) == ParseEach(a, isWindows, patterns) + ParseEach(b, isWindows, patterns)
    decreases |b|
  {
    if b == [] {
      assert a + b == a;
    } else {
      var init, last := b[..|b| - 1], b[|b| - 1];
      ParseEachConcat(a, init, isWindows, patterns);
      assert a + b == (a + init) + [last];
      ParseEachSnoc(a + init, last, isWindows, patterns);
      ParseEachSnoc(init, last, isWindows, patterns);
      assert init + [last] == b;
    }
  }

  /** One more line: its parse comes last. */
  lemma ParseEachSnoc(lines: seq<string>, line: string, isWindows: bool, patterns: LinePatterns)
    ensures ParseEach(lines + [line], isWindows, patterns) == ParseEach(lines, isWindows, patterns) + [ParseLine(line, isWindows, patterns)]
  {
    var l := lines + [line];
    assert forall k :: 0 <= k < |lines| ==> l[k] == lines[k];
  }

  /** The processes of two listings, one after the other, are those of each listing, in turn. */
  lemma ParseEachAppend(a: seq<string>, b: seq<string>, isWindows: bool, patterns: LinePatterns)
    ensures Present(ParseEach(a + b, isWindows, patterns))
         == Present(ParseEach(a, isWindows, patterns)) + Present(ParseEach(b, isWindows, patterns))
  {
    ParseEachConcat(a, b, isWindows, patterns);
    PresentAppend(ParseEach(a, isWindows, patterns), ParseEach(b, isWindows, patterns));
  }
}
