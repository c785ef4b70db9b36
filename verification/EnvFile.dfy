/**
  The environment file: the parser behind `config check`, the template that prints such a
  file, and the loop that finds every bad value by asking a validator that stops at the first.
*/
module EnvFile {
  import opened Text
  import opened Wrappers

  datatype EnvLine = EnvLine(line: nat, key: string, value: string)

  datatype Problem = ExportUsed | NoEquals(text: string) | BadName(name: string)

  datatype EnvError = EnvError(line: nat, problem: Problem)

  // ---- lines --------------------------------------------------------------------------

  /** No line feed in the text. */
  predicate NoBreak(s: string)
  {
    Lacks(s, '\n')
  }

  predicate FirstIs(s: string, c: char) { s != [] && s[0] == c }

  predicate LastIs(s: string, c: char) { s != [] && s[|s| - 1] == c }

  /** A line with those it continues into, and the position of the line after them. */
  datatype Joined = Joined(text: string, next: nat)

  /** A trailing backslash takes in the line at position `i`. */
  function Continue(s: string, lines: seq<string>, i: nat): (j: Joined)
    requires i <= |lines|
    ensures i <= j.next <= |lines|
    decreases |lines| - i
  {
    if !LastIs(s, '\\') then Joined(s, i)
    else if i == |lines| then Joined(s[..|s| - 1], i)
    else Continue(s[..|s| - 1] + TrimStart(lines[i]), lines, i + 1)
  }

  // ---- which lines are joined --------------------------------------------------------------

  /** A piece without its closing backslash, if it has one. */
  function Body(piece: string): string
  {
    if LastIs(piece, '\\') then piece[..|piece| - 1] else piece
  }

  function Joint(pieces: seq<string>): string
  {
    if pieces == [] then [] else Body(pieces[0]) + Joint(pieces[1..])
  }

  /** None of the lines that are taken in is blank. */
  ghost predicate NoneBlank(lines: seq<string>, i: nat, n: nat)
    requires n <= |lines|
  {
    forall k :: i <= k < n ==> TrimStart(lines[k]) != []
  }

  /**
    Lines are taken in exactly as far as each piece but the last ends in a backslash, and the
    last does not or is the end of the file; the text is the pieces joined without them.
  */
  ghost predicate JoinsExactly(s: string, lines: seq<string>, i: nat, j: Joined)
    requires i <= j.next <= |lines|
  {
    && Continued(s, Trimmed(lines, i, j.next), j.next == |lines|)
    && j.text == Joint([s] + Trimmed(lines, i, j.next))
  }

  lemma OnePiece(s: string)
    ensures Joint([s]) == Body(s)
  {
    assert [s][1..] == [];
    assert Body(s) + [] == Body(s);
  }

  lemma JointCons(p: string, rest: seq<string>)
    ensures Joint([p] + rest) == Body(p) + Joint(rest)
  {
    assert ([p] + rest)[1..] == rest;
  }

  lemma BodyOfBoth(s: string, t: string)
    requires t != []
    ensures Body(Body(s) + t) == Body(s) + Body(t) && (LastIs(Body(s) + t, '\\') <==> LastIs(t, '\\'))
  {
  }

  /** Joining the first two pieces beforehand does not change the text. */
  lemma JointOfBoth(s: string, t: string, rest: seq<string>)
    requires t != []
    ensures Joint([s] + ([t] + rest)) == Joint([Body(s) + t] + rest)
  {
    JointCons(s, [t] + rest);
    JointCons(t, rest);
    JointCons(Body(s) + t, rest);
    BodyOfBoth(s, t);
    Assoc(Body(s), Body(t), Joint(rest));
  }

  function Trimmed(lines: seq<string>, i: nat, n: nat): (r: seq<string>)
    requires i <= n <= |lines|
    ensures |r| == n - i && forall k :: 0 <= k < |r| ==> r[k] == TrimStart(lines[i + k])
  {
    seq(n - i, k requires 0 <= k < n - i => TrimStart(lines[i + k]))
  }

  lemma TrimmedCons(lines: seq<string>, i: nat, n: nat)
    requires i < n <= |lines|
    ensures Trimmed(lines, i, n) == [TrimStart(lines[i])] + Trimmed(lines, i + 1, n)
  {
  }

  /** All pieces but the last end in a backslash, and the last does only at the end of the file. */
  ghost predicate Continued(s: string, rest: seq<string>, atEnd: bool)
    decreases |rest|
  {
    if rest == [] then LastIs(s, '\\') ==> atEnd
    else LastIs(s, '\\') && Continued(rest[0], rest[1..], atEnd)
  }

  lemma {:induction false} ContinuedSame(s: string, t: string, rest: seq<string>, atEnd: bool)
    requires LastIs(s, '\\') <==> LastIs(t, '\\')
    ensures Continued(s, rest, atEnd) <==> Continued(t, rest, atEnd)
  {
  }

  /** Taking in one line first, or as a piece of its own, comes to the same. */
  lemma JoinOne(s: string, lines: seq<string>, i: nat, j: Joined)
    requires i < |lines| && i + 1 <= j.next <= |lines|
    requires LastIs(s, '\\') && TrimStart(lines[i]) != []
    requires JoinsExactly(Body(s) + TrimStart(lines[i]), lines, i + 1, j)
    ensures JoinsExactly(s, lines, i, j)
  {
    var t, rest := TrimStart(lines[i]), Trimmed(lines, i + 1, j.next);
    TrimmedCons(lines, i, j.next);
    JointOfBoth(s, t, rest);
    BodyOfBoth(s, t);
    ContinuedSame(Body(s) + t, t, rest, j.next == |lines|);
    assert ([t] + rest)[1..] == rest;
  }

  /** As long as no blank line is taken in, this is what the continuation loop computes. */
  lemma {:induction false} ContinueJoins(s: string, lines: seq<string>, i: nat)
    requires i <= |lines|
    ensures var j := Continue(s, lines, i); NoneBlank(lines, i, j.next) ==> JoinsExactly(s, lines, i, j)
    decreases |lines| - i
  {
    var j := Continue(s, lines, i);
    if !LastIs(s, '\\') || i == |lines| {
      OnePiece(s);
      assert Trimmed(lines, i, i) == [] && [s] + [] == [s];
    } else if NoneBlank(lines, i, j.next) {
      ContinueJoins(Body(s) + TrimStart(lines[i]), lines, i + 1);
      assert NoneBlank(lines, i + 1, j.next);
      JoinOne(s, lines, i, j);
    }
  }

  lemma ContinueStep(s: string, lines: seq<string>, i: nat)
    requires i < |lines| && LastIs(s, '\\')
    ensures Continue(s, lines, i) == Continue(Body(s) + TrimStart(lines[i]), lines, i + 1)
  {
  }

  /**
    A blank line that is taken in uncovers the backslash before the one that took it in, and
    the line after it is taken in as well.
  */
  lemma BlankLineUncoversBackslash(s: string, lines: seq<string>, i: nat)
    requires i + 1 < |lines| && TrimStart(lines[i]) == []
    requires LastIs(s, '\\') && LastIs(Body(s), '\\')
    ensures Continue(s, lines, i) == Continue(Body(Body(s)) + TrimStart(lines[i + 1]), lines, i + 2)
  {
    ContinueStep(s, lines, i);
    assert Body(s) + [] == Body(s);
    ContinueStep(Body(s), lines, i + 1);
  }

  // ---- one line ------------------------------------------------------------------------

  predicate IsAlpha(c: char) { 'a' <= c <= 'z' || 'A' <= c <= 'Z' }

  predicate IsNameChar(c: char) { IsAlpha(c) || '0' <= c <= '9' || c == '_' }

  predicate ValidName(key: string)
  {
    key != [] && (IsAlpha(key[0]) || key[0] == '_') && forall c :: c in key ==> IsNameChar(c)
  }

  /** Every occurrence of the two characters `a`, `b`, from the left, becomes `r`. */
  function ReplacePair(s: string, a: char, b: char, r: char): string
  {
    if s == [] then []
    else if |s| >= 2 && s[0] == a && s[1] == b then [r] + ReplacePair(s[2..], a, b, r)
    else [s[0]] + ReplacePair(s[1..], a, b, r)
  }

  function Unescape(inner: string): string
  {
    ReplacePair(ReplacePair(inner, '\\', '"', '"'), '\\', '\\', '\\')
  }

  predicate Quoted(v: string, quote: char)
  {
    |v| >= 2 && v[0] == quote && v[|v| - 1] == quote
  }

  function ValueOf(v: string): string
  {
    if Quoted(v, '"') then Unescape(v[1..|v| - 1])
    else if Quoted(v, '\'') then v[1..|v| - 1]
    else v
  }

  datatype Kind = Blank | Bad(problem: Problem) | Setting(key: string, value: string)

  predicate IsSkipped(s: string)
  {
    Trim(s) == [] || FirstIs(s, '#') || FirstIs(s, ';')
  }

  /** The name before the equals sign and the value after it. */
  function Assignment(key: string, v: string): Kind
  {
    if ValidName(key) then Setting(key, ValueOf(v)) else Bad(BadName(key))
  }

  function Classify(s: string): Kind
  {
    if IsSkipped(s) then Blank
    else if StartsWith(s, "export ") then Bad(ExportUsed)
    else
      var i := Find(s, '=');
      if i == |s| then Bad(NoEquals(Trim(s))) else Assignment(Trim(s[..i]), Trim(s[i + 1..]))
  }

  datatype Parsed = Parsed(settings: seq<EnvLine>, errors: seq<EnvError>)

  function Record(p: Parsed, line: nat, k: Kind): Parsed
  {
    match k
    case Blank => p
    case Bad(problem) => p.(errors := p.errors + [EnvError(line, problem)])
    case Setting(key, value) => p.(settings := p.settings + [EnvLine(line, key, value)])
  }

  /** What the lines from position `i` on add to what was parsed before; lines are numbered from 1. */
  function ParseLines(p: Parsed, lines: seq<string>, i: nat): Parsed
    requires i <= |lines|
    decreases |lines| - i
  {
    if i == |lines| then p
    else
      var j := Continue(TrimStart(lines[i]), lines, i + 1);
      ParseLines(Record(p, i + 1, Classify(j.text)), lines, j.next)
  }

  function ParseEnv(text: string): Parsed
  {
    ParseLines(Parsed([], []), Lines(text), 0)
  }

  /** The continuation loop. */
  method JoinLines(lines: seq<string>, from: nat, first: string) returns (s: string, i: nat)
    requires from <= |lines|
    ensures Joined(s, i) == Continue(first, lines, from)
  {
    s, i := first, from;
    while LastIs(s, '\\')
      invariant from <= i <= |lines| && Continue(s, lines, i) == Continue(first, lines, from)
      decreases |lines| - i
    {
      s := s[..|s| - 1];
      if i == |lines| {
        return;
      }
      s := s + TrimStart(lines[i]);
      i := i + 1;
    }
  }

  /** The parser. */
  method ParseEnvFile(text: string) returns (settings: seq<EnvLine>, errors: seq<EnvError>)
    ensures Parsed(settings, errors) == ParseEnv(text)
  {
    settings, errors := [], [];
    var lines := Lines(text);
    var i := 0;
    while i < |lines|
      invariant 0 <= i <= |lines|
      invariant ParseEnv(text) == ParseLines(Parsed(settings, errors), lines, i)
      decreases |lines| - i
    {
      var lineno := i + 1;
      var s;
      s, i := JoinLines(lines, i + 1, TrimStart(lines[i]));
      match Classify(s) {
        case Blank =>
        case Bad(problem) => errors := errors + [EnvError(lineno, problem)];
        case Setting(key, value) => settings := settings + [EnvLine(lineno, key, value)];
      }
    }
  }

  // ---- what the parser reports -------------------------------------------------------------

  /** No line takes in the next one. */
  ghost predicate NoneContinues(lines: seq<string>)
  {
    forall k :: 0 <= k < |lines| ==> !LastIs(TrimStart(lines[k]), '\\')
  }

  /** What each line is by itself. */
  function Kinds(lines: seq<string>): (r: seq<Kind>)
    ensures |r| == |lines| && forall k :: 0 <= k < |lines| ==> r[k] == Classify(TrimStart(lines[k]))
  {
    seq(|lines|, k requires 0 <= k < |lines| => Classify(TrimStart(lines[k])))
  }

  function RecordAll(p: Parsed, kinds: seq<Kind>, i: nat): Parsed
    requires i <= |kinds|
    decreases |kinds| - i
  {
    if i == |kinds| then p else RecordAll(Record(p, i + 1, kinds[i]), kinds, i + 1)
  }

  /** Beyond what `p` holds, `q` has exactly an error for each bad line from `i` on, and a setting for each good one. */
  ghost predicate ReportedFrom(p: Parsed, q: Parsed, kinds: seq<Kind>, i: nat)
  {
    && (forall e :: e in q.errors <==>
          e in p.errors || exists k :: i <= k < |kinds| && kinds[k] == Bad(e.problem) && e.line == k + 1)
    && (forall e :: e in q.settings <==>
          e in p.settings || exists k :: i <= k < |kinds| && kinds[k] == Setting(e.key, e.value) && e.line == k + 1)
  }

  lemma RecordReports(p: Parsed, line: nat, kind: Kind)
    ensures var q := Record(p, line, kind);
            && (forall e :: e in q.errors <==> e in p.errors || (kind == Bad(e.problem) && e.line == line))
            && (forall e :: e in q.settings <==> e in p.settings || (kind == Setting(e.key, e.value) && e.line == line))
  {
  }

  lemma {:induction false} AllAreReported(p: Parsed, kinds: seq<Kind>, i: nat)
    requires i <= |kinds|
    ensures ReportedFrom(p, RecordAll(p, kinds, i), kinds, i)
    decreases |kinds| - i
  {
    if i < |kinds| {
      AllAreReported(Record(p, i + 1, kinds[i]), kinds, i + 1);
      RecordReports(p, i + 1, kinds[i]);
    }
  }

  /** Parsing, for any way of telling what a line is. */
  function ParseWith(kindOf: string -> Kind, p: Parsed, lines: seq<string>, i: nat): Parsed
    requires i <= |lines|
    decreases |lines| - i
  {
    if i == |lines| then p
    else
      var j := Continue(TrimStart(lines[i]), lines, i + 1);
      ParseWith(kindOf, Record(p, i + 1, kindOf(j.text)), lines, j.next)
  }

  lemma {:induction false} ParsesWith(kindOf: string -> Kind, p: Parsed, lines: seq<string>, i: nat)
    requires i <= |lines| && forall s :: kindOf(s) == Classify(s)
    ensures ParseLines(p, lines, i) == ParseWith(kindOf, p, lines, i)
    decreases |lines| - i
  {
    if i < |lines| {
      var j := Continue(TrimStart(lines[i]), lines, i + 1);
      ParsesWith(kindOf, Record(p, i + 1, Classify(j.text)), lines, j.next);
    }
  }

  lemma {:induction false} EachParsesAlone(kindOf: string -> Kind, p: Parsed, lines: seq<string>, kinds: seq<Kind>,
                                           i: nat)
    requires i <= |lines| == |kinds| && NoneContinues(lines)
    requires forall k :: 0 <= k < |lines| ==> kinds[k] == kindOf(TrimStart(lines[k]))
    ensures ParseWith(kindOf, p, lines, i) == RecordAll(p, kinds, i)
    decreases |lines| - i
  {
    if i < |lines| {
      assert Continue(TrimStart(lines[i]), lines, i + 1) == Joined(TrimStart(lines[i]), i + 1);
      EachParsesAlone(kindOf, Record(p, i + 1, kinds[i]), lines, kinds, i + 1);
    }
  }

  /**
    Of a text without continued lines, every bad line is an error under its own number, every
    good one a setting, and nothing else is either.
  */
  lemma EveryLineIsReported(text: string)
    requires NoneContinues(Lines(text))
    ensures ReportedFrom(Parsed([], []), ParseEnv(text), Kinds(Lines(text)), 0)
  {
    var kindOf := (s: string) => Classify(s);
    ParsesWith(kindOf, Parsed([], []), Lines(text), 0);
    EachParsesAlone(kindOf, Parsed([], []), Lines(text), Kinds(Lines(text)), 0);
    AllAreReported(Parsed([], []), Kinds(Lines(text)), 0);
  }

  /** Lines may end as they do on other systems. */
  lemma ReturnsMakeNoDifference(l: string, rest: string)
    requires Lacks(l, '\n') && !LastIs(l, '\r')
    ensures ParseEnv(l + "\r" + "\n" + rest) == ParseEnv(l + "\n" + rest)
  {
    ReturnsAreStripped(l, rest);
    LinesCons(l, rest);
  }

  /** A line is passed over exactly if it is all white space or a comment, which a hash sign or a semicolon begins. */
  lemma CommentsAreBlank(s: string)
    ensures Classify(s) == Blank <==> Trim(s) == [] || (s != [] && (s[0] == '#' || s[0] == ';'))
  {
    if !IsSkipped(s) {
      OthersAreNotBlank(s);
    }
  }

  lemma OthersAreNotBlank(s: string)
    requires !IsSkipped(s)
    ensures !Classify(s).Blank?
  {
  }

  /** The word export with a space after it is refused, before anything else about the line is looked at. */
  lemma ExportIsRefused(s: string)
    ensures Classify("export " + s) == Bad(ExportUsed)
  {
    var l := "export " + s;
    NotAllWhite(l);
    ExportStarts(l, s);
  }

  lemma ExportStarts(l: string, s: string)
    requires l == "export " + s && Trim(l) != []
    ensures !IsSkipped(l) && StartsWith(l, "export ")
  {
    assert l[..7] == "export ";
  }

  /** A line that is none of these needs an equals sign. */
  lemma NoEqualsIsRefused(s: string)
    requires !IsSkipped(s) && !StartsWith(s, "export ") && Lacks(s, '=')
    ensures Classify(s) == Bad(NoEquals(Trim(s)))
  {
  }

  /** What stands before the first equals sign must be a name, white space around it aside. */
  lemma NameIsChecked(s: string, name: string, v: string)
    requires s == name + "=" + v && Lacks(name, '=') && !IsSkipped(s) && !StartsWith(s, "export ")
    ensures if ValidName(Trim(name)) then Classify(s) == Setting(Trim(name), ValueOf(Trim(v)))
            else Classify(s) == Bad(BadName(Trim(name)))
  {
    FindFirst(name, '=', v);
    SplitAtEquals(s, |name|, name, v);
  }

  lemma SplitAtEquals(s: string, i: nat, name: string, v: string)
    requires !IsSkipped(s) && !StartsWith(s, "export ")
    requires Find(s, '=') == i < |s| && s[..i] == name && s[i + 1..] == v
    ensures Classify(s) == Assignment(Trim(name), Trim(v))
  {
  }

  /** A name starts with a letter or an underscore and goes on with these and digits. */
  lemma NamesAreNames()
    ensures ValidName("A") && ValidName("_a9") && !ValidName("") && !ValidName("9a") && !ValidName("a-b")
  {
    assert "a-b"[1] == '-' && "a-b"[1] in "a-b";
  }

  /** Single quotes are taken off and nothing inside them is changed; other values stay as they are. */
  lemma ValuesAreUnquoted(v: string)
    ensures ValueOf("'" + v + "'") == v
    ensures v == [] || (v[0] != '"' && v[0] != '\'') ==> ValueOf(v) == v
    ensures ValueOf("\"" + v + "\"") == Unescape(v)
  {
    var q, d := "'" + v + "'", "\"" + v + "\"";
    assert q[1..|q| - 1] == v && d[1..|d| - 1] == v;
  }

  // ---- the printer ---------------------------------------------------------------------

  /** A template value: booleans are printed bare, everything else quoted. */
  datatype Value = Flag(on: bool) | Str(text: string)

  /** A line of the rendered file: a comment or empty line, or a setting. */
  datatype Item = Remark(text: string) | Pair(key: string, value: Value)

  function ReplaceChar(s: string, c: char, sub: string): string
  {
    if s == [] then [] else (if s[0] == c then sub else [s[0]]) + ReplaceChar(s[1..], c, sub)
  }

  /** The template's two replacements: backslashes first, then double quotes. */
  function Escape(v: string): string
  {
    ReplaceChar(ReplaceChar(v, '\\', "\\\\"), '"', "\\\"")
  }

  function Plain(v: Value): string
  {
    match v
    case Flag(on) => if on then "true" else "false"
    case Str(text) => text
  }

  function Printed(v: Value): string
  {
    match v
    case Flag(on) => Plain(v)
    case Str(text) => "\"" + Escape(text) + "\""
  }

  function ItemLine(it: Item): string
  {
    match it
    case Remark(text) => text
    case Pair(key, value) => key + "=" + Printed(value)
  }

  function Render(items: seq<Item>): string
  {
    if items == [] then [] else ItemLine(items[0]) + "\n" + Render(items[1..])
  }

  /** Names are valid; a remark is empty or a comment on one line that does not continue. */
  predicate WellFormed(it: Item)
  {
    match it
    case Remark(text) =>
      text == [] || (text[0] == '#' && NoBreak(text) && text[|text| - 1] != '\\' && text[|text| - 1] != '\r')
    case Pair(key, _) => ValidName(key)
  }

  function Entry(it: Item, line: nat): seq<EnvLine>
  {
    match it
    case Remark(_) => []
    case Pair(key, value) => [EnvLine(line, key, Plain(value))]
  }

  /** What the items from position `i` on should come back as. */
  function Expected(items: seq<Item>, i: nat): seq<EnvLine>
    requires i <= |items|
    decreases |items| - i
  {
    if i == |items| then []
    else Entry(items[i], i + 1) + Expected(items, i + 1)
  }

  // ---- escaping ------------------------------------------------------------------------

  /** Both replacements at once, character by character. */
  function EscapeEach(v: string): string
  {
    if v == [] then []
    else (if v[0] == '\\' then "\\\\" else if v[0] == '"' then "\\\"" else [v[0]]) + EscapeEach(v[1..])
  }

  function DoubleEach(v: string): string
  {
    if v == [] then [] else (if v[0] == '\\' then "\\\\" else [v[0]]) + DoubleEach(v[1..])
  }

  function ReplaceOne(x: char, c: char, sub: string): string
  {
    if x == c then sub else [x]
  }

  lemma ReplaceCharCons(x: char, s: string, c: char, sub: string)
    ensures ReplaceChar([x] + s, c, sub) == ReplaceOne(x, c, sub) + ReplaceChar(s, c, sub)
  {
    assert ([x] + s)[1..] == s;
  }

  lemma {:induction false} ReplaceCharAppend(a: string, b: string, c: char, sub: string)
    ensures ReplaceChar(a + b, c, sub) == ReplaceChar(a, c, sub) + ReplaceChar(b, c, sub)
  {
    if a == [] {
      assert a + b == b;
    } else {
      var x, t := a[0], a[1..];
      assert a == [x] + t && a + b == [x] + (t + b);
      ReplaceCharAppend(t, b, c, sub);
      ReplaceCharCons(x, t, c, sub);
      ReplaceCharCons(x, t + b, c, sub);
      Assoc(ReplaceOne(x, c, sub), ReplaceChar(t, c, sub), ReplaceChar(b, c, sub));
    }
  }

  lemma {:induction false} EscapeIsEach(v: string)
    ensures Escape(v) == EscapeEach(v)
  {
    if v != [] {
      EscapeIsEach(v[1..]);
      var first := if v[0] == '\\' then "\\\\" else [v[0]];
      ReplaceCharAppend(first, ReplaceChar(v[1..], '\\', "\\\\"), '"', "\\\"");
      OneReplaced(v[0]);
    }
  }

  lemma OneReplaced(c: char)
    ensures ReplaceChar("\\\\", '"', "\\\"") == "\\\\"
    ensures ReplaceChar([c], '"', "\\\"") == if c == '"' then "\\\"" else [c]
  {
    assert "\\\\"[1..] == "\\" && "\\"[1..] == "";
    assert ReplaceChar("\\", '"', "\\\"") == "\\";
    assert [c][1..] == [];
  }

  lemma PairStep(s: string, c: char, a: char, b: char, r: char)
    requires c != a || s == [] || s[0] != b
    ensures ReplacePair([c] + s, a, b, r) == [c] + ReplacePair(s, a, b, r)
  {
    assert ([c] + s)[1..] == s;
  }

  lemma PairHit(s: string, a: char, b: char, r: char)
    ensures ReplacePair([a, b] + s, a, b, r) == [r] + ReplacePair(s, a, b, r)
  {
    assert ([a, b] + s)[2..] == s;
  }

  /** No escaped text starts with a bare quote. */
  lemma EscapedHead(v: string)
    ensures EscapeEach(v) == [] || EscapeEach(v)[0] != '"'
  {
  }

  lemma {:induction false} QuotesUnescaped(v: string)
    ensures ReplacePair(EscapeEach(v), '\\', '"', '"') == DoubleEach(v)
  {
    if v != [] {
      var rest := EscapeEach(v[1..]);
      QuotesUnescaped(v[1..]);
      EscapedHead(v[1..]);
      if v[0] == '\\' {
        PairStep(rest, '\\', '\\', '"', '"');
        PairStep(['\\'] + rest, '\\', '\\', '"', '"');
        assert "\\\\" + rest == ['\\'] + (['\\'] + rest);
      } else if v[0] == '"' {
        PairHit(rest, '\\', '"', '"');
        assert "\\\"" + rest == ['\\', '"'] + rest;
      } else {
        PairStep(rest, v[0], '\\', '"', '"');
      }
    }
  }

  lemma {:induction false} BackslashesUnescaped(v: string)
    ensures ReplacePair(DoubleEach(v), '\\', '\\', '\\') == v
  {
    if v != [] {
      var rest := DoubleEach(v[1..]);
      BackslashesUnescaped(v[1..]);
      if v[0] == '\\' {
        PairHit(rest, '\\', '\\', '\\');
        assert "\\\\" + rest == ['\\', '\\'] + rest;
      } else {
        PairStep(rest, v[0], '\\', '\\', '\\');
      }
      assert v == [v[0]] + v[1..];
    }
  }

  /** The parser's two replacements undo the template's two, for any text. */
  lemma UnescapeInvertsEscape(v: string)
    ensures Unescape(Escape(v)) == v
  {
    EscapeIsEach(v);
    QuotesUnescaped(v);
    BackslashesUnescaped(v);
  }

  lemma {:induction false} EscapeKeepsLine(v: string)
    ensures NoBreak(EscapeEach(v)) <==> NoBreak(v)
  {
    if v != [] {
      EscapeKeepsLine(v[1..]);
      var first := if v[0] == '\\' then "\\\\" else if v[0] == '"' then "\\\"" else [v[0]];
      BreakOfParts(first, EscapeEach(v[1..]));
      BreakOfParts([v[0]], v[1..]);
      assert v == [v[0]] + v[1..];
    }
  }

  lemma BreakOfParts(a: string, b: string)
    ensures NoBreak(a + b) <==> NoBreak(a) && NoBreak(b)
  {
    var s := a + b;
    assert forall i :: 0 <= i < |a| ==> a[i] == s[i];
    assert forall i :: 0 <= i < |b| ==> b[i] == s[|a| + i];
  }

  // ---- one rendered line -----------------------------------------------------------------

  lemma NameNotWhite(key: string)
    requires ValidName(key)
    ensures !IsWhite(key[0]) && !IsWhite(key[|key| - 1]) && Lacks(key, '=') && Lacks(key, ' ') && NoBreak(key)
  {
    assert key[0] in key && key[|key| - 1] in key;
    assert forall i :: 0 <= i < |key| ==> key[i] in key;
  }

  lemma NotExport(key: string, v: string)
    requires ValidName(key)
    ensures !StartsWith(key + "=" + v, "export ")
  {
    NameNotWhite(key);
    var s := key + "=" + v;
    if |s| >= 7 {
      assert s[..7][6] == s[6];
      if |key| <= 6 {
        assert s[..7][|key|] == '=';
      } else {
        assert s[6] == key[6] && key[6] in key;
      }
    }
  }

  lemma PrintedShape(v: Value)
    ensures var p := Printed(v);
            p != [] && !IsWhite(p[0]) && !IsWhite(p[|p| - 1]) && p[|p| - 1] != '\\' && p[|p| - 1] != '\r'
    ensures ValueOf(Printed(v)) == Plain(v)
    ensures NoBreak(Printed(v)) <==> NoBreak(Plain(v))
  {
    match v {
      case Flag(on) =>
      case Str(text) =>
        var p := Printed(v);
        assert p[1..|p| - 1] == Escape(text);
        UnescapeInvertsEscape(text);
        EscapeIsEach(text);
        EscapeKeepsLine(text);
        BreakOfParts("\"", Escape(text));
        BreakOfParts("\"" + Escape(text), "\"");
    }
  }

  lemma FindEquals(key: string, p: string)
    requires ValidName(key)
    ensures var s := key + "=" + p;
            |key| < |s| && Find(s, '=') == |key| && s[..|key|] == key && s[|key| + 1..] == p
  {
    NameNotWhite(key);
    FindFirst(key, '=', p);
  }

  lemma TrimmedEnds(key: string, p: string)
    requires ValidName(key) && p != [] && !IsWhite(p[0]) && !IsWhite(p[|p| - 1])
    ensures var s := key + "=" + p;
            !IsSkipped(s) && Trim(key) == key && Trim(p) == p
  {
    var s := key + "=" + p;
    NameNotWhite(key);
    assert s[0] == key[0] && s[|s| - 1] == p[|p| - 1];
    TrimIdentity(s);
    TrimIdentity(key);
    TrimIdentity(p);
  }

  /** The line splits at position `i` into a valid name and trimmed text. */
  predicate SplitsAt(s: string, i: nat, key: string, p: string)
  {
    && !IsSkipped(s) && !StartsWith(s, "export ")
    && Find(s, '=') == i < |s| && s[..i] == key && s[i + 1..] == p
    && Trim(key) == key && Trim(p) == p && ValidName(key)
  }

  lemma SplitLine(s: string, i: nat, key: string, p: string)
    requires SplitsAt(s, i, key, p)
    ensures Classify(s) == Setting(key, ValueOf(p))
  {
  }

  lemma AssignmentSplits(s: string, key: string, p: string)
    requires s == key + "=" + p
    requires ValidName(key) && p != [] && !IsWhite(p[0]) && !IsWhite(p[|p| - 1])
    ensures SplitsAt(s, |key|, key, p)
  {
    TrimmedEnds(key, p);
    NotExport(key, p);
    FindEquals(key, p);
  }

  /** A line of a valid name, an equals sign and trimmed text is a setting. */
  lemma SettingLine(s: string, key: string, p: string)
    requires s == key + "=" + p
    requires ValidName(key) && p != [] && !IsWhite(p[0]) && !IsWhite(p[|p| - 1])
    ensures Classify(s) == Setting(key, ValueOf(p))
  {
    AssignmentSplits(s, key, p);
    SplitLine(s, |key|, key, p);
  }

  /** A printed setting reads back as itself. */
  lemma PairReadsBack(key: string, v: Value)
    requires ValidName(key)
    ensures Classify(key + "=" + Printed(v)) == Setting(key, Plain(v))
  {
    PrintedShape(v);
    SettingLine(key + "=" + Printed(v), key, Printed(v));
  }

  lemma SkippedIsBlank(s: string)
    requires s == [] || s[0] == '#'
    ensures Classify(s) == Blank
  {
  }

  lemma RemarkReadsBack(text: string)
    requires WellFormed(Remark(text))
    ensures Classify(text) == Blank
  {
    SkippedIsBlank(text);
  }

  lemma LineStandsAlone(it: Item)
    requires WellFormed(it)
    ensures var l := ItemLine(it);
            && TrimStart(l) == l && !LastIs(l, '\\') && StripReturn(l) == l
            && (NoBreak(l) <==> OneLine(it))
  {
    var l := ItemLine(it);
    if it.Pair? {
      NameNotWhite(it.key);
      PrintedShape(it.value);
      BreakOfParts(it.key, "=");
      BreakOfParts(it.key + "=", Printed(it.value));
    }
  }

  // ---- the round trip ----------------------------------------------------------------------

  predicate OneLine(it: Item)
  {
    it.Pair? ==> NoBreak(Plain(it.value))
  }

  function ItemLines(items: seq<Item>): (r: seq<string>)
    ensures |r| == |items| && forall i :: 0 <= i < |items| ==> r[i] == ItemLine(items[i])
  {
    seq(|items|, i requires 0 <= i < |items| => ItemLine(items[i]))
  }

  lemma ItemLinesCons(items: seq<Item>)
    requires items != []
    ensures ItemLines(items) == [ItemLine(items[0])] + ItemLines(items[1..])
  {
  }

  lemma StandsOnOneLine(it: Item)
    requires WellFormed(it) && OneLine(it)
    ensures Lacks(ItemLine(it), '\n') && StripReturn(ItemLine(it)) == ItemLine(it)
  {
    LineStandsAlone(it);
  }

  lemma RenderedStep(l: string, rest: string, lines: seq<string>)
    requires Lacks(l, '\n') && StripReturn(l) == l && Lines(rest) == lines
    ensures Lines(l + "\n" + rest) == [l] + lines
  {
    LinesCons(l, rest);
  }

  lemma {:induction false} RenderedLines(items: seq<Item>)
    requires forall k :: 0 <= k < |items| ==> WellFormed(items[k]) && OneLine(items[k])
    ensures Lines(Render(items)) == ItemLines(items)
  {
    if items != [] {
      StandsOnOneLine(items[0]);
      RenderedLines(items[1..]);
      RenderedStep(ItemLine(items[0]), Render(items[1..]), ItemLines(items[1..]));
      ItemLinesCons(items);
    }
  }

  function Plus(p: Parsed, more: seq<EnvLine>): Parsed
  {
    Parsed(p.settings + more, p.errors)
  }

  lemma RecordSetting(p: Parsed, line: nat, key: string, value: string)
    ensures Record(p, line, Setting(key, value)) == Plus(p, [EnvLine(line, key, value)])
    ensures Record(p, line, Blank) == Plus(p, [])
  {
    assert p.settings + [] == p.settings;
  }

  /** One rendered line adds exactly its own setting. */
  lemma ItemParses(it: Item, p: Parsed, line: nat)
    requires WellFormed(it)
    ensures Record(p, line, Classify(ItemLine(it))) == Plus(p, Entry(it, line))
  {
    match it {
      case Remark(text) =>
        RemarkReadsBack(text);
        RecordSetting(p, line, "", "");
      case Pair(key, value) =>
        PairReadsBack(key, value);
        RecordSetting(p, line, key, Plain(value));
    }
  }

  lemma PlusPlus(p: Parsed, a: seq<EnvLine>, b: seq<EnvLine>)
    ensures Plus(Plus(p, a), b) == Plus(p, a + b)
  {
    assert p.settings + a + b == p.settings + (a + b);
  }

  lemma {:induction false} RenderedParses(items: seq<Item>, p: Parsed, i: nat)
    requires i <= |items| && forall k :: 0 <= k < |items| ==> WellFormed(items[k])
    ensures ParseLines(p, ItemLines(items), i) == Plus(p, Expected(items, i))
    decreases |items| - i
  {
    if i == |items| {
      assert p.settings + [] == p.settings;
    } else {
      var l := ItemLine(items[i]);
      ItemParses(items[i], p, i + 1);
      LineStandsAlone(items[i]);
      ParseOne(p, ItemLines(items), i);
      RenderedParses(items, Plus(p, Entry(items[i], i + 1)), i + 1);
      PlusPlus(p, Entry(items[i], i + 1), Expected(items, i + 1));
    }
  }

  /** A line that does not continue is parsed by itself. */
  lemma ParseOne(p: Parsed, lines: seq<string>, i: nat)
    requires i < |lines| && TrimStart(lines[i]) == lines[i] && !LastIs(lines[i], '\\')
    ensures ParseLines(p, lines, i) == ParseLines(Record(p, i + 1, Classify(lines[i])), lines, i + 1)
  {
  }

  ghost predicate OnOneLine(settings: seq<EnvLine>)
  {
    forall e :: e in settings ==> NoBreak(e.value)
  }

  lemma {:induction false} LinesOnOneLine(text: string)
    ensures forall l :: l in Lines(text) ==> NoBreak(l)
    decreases |text|
  {
    if text != [] {
      var i := Find(text, '\n');
      if i < |text| {
        LinesOnOneLine(text[i + 1..]);
        assert NoBreak(StripReturn(text[..i]));
      }
    }
  }

  lemma {:induction false} ContinueOnOneLine(s: string, lines: seq<string>, i: nat)
    requires i <= |lines| && NoBreak(s) && forall l :: l in lines ==> NoBreak(l)
    ensures NoBreak(Continue(s, lines, i).text)
    decreases |lines| - i
  {
    if LastIs(s, '\\') {
      if i < |lines| {
        var joined := s[..|s| - 1] + TrimStart(lines[i]);
        assert lines[i] in lines;
        JoinedOnOneLine(s, lines[i]);
        ContinueOnOneLine(joined, lines, i + 1);
        assert Continue(s, lines, i) == Continue(joined, lines, i + 1);
      } else {
        assert Continue(s, lines, i).text == s[..|s| - 1];
      }
    } else {
      assert Continue(s, lines, i).text == s;
    }
  }

  lemma JoinedOnOneLine(a: string, b: string)
    requires a != [] && NoBreak(a) && NoBreak(b)
    ensures NoBreak(a[..|a| - 1] + TrimStart(b))
  {
    BreakOfParts(a[..|a| - 1], TrimStart(b));
  }

  lemma {:induction false} ReplacePairOnOneLine(s: string, a: char, b: char, r: char)
    requires NoBreak(s) && r != '\n'
    ensures NoBreak(ReplacePair(s, a, b, r))
  {
    if s != [] {
      if |s| >= 2 && s[0] == a && s[1] == b {
        ReplacePairOnOneLine(s[2..], a, b, r);
        BreakOfParts([r], ReplacePair(s[2..], a, b, r));
      } else {
        ReplacePairOnOneLine(s[1..], a, b, r);
        BreakOfParts([s[0]], ReplacePair(s[1..], a, b, r));
      }
    }
  }

  lemma ValueOnOneLine(v: string)
    requires NoBreak(v)
    ensures NoBreak(ValueOf(v))
  {
    if Quoted(v, '"') {
      var inner := v[1..|v| - 1];
      ReplacePairOnOneLine(inner, '\\', '"', '"');
      ReplacePairOnOneLine(ReplacePair(inner, '\\', '"', '"'), '\\', '\\', '\\');
    }
  }

  /** The value of a setting is made from the trimmed text behind the equals sign. */
  lemma SettingValue(s: string, v: string)
    requires Classify(s).Setting? && v == Classify(s).value
    ensures Find(s, '=') < |s| && v == ValueOf(Trim(s[Find(s, '=') + 1..]))
  {
  }

  lemma TrimOnOneLine(s: string)
    requires NoBreak(s)
    ensures NoBreak(Trim(s))
  {
    var t := TrimStart(s);
    assert forall i :: 0 <= i < |t| ==> t[i] == s[|s| - |t| + i];
    var u := TrimEnd(t);
    assert forall i :: 0 <= i < |u| ==> u[i] == t[i];
  }

  lemma TailOnOneLine(s: string, i: nat)
    requires NoBreak(s) && i <= |s|
    ensures NoBreak(s[i..])
  {
  }

  lemma BehindOnOneLine(s: string, i: nat, v: string)
    requires NoBreak(s) && i <= |s| && v == ValueOf(Trim(s[i..]))
    ensures NoBreak(v)
  {
    TailOnOneLine(s, i);
    TrimOnOneLine(s[i..]);
    ValueOnOneLine(Trim(s[i..]));
  }

  lemma SettingOnOneLine(s: string, v: string)
    requires NoBreak(s) && Classify(s).Setting? && v == Classify(s).value
    ensures NoBreak(v)
  {
    SettingValue(s, v);
    BehindOnOneLine(s, Find(s, '=') + 1, v);
  }

  lemma {:induction false} ParsedOnOneLine(p: Parsed, lines: seq<string>, i: nat)
    requires i <= |lines| && OnOneLine(p.settings) && forall l :: l in lines ==> NoBreak(l)
    ensures OnOneLine(ParseLines(p, lines, i).settings)
    decreases |lines| - i
  {
    if i < |lines| {
      assert NoBreak(lines[i]);
      var j := Continue(TrimStart(lines[i]), lines, i + 1);
      ContinueOnOneLine(TrimStart(lines[i]), lines, i + 1);
      if Classify(j.text).Setting? {
        SettingOnOneLine(j.text, Classify(j.text).value);
      }
      ParsedOnOneLine(Record(p, i + 1, Classify(j.text)), lines, j.next);
    }
  }

  lemma {:induction false} ExpectedHas(items: seq<Item>, i: nat, k: nat)
    requires i <= k < |items| && items[k].Pair?
    ensures EnvLine(k + 1, items[k].key, Plain(items[k].value)) in Expected(items, i)
    decreases k - i
  {
    if i < k {
      ExpectedHas(items, i + 1, k);
    }
  }

  /**
    Parsing a rendered file returns the same names, values and line numbers, with no errors,
    exactly when no value contains a line feed; quotes, backslashes, `=`, `#` and surrounding
    spaces all survive.
  */
  lemma RenderParsesBack(items: seq<Item>)
    requires forall it :: it in items ==> WellFormed(it)
    ensures ParseEnv(Render(items)) == Parsed(Expected(items, 0), [])
       <==> forall it :: it in items ==> OneLine(it)
  {
    if forall it :: it in items ==> OneLine(it) {
      RenderedLines(items);
      RenderedParses(items, Parsed([], []), 0);
      assert [] + Expected(items, 0) == Expected(items, 0);
    }
    if ParseEnv(Render(items)) == Parsed(Expected(items, 0), []) {
      LinesOnOneLine(Render(items));
      ParsedOnOneLine(Parsed([], []), Lines(Render(items)), 0);
      forall k | 0 <= k < |items| ensures OneLine(items[k]) {
        if items[k].Pair? {
          ExpectedHas(items, 0, k);
        }
      }
    }
  }

  // ---- finding every bad value ----------------------------------------------------------------

  /** What one run of the value checks reports: the flag's variable, if it names one. */
  datatype CheckResult = CouldNotRun | Passed | Complaint(key: Option<string>)

  datatype Finding = BadLine(line: nat, key: string, value: string) | Unattributed | NotChecked

  const BUDGET_KEY := "TORNAS_DISK_BUDGET"
  const BUDGET_STAND_IN := "1G"

  /** The environment of one run; the one required setting is filled in when absent. */
  function RunEnv(remaining: map<string, EnvLine>): map<string, string>
  {
    var given := map k | k in remaining :: remaining[k].value;
    if BUDGET_KEY in remaining then given else given[BUDGET_KEY := BUDGET_STAND_IN]
  }

  type Checker = map<string, string> -> CheckResult

  /**
    The checker names one bad variable of its environment whenever there is one. Nothing is
    asked of it when the one required setting is missing.
  */
  ghost predicate Honest(run: Checker, bad: (string, string) -> bool)
  {
    && !bad(BUDGET_KEY, BUDGET_STAND_IN)
    && forall env :: BUDGET_KEY in env ==>
         if forall k :: k in env ==> !bad(k, env[k]) then run(env) == Passed
         else
           && run(env).Complaint? && run(env).key.Some? && run(env).key.value in env
           && bad(run(env).key.value, env[run(env).key.value])
  }

  /** The findings so far name exactly the lines that were taken out, once each. */
  ghost predicate FindingsMatch(vars: map<string, EnvLine>, remaining: map<string, EnvLine>, found: seq<Finding>)
  {
    && (forall k :: k in remaining ==> k in vars && remaining[k] == vars[k])
    && (forall i :: 0 <= i < |found| ==>
          && found[i].BadLine? && found[i].key in vars && found[i].key !in remaining
          && found[i] == BadLine(vars[found[i].key].line, found[i].key, vars[found[i].key].value))
    && (forall i, j :: 0 <= i < j < |found| ==> found[i] != found[j])
    && (forall k :: k in vars && k !in remaining ==> BadLine(vars[k].line, k, vars[k].value) in found)
  }

  /**
    The elimination loop. With an honest checker it ends in a passing run, and its findings
    are exactly the bad lines, each once.
  */
  method FindBadValues(vars: map<string, EnvLine>, run: Checker, ghost bad: (string, string) -> bool)
    returns (found: seq<Finding>, passed: bool)
    ensures Honest(run, bad) ==>
              && passed
              && (forall i :: 0 <= i < |found| ==> found[i].BadLine?)
              && (forall i, j :: 0 <= i < j < |found| ==> found[i] != found[j])
              && (forall k :: k in vars && bad(k, vars[k].value) ==> BadLine(vars[k].line, k, vars[k].value) in found)
              && (forall f :: f in found ==>
                    && f.key in vars && bad(f.key, f.value)
                    && f == BadLine(vars[f.key].line, f.key, vars[f.key].value))
    ensures |found| <= |vars| + 1
  {
    found, passed := [], false;
    var remaining := vars;
    for round := 0 to |vars| + 1
      invariant FindingsMatch(vars, remaining, found)
      invariant |remaining| + round == |vars| && |found| == round
      invariant Honest(run, bad) ==> forall k :: k in vars && k !in remaining ==> bad(k, vars[k].value)
    {
      var out := run(RunEnv(remaining));
      match out {
        case CouldNotRun => return found + [NotChecked], false;
        case Passed =>
          HonestPass(run, bad, vars, remaining, found);
          return found, true;
        case Complaint(key) =>
          if key.Some? && key.value in remaining {
            var k := key.value;
            HonestComplaint(run, bad, remaining);
            Eliminated(vars, remaining, found, k);
            var l := remaining[k];
            ghost var was := remaining;
            remaining := remaining - {k};
            found := found + [BadLine(l.line, k, l.value)];
            assert was.Keys == remaining.Keys + {k};
          } else {
            HonestComplaint(run, bad, remaining);
            return found + [Unattributed], false;
          }
      }
    }
  }

  lemma HonestPass(run: Checker, bad: (string, string) -> bool, vars: map<string, EnvLine>, remaining: map<string,
                   EnvLine>, found: seq<Finding>)
    requires run(RunEnv(remaining)) == Passed && FindingsMatch(vars, remaining, found)
    ensures Honest(run, bad) ==> forall k :: k in vars && bad(k, vars[k].value) ==> k !in remaining
  {
    if Honest(run, bad) {
      var env := RunEnv(remaining);
      assert forall k :: k in remaining ==> k in env && env[k] == vars[k].value;
    }
  }

  lemma HonestComplaint(run: Checker, bad: (string, string) -> bool, remaining: map<string, EnvLine>)
    requires run(RunEnv(remaining)).Complaint?
    ensures Honest(run, bad) ==>
              var key := run(RunEnv(remaining)).key;
              key.Some? && key.value in remaining && bad(key.value, remaining[key.value].value)
  {
    var env := RunEnv(remaining);
    if Honest(run, bad) {
      var k := run(env).key.value;
      assert k in env && bad(k, env[k]);
    }
  }

  lemma Eliminated(vars: map<string, EnvLine>, remaining: map<string, EnvLine>, found: seq<Finding>, k: string)
    requires FindingsMatch(vars, remaining, found) && k in remaining
    ensures FindingsMatch(vars, remaining - {k}, found + [BadLine(remaining[k].line, k, remaining[k].value)])
  {
    var found' := found + [BadLine(remaining[k].line, k, remaining[k].value)];
    forall x | x in vars && x !in remaining - {k} ensures BadLine(vars[x].line, x, vars[x].value) in found' {
      if x == k {
        assert found'[|found|] == BadLine(vars[x].line, x, vars[x].value);
      } else {
        assert BadLine(vars[x].line, x, vars[x].value) in found;
      }
    }
  }
}
