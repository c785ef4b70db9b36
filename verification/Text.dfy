/** Character classes and trimming, as the standard library defines them for strings. */
module Text {

  /** Unicode white space. */
  predicate IsWhite(c: char)
  {
    || '\t' <= c <= '\r' || c == ' ' || c == '\U{85}' || c == '\U{A0}' || c == '\U{1680}'
    || '\U{2000}' <= c <= '\U{200A}' || c == '\U{2028}' || c == '\U{2029}' || c == '\U{202F}'
    || c == '\U{205F}' || c == '\U{3000}'
  }

  /** The first position from `i` on without white space. */
  function WhiteFrom(s: string, i: nat): (j: nat)
    requires i <= |s|
    ensures i <= j <= |s| && (j < |s| ==> !IsWhite(s[j]))
    decreases |s| - i
  {
    if i < |s| && IsWhite(s[i]) then WhiteFrom(s, i + 1) else i
  }

  /** The last position up to `i` with no white space just before it. */
  function WhiteBefore(s: string, i: nat): (j: nat)
    requires i <= |s|
    ensures j <= i && (j > 0 ==> !IsWhite(s[j - 1]))
  {
    if i > 0 && IsWhite(s[i - 1]) then WhiteBefore(s, i - 1) else i
  }

  function TrimStart(s: string): (r: string)
    ensures r == [] || !IsWhite(r[0])
    ensures |r| <= |s| && r == s[|s| - |r|..]
  {
    s[WhiteFrom(s, 0)..]
  }

  function TrimEnd(s: string): (r: string)
    ensures r == [] || !IsWhite(r[|r| - 1])
    ensures |r| <= |s| && r == s[..|r|]
  {
    s[..WhiteBefore(s, |s|)]
  }

  function Trim(s: string): string
  {
    TrimEnd(TrimStart(s))
  }

  /** Text that neither starts nor ends with white space is left alone. */
  lemma TrimIdentity(s: string)
    requires s == [] || (!IsWhite(s[0]) && !IsWhite(s[|s| - 1]))
    ensures TrimStart(s) == s && Trim(s) == s
  {
    assert s[0..] == s && s[..|s|] == s;
  }

  lemma {:induction false} WhiteBeforeStops(s: string, i: nat)
    requires 0 < i <= |s| && !IsWhite(s[0])
    ensures WhiteBefore(s, i) > 0
  {
    if i > 1 && IsWhite(s[i - 1]) {
      WhiteBeforeStops(s, i - 1);
    }
  }

  /** Text that does not start with white space is not all white space. */
  lemma NotAllWhite(s: string)
    requires s != [] && !IsWhite(s[0])
    ensures Trim(s) != []
  {
    assert WhiteFrom(s, 0) == 0 && s[0..] == s;
    WhiteBeforeStops(s, |s|);
  }

  lemma {:induction false} WhiteFromShifted(c: char, s: string, i: nat)
    requires i <= |s|
    ensures WhiteFrom([c] + s, i + 1) == WhiteFrom(s, i) + 1
    decreases |s| - i
  {
    if i < |s| {
      assert ([c] + s)[i + 1] == s[i];
      if IsWhite(s[i]) {
        WhiteFromShifted(c, s, i + 1);
      }
    }
  }

  lemma LeadingSpaceTrims(s: string)
    ensures TrimStart(" " + s) == TrimStart(s) && Trim(" " + s) == Trim(s)
  {
    WhiteFromShifted(' ', s, 0);
    var t := " " + s;
    assert t == [' '] + s && t[0] == ' ';
    assert t[WhiteFrom(t, 0)..] == s[WhiteFrom(s, 0)..];
  }

  /** ASCII lower case. */
  function LowerChar(c: char): char
  {
    if 'A' <= c <= 'Z' then c - 'A' + 'a' else c
  }

  function Lower(s: string): (r: string)
    ensures |r| == |s| && forall i :: 0 <= i < |s| ==> r[i] == LowerChar(s[i])
  {
    if s == [] then [] else [LowerChar(s[0])] + Lower(s[1..])
  }

  lemma LowerTwice(s: string)
    ensures Lower(Lower(s)) == Lower(s)
  {
  }

  function Decimal(n: nat): (r: string)
    ensures r != [] && forall c :: c in r ==> '0' <= c <= '9'
  {
    var digit := ['0' + (n % 10) as char];
    if n < 10 then digit else Decimal(n / 10) + digit
  }

  predicate StartsWith(s: string, p: string)
  {
    |p| <= |s| && s[..|p|] == p
  }

  predicate EndsWith(s: string, p: string)
  {
    |p| <= |s| && s[|s| - |p|..] == p
  }

  predicate Contains(s: string, p: string)
  {
    if StartsWith(s, p) then true else s != [] && Contains(s[1..], p)
  }

  /** What comes before the first occurrence of `p`, or everything. */
  function Before(s: string, p: string): string
  {
    if s == [] || StartsWith(s, p) then [] else [s[0]] + Before(s[1..], p)
  }

  // ---- splitting -----------------------------------------------------------------------

  predicate Lacks(s: string, c: char)
  {
    forall i :: 0 <= i < |s| ==> s[i] != c
  }

  /** The first position from `i` on that holds `c`, or the length. */
  function FindFrom(s: string, c: char, i: nat): (j: nat)
    requires i <= |s|
    ensures i <= j <= |s| && (forall k :: i <= k < j ==> s[k] != c) && (j < |s| ==> s[j] == c)
    decreases |s| - i
  {
    if i == |s| || s[i] == c then i else FindFrom(s, c, i + 1)
  }

  /** The position of the first `c`, or the length. */
  function Find(s: string, c: char): (i: nat)
    ensures i <= |s| && (forall j :: 0 <= j < i ==> s[j] != c) && (i < |s| ==> s[i] == c)
  {
    FindFrom(s, c, 0)
  }

  /** The text between the separators; a text without one is a single piece. */
  function Split(s: string, c: char): (r: seq<string>)
    ensures r != []
    decreases |s|
  {
    var i := Find(s, c);
    if i == |s| then [s] else [s[..i]] + Split(s[i + 1..], c)
  }

  lemma FindFirst(a: string, c: char, b: string)
    requires Lacks(a, c)
    ensures Find(a + [c] + b, c) == |a| && (a + [c] + b)[..|a|] == a && (a + [c] + b)[|a| + 1..] == b
  {
    var s := a + [c] + b;
    assert s[|a|] == c;
    assert forall j :: 0 <= j < |a| ==> s[j] == a[j];
  }

  /** A piece and what follows its separator. */
  lemma SplitCons(a: string, c: char, b: string)
    requires Lacks(a, c)
    ensures Split(a + [c] + b, c) == [a] + Split(b, c)
  {
    FindFirst(a, c, b);
  }

  lemma SplitOne(a: string, c: char)
    requires Lacks(a, c)
    ensures Split(a, c) == [a]
  {
  }

  lemma Assoc<T>(a: seq<T>, b: seq<T>, c: seq<T>)
    ensures a + (b + c) == (a + b) + c
  {
  }

  /** Text behind a separator does not move the first one. */
  lemma FindStays(a: string, c: char, b: string)
    requires Find(a, c) < |a|
    ensures var i, s := Find(a, c), a + [c] + b;
            Find(s, c) == i && s[..i] == a[..i] && s[i + 1..] == a[i + 1..] + [c] + b
  {
    var i, s := Find(a, c), a + [c] + b;
    assert forall j :: 0 <= j < |a| ==> s[j] == a[j];
  }

  lemma {:induction false} SplitAppend(a: string, c: char, b: string)
    ensures Split(a + [c] + b, c) == Split(a, c) + Split(b, c)
    decreases |a|
  {
    var i := Find(a, c);
    if i == |a| {
      SplitOne(a, c);
      SplitCons(a, c, b);
    } else {
      FindStays(a, c, b);
      SplitAppend(a[i + 1..], c, b);
      Assoc([a[..i]], Split(a[i + 1..], c), Split(b, c));
    }
  }

  function StripReturn(s: string): string
  {
    if s != [] && s[|s| - 1] == '\r' then s[..|s| - 1] else s
  }

  /** Text split at line ends; a carriage return before a line feed belongs to the line end. */
  function Lines(text: string): seq<string>
    decreases |text|
  {
    if text == [] then []
    else
      var i := Find(text, '\n');
      if i == |text| then [text] else [StripReturn(text[..i])] + Lines(text[i + 1..])
  }

  lemma LinesCons(l: string, rest: string)
    requires Lacks(l, '\n') && StripReturn(l) == l
    ensures Lines(l + "\n" + rest) == [l] + Lines(rest)
  {
    var text := l + "\n" + rest;
    FindFirst(l, '\n', rest);
    assert text[..|l|] == l && text[|l| + 1..] == rest;
  }

  /** A carriage return before the line feed belongs to the line end. */
  lemma ReturnsAreStripped(l: string, rest: string)
    requires Lacks(l, '\n')
    ensures Lines(l + "\r" + "\n" + rest) == [l] + Lines(rest)
  {
    var first := l + "\r";
    FindFirst(first, '\n', rest);
    assert StripReturn(first) == l by { assert first[..|first| - 1] == l; }
    var text := first + "\n" + rest;
    assert text[..|first|] == first && text[|first| + 1..] == rest;
  }
}
