/**
  The `{extra}` path segment: percent-encoded keys and values joined with `=` and `&`.
  A character stands for one byte of the UTF-8 text.
*/
module Extra {
  import opened Text

  datatype Pair = Pair(key: string, value: string)

  predicate IsBytes(s: string)
  {
    forall i :: 0 <= i < |s| ==> s[i] as int < 256
  }

  // ---- percent encoding ----------------------------------------------------------------

  function HexValue(c: char): int
  {
    if '0' <= c <= '9' then c as int - '0' as int
    else if 'A' <= c <= 'F' then c as int - 'A' as int + 10
    else if 'a' <= c <= 'f' then c as int - 'a' as int + 10
    else -1
  }

  function HexDigit(n: nat): char
    requires n < 16
  {
    if n < 10 then '0' + n as char else 'A' + (n - 10) as char
  }

  predicate IsEscape(s: string)
  {
    |s| >= 3 && s[0] == '%' && HexValue(s[1]) >= 0 && HexValue(s[2]) >= 0
  }

  /** A percent sign without two hexadecimal digits after it stands for itself. */
  function Decode(s: string): string
  {
    if s == [] then []
    else if IsEscape(s) then [(16 * HexValue(s[1]) + HexValue(s[2])) as char] + Decode(s[3..])
    else [s[0]] + Decode(s[1..])
  }

  /** Which characters an encoder leaves as they are. */
  type Kept = char -> bool

  /** No encoder keeps the three characters that have a meaning. */
  ghost predicate Safe(keep: Kept)
  {
    !keep('%') && !keep('&') && !keep('=')
  }

  function EncodeChar(keep: Kept, c: char): string
    requires c as int < 256
  {
    if keep(c) then [c] else ['%', HexDigit(c as int / 16), HexDigit(c as int % 16)]
  }

  function Encode(keep: Kept, s: string): string
    requires IsBytes(s)
  {
    if s == [] then [] else EncodeChar(keep, s[0]) + Encode(keep, s[1..])
  }

  /** The encoder of the paths the server prints keeps letters, digits and `-`, `.`, `_`, `*`. */
  predicate SegmentKeeps(c: char)
  {
    'a' <= c <= 'z' || 'A' <= c <= 'Z' || '0' <= c <= '9' || c == '-' || c == '.' || c == '_' || c == '*'
  }

  lemma DecodeChar(keep: Kept, c: char, rest: string)
    requires Safe(keep) && c as int < 256
    ensures Decode(EncodeChar(keep, c) + rest) == [c] + Decode(rest)
  {
    var e := EncodeChar(keep, c);
    var s := e + rest;
    assert s[|e|..] == rest;
    if !keep(c) {
      assert 16 * (c as int / 16) + c as int % 16 == c as int;
    }
  }

  /** Whatever an encoder keeps, decoding gives the text back. */
  lemma {:induction false} DecodeInvertsEncode(keep: Kept, s: string)
    requires Safe(keep) && IsBytes(s)
    ensures Decode(Encode(keep, s)) == s
  {
    if s != [] {
      DecodeChar(keep, s[0], Encode(keep, s[1..]));
      DecodeInvertsEncode(keep, s[1..]);
    }
  }

  lemma {:induction false} EncodedLacks(keep: Kept, s: string)
    requires Safe(keep) && IsBytes(s)
    ensures Lacks(Encode(keep, s), '&') && Lacks(Encode(keep, s), '=')
  {
    if s != [] {
      EncodedLacks(keep, s[1..]);
    }
  }

  // ---- parsing ---------------------------------------------------------------------------

  const SUFFIX := ".json"

  function StripSuffix(raw: string): string
  {
    if EndsWith(raw, SUFFIX) then raw[..|raw| - |SUFFIX|] else raw
  }

  function PairOf(piece: string): Pair
  {
    var i := Find(piece, '=');
    if i == |piece| then Pair(Decode(piece), [])
    else Pair(Decode(piece[..i]), Decode(piece[i + 1..]))
  }

  function PairsOf(pieces: seq<string>): seq<Pair>
  {
    if pieces == [] then []
    else OnePair(pieces[0]) + PairsOf(pieces[1..])
  }

  function ParseOf(raw: string): seq<Pair>
  {
    PairsOf(Split(StripSuffix(raw), '&'))
  }

  function OnePair(piece: string): seq<Pair>
  {
    if piece == [] then [] else [PairOf(piece)]
  }

  lemma OneOnly(p: string)
    ensures PairsOf([p]) == OnePair(p)
  {
    assert [p][1..] == [];
    assert OnePair(p) + [] == OnePair(p);
  }

  lemma TailOfSnoc(pieces: seq<string>, p: string)
    requires pieces != []
    ensures (pieces + [p])[0] == pieces[0] && (pieces + [p])[1..] == pieces[1..] + [p]
  {
  }

  lemma {:induction false} PairsOfSnoc(pieces: seq<string>, p: string)
    ensures PairsOf(pieces + [p]) == PairsOf(pieces) + OnePair(p)
  {
    if pieces == [] {
      assert pieces + [p] == [p];
      OneOnly(p);
    } else {
      TailOfSnoc(pieces, p);
      PairsOfSnoc(pieces[1..], p);
      Assoc(OnePair(pieces[0]), PairsOf(pieces[1..]), OnePair(p));
    }
  }

  /** The parser. */
  method Parse(raw: string) returns (out: seq<Pair>)
    ensures out == ParseOf(raw)
  {
    out := [];
    var pieces := Split(StripSuffix(raw), '&');
    for i := 0 to |pieces|
      invariant out == PairsOf(pieces[..i])
    {
      assert pieces[..i + 1] == pieces[..i] + [pieces[i]];
      PairsOfSnoc(pieces[..i], pieces[i]);
      if pieces[i] != [] {
        out := out + [PairOf(pieces[i])];
      }
    }
    assert pieces[..|pieces|] == pieces;
  }

  // ---- what is not printed like that -------------------------------------------------------

  /** A piece without an equals sign is a key with an empty value; empty pieces count for nothing. */
  lemma BareKeysAndEmptyPieces(raw: string, rest: string)
    requires Lacks(raw, '&') && Lacks(raw, '=')
    ensures raw != [] ==> PairsOf(Split(raw + "&" + rest, '&')) == [Pair(Decode(raw), "")] + PairsOf(Split(rest, '&'))
    ensures PairsOf(Split("&" + rest, '&')) == PairsOf(Split(rest, '&'))
  {
    if raw != [] {
      PiecesCons(raw, rest);
    }
    SplitCons([], '&', rest);
    assert [] + ['&'] + rest == "&" + rest;
    assert ([[]] + Split(rest, '&'))[1..] == Split(rest, '&');
    assert OnePair([]) + PairsOf(Split(rest, '&')) == PairsOf(Split(rest, '&'));
  }

  /** The value goes up to the end of its piece: later equals signs belong to it. */
  lemma FirstEqualsSplits(key: string, value: string)
    requires Lacks(key, '=')
    ensures PairOf(key + "=" + value) == Pair(Decode(key), Decode(value))
  {
    FindFirst(key, '=', value);
  }

  /** Every character but the percent sign stands for itself, and so does a percent sign with no escape behind it. */
  lemma OthersStandForThemselves(c: char, s: string)
    requires c != '%' || |s| < 2 || HexValue(s[0]) < 0 || HexValue(s[1]) < 0
    ensures Decode([c] + s) == [c] + Decode(s)
  {
    assert ([c] + s)[1..] == s;
    assert |s| >= 2 ==> ([c] + s)[1] == s[0] && ([c] + s)[2] == s[1];
  }

  /** Digits of an escape may be upper or lower case. */
  lemma EscapesAreHexadecimal()
    ensures Decode("%c3%A9") == [195 as char, 169 as char]
  {
    var s := "%c3%A9";
    assert s[3..] == "%A9" && s[3..][3..] == "";
    assert Decode("%A9") == [169 as char] + Decode("");
  }

  // ---- printing --------------------------------------------------------------------------

  ghost predicate AllBytes(pairs: seq<Pair>)
  {
    forall i :: 0 <= i < |pairs| ==> IsBytes(pairs[i].key) && IsBytes(pairs[i].value)
  }

  function Printed(keep: Kept, p: Pair): string
    requires IsBytes(p.key) && IsBytes(p.value)
  {
    Encode(keep, p.key) + "=" + Encode(keep, p.value)
  }

  function Join(keep: Kept, pairs: seq<Pair>): string
    requires AllBytes(pairs)
  {
    if pairs == [] then []
    else Printed(keep, pairs[0]) + if |pairs| == 1 then [] else "&" + Join(keep, pairs[1..])
  }

  lemma PieceReadsBack(keep: Kept, p: Pair)
    requires Safe(keep) && IsBytes(p.key) && IsBytes(p.value)
    ensures var t := Printed(keep, p); t != [] && Lacks(t, '&') && PairOf(t) == p
  {
    var k, v := Encode(keep, p.key), Encode(keep, p.value);
    EncodedLacks(keep, p.key);
    EncodedLacks(keep, p.value);
    FindFirst(k, '=', v);
    var t := k + "=" + v;
    assert t[..|k|] == k && t[|k| + 1..] == v;
    DecodeInvertsEncode(keep, p.key);
    DecodeInvertsEncode(keep, p.value);
  }

  lemma PiecesCons(t: string, rest: string)
    requires Lacks(t, '&') && t != []
    ensures PairsOf(Split(t, '&')) == [PairOf(t)]
    ensures PairsOf(Split(t + "&" + rest, '&')) == [PairOf(t)] + PairsOf(Split(rest, '&'))
  {
    assert Find(t, '&') == |t|;
    assert [t][1..] == [] && PairsOf([]) == [];
    FindFirst(t, '&', rest);
    var s := t + "&" + rest;
    assert s[..|t|] == t && s[|t| + 1..] == rest;
    assert ([t] + Split(rest, '&'))[1..] == Split(rest, '&');
  }

  lemma NothingReadsBack()
    ensures PairsOf(Split([], '&')) == []
  {
    assert Split([], '&') == [[]];
  }

  lemma {:induction false} JoinReadsBack(keep: Kept, pairs: seq<Pair>)
    requires Safe(keep) && AllBytes(pairs)
    ensures PairsOf(Split(Join(keep, pairs), '&')) == pairs
  {
    if pairs == [] {
      NothingReadsBack();
    } else {
      var first, rest := pairs[0], pairs[1..];
      var t := Printed(keep, first);
      PieceReadsBack(keep, first);
      JoinReadsBack(keep, rest);
      PiecesCons(t, Join(keep, rest));
      JoinCons(keep, first, rest);
      assert pairs == [first] + rest;
    }
  }

  lemma JoinCons(keep: Kept, first: Pair, rest: seq<Pair>)
    requires AllBytes(rest) && IsBytes(first.key) && IsBytes(first.value)
    ensures AllBytes([first] + rest)
    ensures Join(keep, [first] + rest)
         == if rest == [] then Printed(keep, first) else Printed(keep, first) + "&" + Join(keep, rest)
  {
    assert ([first] + rest)[1..] == rest;
    assert Printed(keep, first) + [] == Printed(keep, first);
  }

  lemma StripsOnce(s: string)
    ensures StripSuffix(s + SUFFIX) == s
  {
    assert (s + SUFFIX)[|s|..] == SUFFIX;
  }

  /**
    Any list of pairs, printed by any encoder, joined and ended by the suffix, parses back
    to the same list in the same order, whatever the keys and values contain.
  */
  lemma PrintedParsesBack(keep: Kept, pairs: seq<Pair>)
    requires Safe(keep) && AllBytes(pairs)
    ensures ParseOf(Join(keep, pairs) + SUFFIX) == pairs
  {
    StripsOnce(Join(keep, pairs));
    JoinReadsBack(keep, pairs);
  }

  // ---- without the suffix -----------------------------------------------------------------

  lemma EncodeCons(keep: Kept, c: char, s: string)
    requires c as int < 256 && IsBytes(s)
    ensures IsBytes([c] + s) && Encode(keep, [c] + s) == EncodeChar(keep, c) + Encode(keep, s)
  {
    assert ([c] + s)[1..] == s;
  }

  lemma {:induction false} EncodeAppend(keep: Kept, a: string, b: string)
    requires IsBytes(a) && IsBytes(b)
    ensures IsBytes(a + b) && Encode(keep, a + b) == Encode(keep, a) + Encode(keep, b)
  {
    if a == [] {
      assert a + b == b;
    } else {
      var c, t := a[0], a[1..];
      assert a == [c] + t && a + b == [c] + (t + b);
      EncodeAppend(keep, t, b);
      EncodeCons(keep, c, t);
      EncodeCons(keep, c, t + b);
      Assoc(EncodeChar(keep, c), Encode(keep, t), Encode(keep, b));
    }
  }

  /** Characters an encoded text has only where the text itself has them. */
  predicate Stays(c: char)
  {
    SegmentKeeps(c) && !('0' <= c <= '9') && !('A' <= c <= 'F')
  }

  lemma EncodeSnoc(s: string, x: char)
    requires IsBytes(s) && x as int < 256
    ensures IsBytes(s + [x]) && Encode(SegmentKeeps, s + [x]) == Encode(SegmentKeeps, s) + EncodeChar(SegmentKeeps, x)
  {
    EncodeAppend(SegmentKeeps, s, [x]);
    assert [x][1..] == [];
    assert Encode(SegmentKeeps, [x]) == EncodeChar(SegmentKeeps, x) + [];
  }

  lemma EncodeCharLast(x: char, c: char)
    requires x as int < 256 && Stays(c)
    ensures var e := EncodeChar(SegmentKeeps, x);
            (e[|e| - 1] == c <==> x == c) && (x == c ==> e == [c])
  {
  }

  predicate LastIs(s: string, c: char)
  {
    s != [] && s[|s| - 1] == c
  }

  /** Such characters at the end of a text stand at the end of its encoding, and the other way round. */
  lemma {:induction false} KeptEnd(s: string, tail: string)
    requires IsBytes(s) && forall i :: 0 <= i < |tail| ==> Stays(tail[i])
    ensures EndsWith(s, tail) <==> EndsWith(Encode(SegmentKeeps, s), tail)
    decreases |tail|
  {
    if tail != [] && s != [] {
      var n, m := |s| - 1, |tail| - 1;
      var e0, x, c := Encode(SegmentKeeps, s[..n]), s[n], tail[m];
      EncodeSnoc(s[..n], x);
      assert s[..n] + [x] == s;
      EncodeCharLast(x, c);
      EndsWithSnoc(s, tail);
      EndsWithSnoc(e0 + EncodeChar(SegmentKeeps, x), tail);
      if x == c {
        assert (e0 + [c])[..|e0|] == e0;
        KeptEnd(s[..n], tail[..m]);
      }
    }
  }

  lemma {:induction false} StayingEncodesToItself(s: string)
    requires forall i :: 0 <= i < |s| ==> Stays(s[i])
    ensures IsBytes(s) && Encode(SegmentKeeps, s) == s
  {
    if s != [] {
      StayingEncodesToItself(s[1..]);
    }
  }

  lemma EndsWithSnoc(s: string, tail: string)
    requires tail != [] && s != []
    ensures EndsWith(s, tail) <==> s[|s| - 1] == tail[|tail| - 1] && EndsWith(s[..|s| - 1], tail[..|tail| - 1])
  {
    var n, m := |s| - 1, |tail| - 1;
    if |tail| <= |s| {
      var x, y := s[|s| - |tail|..], s[..n][n - m..];
      assert x == y + [s[n]];
      assert tail == tail[..m] + [tail[m]];
    }
  }

  /** The joined text up to the value of the last pair. */
  function Head(keep: Kept, pairs: seq<Pair>): string
    requires AllBytes(pairs) && pairs != []
  {
    if |pairs| == 1 then Encode(keep, pairs[0].key) + "="
    else Printed(keep, pairs[0]) + "&" + Head(keep, pairs[1..])
  }

  function WithLast(pairs: seq<Pair>, v: string): seq<Pair>
    requires pairs != []
  {
    pairs[|pairs| - 1 := Pair(pairs[|pairs| - 1].key, v)]
  }

  lemma {:induction false} JoinHead(keep: Kept, pairs: seq<Pair>)
    requires AllBytes(pairs) && pairs != []
    ensures Join(keep, pairs) == Head(keep, pairs) + Encode(keep, pairs[|pairs| - 1].value)
  {
    var v := Encode(keep, pairs[|pairs| - 1].value);
    if |pairs| > 1 {
      JoinHead(keep, pairs[1..]);
      JoinCons(keep, pairs[0], pairs[1..]);
      assert pairs == [pairs[0]] + pairs[1..];
      Assoc(Printed(keep, pairs[0]) + "&", Head(keep, pairs[1..]), v);
    } else {
      assert Join(keep, pairs) == Printed(keep, pairs[0]);
    }
  }

  lemma {:induction false} HeadEnds(keep: Kept, pairs: seq<Pair>)
    requires AllBytes(pairs) && pairs != []
    ensures LastIs(Head(keep, pairs), '=')
  {
    if |pairs| > 1 {
      HeadEnds(keep, pairs[1..]);
    }
  }

  lemma {:induction false} HeadWithLast(keep: Kept, pairs: seq<Pair>, v: string)
    requires AllBytes(pairs) && pairs != [] && IsBytes(v)
    ensures Head(keep, WithLast(pairs, v)) == Head(keep, pairs)
  {
    if |pairs| > 1 {
      HeadWithLast(keep, pairs[1..], v);
      assert WithLast(pairs, v)[1..] == WithLast(pairs[1..], v);
    }
  }

  lemma EndsInside(a: string, b: string, tail: string)
    requires LastIs(a, '=') && Lacks(tail, '=')
    ensures EndsWith(a + b, tail) <==> EndsWith(b, tail)
  {
    var s := a + b;
    if |tail| <= |b| {
      assert s[|s| - |tail|..] == b[|b| - |tail|..];
    } else if |tail| <= |s| {
      var t := s[|s| - |tail|..];
      assert t[|tail| - |b| - 1] == '=';
    }
  }

  lemma SuffixStays()
    ensures forall i :: 0 <= i < |SUFFIX| ==> Stays(SUFFIX[i]) && SUFFIX[i] != '='
  {
  }

  predicate LastValueHasSuffix(pairs: seq<Pair>)
  {
    pairs != [] && EndsWith(pairs[|pairs| - 1].value, SUFFIX)
  }

  /**
    Without the closing suffix the list comes back exactly when its last value does not end
    in the suffix itself; otherwise that value loses it.
  */
  lemma UnsuffixedParsesBackIff(pairs: seq<Pair>)
    requires AllBytes(pairs)
    ensures ParseOf(Join(SegmentKeeps, pairs))
         == if LastValueHasSuffix(pairs) then
              var v := pairs[|pairs| - 1].value; WithLast(pairs, v[..|v| - |SUFFIX|])
            else pairs
    ensures ParseOf(Join(SegmentKeeps, pairs)) == pairs <==> !LastValueHasSuffix(pairs)
  {
    JoinReadsBack(SegmentKeeps, pairs);
    if pairs != [] {
      var v := pairs[|pairs| - 1].value;
      JoinHead(SegmentKeeps, pairs);
      HeadEnds(SegmentKeeps, pairs);
      SuffixStays();
      KeptEnd(v, SUFFIX);
      EndsInside(Head(SegmentKeeps, pairs), Encode(SegmentKeeps, v), SUFFIX);
      if EndsWith(v, SUFFIX) {
        LastValueLosesSuffix(pairs);
      }
    }
  }

  lemma SuffixEncodes(v: string)
    requires IsBytes(v)
    ensures IsBytes(v + SUFFIX) && Encode(SegmentKeeps, v + SUFFIX) == Encode(SegmentKeeps, v) + SUFFIX
  {
    SuffixStays();
    StayingEncodesToItself(SUFFIX);
    EncodeAppend(SegmentKeeps, v, SUFFIX);
  }

  lemma LastValueLosesSuffix(pairs: seq<Pair>)
    requires AllBytes(pairs) && LastValueHasSuffix(pairs)
    ensures var v := pairs[|pairs| - 1].value;
            var shorter := WithLast(pairs, v[..|v| - |SUFFIX|]);
            shorter != pairs && ParseOf(Join(SegmentKeeps, pairs)) == shorter
  {
    var v := pairs[|pairs| - 1].value;
    var v' := v[..|v| - |SUFFIX|];
    var shorter := WithLast(pairs, v');
    assert v == v' + SUFFIX && IsBytes(v');
    SuffixEncodes(v');
    JoinHead(SegmentKeeps, pairs);
    JoinHead(SegmentKeeps, shorter);
    HeadWithLast(SegmentKeeps, pairs, v');
    Assoc(Head(SegmentKeeps, pairs), Encode(SegmentKeeps, v'), SUFFIX);
    StripsOnce(Join(SegmentKeeps, shorter));
    JoinReadsBack(SegmentKeeps, shorter);
    assert shorter[|pairs| - 1].value == v' != v;
  }
}
