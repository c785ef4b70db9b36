/**
  The public tracker feed: lines from several lists are brought into a canonical form,
  filtered, deduplicated and capped. The URL and address parsers are parameters.
*/
module Trackers {
  import opened Text
  import opened Wrappers

  /** What the URL library makes of a text. */
  datatype Url = Url(scheme: string, host: Option<string>, port: Option<nat>, path: string, query: Option<string>)

  type Parser = string -> Option<Url>

  function DefaultPort(scheme: string): Option<nat>
  {
    if scheme == "http" || scheme == "ws" then Some(80)
    else if scheme == "https" || scheme == "wss" then Some(443)
    else None
  }

  function TrimSlashes(s: string): (r: string)
    ensures r == [] || r[|r| - 1] != '/'
    ensures |r| <= |s| && r == s[..|r|]
  {
    if s != [] && s[|s| - 1] == '/' then TrimSlashes(s[..|s| - 1]) else s
  }

  /** Lower case, no default port, no trailing slashes, and a path unless the scheme is udp. */
  function Clean(u: Url): Url
    requires u.host.Some?
  {
    var scheme := Lower(u.scheme);
    var path := TrimSlashes(u.path);
    Url(scheme, Some(Lower(u.host.value)),
        if u.port == DefaultPort(scheme) then None else u.port,
        if path == [] && scheme != "udp" then "/announce" else path,
        u.query)
  }

  function Print(u: Url): string
    requires u.host.Some?
  {
    u.scheme + "://" + u.host.value + (if u.port.Some? then ":" + Decimal(u.port.value) else "")
    + u.path + (if u.query.Some? then "?" + u.query.value else "")
  }

  function Normalize(parse: Parser, raw: string): Option<string>
  {
    var t := Trim(raw);
    if t == [] || t[0] == '#' then None
    else
      var u := parse(t);
      if u.None? || u.value.host.None? then None else Some(Print(Clean(u.value)))
  }

  ghost predicate NoWhite(s: string)
  {
    forall c :: c in s ==> !IsWhite(c)
  }

  /**
    What is relied on of the URL library: a parsed URL has a scheme that starts with a
    letter and no white space anywhere, and the canonical form of a parsed URL, printed and
    parsed again, is itself.
  */
  ghost predicate Lawful(parse: Parser)
  {
    forall raw :: parse(raw).Some? && parse(raw).value.host.Some? ==>
      var u := parse(raw).value;
      && u.scheme != [] && 'a' <= LowerChar(u.scheme[0]) <= 'z'
      && NoWhite(u.scheme) && NoWhite(u.host.value) && NoWhite(u.path) && (u.query.Some? ==> NoWhite(u.query.value))
      && parse(Print(Clean(u))) == Some(Clean(u))
  }

  const SAMPLE := Url("udp", Some("a"), None, "", None)

  lemma SampleIsClean()
    ensures Clean(SAMPLE) == SAMPLE && Print(SAMPLE) == "udp://a"
  {
    assert Lower("udp") == "udp" && Lower("a") == "a";
  }

  /** A library that knows a single URL. */
  function SampleParse(raw: string): Option<Url>
  {
    if raw == "udp://a" then Some(SAMPLE) else None
  }

  /** The requirement can be met. */
  lemma LawfulParserExists()
    ensures Lawful(SampleParse)
  {
    SampleIsClean();
    forall raw | SampleParse(raw).Some?
      ensures SampleParse(Print(Clean(SampleParse(raw).value))) == Some(Clean(SampleParse(raw).value)) {
      assert SampleParse(raw) == Some(SAMPLE);
    }
  }

  lemma CleanTwice(u: Url)
    requires u.host.Some?
    ensures Clean(Clean(u)) == Clean(u)
  {
    LowerTwice(u.scheme);
    LowerTwice(u.host.value);
  }

  lemma LowerNoWhite(s: string)
    requires NoWhite(s)
    ensures NoWhite(Lower(s))
  {
    forall c | c in Lower(s) ensures !IsWhite(c) {
      var i :| 0 <= i < |s| && Lower(s)[i] == c;
      assert s[i] in s;
    }
  }

  lemma PrintNoWhite(u: Url)
    requires u.host.Some? && NoWhite(u.scheme) && NoWhite(u.host.value) && NoWhite(u.path)
    requires u.query.Some? ==> NoWhite(u.query.value)
    ensures NoWhite(Print(u))
  {
  }

  lemma CleanNoWhite(u: Url)
    requires u.host.Some? && NoWhite(u.scheme) && NoWhite(u.host.value) && NoWhite(u.path)
    ensures var c := Clean(u); NoWhite(c.scheme) && NoWhite(c.host.value) && NoWhite(c.path)
  {
    LowerNoWhite(u.scheme);
    LowerNoWhite(u.host.value);
    var p := TrimSlashes(u.path);
    forall c | c in p ensures !IsWhite(c) {
      assert c in u.path;
    }
    var a := "/announce";
    assert NoWhite(a);
  }

  /** The canonical form is no comment and needs no trimming. */
  lemma PrintedIsPlain(u: Url)
    requires u.host.Some? && u.scheme != [] && 'a' <= LowerChar(u.scheme[0]) <= 'z'
    requires NoWhite(u.scheme) && NoWhite(u.host.value) && NoWhite(u.path)
    requires u.query.Some? ==> NoWhite(u.query.value)
    ensures var t := Print(Clean(u)); t != [] && t[0] != '#' && Trim(t) == t
  {
    var c := Clean(u);
    var t := Print(c);
    CleanNoWhite(u);
    PrintNoWhite(c);
    assert t[0] == c.scheme[0] == LowerChar(u.scheme[0]);
    assert t[0] in t && t[|t| - 1] in t;
    TrimIdentity(t);
  }

  lemma NormalizedFrom(parse: Parser, raw: string) returns (u: Url)
    requires Normalize(parse, raw).Some?
    ensures parse(Trim(raw)) == Some(u) && u.host.Some? && Normalize(parse, raw).value == Print(Clean(u))
  {
    u := parse(Trim(raw)).value;
  }

  /** Bringing a tracker into canonical form twice is the same as once. */
  lemma NormalizeIdempotent(parse: Parser, raw: string)
    requires Lawful(parse) && Normalize(parse, raw).Some?
    ensures var t := Normalize(parse, raw).value; Normalize(parse, t) == Some(t)
  {
    var u := NormalizedFrom(parse, raw);
    PrintedIsPlain(u);
    CleanTwice(u);
  }

  // ---- what normalising keeps and changes ---------------------------------------------------

  /** An address as it is written: scheme, host, port if any, path, query if any. */
  function Written(scheme: string, host: string, port: Option<nat>, path: string, query: Option<string>): string
  {
    scheme + "://" + host + (if port.Some? then ":" + Decimal(port.value) else "") + path
    + (if query.Some? then "?" + query.value else "")
  }

  predicate IsLower(s: string)
  {
    forall i :: 0 <= i < |s| ==> !('A' <= s[i] <= 'Z')
  }

  predicate EndsInSlash(s: string)
  {
    s != [] && s[|s| - 1] == '/'
  }

  /** The ports that web schemes imply. */
  predicate IsImplied(scheme: string, port: nat)
  {
    ((scheme == "http" || scheme == "ws") && port == 80) || ((scheme == "https" || scheme == "wss") && port == 443)
  }

  lemma LowerIsSame(s: string)
    requires IsLower(s)
    ensures Lower(s) == s
  {
  }

  lemma LowerIsLower(s: string)
    ensures IsLower(Lower(s))
  {
  }

  /** The line is neither empty nor a comment, and the library reads it as this address. */
  predicate ReadsAs(parse: Parser, raw: string, u: Url)
  {
    Trim(raw) != [] && Trim(raw)[0] != '#' && parse(Trim(raw)) == Some(u)
  }

  /**
    An address in lower case, with no port or one its scheme does not imply, and a path that
    ends in no slash, stays as it is.
  */
  lemma CanonicalIsKept(parse: Parser, raw: string, u: Url)
    requires ReadsAs(parse, raw, u) && u.host.Some? && IsLower(u.scheme) && IsLower(u.host.value)
    requires u.port.Some? ==> !IsImplied(u.scheme, u.port.value)
    requires !EndsInSlash(u.path) && (u.path != [] || u.scheme == "udp")
    ensures Normalize(parse, raw) == Some(Written(u.scheme, u.host.value, u.port, u.path, u.query))
  {
    LowerIsSame(u.scheme);
    LowerIsSame(u.host.value);
  }

  /** A port that the scheme implies is dropped. */
  lemma ImpliedPortIsDropped(parse: Parser, raw: string, u: Url)
    requires ReadsAs(parse, raw, u) && u.host.Some? && IsLower(u.scheme) && IsLower(u.host.value)
    requires u.port.Some? && IsImplied(u.scheme, u.port.value)
    requires !EndsInSlash(u.path) && u.path != []
    ensures Normalize(parse, raw) == Some(Written(u.scheme, u.host.value, None, u.path, u.query))
  {
    LowerIsSame(u.scheme);
    LowerIsSame(u.host.value);
  }

  /** Upper case in scheme and host makes no difference. */
  lemma CaseMakesNoDifference(parse: Parser, raw: string, other: string, u: Url)
    requires ReadsAs(parse, raw, u) && u.host.Some?
    requires ReadsAs(parse, other, u.(scheme := Lower(u.scheme), host := Some(Lower(u.host.value))))
    ensures Normalize(parse, raw) == Normalize(parse, other)
  {
    LowerTwice(u.scheme);
    LowerTwice(u.host.value);
  }

  /** Nor does a trailing slash of the path. */
  lemma TrailingSlashMakesNoDifference(parse: Parser, raw: string, other: string, u: Url)
    requires ReadsAs(parse, raw, u) && u.host.Some? && ReadsAs(parse, other, u.(path := u.path + "/"))
    ensures Normalize(parse, raw) == Normalize(parse, other)
  {
    var p := u.path + "/";
    assert p[..|p| - 1] == u.path;
  }

  /** An empty path means `/announce`, except under udp, where it stays empty. */
  lemma EmptyPathMeansAnnounce(parse: Parser, raw: string, u: Url)
    requires ReadsAs(parse, raw, u) && u.host.Some? && IsLower(u.scheme) && IsLower(u.host.value)
    requires u.port == None && u.path == []
    ensures Normalize(parse, raw)
         == Some(Written(u.scheme, u.host.value, None, if u.scheme == "udp" then "" else "/announce", u.query))
  {
    LowerIsSame(u.scheme);
    LowerIsSame(u.host.value);
  }

  /** Empty lines, comments and what is no address with a host yield nothing; a leading space makes no difference. */
  lemma WhatIsNoTracker(parse: Parser, raw: string)
    ensures Normalize(parse, raw).None?
       <==> Trim(raw) == [] || Trim(raw)[0] == '#' || parse(Trim(raw)).None? || parse(Trim(raw)).value.host.None?
    ensures Normalize(parse, " " + raw) == Normalize(parse, raw)
  {
    LeadingSpaceTrims(raw);
  }

  // ---- filtering -------------------------------------------------------------------------

  function HostOf(parse: Parser, tracker: string): Option<string>
  {
    var u := parse(tracker);
    if u.None? || u.value.host.None? then None else Some(Lower(u.value.host.value))
  }

  function HostOrEmpty(parse: Parser, tracker: string): string
  {
    var h := HostOf(parse, tracker);
    if h.Some? then h.value else ""
  }

  function SchemeOf(tracker: string): string
  {
    Lower(Before(tracker, "://"))
  }

  /** One entry of the block list: a host glob, a tracker, or a host. */
  predicate BlockedBy(parse: Parser, tracker: string, b: string)
  {
    var host := HostOrEmpty(parse, tracker);
    if StartsWith(b, "*.") then host == b[2..] || EndsWith(host, "." + b[2..])
    else if Contains(b, "://") then Normalize(parse, b) == Some(tracker)
    else host == Lower(b)
  }

  predicate Blocked(parse: Parser, tracker: string, block: seq<string>)
  {
    exists b :: b in block && BlockedBy(parse, tracker, b)
  }

  /** What ends a lower-case text is lower case. */
  lemma EndIsLower(host: string, p: string)
    requires Lower(host) == host && EndsWith(host, p)
    ensures Lower(p) == p
  {
    var off := |host| - |p|;
    forall i | 0 <= i < |p| ensures LowerChar(p[i]) == p[i] {
      assert host[off..][i] == host[off + i];
      assert Lower(host)[off + i] == LowerChar(host[off + i]);
    }
  }

  lemma TailIsLower(p: string, n: nat)
    requires n <= |p| && Lower(p[n..]) == p[n..] && forall i :: 0 <= i < n ==> LowerChar(p[i]) == p[i]
    ensures Lower(p) == p
  {
    forall i | 0 <= i < |p| ensures LowerChar(p[i]) == p[i] {
      if i >= n {
        assert p[n..][i - n] == p[i];
        assert Lower(p[n..])[i - n] == LowerChar(p[n..][i - n]);
      }
    }
  }

  lemma HostIsLower(parse: Parser, tracker: string)
    ensures Lower(HostOrEmpty(parse, tracker)) == HostOrEmpty(parse, tracker)
  {
    if HostOf(parse, tracker).Some? {
      LowerTwice(parse(tracker).value.host.value);
    }
  }

  /** A glob is compared as it is written: one with an upper-case letter in it blocks nothing. */
  lemma GlobMustBeLowerCase(parse: Parser, tracker: string, b: string)
    requires StartsWith(b, "*.") && BlockedBy(parse, tracker, b)
    ensures Lower(b) == b
  {
    var host, suffix := HostOrEmpty(parse, tracker), b[2..];
    HostIsLower(parse, tracker);
    if host != suffix {
      EndIsLower(host, "." + suffix);
      SuffixIsLower(suffix);
    }
    assert b[0] == b[..2][0] && b[1] == b[..2][1];
    TailIsLower(b, 2);
  }

  lemma SuffixIsLower(suffix: string)
    requires Lower("." + suffix) == "." + suffix
    ensures Lower(suffix) == suffix
  {
    var p := "." + suffix;
    forall i | 0 <= i < |suffix| ensures LowerChar(suffix[i]) == suffix[i] {
      assert p[i + 1] == suffix[i];
      assert Lower(p)[i + 1] == LowerChar(p[i + 1]);
    }
  }

  /**
    Writing a glob as it is does the same as writing it in lower case only if it is so, or
    blocks nothing that way either.
  */
  lemma GlobCaseMattersIff(parse: Parser, b: string)
    requires StartsWith(b, "*.")
    ensures (forall t :: BlockedBy(parse, t, b) <==> BlockedBy(parse, t, Lower(b)))
       <==> Lower(b) == b || forall t :: !BlockedBy(parse, t, Lower(b))
  {
    if Lower(b) != b {
      forall t ensures !BlockedBy(parse, t, b) {
        if BlockedBy(parse, t, b) {
          GlobMustBeLowerCase(parse, t, b);
        }
      }
    }
  }

  /** The glob `*.a` blocks a tracker that `*.A` lets through; as a plain host, `A` blocks it too. */
  lemma UpperCaseGlobBlocksNothing()
    ensures BlockedBy(SampleParse, "udp://a", "*.a") && !BlockedBy(SampleParse, "udp://a", "*.A")
    ensures BlockedBy(SampleParse, "udp://a", "A")
  {
    assert Lower("a") == "a";
    assert HostOrEmpty(SampleParse, "udp://a") == "a";
    assert "*.a"[2..] == "a" && "*.a"[..2] == "*.";
    assert Lower("A") == "a";
    assert !StartsWith("A", "*.") && !Contains("A", "://") by { assert "A"[1..] == ""; }
    assert "*.A"[2..] == "A" && "*.A"[..2] == "*.";
  }

  /** The library reads the tracker as an address with this host. */
  predicate HasHost(parse: Parser, tracker: string, host: string)
  {
    parse(tracker).Some? && parse(tracker).value.host == Some(host)
  }

  lemma EndsAs(h: string, tail: string)
    ensures EndsWith(h, tail) <==> exists sub :: h == sub + tail
  {
    if EndsWith(h, tail) {
      assert h == h[..|h| - |tail|] + tail;
    }
    if sub :| h == sub + tail {
      assert h[|sub|..] == tail;
    }
  }

  lemma GlobMatches(parse: Parser, tracker: string, b: string, domain: string)
    requires b == "*." + domain
    ensures BlockedBy(parse, tracker, b)
       <==> HostOrEmpty(parse, tracker) == domain || EndsWith(HostOrEmpty(parse, tracker), "." + domain)
  {
    assert b[..2] == "*." && b[2..] == domain;
  }

  /** A glob blocks its domain and the hosts below it, in any case, and no other host. */
  lemma GlobBlocksDomain(parse: Parser, tracker: string, host: string, domain: string)
    requires HasHost(parse, tracker, host)
    ensures BlockedBy(parse, tracker, "*." + domain)
       <==> Lower(host) == domain || exists sub :: Lower(host) == sub + ("." + domain)
  {
    GlobMatches(parse, tracker, "*." + domain, domain);
    EndsAs(Lower(host), "." + domain);
    assert HostOrEmpty(parse, tracker) == Lower(host);
  }

  /** A plain host blocks that host in any case. */
  lemma HostBlocksHost(parse: Parser, tracker: string, host: string, b: string)
    requires HasHost(parse, tracker, host) && !StartsWith(b, "*.") && !Contains(b, "://")
    ensures BlockedBy(parse, tracker, b) <==> Lower(host) == Lower(b)
  {
  }

  /** An address on the block list keeps out every line that normalises to the same tracker. */
  lemma AddressBlocksItsSpellings(parse: Parser, isIp: string -> bool, cfg: Config, l: Line, b: string)
    requires b in cfg.block && !StartsWith(b, "*.") && Contains(b, "://")
    requires Normalize(parse, l.raw).Some? && Normalize(parse, b) == Normalize(parse, l.raw)
    ensures Judge(parse, isIp, cfg, l) == Rejected
  {
    assert BlockedBy(parse, Normalize(parse, l.raw).value, b);
  }

  // ---- merging ---------------------------------------------------------------------------

  /** `max` is the cap; `isIp` says which hosts are bare addresses. */
  datatype Config = Config(
    enabled: bool, schemes: seq<string>, add: seq<string>, block: seq<string>, max: nat,
    rejectIp: bool, staleAfter: nat)

  datatype Source = Source(schemes: Option<seq<string>>, lines: seq<string>)

  /** One line with the schemes allowed where it comes from. */
  datatype Line = Line(allowed: seq<string>, raw: string)

  datatype Verdict = Ignored | Rejected | Accepted(tracker: string)

  function LowerAll(xs: seq<string>): seq<string>
  {
    seq(|xs|, i requires 0 <= i < |xs| => Lower(xs[i]))
  }

  function Allowed(cfg: Config, src: Source): seq<string>
  {
    LowerAll(if src.schemes.Some? then src.schemes.value else cfg.schemes)
  }

  /** Lists first, then the static entries. */
  function Sources(cfg: Config, lists: seq<Source>): seq<Source>
  {
    lists + [Source(None, cfg.add)]
  }

  function LinesOf(cfg: Config, src: Source): seq<Line>
  {
    seq(|src.lines|, i requires 0 <= i < |src.lines| => Line(Allowed(cfg, src), src.lines[i]))
  }

  function AllLines(cfg: Config, sources: seq<Source>): seq<Line>
  {
    if sources == [] then [] else AllLines(cfg, sources[..|sources| - 1]) + LinesOf(cfg, sources[|sources| - 1])
  }

  /** What happens to a line on its own. */
  function Judge(parse: Parser, isIp: string -> bool, cfg: Config, l: Line): Verdict
  {
    var n := Normalize(parse, l.raw);
    if n.None? then
      if Trim(l.raw) != [] && !StartsWith(TrimStart(l.raw), "#") then Rejected else Ignored
    else
      var t := n.value;
      if SchemeOf(t) !in l.allowed || Blocked(parse, t, cfg.block)
         || (cfg.rejectIp && HostOf(parse, t).Some? && isIp(HostOrEmpty(parse, t)))
      then Rejected
      else Accepted(t)
  }

  function Judged(parse: Parser, isIp: string -> bool, cfg: Config, lines: seq<Line>): (r: seq<Verdict>)
    ensures |r| == |lines| && forall i :: 0 <= i < |lines| ==> r[i] == Judge(parse, isIp, cfg, lines[i])
  {
    seq(|lines|, i requires 0 <= i < |lines| => Judge(parse, isIp, cfg, lines[i]))
  }

  /** Of lines that yield no tracker, blank ones and comments are ignored and the rest rejected. */
  lemma BlankLinesAreIgnored(parse: Parser, isIp: string -> bool, cfg: Config, l: Line)
    requires Normalize(parse, l.raw).None?
    ensures Judge(parse, isIp, cfg, l) == Ignored
       <==> Trim(l.raw) == [] || (TrimStart(l.raw) != [] && TrimStart(l.raw)[0] == '#')
    ensures Judge(parse, isIp, cfg, l) == Ignored || Judge(parse, isIp, cfg, l) == Rejected
  {
  }

  /** A source's own schemes, where it has any, stand in place of the general ones; case does not matter. */
  lemma SourceSchemes(cfg: Config, src: Source, scheme: string)
    ensures src.schemes.Some? ==>
              (scheme in Allowed(cfg, src) <==> exists x :: x in src.schemes.value && Lower(x) == scheme)
    ensures src.schemes.None? ==>
              (scheme in Allowed(cfg, src) <==> exists x :: x in cfg.schemes && Lower(x) == scheme)
  {
    LowerAllMembers(if src.schemes.Some? then src.schemes.value else cfg.schemes, scheme);
  }

  lemma LowerAllMembers(xs: seq<string>, y: string)
    ensures y in LowerAll(xs) <==> exists x :: x in xs && Lower(x) == y
  {
    if y in LowerAll(xs) {
      var i :| 0 <= i < |xs| && LowerAll(xs)[i] == y;
      assert xs[i] in xs;
    }
    if x :| x in xs && Lower(x) == y {
      var i :| 0 <= i < |xs| && xs[i] == x;
      assert LowerAll(xs)[i] == y;
    }
  }

  function Count(vs: seq<Verdict>, v: Verdict): nat
  {
    if vs == [] then 0 else Count(vs[..|vs| - 1], v) + if vs[|vs| - 1] == v then 1 else 0
  }

  /** The accepted trackers in order, each at its first occurrence. */
  function Firsts(vs: seq<Verdict>): seq<string>
  {
    if vs == [] then []
    else
      var init, last := Firsts(vs[..|vs| - 1]), vs[|vs| - 1];
      if last.Accepted? && last.tracker !in init then init + [last.tracker] else init
  }

  /** The accepted lines that repeat an earlier one. */
  function Repeats(vs: seq<Verdict>): nat
  {
    if vs == [] then 0
    else
      var init, last := vs[..|vs| - 1], vs[|vs| - 1];
      Repeats(init) + if last.Accepted? && last.tracker in Firsts(init) then 1 else 0
  }

  function Cap(xs: seq<string>, max: nat): seq<string>
  {
    if |xs| <= max then xs else xs[..max]
  }

  datatype Merged = Merged(trackers: seq<string>, rejected: nat, duplicates: nat)

  function MergeOf(parse: Parser, isIp: string -> bool, cfg: Config, lists: seq<Source>): Merged
  {
    var vs := Judged(parse, isIp, cfg, AllLines(cfg, Sources(cfg, lists)));
    Merged(Cap(Firsts(vs), cfg.max), Count(vs, Rejected), Repeats(vs))
  }

  lemma JudgedNext(parse: Parser, isIp: string -> bool, cfg: Config, done: seq<Line>, lines: seq<Line>, j: nat)
    requires j < |lines|
    ensures Judged(parse, isIp, cfg, done + lines[..j + 1])
         == Judged(parse, isIp, cfg, done + lines[..j]) + [Judge(parse, isIp, cfg, lines[j])]
  {
    assert done + lines[..j + 1] == done + lines[..j] + [lines[j]];
  }

  lemma FirstsSnoc(vs: seq<Verdict>, v: Verdict)
    ensures Firsts(vs + [v]) == if v.Accepted? && v.tracker !in Firsts(vs) then Firsts(vs) + [v.tracker] else Firsts(vs)
    ensures Repeats(vs + [v]) == Repeats(vs) + if v.Accepted? && v.tracker in Firsts(vs) then 1 else 0
    ensures Count(vs + [v], Rejected) == Count(vs, Rejected) + if v == Rejected then 1 else 0
  {
    assert (vs + [v])[..|vs|] == vs;
  }

  /** One line's verdict enters the counts and, when it is new, the list. */
  method MergeLine(v: Verdict, ghost vs: seq<Verdict>, seen0: set<string>, out0: seq<string>, rejected0: nat,
                   dups0: nat)
    returns (seen: set<string>, out: seq<string>, rejected: nat, dups: nat)
    requires MergeState(vs, seen0, out0, rejected0, dups0)
    ensures MergeState(vs + [v], seen, out, rejected, dups)
  {
    seen, out, rejected, dups := seen0, out0, rejected0, dups0;
    FirstsSnoc(vs, v);
    match v {
      case Ignored =>
      case Rejected => rejected := rejected + 1;
      case Accepted(t) =>
        if t in seen {
          dups := dups + 1;
        } else {
          seen := seen + {t};
          out := out + [t];
        }
    }
  }

  /** One list: each of its lines is ignored, rejected, counted as a repeat, or kept. */
  method MergeList(parse: Parser, isIp: string -> bool, cfg: Config, src: Source, ghost done: seq<Line>,
                   seen0: set<string>, out0: seq<string>, rejected0: nat, dups0: nat)
    returns (seen: set<string>, out: seq<string>, rejected: nat, dups: nat)
    requires MergeState(Judged(parse, isIp, cfg, done), seen0, out0, rejected0, dups0)
    ensures MergeState(Judged(parse, isIp, cfg, done + LinesOf(cfg, src)), seen, out, rejected, dups)
  {
    seen, out, rejected, dups := seen0, out0, rejected0, dups0;
    var lines := LinesOf(cfg, src);
    ghost var vs := Judged(parse, isIp, cfg, done);
    assert done + lines[..0] == done;
    for j := 0 to |lines|
      invariant vs == Judged(parse, isIp, cfg, done + lines[..j])
      invariant MergeState(vs, seen, out, rejected, dups)
    {
      var v := Judge(parse, isIp, cfg, lines[j]);
      JudgedNext(parse, isIp, cfg, done, lines, j);
      seen, out, rejected, dups := MergeLine(v, vs, seen, out, rejected, dups);
      vs := vs + [v];
    }
    assert lines[..|lines|] == lines;
  }

  /** The merge step: all lists in order, then the static entries, then the cap. */
  method Merge(parse: Parser, isIp: string -> bool, cfg: Config, lists: seq<Source>) returns (r: Merged)
    ensures r == MergeOf(parse, isIp, cfg, lists)
  {
    var seen: set<string> := {};
    var out: seq<string> := [];
    var rejected, dups := 0, 0;
    var sources := Sources(cfg, lists);
    for i := 0 to |sources|
      invariant MergeState(Judged(parse, isIp, cfg, AllLines(cfg, sources[..i])), seen, out, rejected, dups)
    {
      assert sources[..i + 1][..i] == sources[..i];
      seen, out, rejected, dups :=
        MergeList(parse, isIp, cfg, sources[i], AllLines(cfg, sources[..i]), seen, out, rejected, dups);
    }
    assert sources[..|sources|] == sources;
    return Merged(Cap(out, cfg.max), rejected, dups);
  }

  ghost predicate MergeState(vs: seq<Verdict>, seen: set<string>, out: seq<string>, rejected: nat, dups: nat)
  {
    && out == Firsts(vs) && seen == (set t | t in out)
    && rejected == Count(vs, Rejected) && dups == Repeats(vs)
  }

  // ---- what a merge guarantees --------------------------------------------------------------

  /** Every line is ignored, rejected, a repeat, or kept before the cap. */
  lemma {:induction false} LinesAccountedFor(vs: seq<Verdict>)
    ensures |vs| == Count(vs, Ignored) + Count(vs, Rejected) + Repeats(vs) + |Firsts(vs)|
  {
    if vs != [] {
      LinesAccountedFor(vs[..|vs| - 1]);
    }
  }

  /** Position `i` is the first line to be accepted as `t`. */
  ghost predicate FirstAt(vs: seq<Verdict>, i: nat, t: string)
  {
    i < |vs| && vs[i] == Accepted(t) && forall j :: 0 <= j < i ==> vs[j] != Accepted(t)
  }

  lemma {:induction false} FirstsPosition(vs: seq<Verdict>, k: nat) returns (i: nat)
    requires k < |Firsts(vs)|
    ensures FirstAt(vs, i, Firsts(vs)[k])
    ensures i == |vs| - 1 ==> k == |Firsts(vs)| - 1
  {
    var n := |vs| - 1;
    var init := vs[..n];
    FirstsHas(init);
    if k < |Firsts(init)| {
      i := FirstsPosition(init, k);
    } else {
      i := n;
      assert forall j :: 0 <= j < n ==> vs[j] == init[j];
    }
  }

  lemma {:induction false} FirstsHas(vs: seq<Verdict>)
    ensures forall t :: t in Firsts(vs) <==> Accepted(t) in vs
    ensures forall i, j :: 0 <= i < j < |Firsts(vs)| ==> Firsts(vs)[i] != Firsts(vs)[j]
  {
    if vs != [] {
      var n := |vs| - 1;
      FirstsHas(vs[..n]);
      assert vs == vs[..n] + [vs[n]];
    }
  }

  /** The kept trackers stand in the order in which they were first accepted. */
  lemma {:induction false} FirstsInOrder(vs: seq<Verdict>, a: nat, b: nat, i: nat, j: nat)
    requires a < b < |Firsts(vs)|
    requires FirstAt(vs, i, Firsts(vs)[a]) && FirstAt(vs, j, Firsts(vs)[b])
    ensures i < j
  {
    var n := |vs| - 1;
    var init := vs[..n];
    FirstsHas(init);
    if b < |Firsts(init)| {
      FirstsBelow(init, a);
      FirstsBelow(init, b);
      assert i < n by { var p := FirstsPosition(init, a); assert vs[p] == init[p]; }
      assert j < n by { var p := FirstsPosition(init, b); assert vs[p] == init[p]; }
      assert forall p :: 0 <= p < n ==> vs[p] == init[p];
      FirstsInOrder(init, a, b, i, j);
    } else {
      assert a < |Firsts(init)|;
      var p := FirstsPosition(init, a);
      assert vs[p] == init[p];
      assert i <= p < n;
      assert Firsts(vs)[b] == vs[n].tracker && vs[n].tracker !in Firsts(init);
      assert forall q :: 0 <= q < n ==> vs[q] == init[q] && init[q] in init;
      assert j == n;
    }
  }

  lemma FirstsBelow(vs: seq<Verdict>, k: nat)
    requires k < |Firsts(vs)|
    ensures Firsts(vs)[k] in Firsts(vs)
  {
  }

  /** The source a tracker was accepted from: its line passed every filter. */
  ghost predicate Passed(parse: Parser, cfg: Config, isIp: string -> bool, l: Line, t: string)
  {
    && Normalize(parse, l.raw) == Some(t)
    && SchemeOf(t) in l.allowed
    && !Blocked(parse, t, cfg.block)
    && !(cfg.rejectIp && HostOf(parse, t).Some? && isIp(HostOrEmpty(parse, t)))
  }

  /**
    The merged list: no duplicates, at most `max` entries, the first ones of the uncapped
    list; each is in canonical form, unblocked, and comes from a line that passed every
    filter; and every line is accounted for exactly once.
  */
  lemma MergeGuarantees(parse: Parser, isIp: string -> bool, cfg: Config, lists: seq<Source>)
    ensures var m := MergeOf(parse, isIp, cfg, lists);
            var lines := AllLines(cfg, Sources(cfg, lists));
            var vs := Judged(parse, isIp, cfg, lines);
            && m.trackers <= Firsts(vs) && |m.trackers| <= cfg.max
            && (|m.trackers| < cfg.max ==> m.trackers == Firsts(vs))
            && (forall i, j :: 0 <= i < j < |m.trackers| ==> m.trackers[i] != m.trackers[j])
            && |lines| == Count(vs, Ignored) + m.rejected + m.duplicates + |Firsts(vs)|
            && (forall t :: t in Firsts(vs) <==> exists l :: l in lines && Passed(parse, cfg, isIp, l, t))
            && (forall t :: t in m.trackers ==> !Blocked(parse, t, cfg.block))
            && (Lawful(parse) ==> forall t :: t in m.trackers ==> Normalize(parse, t) == Some(t))
  {
    var lines := AllLines(cfg, Sources(cfg, lists));
    var vs := Judged(parse, isIp, cfg, lines);
    LinesAccountedFor(vs);
    FirstsHas(vs);
    CapPrefix(Firsts(vs), cfg.max);
    AcceptedPassed(parse, isIp, cfg, lines);
    FirstsClean(parse, isIp, cfg, lines);
  }

  lemma CapPrefix(xs: seq<string>, max: nat)
    ensures var c := Cap(xs, max);
            c <= xs && |c| <= max && (|c| < max ==> c == xs) && (forall t :: t in c ==> t in xs)
  {
  }

  lemma FirstsClean(parse: Parser, isIp: string -> bool, cfg: Config, lines: seq<Line>)
    ensures forall t :: t in Firsts(Judged(parse, isIp, cfg, lines)) ==> !Blocked(parse, t, cfg.block)
    ensures Lawful(parse) ==>
              forall t :: t in Firsts(Judged(parse, isIp, cfg, lines)) ==> Normalize(parse, t) == Some(t)
  {
    forall t | t in Firsts(Judged(parse, isIp, cfg, lines))
      ensures !Blocked(parse, t, cfg.block)
      ensures Lawful(parse) ==> Normalize(parse, t) == Some(t)
    {
      var i := AcceptedFrom(parse, isIp, cfg, lines, t);
      if Lawful(parse) {
        NormalizeIdempotent(parse, lines[i].raw);
      }
    }
  }

  /** A kept tracker was accepted from some line. */
  lemma AcceptedFrom(parse: Parser, isIp: string -> bool, cfg: Config, lines: seq<Line>, t: string) returns (i: nat)
    requires t in Firsts(Judged(parse, isIp, cfg, lines))
    ensures i < |lines| && Passed(parse, cfg, isIp, lines[i], t)
  {
    var vs := Judged(parse, isIp, cfg, lines);
    FirstsHas(vs);
    i :| 0 <= i < |vs| && vs[i] == Accepted(t);
    JudgedAs(parse, isIp, cfg, lines[i], t);
  }

  /** A line that passes is kept, or repeats one that is. */
  lemma PassedKept(parse: Parser, isIp: string -> bool, cfg: Config, lines: seq<Line>, i: nat, t: string)
    requires i < |lines| && Passed(parse, cfg, isIp, lines[i], t)
    ensures t in Firsts(Judged(parse, isIp, cfg, lines))
  {
    var vs := Judged(parse, isIp, cfg, lines);
    FirstsHas(vs);
    JudgedAs(parse, isIp, cfg, lines[i], t);
    assert vs[i] in vs;
  }

  lemma JudgedAs(parse: Parser, isIp: string -> bool, cfg: Config, l: Line, t: string)
    ensures Judge(parse, isIp, cfg, l) == Accepted(t) <==> Passed(parse, cfg, isIp, l, t)
  {
  }

  lemma AcceptedPassed(parse: Parser, isIp: string -> bool, cfg: Config, lines: seq<Line>)
    ensures var vs := Judged(parse, isIp, cfg, lines);
            forall t :: t in Firsts(vs) <==> exists l :: l in lines && Passed(parse, cfg, isIp, l, t)
  {
    var vs := Judged(parse, isIp, cfg, lines);
    forall t ensures t in Firsts(vs) <==> exists l :: l in lines && Passed(parse, cfg, isIp, l, t) {
      AcceptedPassedOne(parse, isIp, cfg, lines, t);
    }
  }

  lemma AcceptedPassedOne(parse: Parser, isIp: string -> bool, cfg: Config, lines: seq<Line>, t: string)
    ensures t in Firsts(Judged(parse, isIp, cfg, lines)) <==> exists l :: l in lines && Passed(parse, cfg, isIp, l, t)
  {
    if t in Firsts(Judged(parse, isIp, cfg, lines)) {
      var i := AcceptedFrom(parse, isIp, cfg, lines, t);
      assert lines[i] in lines;
    }
    if l :| l in lines && Passed(parse, cfg, isIp, l, t) {
      var i :| 0 <= i < |lines| && lines[i] == l;
      PassedKept(parse, isIp, cfg, lines, i, t);
    }
  }

  // ---- refreshing ------------------------------------------------------------------------

  datatype Feed = Feed(trackers: seq<string>, updatedAt: Option<int>)

  /** One configured source and what fetching it returned. */
  datatype Fetched = Fetched(enabled: bool, schemes: Option<seq<string>>, take: Option<nat>, lines: Option<seq<string>>)

  function UsableLines(f: Fetched): seq<string>
    requires f.lines.Some?
  {
    if f.take.Some? && f.take.value < |f.lines.value| then f.lines.value[..f.take.value] else f.lines.value
  }

  predicate Delivered(f: Fetched)
  {
    f.enabled && f.lines.Some?
  }

  /** The lists of the sources that answered. */
  function Lists(fs: seq<Fetched>): seq<Source>
  {
    if fs == [] then []
    else if Delivered(fs[0]) then [Source(fs[0].schemes, UsableLines(fs[0]))] + Lists(fs[1..])
    else Lists(fs[1..])
  }

  predicate AnyDelivered(fs: seq<Fetched>)
  {
    exists f :: f in fs && Delivered(f)
  }

  /** The refresh commits when a source answered, or when there is nothing cached to lose. */
  function Refresh(parse: Parser, isIp: string -> bool, cfg: Config, st: Feed, now: int, fs: seq<Fetched>): Feed
  {
    if !cfg.enabled then st
    else if AnyDelivered(fs) || (Lists(fs) == [] && st.trackers == []) then
      Feed(MergeOf(parse, isIp, cfg, Lists(fs)).trackers, Some(now))
    else st
  }

  /** Whether a refresh reports that the list changed. */
  predicate Changed(parse: Parser, isIp: string -> bool, cfg: Config, st: Feed, fs: seq<Fetched>)
  {
    cfg.enabled && AnyDelivered(fs) && st.trackers != MergeOf(parse, isIp, cfg, Lists(fs)).trackers
  }

  /** A refresh reports a change exactly when a source answered and the list is not what it was. */
  lemma ChangedIff(parse: Parser, isIp: string -> bool, cfg: Config, st: Feed, now: int, fs: seq<Fetched>)
    ensures Changed(parse, isIp, cfg, st, fs)
       <==> AnyDelivered(fs) && Refresh(parse, isIp, cfg, st, now, fs).trackers != st.trackers
  {
  }

  lemma {:induction false} ListsEmpty(fs: seq<Fetched>)
    ensures Lists(fs) == [] <==> !AnyDelivered(fs)
  {
    if fs != [] {
      ListsEmpty(fs[1..]);
      assert fs == [fs[0]] + fs[1..];
      if Delivered(fs[0]) {
        assert fs[0] in fs;
      } else if AnyDelivered(fs) {
        var f :| f in fs && Delivered(f);
        assert f in fs[1..];
      }
    }
  }

  /** When no source answers, a cached list stays as it is, timestamp included. */
  lemma OutageKeepsCache(parse: Parser, isIp: string -> bool, cfg: Config, st: Feed, now: int, fs: seq<Fetched>)
    requires !AnyDelivered(fs) && st.trackers != []
    ensures Refresh(parse, isIp, cfg, st, now, fs) == st && !Changed(parse, isIp, cfg, st, fs)
  {
  }

  /** Every line a refresh has to go by: those of the sources that answered, and the static entries. */
  function LinesAtHand(cfg: Config, fs: seq<Fetched>): seq<Line>
  {
    AllLines(cfg, Sources(cfg, Lists(fs)))
  }

  /** The line is one of those the source returned, within its own limit. */
  predicate IsTaken(f: Fetched, k: nat)
  {
    f.enabled && f.lines.Some? && k < |f.lines.value| && (f.take.Some? ==> k < f.take.value)
  }

  /** The lines of lists, one after the other, and the static entries last. */
  lemma StaticsComeLast(cfg: Config, lists: seq<Source>)
    ensures AllLines(cfg, Sources(cfg, lists)) == AllLines(cfg, lists) + LinesOf(cfg, Source(None, cfg.add))
  {
    var sources := Sources(cfg, lists);
    assert sources[..|sources| - 1] == lists;
  }

  lemma {:induction false} ListLines(cfg: Config, lists: seq<Source>, l: Line)
    ensures l in AllLines(cfg, lists)
       <==> exists src, k: nat :: src in lists && k < |src.lines| && l == Line(Allowed(cfg, src), src.lines[k])
  {
    if lists != [] {
      var init, last := lists[..|lists| - 1], lists[|lists| - 1];
      ListLines(cfg, init, l);
      assert lists == init + [last];
      if l in LinesOf(cfg, last) {
        var k: nat :| k < |last.lines| && LinesOf(cfg, last)[k] == l;
        assert last in lists && l == Line(Allowed(cfg, last), last.lines[k]);
      }
      if src, k: nat :| src in lists && k < |src.lines| && l == Line(Allowed(cfg, src), src.lines[k]) {
        if src == last {
          assert LinesOf(cfg, last)[k] == l;
        } else {
          assert src in init;
        }
      }
    }
  }

  lemma {:induction false} ListsMembers(fs: seq<Fetched>, src: Source)
    ensures src in Lists(fs)
       <==> exists f :: f in fs && Delivered(f) && src == Source(f.schemes, UsableLines(f))
  {
    if fs != [] {
      ListsMembers(fs[1..], src);
      assert fs == [fs[0]] + fs[1..];
      if f :| f in fs && Delivered(f) && src == Source(f.schemes, UsableLines(f)) {
        assert f == fs[0] || f in fs[1..];
      }
      if src in Lists(fs) {
        if src in Lists(fs[1..]) {
          var f :| f in fs[1..] && Delivered(f) && src == Source(f.schemes, UsableLines(f));
          assert f in fs;
        } else {
          assert fs[0] in fs;
        }
      }
    }
  }

  /** What a source that answered contributes: one of its lines, under its own schemes or the general ones. */
  ghost predicate FromSource(cfg: Config, fs: seq<Fetched>, l: Line)
  {
    exists f, k: nat :: f in fs && IsTaken(f, k)
      && l == Line(LowerAll(if f.schemes.Some? then f.schemes.value else cfg.schemes), f.lines.value[k])
  }

  ghost predicate FromStatics(cfg: Config, l: Line)
  {
    exists k: nat :: k < |cfg.add| && l == Line(LowerAll(cfg.schemes), cfg.add[k])
  }

  /**
    The lines to go by are those of the enabled sources that answered, each within its limit,
    and the static entries.
  */
  lemma LinesAtHandIff(cfg: Config, fs: seq<Fetched>, l: Line)
    ensures l in LinesAtHand(cfg, fs) <==> FromSource(cfg, fs, l) || FromStatics(cfg, l)
  {
    StaticsComeLast(cfg, Lists(fs));
    ListLines(cfg, Lists(fs), l);
    if l in AllLines(cfg, Lists(fs)) {
      var src, k: nat :| src in Lists(fs) && k < |src.lines| && l == Line(Allowed(cfg, src), src.lines[k]);
      ListsMembers(fs, src);
      var f :| f in fs && Delivered(f) && src == Source(f.schemes, UsableLines(f));
      assert IsTaken(f, k);
    }
    if FromSource(cfg, fs, l) {
      var f, k: nat :| f in fs && IsTaken(f, k)
        && l == Line(LowerAll(if f.schemes.Some? then f.schemes.value else cfg.schemes), f.lines.value[k]);
      var src := Source(f.schemes, UsableLines(f));
      ListsMembers(fs, src);
      assert src in Lists(fs) && l == Line(Allowed(cfg, src), src.lines[k]);
    }
    StaticLineIff(cfg, l);
  }

  lemma StaticLineIff(cfg: Config, l: Line)
    ensures l in LinesOf(cfg, Source(None, cfg.add)) <==> FromStatics(cfg, l)
  {
    var src := Source(None, cfg.add);
    var lines := LinesOf(cfg, src);
    assert Allowed(cfg, src) == LowerAll(cfg.schemes);
    assert forall k :: 0 <= k < |cfg.add| ==> lines[k] == Line(Allowed(cfg, src), src.lines[k]);
    if l in lines {
      var k: nat :| k < |lines| && lines[k] == l;
      assert k < |cfg.add|;
    }
    if k: nat :| k < |cfg.add| && l == Line(LowerAll(cfg.schemes), cfg.add[k]) {
      assert lines[k] == l;
    }
  }

  /** The tracker is among the first `max` that those lines yield. */
  ghost predicate AtHand(parse: Parser, isIp: string -> bool, cfg: Config, fs: seq<Fetched>, t: string)
  {
    var firsts := Firsts(Judged(parse, isIp, cfg, LinesAtHand(cfg, fs)));
    exists k: nat :: k < cfg.max && k < |firsts| && firsts[k] == t
  }

  /**
    Once any source answers, a tracker is in the list exactly when it is among the first
    `max` that lines of answering sources, or static entries, yield; while these are not
    more than `max`, exactly when one such line passes. What was cached plays no part.
  */
  lemma RefreshKeepsExactly(parse: Parser, isIp: string -> bool, cfg: Config, st: Feed, now: int, fs: seq<Fetched>,
                            t: string)
    requires cfg.enabled && AnyDelivered(fs)
    ensures var lines := LinesAtHand(cfg, fs);
            var vs := Judged(parse, isIp, cfg, lines);
            var kept := Refresh(parse, isIp, cfg, st, now, fs).trackers;
            && (t in kept <==> AtHand(parse, isIp, cfg, fs, t))
            && (|Firsts(vs)| <= cfg.max ==>
                  (t in kept <==> exists l :: l in lines && Passed(parse, cfg, isIp, l, t)))
  {
    var vs := Judged(parse, isIp, cfg, LinesAtHand(cfg, fs));
    CapMembers(Firsts(vs), cfg.max, t);
    AcceptedPassedOne(parse, isIp, cfg, LinesAtHand(cfg, fs), t);
  }

  lemma CapMembers(xs: seq<string>, max: nat, t: string)
    ensures t in Cap(xs, max) <==> exists k: nat :: k < max && k < |xs| && xs[k] == t
    ensures |xs| <= max ==> Cap(xs, max) == xs
  {
    var c := Cap(xs, max);
    assert forall k :: 0 <= k < |c| ==> c[k] == xs[k];
    if k: nat :| k < max && k < |xs| && xs[k] == t {
      assert c[k] == t;
    }
  }

  /**
    The promise that one source's outage does not shrink the list holds exactly when no
    other source answers, or every cached tracker can still be had from what did answer.
  */
  lemma OutageShrinksIff(parse: Parser, isIp: string -> bool, cfg: Config, st: Feed, now: int, fs: seq<Fetched>)
    ensures (forall t :: t in st.trackers ==> t in Refresh(parse, isIp, cfg, st, now, fs).trackers)
       <==> || !cfg.enabled || !AnyDelivered(fs)
            || forall t :: t in st.trackers ==> AtHand(parse, isIp, cfg, fs, t)
  {
    if cfg.enabled && AnyDelivered(fs) {
      forall t ensures t in Refresh(parse, isIp, cfg, st, now, fs).trackers <==> AtHand(parse, isIp, cfg, fs, t) {
        RefreshKeepsExactly(parse, isIp, cfg, st, now, fs, t);
      }
    } else if st.trackers != [] && !AnyDelivered(fs) {
      OutageKeepsCache(parse, isIp, cfg, st, now, fs);
    }
  }

  const UDP_ONLY := Config(true, ["udp"], [], [], 10, false, 0)
  const ANSWERS := Fetched(true, None, None, Some(["udp://a"]))
  const FAILS := Fetched(true, None, None, None)
  const ANSWERS_NOTHING := Fetched(true, None, None, Some([]))

  /** A tracker one source lists goes into the cache, and out of it when that source fails while the other answers. */
  lemma OutageDropsTracker(isIp: string -> bool)
    ensures var first := Refresh(SampleParse, isIp, UDP_ONLY, Feed([], None), 0, [ANSWERS, ANSWERS_NOTHING]);
            && first == Feed(["udp://a"], Some(0))
            && Refresh(SampleParse, isIp, UDP_ONLY, first, 1, [FAILS, ANSWERS_NOTHING]) == Feed([], Some(1))
  {
    var fs, fs' := [ANSWERS, ANSWERS_NOTHING], [FAILS, ANSWERS_NOTHING];
    assert ANSWERS in fs && ANSWERS_NOTHING in fs';
    SampleLists();
    SampleLines();
    SampleMerged(isIp);
  }

  lemma SampleLists()
    ensures Lists([ANSWERS, ANSWERS_NOTHING]) == [Source(None, ["udp://a"]), Source(None, [])]
    ensures Lists([FAILS, ANSWERS_NOTHING]) == [Source(None, [])]
  {
    var fs, fs' := [ANSWERS, ANSWERS_NOTHING], [FAILS, ANSWERS_NOTHING];
    assert fs[1..] == [ANSWERS_NOTHING] && fs'[1..] == [ANSWERS_NOTHING] && [ANSWERS_NOTHING][1..] == [];
    assert Lists([ANSWERS_NOTHING]) == [Source(None, [])] + Lists([]);
  }

  lemma SampleLines()
    ensures AllLines(UDP_ONLY, Sources(UDP_ONLY, [Source(None, ["udp://a"]), Source(None, [])]))
         == [Line(["udp"], "udp://a")]
    ensures AllLines(UDP_ONLY, Sources(UDP_ONLY, [Source(None, [])])) == []
  {
    var a, e := Source(None, ["udp://a"]), Source(None, []);
    assert Lower("udp") == "udp";
    assert Allowed(UDP_ONLY, a) == ["udp"] && Allowed(UDP_ONLY, e) == ["udp"];
    assert LinesOf(UDP_ONLY, a) == [Line(["udp"], "udp://a")] && LinesOf(UDP_ONLY, e) == [];
    var three, two := [a, e, e], [e, e];
    assert Sources(UDP_ONLY, [a, e]) == three && Sources(UDP_ONLY, [e]) == two;
    assert three[..2] == [a, e] && [a, e][..1] == [a] && [a][..0] == [];
    assert two[..1] == [e] && [e][..0] == [];
    assert AllLines(UDP_ONLY, [a]) == [] + LinesOf(UDP_ONLY, a);
    assert AllLines(UDP_ONLY, [a, e]) == AllLines(UDP_ONLY, [a]) + [];
    assert AllLines(UDP_ONLY, [e]) == [];
  }

  lemma SampleJudged(isIp: string -> bool)
    ensures Judge(SampleParse, isIp, UDP_ONLY, Line(["udp"], "udp://a")) == Accepted("udp://a")
  {
    SampleNormalized();
    SampleScheme();
    assert !Blocked(SampleParse, "udp://a", []);
  }

  lemma SampleNormalized()
    ensures Normalize(SampleParse, "udp://a") == Some("udp://a")
  {
    SampleIsClean();
    TrimIdentity("udp://a");
  }

  lemma SampleMerged(isIp: string -> bool)
    ensures Firsts(Judged(SampleParse, isIp, UDP_ONLY, [Line(["udp"], "udp://a")])) == ["udp://a"]
    ensures Firsts(Judged(SampleParse, isIp, UDP_ONLY, [])) == []
  {
    SampleJudged(isIp);
    OneFirst("udp://a");
    assert Judged(SampleParse, isIp, UDP_ONLY, [Line(["udp"], "udp://a")]) == [Accepted("udp://a")];
  }

  lemma OneFirst(t: string)
    ensures Firsts([Accepted(t)]) == [t]
  {
    assert [Accepted(t)][..0] == [];
  }

  lemma SampleScheme()
    ensures SchemeOf("udp://a") == "udp"
  {
    var s := "udp://a";
    assert s[1..] == "dp://a" && s[1..][1..] == "p://a" && s[1..][1..][1..] == "://a";
    assert Before("://a", "://") == [];
    assert Before("p://a", "://") == "p";
    assert Before("dp://a", "://") == "dp";
    assert Before(s, "://") == "udp";
    assert Lower("udp") == "udp";
  }

  /** The trackers handed to a public torrent: the list while fresh, then the static ones. */
  function Current(parse: Parser, isIp: string -> bool, cfg: Config, st: Feed, now: int): seq<string>
  {
    if !cfg.enabled then []
    else if st.updatedAt.Some? && now - st.updatedAt.value <= cfg.staleAfter then st.trackers
    else MergeOf(parse, isIp, cfg, []).trackers
  }

  /** No duplicates, within the cap, everything canonical and unblocked. */
  ghost predicate IsClean(parse: Parser, cfg: Config, c: seq<string>)
  {
    && |c| <= cfg.max
    && (forall i, j :: 0 <= i < j < |c| ==> c[i] != c[j])
    && (forall t :: t in c ==> Normalize(parse, t) == Some(t) && !Blocked(parse, t, cfg.block))
  }

  lemma MergedIsClean(parse: Parser, isIp: string -> bool, cfg: Config, lists: seq<Source>)
    requires Lawful(parse)
    ensures IsClean(parse, cfg, MergeOf(parse, isIp, cfg, lists).trackers)
  {
    MergeGuarantees(parse, isIp, cfg, lists);
  }

  /** One refresh: when it happened and what the sources returned. */
  datatype Round = Round(at: int, fetched: seq<Fetched>)

  /** The feed after a series of refreshes, whatever cache it was loaded from. */
  function FeedAfter(parse: Parser, isIp: string -> bool, cfg: Config, st: Feed, rounds: seq<Round>): Feed
  {
    if rounds == [] then st
    else
      var last := rounds[|rounds| - 1];
      Refresh(parse, isIp, cfg, FeedAfter(parse, isIp, cfg, st, rounds[..|rounds| - 1]), last.at, last.fetched)
  }

  /**
    The list is clean exactly when the cache it started from was, or some refresh has
    replaced it since.
  */
  lemma {:induction false} FeedCleanIff(parse: Parser, isIp: string -> bool, cfg: Config, st: Feed, rounds: seq<Round>)
    requires Lawful(parse)
    ensures IsClean(parse, cfg, FeedAfter(parse, isIp, cfg, st, rounds).trackers)
       <==> IsClean(parse, cfg, st.trackers) || (cfg.enabled && exists r :: r in rounds && AnyDelivered(r.fetched))
  {
    if rounds != [] {
      var init, last := rounds[..|rounds| - 1], rounds[|rounds| - 1];
      assert rounds == init + [last];
      FeedCleanIff(parse, isIp, cfg, st, init);
      MergedIsClean(parse, isIp, cfg, Lists(last.fetched));
      assert (exists r :: r in rounds && AnyDelivered(r.fetched))
        <==> AnyDelivered(last.fetched) || exists r :: r in init && AnyDelivered(r.fetched) by {
        assert last in rounds && forall r :: r in init ==> r in rounds;
      }
      assert IsClean(parse, cfg, []);
    }
  }

  predicate Stale(cfg: Config, st: Feed, now: int)
  {
    st.updatedAt.None? || now - st.updatedAt.value > cfg.staleAfter
  }

  /**
    Whatever is handed out is clean, exactly unless an unclean cached list is still fresh
    and no refresh has replaced it.
  */
  lemma CurrentIsClean(parse: Parser, isIp: string -> bool, cfg: Config, st: Feed, rounds: seq<Round>, now: int)
    requires Lawful(parse)
    ensures var feed := FeedAfter(parse, isIp, cfg, st, rounds);
            IsClean(parse, cfg, Current(parse, isIp, cfg, feed, now))
            <==> || !cfg.enabled || Stale(cfg, feed, now) || IsClean(parse, cfg, st.trackers)
                 || exists r :: r in rounds && AnyDelivered(r.fetched)
  {
    FeedCleanIff(parse, isIp, cfg, st, rounds);
    MergedIsClean(parse, isIp, cfg, []);
    assert IsClean(parse, cfg, []);
  }

  /** Every static entry with the schemes allowed for it. */
  function StaticLines(cfg: Config): seq<Line>
  {
    AllLines(cfg, Sources(cfg, []))
  }

  ghost predicate NonePasses(parse: Parser, isIp: string -> bool, cfg: Config, lines: seq<Line>)
  {
    forall l, t :: l in lines ==> !Passed(parse, cfg, isIp, l, t)
  }

  lemma NothingKeptIff(parse: Parser, isIp: string -> bool, cfg: Config, lines: seq<Line>)
    ensures Firsts(Judged(parse, isIp, cfg, lines)) == [] <==> NonePasses(parse, isIp, cfg, lines)
  {
    var firsts := Firsts(Judged(parse, isIp, cfg, lines));
    if firsts != [] {
      assert firsts[0] in firsts;
      var i := AcceptedFrom(parse, isIp, cfg, lines, firsts[0]);
      assert lines[i] in lines;
    }
    if l, t :| l in lines && Passed(parse, cfg, isIp, l, t) {
      var i :| 0 <= i < |lines| && lines[i] == l;
      PassedKept(parse, isIp, cfg, lines, i, t);
    }
  }

  /**
    Of a stale feed nothing is handed out exactly when the cap is zero or no static entry
    passes the filters.
  */
  lemma StaleIsEmptyIff(parse: Parser, isIp: string -> bool, cfg: Config, st: Feed, now: int)
    requires cfg.enabled && Stale(cfg, st, now)
    ensures Current(parse, isIp, cfg, st, now) == []
       <==> cfg.max == 0 || NonePasses(parse, isIp, cfg, StaticLines(cfg))
  {
    NothingKeptIff(parse, isIp, cfg, StaticLines(cfg));
    CapEmpty(Firsts(Judged(parse, isIp, cfg, StaticLines(cfg))), cfg.max);
  }

  lemma CapEmpty(xs: seq<string>, max: nat)
    ensures Cap(xs, max) == [] <==> max == 0 || xs == []
  {
  }

  const WITH_STATIC := UDP_ONLY.(add := ["udp://a"])

  /** A feed that was never fetched, and so is stale, hands out its static entry. */
  lemma StaleHandsOutStatic(isIp: string -> bool)
    ensures Stale(WITH_STATIC, Feed([], None), 0)
    ensures Current(SampleParse, isIp, WITH_STATIC, Feed([], None), 0) == ["udp://a"]
  {
    var src := Source(None, ["udp://a"]);
    assert Lower("udp") == "udp" && Allowed(WITH_STATIC, src) == ["udp"];
    assert Sources(WITH_STATIC, []) == [src] && [src][..0] == [];
    assert LinesOf(WITH_STATIC, src) == [Line(["udp"], "udp://a")];
    assert StaticLines(WITH_STATIC) == [] + LinesOf(WITH_STATIC, src);
    SampleMerged(isIp);
    assert Judged(SampleParse, isIp, WITH_STATIC, [Line(["udp"], "udp://a")])
        == Judged(SampleParse, isIp, UDP_ONLY, [Line(["udp"], "udp://a")]);
  }
}
