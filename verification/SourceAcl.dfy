/**
  Who a request comes from: the walk over the forwarded-for header behind trusted proxies.
  The library's address parsers are parameters.
*/
module SourceAcl {
  import opened Text
  import opened Wrappers

  /** An address of either family as the number its 32 or 128 bits form. */
  datatype Ip = V4(bits: nat) | V6(bits: nat)

  /** A range: the addresses of the family that share the first `prefix` bits. */
  datatype Net = Net(base: Ip, prefix: nat)

  datatype Acl = Acl(allow: seq<Net>, proxies: seq<Net>)

  const MAPPED_BASE: nat := 0xFFFF_0000_0000
  const V4_COUNT: nat := 0x1_0000_0000

  /** The IPv4 address inside an IPv4-mapped IPv6 one. */
  function Unmap(ip: Ip): Ip
  {
    if ip.V6? && MAPPED_BASE <= ip.bits < MAPPED_BASE + V4_COUNT then V4(ip.bits - MAPPED_BASE) else ip
  }

  /** `a` without its last `n` bits. */
  function Shift(a: nat, n: nat): nat
    decreases n
  {
    if n == 0 then a else Shift(a / 2, n - 1)
  }

  function WidthOf(v4: bool): nat
  {
    if v4 then 32 else 128
  }

  predicate InNet(n: Net, ip: Ip)
  {
    var width := WidthOf(ip.V4?);
    && n.base.V4? == ip.V4?
    && n.prefix <= width
    && Shift(n.base.bits, width - n.prefix) == Shift(ip.bits, width - n.prefix)
  }

  predicate InAny(nets: seq<Net>, ip: Ip)
  {
    exists n :: n in nets && InNet(n, ip)
  }

  predicate Allows(acl: Acl, ip: Ip)
  {
    InAny(acl.allow, Unmap(ip))
  }

  predicate IsProxy(acl: Acl, ip: Ip)
  {
    InAny(acl.proxies, Unmap(ip))
  }

  // ---- one hop ---------------------------------------------------------------------------

  /** The library's parsers: an address, an address with a port, a bare IPv6 address. */
  datatype Parsers = Parsers(ip: string -> Option<Ip>, socket: string -> Option<Ip>, v6: string -> Option<Ip>)

  /** The first position from `i` on without one of these characters. */
  function SkipFrom(s: string, cs: set<char>, i: nat): (j: nat)
    requires i <= |s|
    ensures i <= j <= |s|
    decreases |s| - i
  {
    if i < |s| && s[i] in cs then SkipFrom(s, cs, i + 1) else i
  }

  /** The last position up to `i` with none of these characters just before it. */
  function SkipBefore(s: string, cs: set<char>, i: nat): (j: nat)
    requires i <= |s|
    ensures j <= i
  {
    if i > 0 && s[i - 1] in cs then SkipBefore(s, cs, i - 1) else i
  }

  /** The text without these characters at its ends. */
  function TrimOf(s: string, cs: set<char>): string
  {
    var t := s[SkipFrom(s, cs, 0)..];
    t[..SkipBefore(t, cs, |t|)]
  }

  function ParseHop(ps: Parsers, hop: string): Option<Ip>
  {
    if ps.ip(hop).Some? then ps.ip(hop)
    else if ps.socket(hop).Some? then ps.socket(hop)
    else ps.v6(TrimOf(hop, {'[', ']'}))
  }

  function HopAddress(ps: Parsers, hop: string): Option<Ip>
  {
    ParseHop(ps, TrimOf(Trim(hop), {'"'}))
  }

  /** The client a hop names: an address that is not a trusted proxy's. */
  function Named(ps: Parsers, acl: Acl, hop: string): Option<Ip>
  {
    var a := HopAddress(ps, hop);
    if a.Some? && !IsProxy(acl, a.value) then a else None
  }

  /** What each hop of a header names, left to right. */
  function NamedBy(ps: Parsers, acl: Acl, header: string): (r: seq<Option<Ip>>)
  {
    NamedIn(ps, acl, Split(header, ','))
  }

  function NamedIn(ps: Parsers, acl: Acl, hops: seq<string>): (r: seq<Option<Ip>>)
    ensures |r| == |hops| && forall i :: 0 <= i < |hops| ==> r[i] == Named(ps, acl, hops[i])
  {
    seq(|hops|, i requires 0 <= i < |hops| => Named(ps, acl, hops[i]))
  }

  // ---- what a hop may look like --------------------------------------------------------------

  /** Text that neither white space nor quotes surround. */
  predicate IsBare(h: string)
  {
    h != [] && (!IsWhite(h[0]) && !IsWhite(h[|h| - 1]) && h[0] != '"' && h[|h| - 1] != '"')
  }

  lemma TrimOfNothing(h: string, cs: set<char>)
    requires h != [] && h[0] !in cs && h[|h| - 1] !in cs
    ensures TrimOf(h, cs) == h
  {
    assert h[0..] == h && h[..|h|] == h;
  }

  lemma BareTrims(h: string)
    requires IsBare(h)
    ensures Trim(h) == h && TrimOf(h, {'"'}) == h
  {
    TrimIdentity(h);
    TrimOfNothing(h, {'"'});
  }

  /** One such character on each side is taken off. */
  lemma TrimOfOneEach(a: char, h: string, b: char, cs: set<char>)
    requires a in cs && b in cs && h != [] && h[0] !in cs && h[|h| - 1] !in cs
    ensures TrimOf([a] + h + [b], cs) == h
  {
    var s := [a] + h + [b];
    assert s[1] == h[0];
    assert SkipFrom(s, cs, 0) == SkipFrom(s, cs, 1) == 1;
    var t := s[1..];
    assert t == h + [b] && t[|h| - 1] == h[|h| - 1];
    assert SkipBefore(t, cs, |t|) == SkipBefore(t, cs, |h|) == |h|;
  }

  lemma QuotesTrim(h: string)
    requires IsBare(h)
    ensures Trim("\"" + h + "\"") == "\"" + h + "\"" && TrimOf("\"" + h + "\"", {'"'}) == h
  {
    TrimIdentity("\"" + h + "\"");
    TrimOfOneEach('"', h, '"', {'"'});
  }

  /** What a hop says once white space and quotes around it are gone. */
  lemma HopSays(ps: Parsers, hop: string, h: string)
    requires TrimOf(Trim(hop), {'"'}) == h
    ensures HopAddress(ps, hop) == ParseHop(ps, h)
  {
  }

  /** A space in front, or quotes around it, make no difference to what a hop says. */
  lemma SurroundedHop(ps: Parsers, h: string)
    requires IsBare(h)
    ensures HopAddress(ps, h) == ParseHop(ps, h)
    ensures HopAddress(ps, " " + h) == ParseHop(ps, h)
    ensures HopAddress(ps, "\"" + h + "\"") == ParseHop(ps, h)
    ensures HopAddress(ps, " " + ("\"" + h + "\"")) == ParseHop(ps, h)
  {
    var q := "\"" + h + "\"";
    BareTrims(h);
    QuotesTrim(h);
    LeadingSpaceTrims(h);
    LeadingSpaceTrims(q);
    HopSays(ps, h, h);
    HopSays(ps, " " + h, h);
    HopSays(ps, q, h);
    HopSays(ps, " " + q, h);
  }

  // ---- the walk ----------------------------------------------------------------------------

  /** The last one there is. */
  function Last(xs: seq<Option<Ip>>): Option<Ip>
  {
    if xs == [] then None
    else if xs[|xs| - 1].Some? then xs[|xs| - 1]
    else Last(xs[..|xs| - 1])
  }

  /** The client's address, given the peer's and the header. */
  function ClientOf(ps: Parsers, acl: Acl, peer: Ip, header: Option<string>): Ip
  {
    if !IsProxy(acl, peer) || header.None? then Unmap(peer)
    else
      var c := Last(NamedBy(ps, acl, header.value));
      Unmap(if c.Some? then c.value else peer)
  }

  lemma LastStep(xs: seq<Option<Ip>>, i: nat)
    requires i < |xs|
    ensures Last(xs[..i + 1]) == if xs[i].Some? then xs[i] else Last(xs[..i])
  {
    assert xs[..i + 1][..i] == xs[..i];
  }

  method ClientIp(ps: Parsers, acl: Acl, peer: Ip, header: Option<string>) returns (client: Ip)
    ensures client == ClientOf(ps, acl, peer, header)
  {
    if !IsProxy(acl, peer) {
      return Unmap(peer);
    }
    if header.None? {
      return Unmap(peer);
    }
    var hops := Split(header.value, ',');
    ghost var named := NamedBy(ps, acl, header.value);
    var i := |hops|;
    assert named[..i] == named;
    while i > 0
      invariant 0 <= i <= |hops|
      invariant Last(named) == Last(named[..i])
    {
      i := i - 1;
      LastStep(named, i);
      var ip := HopAddress(ps, hops[i]);
      assert named[i] == Named(ps, acl, hops[i]);
      if ip.Some? && !IsProxy(acl, ip.value) {
        return Unmap(ip.value);
      }
    }
    client := Unmap(peer);
  }

  // ---- what the walk guarantees --------------------------------------------------------------

  ghost predicate AllNone(xs: seq<Option<Ip>>)
  {
    forall i :: 0 <= i < |xs| ==> xs[i].None?
  }

  /** Position `i` is the rightmost one with a value. */
  ghost predicate Rightmost(xs: seq<Option<Ip>>, i: nat)
  {
    i < |xs| && xs[i].Some? && forall j :: i < j < |xs| ==> xs[j].None?
  }

  lemma {:induction false} LastIsRightmost(xs: seq<Option<Ip>>)
    ensures AllNone(xs) <==> Last(xs) == None
    ensures forall i: nat :: Rightmost(xs, i) ==> Last(xs) == xs[i]
    ensures Last(xs).Some? ==> Last(xs) in xs
  {
    if xs != [] && xs[|xs| - 1].None? {
      LastIsRightmost(xs[..|xs| - 1]);
      assert forall i: nat :: Rightmost(xs, i) ==> Rightmost(xs[..|xs| - 1], i);
    }
  }

  /**
    The client is the peer unless that is a trusted proxy; behind one it is the rightmost hop
    that names an address outside the trusted ranges, or the peer when there is none; always
    in IPv4 form where there is one.
  */
  lemma ClientIsRightmostUntrusted(ps: Parsers, acl: Acl, peer: Ip, header: string)
    ensures var c := ClientOf(ps, acl, peer, Some(header));
            var named := NamedBy(ps, acl, header);
            && Unmap(c) == c
            && (!IsProxy(acl, peer) || AllNone(named) ==> c == Unmap(peer))
            && (IsProxy(acl, peer) ==> forall i: nat :: Rightmost(named, i) ==> c == Unmap(named[i].value))
            && (IsProxy(acl, c) <==> IsProxy(acl, peer) && AllNone(named))
  {
    if IsProxy(acl, peer) {
      ClientBehindProxy(ps, acl, peer, header);
    } else {
      UntrustedPeerIgnoresHeader(ps, acl, peer, Some(header));
    }
  }

  lemma ClientBehindProxy(ps: Parsers, acl: Acl, peer: Ip, header: string)
    requires IsProxy(acl, peer)
    ensures var c := ClientOf(ps, acl, peer, Some(header));
            var named := NamedBy(ps, acl, header);
            && Unmap(c) == c
            && (forall i: nat :: Rightmost(named, i) ==> c == Unmap(named[i].value))
            && (AllNone(named) ==> c == Unmap(peer))
            && (AllNone(named) <==> IsProxy(acl, c))
  {
    var named := NamedBy(ps, acl, header);
    var last := Last(named);
    LastIsRightmost(named);
    NamedUntrusted(ps, acl, header);
    var c := if last.Some? then last.value else peer;
    UnmapTwice(c);
    assert IsProxy(acl, Unmap(c)) <==> IsProxy(acl, c);
  }

  lemma NamedUntrusted(ps: Parsers, acl: Acl, header: string)
    ensures forall x :: x in NamedBy(ps, acl, header) && x.Some? ==> !IsProxy(acl, x.value)
  {
  }

  lemma {:induction false} LastAppend(a: seq<Option<Ip>>, b: seq<Option<Ip>>)
    ensures Last(a + b) == if AllNone(b) then Last(a) else Last(b)
  {
    if b == [] {
      assert a + b == a;
    } else {
      var n := |b| - 1;
      assert (a + b)[..|a| + n] == a + b[..n];
      if b[n].None? {
        LastAppend(a, b[..n]);
        assert AllNone(b) <==> AllNone(b[..n]);
      }
    }
  }

  lemma NamedByFront(ps: Parsers, acl: Acl, front: string, header: string)
    ensures NamedBy(ps, acl, front + "," + header) == NamedBy(ps, acl, front) + NamedBy(ps, acl, header)
  {
    SplitAppend(front, ',', header);
  }

  /**
    Hops put in front of a header that already names a client never change the result; when
    the header names nobody, the result is the one for the front part alone.
  */
  lemma FrontMattersIff(ps: Parsers, acl: Acl, peer: Ip, front: string, header: string)
    ensures ClientOf(ps, acl, peer, Some(front + "," + header))
         == if AllNone(NamedBy(ps, acl, header)) then ClientOf(ps, acl, peer, Some(front))
            else ClientOf(ps, acl, peer, Some(header))
  {
    NamedByFront(ps, acl, front, header);
    LastAppend(NamedBy(ps, acl, front), NamedBy(ps, acl, header));
  }

  /** The text is this one, perhaps in quotes, perhaps with a space in front. */
  predicate IsSurrounded(hop: string, h: string)
  {
    hop == h || hop == " " + h || hop == "\"" + h + "\"" || hop == " " + ("\"" + h + "\"")
  }

  /** The text is one hop and says this address, bare, with a port, or in brackets. */
  ghost predicate Says(ps: Parsers, hop: string, a: Ip)
  {
    exists h :: IsBare(h) && Lacks(h, ',') && IsSurrounded(hop, h) && IsForm(ps, h, a)
  }

  ghost predicate IsForm(ps: Parsers, h: string, a: Ip)
  {
    || ps.ip(h) == Some(a)
    || (ps.ip(h).None? && ps.socket(h) == Some(a))
    || (ps.ip(h).None? && ps.socket(h).None?
        && exists x :: IsInBrackets(h, x) && ps.v6(x) == Some(a))
  }

  predicate IsInBrackets(h: string, x: string)
  {
    x != [] && x[0] !in {'[', ']'} && x[|x| - 1] !in {'[', ']'} && h == "[" + x + "]"
  }

  lemma FormIsRead(ps: Parsers, h: string, a: Ip)
    requires IsForm(ps, h, a)
    ensures ParseHop(ps, h) == Some(a)
  {
    if ps.ip(h).None? && ps.socket(h).None? {
      var x :| IsInBrackets(h, x) && ps.v6(x) == Some(a);
      TrimOfOneEach('[', x, ']', {'[', ']'});
    }
  }

  lemma SurroundedLacksComma(hop: string, h: string)
    requires IsSurrounded(hop, h) && Lacks(h, ',')
    ensures Lacks(hop, ',')
  {
  }

  lemma SaysIsRead(ps: Parsers, hop: string, a: Ip)
    requires Says(ps, hop, a)
    ensures HopAddress(ps, hop) == Some(a) && Lacks(hop, ',')
  {
    var h :| IsBare(h) && Lacks(h, ',') && IsSurrounded(hop, h) && IsForm(ps, h, a);
    SurroundedHop(ps, h);
    FormIsRead(ps, h, a);
    SurroundedLacksComma(hop, h);
  }

  /**
    Behind a trusted peer, the last hop of a header decides when it says an address outside
    the trusted ranges, with a space after the comma, in quotes, with a port or in brackets,
    whatever stands before it.
  */
  lemma LastHopDecides(ps: Parsers, acl: Acl, peer: Ip, sent: string, hop: string, a: Ip)
    requires IsProxy(acl, peer) && Says(ps, hop, a) && !IsProxy(acl, a)
    ensures ClientOf(ps, acl, peer, Some(sent + "," + hop)) == Unmap(a)
    ensures ClientOf(ps, acl, peer, Some(hop)) == Unmap(a)
  {
    SaysIsRead(ps, hop, a);
    SplitOne(hop, ',');
    var named := NamedBy(ps, acl, hop);
    assert named[0] == Some(a);
    FrontMattersIff(ps, acl, peer, sent, hop);
    LastIsRightmost(named);
    assert Rightmost(named, 0);
  }

  /** A last hop that says a trusted proxy's address is passed over. */
  lemma ProxyHopIsPassed(ps: Parsers, acl: Acl, peer: Ip, sent: string, hop: string, a: Ip)
    requires Says(ps, hop, a) && IsProxy(acl, a)
    ensures ClientOf(ps, acl, peer, Some(sent + "," + hop)) == ClientOf(ps, acl, peer, Some(sent))
  {
    SaysIsRead(ps, hop, a);
    SplitOne(hop, ',');
    FrontMattersIff(ps, acl, peer, sent, hop);
  }

  /**
    Without a header, or with nothing in it that reads as an address, the client is the peer;
    such a hop is passed over.
  */
  lemma NothingReadMeansPeer(ps: Parsers, acl: Acl, peer: Ip, sent: string, hop: string)
    requires HopAddress(ps, hop).None? && Lacks(hop, ',')
    ensures ClientOf(ps, acl, peer, None) == Unmap(peer)
    ensures ClientOf(ps, acl, peer, Some(hop)) == Unmap(peer)
    ensures ClientOf(ps, acl, peer, Some(sent + "," + hop)) == ClientOf(ps, acl, peer, Some(sent))
  {
    SplitOne(hop, ',');
    LastIsRightmost(NamedBy(ps, acl, hop));
    FrontMattersIff(ps, acl, peer, sent, hop);
  }

  /** From an untrusted peer no header matters. */
  lemma UntrustedPeerIgnoresHeader(ps: Parsers, acl: Acl, peer: Ip, header: Option<string>)
    requires !IsProxy(acl, peer)
    ensures var c := ClientOf(ps, acl, peer, header); c == Unmap(peer) && Unmap(c) == c && !IsProxy(acl, c)
  {
    UnmapTwice(peer);
  }

  lemma UnmapTwice(ip: Ip)
    ensures Unmap(Unmap(ip)) == Unmap(ip)
  {
  }

  /**
    A chain of trusted proxies, each appending the address it was reached from, resolves to
    the client the first of them saw, whatever header that client sent.
  */
  lemma ChainResolves(ps: Parsers, acl: Acl, peer: Ip, sent: string, client: string, proxies: seq<string>)
    requires IsProxy(acl, peer) && Named(ps, acl, client).Some? && Lacks(client, ',')
    requires forall i :: 0 <= i < |proxies| ==> Lacks(proxies[i], ',') && Named(ps, acl, proxies[i]).None?
    ensures ClientOf(ps, acl, peer, Some(sent + "," + Chain(client, proxies))) == Unmap(Named(ps, acl, client).value)
  {
    var h := Chain(client, proxies);
    ChainHops(client, proxies);
    assert Rightmost(NamedBy(ps, acl, h), 0);
    FrontMattersIff(ps, acl, peer, sent, h);
    LastIsRightmost(NamedBy(ps, acl, h));
  }

  function Chain(first: string, more: seq<string>): string
  {
    if more == [] then first else Chain(first, more[..|more| - 1]) + "," + more[|more| - 1]
  }

  lemma {:induction false} ChainHops(first: string, more: seq<string>)
    requires Lacks(first, ',') && forall i :: 0 <= i < |more| ==> Lacks(more[i], ',')
    ensures Split(Chain(first, more), ',') == [first] + more
  {
    if more == [] {
      assert Find(first, ',') == |first|;
    } else {
      var n := |more| - 1;
      ChainHops(first, more[..n]);
      SplitAppend(Chain(first, more[..n]), ',', more[n]);
      assert Find(more[n], ',') == |more[n]|;
      assert more == more[..n] + [more[n]];
    }
  }

  // ---- the ranges ----------------------------------------------------------------------------

  /** An IPv4 client is judged the same whether it arrives in IPv4 or in mapped form. */
  lemma MappedIsTheSame(ps: Parsers, acl: Acl, n: nat, header: Option<string>)
    requires n < V4_COUNT
    ensures Allows(acl, V6(MAPPED_BASE + n)) <==> Allows(acl, V4(n))
    ensures ClientOf(ps, acl, V6(MAPPED_BASE + n), header) == ClientOf(ps, acl, V4(n), header)
  {
  }

  /** The shortcut of the gate: some allowed range has prefix length zero. */
  predicate AllowsEverything(acl: Acl)
  {
    exists n :: n in acl.allow && n.prefix == 0
  }

  /** `q` followed by `n` zero bits. */
  function Grow(q: nat, n: nat): nat
  {
    if n == 0 then q else 2 * Grow(q, n - 1)
  }

  predicate IsAddress(ip: Ip)
  {
    ip.bits < Grow(1, WidthOf(ip.V4?))
  }

  lemma {:induction false} GrowIncreases(p: nat, q: nat, n: nat)
    requires p < q
    ensures Grow(p, n) < Grow(q, n) && Grow(0, n) == 0
  {
    if n > 0 {
      GrowIncreases(p, q, n - 1);
    }
  }

  lemma {:induction false} GrowTwice(q: nat, a: nat, b: nat)
    ensures Grow(q, a + b) == Grow(Grow(q, a), b)
  {
    if b > 0 {
      GrowTwice(q, a, b - 1);
    }
  }

  lemma GrowByteTimes(q: nat)
    ensures Grow(q, 32) == q * V4_COUNT
  {
    GrowByte(q);
    GrowByte(256 * q);
    GrowByte(65536 * q);
    GrowByte(16777216 * q);
    GrowTwice(q, 8, 8);
    GrowTwice(q, 16, 8);
    GrowTwice(q, 24, 8);
  }

  lemma GrowByte(q: nat)
    ensures Grow(q, 8) == 256 * q
  {
    assert Grow(q, 1) == 2 * q;
    assert Grow(q, 2) == 2 * Grow(q, 1);
    assert Grow(q, 3) == 2 * Grow(q, 2);
    assert Grow(q, 4) == 2 * Grow(q, 3);
    assert Grow(q, 5) == 2 * Grow(q, 4);
    assert Grow(q, 6) == 2 * Grow(q, 5);
    assert Grow(q, 7) == 2 * Grow(q, 6);
  }

  lemma {:induction false} ShiftTwice(a: nat, x: nat, y: nat)
    ensures Shift(a, x + y) == Shift(Shift(a, x), y)
    decreases x
  {
    if x > 0 {
      ShiftTwice(a / 2, x - 1, y);
    }
  }

  /** What shifts to `q` is an interval. */
  lemma {:induction false} ShiftRange(a: nat, n: nat, q: nat)
    ensures Shift(a, n) == q <==> Grow(q, n) <= a < Grow(q + 1, n)
    decreases n
  {
    if n > 0 {
      ShiftRange(a / 2, n - 1, q);
    }
  }

  lemma AddressShiftsAway(v4: bool, bits: nat)
    ensures IsAddress(Address(v4, bits)) <==> Shift(bits, WidthOf(v4)) == 0
  {
    ShiftRange(bits, WidthOf(v4), 0);
    GrowIncreases(0, 1, WidthOf(v4));
  }

  // ---- coverage ------------------------------------------------------------------------------

  function Address(v4: bool, bits: nat): Ip
  {
    if v4 then V4(bits) else V6(bits)
  }

  /** The address lies in the block of those whose first `d` bits form `p`. */
  predicate InBlock(v4: bool, bits: nat, p: nat, d: nat)
    requires d <= WidthOf(v4)
  {
    Shift(bits, WidthOf(v4) - d) == p
  }

  /** The range holds the whole block. */
  predicate Holds(n: Net, v4: bool, p: nat, d: nat)
    requires d <= WidthOf(v4)
  {
    && n.base.V4? == v4 && n.prefix <= d
    && Shift(n.base.bits, WidthOf(v4) - n.prefix) == Shift(p, d - n.prefix)
  }

  /** The range is a proper part of the block. */
  predicate Inside(n: Net, v4: bool, p: nat, d: nat)
    requires d <= WidthOf(v4)
  {
    && n.base.V4? == v4 && d < n.prefix <= WidthOf(v4)
    && InBlock(v4, n.base.bits, p, d)
  }

  /**
    Whether the ranges cover a block: one of them holds it, or, as long as some range lies
    inside, both of its halves are covered.
  */
  predicate Covered(nets: seq<Net>, v4: bool, p: nat, d: nat)
    requires d <= WidthOf(v4)
    decreases WidthOf(v4) - d
  {
    || (exists n :: n in nets && Holds(n, v4, p, d))
    || (&& d < WidthOf(v4)
        && (exists n :: n in nets && Inside(n, v4, p, d))
        && Covered(nets, v4, 2 * p, d + 1)
        && Covered(nets, v4, 2 * p + 1, d + 1))
  }

  /** A range that holds the block holds each of its addresses. */
  lemma HoldsAll(n: Net, v4: bool, p: nat, d: nat, bits: nat)
    requires d <= WidthOf(v4) && Holds(n, v4, p, d) && InBlock(v4, bits, p, d)
    ensures InNet(n, Address(v4, bits))
  {
    ShiftTwice(bits, WidthOf(v4) - d, d - n.prefix);
  }

  /** A range with an address of the block holds the block or lies inside it. */
  lemma MeetsBlock(n: Net, v4: bool, p: nat, d: nat, bits: nat)
    requires d <= WidthOf(v4) && InBlock(v4, bits, p, d) && InNet(n, Address(v4, bits))
    ensures Holds(n, v4, p, d) || Inside(n, v4, p, d)
  {
    var width := WidthOf(v4);
    if n.prefix <= d {
      ShiftTwice(bits, width - d, d - n.prefix);
    } else {
      ShiftTwice(bits, width - n.prefix, n.prefix - d);
      ShiftTwice(n.base.bits, width - n.prefix, n.prefix - d);
    }
  }

  /** The halves make up the block. */
  lemma BlockHalves(v4: bool, bits: nat, p: nat, d: nat)
    requires d < WidthOf(v4)
    ensures InBlock(v4, bits, p, d) <==> InBlock(v4, bits, 2 * p, d + 1) || InBlock(v4, bits, 2 * p + 1, d + 1)
  {
    var k := WidthOf(v4) - d - 1;
    ShiftTwice(bits, k, 1);
    var q := Shift(bits, k);
    assert Shift(q, 1) == Shift(q / 2, 0) == q / 2;
  }

  lemma BlockNotEmpty(v4: bool, p: nat, d: nat) returns (bits: nat)
    requires d <= WidthOf(v4)
    ensures InBlock(v4, bits, p, d)
  {
    bits := Grow(p, WidthOf(v4) - d);
    GrowIncreases(p, p + 1, WidthOf(v4) - d);
    ShiftRange(bits, WidthOf(v4) - d, p);
  }

  ghost predicate AllIn(nets: seq<Net>, v4: bool, p: nat, d: nat)
    requires d <= WidthOf(v4)
  {
    forall bits: nat :: InBlock(v4, bits, p, d) ==> InAny(nets, Address(v4, bits))
  }

  lemma AllInHalves(nets: seq<Net>, v4: bool, p: nat, d: nat)
    requires d < WidthOf(v4)
    ensures AllIn(nets, v4, p, d) <==> AllIn(nets, v4, 2 * p, d + 1) && AllIn(nets, v4, 2 * p + 1, d + 1)
  {
    forall bits: nat
      ensures InBlock(v4, bits, p, d) <==> InBlock(v4, bits, 2 * p, d + 1) || InBlock(v4, bits, 2 * p + 1, d + 1)
    {
      BlockHalves(v4, bits, p, d);
    }
  }

  lemma AllInNeedsRange(nets: seq<Net>, v4: bool, p: nat, d: nat)
    requires d <= WidthOf(v4) && AllIn(nets, v4, p, d)
    ensures exists n :: n in nets && (Holds(n, v4, p, d) || Inside(n, v4, p, d))
  {
    var bits := BlockNotEmpty(v4, p, d);
    var n :| n in nets && InNet(n, Address(v4, bits));
    MeetsBlock(n, v4, p, d, bits);
  }

  /** Halving decides coverage exactly. */
  lemma {:induction false} CoveredExactly(nets: seq<Net>, v4: bool, p: nat, d: nat)
    requires d <= WidthOf(v4)
    ensures Covered(nets, v4, p, d) <==> AllIn(nets, v4, p, d)
    decreases WidthOf(v4) - d
  {
    if n :| n in nets && Holds(n, v4, p, d) {
      forall bits: nat | InBlock(v4, bits, p, d) ensures InAny(nets, Address(v4, bits)) {
        HoldsAll(n, v4, p, d, bits);
      }
    } else {
      if AllIn(nets, v4, p, d) {
        AllInNeedsRange(nets, v4, p, d);
      }
      if d < WidthOf(v4) {
        CoveredExactly(nets, v4, 2 * p, d + 1);
        CoveredExactly(nets, v4, 2 * p + 1, d + 1);
        AllInHalves(nets, v4, p, d);
      }
    }
  }

  // ---- the shortcut --------------------------------------------------------------------------

  ghost predicate PermitsAll(acl: Acl)
  {
    forall ip :: IsAddress(ip) ==> Allows(acl, ip)
  }

  const MAPPED := Net(V6(MAPPED_BASE), 96)

  /** Both families are covered; the mapped addresses are judged as IPv4 and count as covered. */
  predicate CoversBoth(nets: seq<Net>)
  {
    Covered(nets, true, 0, 0) && Covered(nets + [MAPPED], false, 0, 0)
  }

  lemma MappedRange(bits: nat)
    ensures InNet(MAPPED, V6(bits)) <==> Unmap(V6(bits)).V4?
  {
    GrowByteTimes(0xFFFF);
    GrowByteTimes(0x1_0000);
    ShiftRange(bits, 32, 0xFFFF);
    ShiftRange(MAPPED_BASE, 32, 0xFFFF);
  }

  lemma UnmapIsAddress(ip: Ip)
    requires IsAddress(ip)
    ensures IsAddress(Unmap(ip))
  {
    GrowByteTimes(1);
  }

  lemma WholeFamily(nets: seq<Net>, v4: bool)
    ensures Covered(nets, v4, 0, 0)
       <==> forall bits: nat :: IsAddress(Address(v4, bits)) ==> InAny(nets, Address(v4, bits))
  {
    CoveredExactly(nets, v4, 0, 0);
    forall bits: nat ensures IsAddress(Address(v4, bits)) <==> InBlock(v4, bits, 0, 0) {
      AddressShiftsAway(v4, bits);
    }
  }

  lemma AnyOrMapped(nets: seq<Net>, bits: nat)
    ensures InAny(nets + [MAPPED], V6(bits)) <==> InAny(nets, V6(bits)) || Unmap(V6(bits)).V4?
  {
    MappedRange(bits);
    if n :| n in nets && InNet(n, V6(bits)) {
      assert n in nets + [MAPPED];
    }
    assert MAPPED in nets + [MAPPED];
  }

  /** The ranges permit every address if and only if they cover both families. */
  lemma PermitsAllIff(acl: Acl)
    ensures PermitsAll(acl) <==> CoversBoth(acl.allow)
  {
    WholeFamily(acl.allow, true);
    WholeFamily(acl.allow + [MAPPED], false);
    if PermitsAll(acl) {
      forall bits: nat | IsAddress(V4(bits)) ensures InAny(acl.allow, V4(bits)) {
        assert Allows(acl, V4(bits));
      }
      forall bits: nat | IsAddress(V6(bits)) ensures InAny(acl.allow + [MAPPED], V6(bits)) {
        assert Allows(acl, V6(bits));
        AnyOrMapped(acl.allow, bits);
      }
    }
    if CoversBoth(acl.allow) {
      forall ip | IsAddress(ip) ensures Allows(acl, ip) {
        UnmapIsAddress(ip);
        assert Unmap(ip) == Address(Unmap(ip).V4?, Unmap(ip).bits);
        if Unmap(ip).V6? {
          AnyOrMapped(acl.allow, ip.bits);
        }
      }
    }
  }

  /** A range holds the addresses of its family that agree with it but for the bits behind its prefix. */
  lemma RangeIsInterval(n: Net, ip: Ip)
    requires n.prefix <= WidthOf(ip.V4?)
    ensures var k := WidthOf(ip.V4?) - n.prefix;
            var q := Shift(n.base.bits, k);
            InNet(n, ip) <==> n.base.V4? == ip.V4? && Grow(q, k) <= ip.bits < Grow(q + 1, k)
  {
    ShiftRange(ip.bits, WidthOf(ip.V4?) - n.prefix, Shift(n.base.bits, WidthOf(ip.V4?) - n.prefix));
  }

  /** 192.168.0.0/16 holds 192.168.1.50 and 192.168.0.0 to 192.168.255.255, and not 192.169.0.0. */
  lemma PrivateRange(bits: nat)
    ensures InNet(Net(V4(0xC0A8_0000), 16), V4(bits)) <==> 0xC0A8_0000 <= bits <= 0xC0A8_FFFF
  {
    var n := Net(V4(0xC0A8_0000), 16);
    GrowTwoBytes(0xC0A8);
    GrowTwoBytes(0xC0A9);
    ShiftRange(0xC0A8_0000, 16, 0xC0A8);
    ShiftRange(bits, 16, 0xC0A8);
  }

  lemma GrowTwoBytes(q: nat)
    ensures Grow(q, 16) == 65536 * q
  {
    GrowByte(q);
    GrowByte(256 * q);
    GrowTwice(q, 8, 8);
  }

  /** In every list, a range of prefix length zero grants its whole family. */
  lemma ZeroRangeGrantsFamily(acl: Acl, n: Net, ip: Ip)
    requires n in acl.allow && n.prefix == 0 && IsAddress(n.base)
    requires IsAddress(ip) && Unmap(ip).V4? == n.base.V4?
    ensures Allows(acl, ip)
  {
    UnmapIsAddress(ip);
    AddressShiftsAway(n.base.V4?, n.base.bits);
    AddressShiftsAway(n.base.V4?, Unmap(ip).bits);
    assert Unmap(ip) == Address(n.base.V4?, Unmap(ip).bits) && n.base == Address(n.base.V4?, n.base.bits);
    assert InNet(n, Unmap(ip));
  }

  /**
    The shortcut is said to be true when every address is permitted. The two agree exactly
    when it is taken just where the ranges cover both families; it implies what it says
    exactly when it is not taken or they do. A range of prefix length zero covers its family.
  */
  lemma ShortcutMatchesRangesIff(acl: Acl)
    ensures (AllowsEverything(acl) <==> PermitsAll(acl)) <==> (AllowsEverything(acl) <==> CoversBoth(acl.allow))
    ensures (AllowsEverything(acl) ==> PermitsAll(acl)) <==> !AllowsEverything(acl) || CoversBoth(acl.allow)
    ensures forall n :: n in acl.allow && n.prefix == 0 && IsAddress(n.base) ==> Covered(acl.allow, n.base.V4?, 0, 0)
  {
    PermitsAllIff(acl);
    forall n | n in acl.allow && n.prefix == 0 && IsAddress(n.base) ensures Covered(acl.allow, n.base.V4?, 0, 0) {
      AddressShiftsAway(n.base.V4?, n.base.bits);
      assert n.base == Address(n.base.V4?, n.base.bits);
      assert Holds(n, n.base.V4?, 0, 0);
    }
  }

  /** The lower and the upper half of a family. */
  function LowerHalf(v4: bool): Net { Net(Address(v4, 0), 1) }

  function UpperHalf(v4: bool): Net { Net(Address(v4, Grow(1, WidthOf(v4) - 1)), 1) }

  lemma HalvesCover(nets: seq<Net>, v4: bool)
    requires LowerHalf(v4) in nets && UpperHalf(v4) in nets
    ensures Covered(nets, v4, 0, 0)
  {
    var k := WidthOf(v4) - 1;
    GrowIncreases(0, 1, k);
    GrowIncreases(1, 2, k);
    ShiftRange(0, k, 0);
    ShiftRange(Grow(1, k), k, 1);
    assert Holds(LowerHalf(v4), v4, 0, 1) && Holds(UpperHalf(v4), v4, 1, 1);
    assert Covered(nets, v4, 2 * 0, 1) && Covered(nets, v4, 2 * 0 + 1, 1);
    BlockHalves(v4, 0, 0, 0);
    assert Inside(LowerHalf(v4), v4, 0, 0);
  }

  /** The halves of both families permit every address, and the shortcut is not taken. */
  lemma ShortcutTooNarrow()
    ensures var acl := Acl([LowerHalf(true), UpperHalf(true), LowerHalf(false), UpperHalf(false)], []);
            PermitsAll(acl) && !AllowsEverything(acl)
  {
    var acl := Acl([LowerHalf(true), UpperHalf(true), LowerHalf(false), UpperHalf(false)], []);
    HalvesCover(acl.allow, true);
    HalvesCover(acl.allow + [MAPPED], false);
    PermitsAllIff(acl);
  }

  lemma {:induction false} GrowFromBelow(q: nat, n: nat)
    ensures q <= Grow(q, n)
  {
    if n > 0 {
      GrowFromBelow(q, n - 1);
    }
  }

  /** A private range, all of IPv4 and the local host: the shortcut is taken, and `::2` is in no range. */
  lemma ShortcutTooWide()
    ensures var acl := Acl([Net(V4(0x0A00_0000), 8), Net(V4(0), 0), Net(V6(1), 128)], []);
            AllowsEverything(acl) && IsAddress(V6(2)) && !Allows(acl, V6(2)) && !CoversBoth(acl.allow)
  {
    var a, b, c := Net(V4(0x0A00_0000), 8), Net(V4(0), 0), Net(V6(1), 128);
    var acl := Acl([a, b, c], []);
    assert b in acl.allow;
    GrowTwice(1, 2, 126);
    assert Grow(1, 2) == 4;
    GrowIncreases(2, 4, 126);
    GrowFromBelow(2, 126);
    assert Unmap(V6(2)) == V6(2);
    assert forall n :: n in acl.allow ==> !InNet(n, V6(2));
    PermitsAllIff(acl);
  }
}
