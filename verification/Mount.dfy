/**
  Which device is mounted where: the kernel's device numbers and its table of mounts.
*/
module Mount {
  import opened Text
  import opened Wrappers

  // ---- device numbers ----------------------------------------------------------------------

  function Major(dev: bv64): bv64
  {
    ((dev >> 8) & 0xfff) | ((dev >> 32) & !(0xfff as bv64))
  }

  function Minor(dev: bv64): bv64
  {
    (dev & 0xff) | ((dev >> 12) & !(0xff as bv64))
  }

  /** The C library's encoding of a major and a minor number of 32 bits each. */
  function MakeDev(major: bv64, minor: bv64): bv64
  {
    ((major & 0xfff) << 8) | ((major & 0xffff_f000) << 32) | (minor & 0xff) | ((minor & 0xffff_ff00) << 12)
  }

  /** The major number is always recovered. */
  lemma MajorInverts(major: bv64, minor: bv64)
    requires major <= 0xffff_ffff && minor <= 0xffff_ffff
    ensures Major(MakeDev(major, minor)) == major
  {
  }

  /** The minor number is recovered exactly when the major number has 12 bits, as the kernel's do. */
  lemma MinorInvertsIff(major: bv64, minor: bv64)
    requires major <= 0xffff_ffff && minor <= 0xffff_ffff
    ensures Minor(MakeDev(major, minor)) == minor <==> major <= 0xfff
  {
  }

  /** Every device number below 2^44 is the encoding of what it decodes to. */
  lemma DecodingLosesNothing(dev: bv64)
    requires dev <= 0xfff_ffff_ffff
    ensures MakeDev(Major(dev), Minor(dev)) == dev && Major(dev) <= 0xfff && Minor(dev) <= 0xffff_ffff
  {
  }

  /** Whether the device behind a path still exists; `node` says which device nodes there are. */
  function DevicePresent(sysfs: bool, node: (bv64, bv64) -> bool, dev: bv64): bool
  {
    Major(dev) == 0 || !sysfs || node(Major(dev), Minor(dev))
  }

  /** The presence test asks about the very device that was encoded. */
  lemma PresenceAsksForDevice(sysfs: bool, node: (bv64, bv64) -> bool, major: bv64, minor: bv64)
    requires major <= 0xfff && minor <= 0xffff_ffff
    ensures DevicePresent(sysfs, node, MakeDev(major, minor)) <==> major == 0 || !sysfs || node(major, minor)
  {
    MajorInverts(major, minor);
    MinorInvertsIff(major, minor);
  }

  // ---- numbers in text ---------------------------------------------------------------------

  function DigitValue(c: char): nat
    requires '0' <= c
  {
    c as nat - '0' as nat
  }

  predicate AllDigits(s: string, radix: nat)
  {
    forall i :: 0 <= i < |s| ==> '0' <= s[i] && DigitValue(s[i]) < radix
  }

  function NumberOf(s: string, radix: nat): nat
    requires AllDigits(s, radix)
  {
    if s == [] then 0 else NumberOf(s[..|s| - 1], radix) * radix + DigitValue(s[|s| - 1])
  }

  /** The standard library's unsigned parser: an optional plus sign, digits, and an upper bound. */
  function ParseNumber(s: string, radix: nat, bound: nat): Option<nat>
  {
    var t := if s != [] && s[0] == '+' then s[1..] else s;
    if t == [] || !AllDigits(t, radix) then None
    else if NumberOf(t, radix) < bound then Some(NumberOf(t, radix))
    else None
  }

  const U64: nat := 0x1_0000_0000_0000_0000

  lemma {:induction false} DecimalReadsBack(n: nat)
    ensures var s := Decimal(n);
            && s != [] && AllDigits(s, 10) && NumberOf(s, 10) == n
            && Lacks(s, ' ') && Lacks(s, ':') && Lacks(s, '\n') && Lacks(s, '+')
  {
    var digit := ['0' + (n % 10) as char];
    assert digit[..0] == [];
    if n >= 10 {
      DecimalReadsBack(n / 10);
      var init := Decimal(n / 10);
      assert (init + digit)[..|init|] == init;
    }
  }

  /** A number that does not fit 64 bits is no device number. */
  lemma WideNumbersAreNone(n: nat)
    requires n >= U64
    ensures ParseNumber(Decimal(n), 10, U64) == None
  {
    DecimalReadsBack(n);
  }

  // ---- escaped paths -----------------------------------------------------------------------

  /** What a backslash and the (up to three) characters after it stand for. */
  function EscapeValue(code: string): string
  {
    match ParseNumber(code, 8, 256)
    case Some(b) => [b as char]
    case None => ['\\'] + code
  }

  function UnescapeOf(s: string): string
    decreases |s|
  {
    if s == [] then [] else Head(s) + UnescapeOf(s[HeadLength(s)..])
  }

  /** How much of the text the first step of unescaping takes in. */
  function HeadLength(s: string): (n: nat)
    requires s != []
    ensures 1 <= n <= |s|
  {
    if s[0] != '\\' then 1 else if |s| < 4 then |s| else 4
  }

  function Head(s: string): string
    requires s != []
  {
    if s[0] != '\\' then [s[0]] else EscapeValue(s[1..HeadLength(s)])
  }

  method Unescape(f: string) returns (out: string)
    ensures out == UnescapeOf(f)
  {
    out := [];
    var i := 0;
    assert f[0..] == f;
    while i < |f|
      invariant 0 <= i <= |f|
      invariant UnescapeOf(f) == out + UnescapeOf(f[i..])
    {
      StepAt(f, i, out);
      var c := f[i];
      i := i + 1;
      if c == '\\' {
        var n := if |f| - i < 3 then |f| else i + 3;
        out := out + EscapeValue(f[i..n]);
        i := n;
      } else {
        out := out + [c];
      }
    }
  }

  lemma StepAt(f: string, i: nat, out: string)
    requires i < |f|
    ensures f[i] != '\\' ==> out + UnescapeOf(f[i..]) == out + [f[i]] + UnescapeOf(f[i + 1..])
    ensures f[i] == '\\' ==>
              var n := if |f| - (i + 1) < 3 then |f| else i + 4;
              out + UnescapeOf(f[i..]) == out + EscapeValue(f[i + 1..n]) + UnescapeOf(f[n..])
  {
    var s := f[i..];
    var k := HeadLength(s);
    TwoSlices(f, i, k);
    Assoc(out, Head(s), UnescapeOf(s[k..]));
  }

  lemma TwoSlices(f: string, i: nat, k: nat)
    requires 1 <= k && i + k <= |f|
    ensures f[i..][k..] == f[i + k..] && f[i..][1..k] == f[i + 1..i + k]
  {
  }

  /** A backslash without an octal number of at most 255 behind it stays, with what follows it. */
  lemma OtherBackslashesStay(code: string, rest: string)
    requires |code| == 3 && ParseNumber(code, 8, 256).None?
    ensures UnescapeOf("\\" + code + rest) == "\\" + code + UnescapeOf(rest)
  {
    var s := "\\" + code + rest;
    assert s[1..4] == code && s[4..] == rest;
  }

  lemma NoOctalNumbers()
    ensures ParseNumber("089", 8, 256).None? && ParseNumber("777", 8, 256).None? && ParseNumber("", 8, 256).None?
    ensures ParseNumber("377", 8, 256) == Some(255) && ParseNumber("+377", 8, 256) == Some(255)
  {
    assert "+377"[1..] == "377" && DigitValue("089"[1]) == 8;
    OctalValues();
  }

  lemma OctalValues()
    ensures NumberOf("777", 8) == 511 && NumberOf("377", 8) == 255
  {
    assert "777"[..2] == "77" && "77"[..1] == "7" && "7"[..0] == "";
    assert "377"[..2] == "37" && "37"[..1] == "3" && "3"[..0] == "";
    assert NumberOf("7", 8) == 7 && NumberOf("77", 8) == 63 && NumberOf("777", 8) == 511;
    assert NumberOf("3", 8) == 3 && NumberOf("37", 8) == 31 && NumberOf("377", 8) == 255;
  }

  /** Which characters the kernel escapes in the table. */
  type Escaped = char -> bool

  ghost predicate KernelEscapes(esc: Escaped)
  {
    esc('\\') && esc(' ') && esc('\n') && esc('\t') && forall c :: esc(c) ==> c as int < 128
  }

  function OctalOf(c: char): string
    requires c as int < 256
  {
    ['0' + (c as int / 64) as char, '0' + (c as int / 8 % 8) as char, '0' + (c as int % 8) as char]
  }

  function KernelEscapeOne(esc: Escaped, c: char): string
    requires KernelEscapes(esc)
  {
    if esc(c) then ['\\'] + OctalOf(c) else [c]
  }

  function KernelEscape(esc: Escaped, s: string): string
    requires KernelEscapes(esc)
  {
    if s == [] then [] else KernelEscapeOne(esc, s[0]) + KernelEscape(esc, s[1..])
  }

  lemma OctalDigits(n: nat)
    requires n < 256
    ensures (n / 64 * 8 + n / 8 % 8) * 8 + n % 8 == n
  {
    assert n / 8 == n / 64 * 8 + n / 8 % 8;
  }

  lemma OctalReadsBack(c: char)
    requires c as int < 256
    ensures EscapeValue(OctalOf(c)) == [c]
  {
    var s := OctalOf(c);
    var a, b, d := c as int / 64, c as int / 8 % 8, c as int % 8;
    assert s[..2][..1] == s[..1] && s[..1][..0] == [] && NumberOf([], 8) == 0;
    assert NumberOf(s[..1], 8) == a;
    assert NumberOf(s[..2], 8) == a * 8 + b;
    assert NumberOf(s, 8) == (a * 8 + b) * 8 + d;
    OctalDigits(c as int);
  }

  lemma UnescapeOne(esc: Escaped, c: char, rest: string)
    requires KernelEscapes(esc)
    ensures UnescapeOf(KernelEscapeOne(esc, c) + rest) == [c] + UnescapeOf(rest)
  {
    var e := KernelEscapeOne(esc, c);
    var s := e + rest;
    assert s[|e|..] == rest;
    if esc(c) {
      OctalReadsBack(c);
      assert s[1..4] == OctalOf(c);
    }
  }

  /** Reading an escaped path gives the path back, whatever it contains. */
  lemma {:induction false} UnescapeInvertsKernel(esc: Escaped, s: string)
    requires KernelEscapes(esc)
    ensures UnescapeOf(KernelEscape(esc, s)) == s
  {
    if s != [] {
      UnescapeOne(esc, s[0], KernelEscape(esc, s[1..]));
      UnescapeInvertsKernel(esc, s[1..]);
    }
  }

  /** An escaped path is one field of one line. */
  lemma {:induction false} EscapedIsOneField(esc: Escaped, s: string)
    requires KernelEscapes(esc)
    ensures Lacks(KernelEscape(esc, s), ' ') && Lacks(KernelEscape(esc, s), '\n')
  {
    if s != [] {
      EscapedIsOneField(esc, s[1..]);
    }
  }

  // ---- the table of mounts -----------------------------------------------------------------

  datatype Device = Device(major: nat, minor: nat)

  /** Whether two texts are the same path, as the standard library compares paths. */
  type SamePath = (string, string) -> bool

  /** The device of one line, when the line is for the path and well formed. */
  function LineDevice(same: SamePath, path: string, line: string): Option<Device>
  {
    var f := Split(line, ' ');
    if |f| <= 2 then None
    else
      var i := Find(f[2], ':');
      if i == |f[2]| || |f| <= 4 || !same(UnescapeOf(f[4]), path) then None
      else
        var major := ParseNumber(f[2][..i], 10, U64);
        var minor := ParseNumber(f[2][i + 1..], 10, U64);
        if major.Some? && minor.Some? then Some(Device(major.value, minor.value)) else None
  }

  /** The device of the last line that has one. */
  function LastDevice(same: SamePath, path: string, lines: seq<string>): Option<Device>
  {
    if lines == [] then None
    else
      var n := |lines| - 1;
      var d := LineDevice(same, path, lines[n]);
      if d.Some? then d else LastDevice(same, path, lines[..n])
  }

  function MountedDevice(same: SamePath, mountinfo: string, path: string): Option<Device>
  {
    LastDevice(same, path, Lines(mountinfo))
  }

  /** A row of the kernel's table; `tail` is what follows the mount point on the line. */
  datatype Mounted = Mounted(id: nat, parent: nat, device: Device, root: string, point: string, tail: string)

  ghost predicate Printable(m: Mounted)
  {
    m.device.major < U64 && m.device.minor < U64 && Lacks(m.tail, '\n') && m.tail != [] && m.tail[|m.tail| - 1] != '\r'
  }

  /** The fields of a row up to the mount point. */
  function Fields(esc: Escaped, m: Mounted): seq<string>
    requires KernelEscapes(esc)
  {
    [Decimal(m.id), Decimal(m.parent), DeviceText(m.device), KernelEscape(esc, m.root), KernelEscape(esc, m.point)]
  }

  function Spaced(fields: seq<string>, tail: string): string
  {
    if fields == [] then tail else fields[0] + " " + Spaced(fields[1..], tail)
  }

  function Row(esc: Escaped, m: Mounted): string
    requires KernelEscapes(esc)
  {
    Spaced(Fields(esc, m), m.tail)
  }

  function Table(esc: Escaped, ms: seq<Mounted>): string
    requires KernelEscapes(esc)
  {
    if ms == [] then [] else Row(esc, ms[0]) + "\n" + Table(esc, ms[1..])
  }

  /** The topmost mount at the path: the last row for it. */
  function Topmost(same: SamePath, path: string, ms: seq<Mounted>): Option<Device>
  {
    if ms == [] then None
    else if same(ms[|ms| - 1].point, path) then Some(ms[|ms| - 1].device)
    else Topmost(same, path, ms[..|ms| - 1])
  }

  lemma NumberReadsBack(n: nat)
    requires n < U64
    ensures ParseNumber(Decimal(n), 10, U64) == Some(n)
  {
    DecimalReadsBack(n);
  }

  function DeviceText(d: Device): string
  {
    Decimal(d.major) + ":" + Decimal(d.minor)
  }

  lemma DeviceTextShape(d: Device)
    ensures var t := DeviceText(d);
            && Lacks(t, ' ') && Lacks(t, '\n') && Find(t, ':') == |Decimal(d.major)| < |t|
            && t[..|Decimal(d.major)|] == Decimal(d.major) && t[|Decimal(d.major)| + 1..] == Decimal(d.minor)
  {
    DecimalReadsBack(d.major);
    DecimalReadsBack(d.minor);
    FindFirst(Decimal(d.major), ':', Decimal(d.minor));
  }

  ghost predicate OneField(s: string)
  {
    Lacks(s, ' ') && Lacks(s, '\n')
  }

  lemma {:induction false} SpacedSplits(fields: seq<string>, tail: string)
    requires forall i :: 0 <= i < |fields| ==> OneField(fields[i])
    ensures Split(Spaced(fields, tail), ' ') == fields + Split(tail, ' ')
  {
    if fields != [] {
      var f, rest := fields[0], fields[1..];
      assert OneField(f);
      SpacedSplits(rest, tail);
      SplitCons(f, ' ', Spaced(rest, tail));
      Assoc([f], rest, Split(tail, ' '));
      assert fields == [f] + rest;
    }
  }

  lemma {:induction false} SpacedIsOneLine(fields: seq<string>, tail: string)
    requires (forall i :: 0 <= i < |fields| ==> OneField(fields[i])) && Lacks(tail, '\n') && tail != []
    ensures var s := Spaced(fields, tail); s != [] && Lacks(s, '\n') && s[|s| - 1] == tail[|tail| - 1]
  {
    if fields != [] {
      SpacedIsOneLine(fields[1..], tail);
      assert Lacks(fields[0], '\n');
    }
  }

  lemma FieldsShape(esc: Escaped, m: Mounted)
    requires KernelEscapes(esc)
    ensures forall i :: 0 <= i < |Fields(esc, m)| ==> OneField(Fields(esc, m)[i])
  {
    EscapedIsOneField(esc, m.root);
    EscapedIsOneField(esc, m.point);
    DecimalReadsBack(m.id);
    DecimalReadsBack(m.parent);
    DeviceTextShape(m.device);
  }

  /** A row of the table reads back as its own mount. */
  lemma RowReadsBack(esc: Escaped, same: SamePath, path: string, m: Mounted)
    requires KernelEscapes(esc) && Printable(m)
    ensures LineDevice(same, path, Row(esc, m)) == if same(m.point, path) then Some(m.device) else None
  {
    FieldsShape(esc, m);
    SpacedSplits(Fields(esc, m), m.tail);
    DeviceTextShape(m.device);
    UnescapeInvertsKernel(esc, m.point);
    NumberReadsBack(m.device.major);
    NumberReadsBack(m.device.minor);
  }

  lemma RowIsOneLine(esc: Escaped, m: Mounted)
    requires KernelEscapes(esc) && Printable(m)
    ensures Lacks(Row(esc, m), '\n') && StripReturn(Row(esc, m)) == Row(esc, m)
  {
    FieldsShape(esc, m);
    SpacedIsOneLine(Fields(esc, m), m.tail);
  }

  function Rows(esc: Escaped, ms: seq<Mounted>): (r: seq<string>)
    requires KernelEscapes(esc)
    ensures |r| == |ms| && forall i :: 0 <= i < |ms| ==> r[i] == Row(esc, ms[i])
  {
    seq(|ms|, i requires 0 <= i < |ms| => Row(esc, ms[i]))
  }

  lemma RowsCons(esc: Escaped, ms: seq<Mounted>)
    requires KernelEscapes(esc) && ms != []
    ensures Rows(esc, ms) == [Row(esc, ms[0])] + Rows(esc, ms[1..])
  {
  }

  lemma {:induction false} TableLines(esc: Escaped, ms: seq<Mounted>)
    requires KernelEscapes(esc) && forall i :: 0 <= i < |ms| ==> Printable(ms[i])
    ensures Lines(Table(esc, ms)) == Rows(esc, ms)
  {
    if ms != [] {
      RowIsOneLine(esc, ms[0]);
      TableLines(esc, ms[1..]);
      LinesCons(Row(esc, ms[0]), Table(esc, ms[1..]));
      RowsCons(esc, ms);
    }
  }

  lemma {:induction false} LastOfRows(esc: Escaped, same: SamePath, path: string, ms: seq<Mounted>)
    requires KernelEscapes(esc) && forall i :: 0 <= i < |ms| ==> Printable(ms[i])
    ensures LastDevice(same, path, Rows(esc, ms)) == Topmost(same, path, ms)
  {
    if ms != [] {
      var n := |ms| - 1;
      RowReadsBack(esc, same, path, ms[n]);
      LastOfRows(esc, same, path, ms[..n]);
      assert Rows(esc, ms)[..n] == Rows(esc, ms[..n]);
    }
  }

  /**
    Read from the table the kernel prints, the answer is the device of the topmost mount at
    the path, whatever the paths contain, and nothing when there is no such mount.
  */
  lemma TableAnswersTopmost(esc: Escaped, same: SamePath, path: string, ms: seq<Mounted>)
    requires KernelEscapes(esc) && forall i :: 0 <= i < |ms| ==> Printable(ms[i])
    ensures MountedDevice(same, Table(esc, ms), path) == Topmost(same, path, ms)
  {
    TableLines(esc, ms);
    LastOfRows(esc, same, path, ms);
  }
}
