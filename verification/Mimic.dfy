/** The filters of core/hy2/mimic/mimic_linux.go: how they are written for the addresses of a peer, and the
    decision whether a Mimic that already runs shows all of them. Its output comes without colour codes. */
module Mimic {
  import opened Panel
  import opened UserDiff

  // ----- texts -----

  /** The white space of strings.TrimSpace. */
  predicate IsSpace(c: char) {
    var n := c as int;
    || 9 <= n <= 13 || n in {0x20, 0x85, 0xA0, 0x1680, 0x2028, 0x2029, 0x202F, 0x205F, 0x3000}
    || 0x2000 <= n <= 0x200A
  }

  /** The part before the first `c`, or everything. */
  function Before(s: string, c: char): string {
    if s == "" || s[0] == c then "" else [s[0]] + Before(s[1..], c)
  }

  function TrimLeft(s: string): string {
    if s == "" || !IsSpace(s[0]) then s else TrimLeft(s[1..])
  }

  function TrimRight(s: string): string {
    if s == "" || !IsSpace(s[|s| - 1]) then s else TrimRight(s[..|s| - 1])
  }

  function Trim(s: string): string {
    TrimRight(TrimLeft(s))
  }

  const MARK := "Filter:"

  /** The part behind the first mark. */
  function BehindMark(line: string): Option<string> {
    if MARK <= line then Some(line[|MARK|..]) else if line == "" then None else BehindMark(line[1..])
  }

  function Lines(s: string): seq<string> {
    if s == "" then [""]
    else
      var rest := Lines(s[1..]);
      if s[0] == '\n' then [""] + rest else if rest == [] then [[s[0]]] else [[s[0]] + rest[0]] + rest[1..]
  }

  /** filterAddr */
  function FilterAddr(filter: string): string {
    Before(Trim(Before(filter, ',')), ' ')
  }

  /** The line shows a filter with this address. */
  predicate LineHas(line: string, addr: string) {
    BehindMark(line).Some? && FilterAddr(Trim(BehindMark(line).value)) == addr
  }

  ghost predicate ShowsIn(lines: seq<string>, addr: string) {
    exists i :: 0 <= i < |lines| && LineHas(lines[i], addr)
  }

  lemma ShowsMore(lines: seq<string>, i: nat, addr: string)
    requires i < |lines|
    ensures ShowsIn(lines[..i + 1], addr) <==> ShowsIn(lines[..i], addr) || LineHas(lines[i], addr)
  {
    hide LineHas;
    var more, less := lines[..i + 1], lines[..i];
    if k :| 0 <= k < i + 1 && LineHas(more[k], addr) && !LineHas(lines[i], addr) {
      assert more[k] == less[k];
    }
    if k :| 0 <= k < i && LineHas(less[k], addr) {
      assert more[k] == less[k];
    }
    if LineHas(lines[i], addr) {
      assert more[i] == lines[i];
    }
  }

  /** filtersCover, once the output is there. */
  method FiltersCover(out: string, filters: seq<string>) returns (covers: bool)
    ensures covers <==> forall i :: 0 <= i < |filters| ==> ShowsIn(Lines(out), FilterAddr(filters[i]))
  {
    hide FilterAddr;
    hide BehindMark;
    hide Trim;
    hide Lines;
    var lines := Lines(out);
    var covered: set<string> := {};
    for i := 0 to |lines|
      invariant forall a :: a in covered <==> ShowsIn(lines[..i], a)
    {
      var v := BehindMark(lines[i]);
      forall a ensures ShowsIn(lines[..i + 1], a) <==> ShowsIn(lines[..i], a) || LineHas(lines[i], a) {
        ShowsMore(lines, i, a);
      }
      if v.Some? {
        covered := covered + {FilterAddr(Trim(v.value))};
      }
    }
    assert lines[..|lines|] == lines;
    hide ShowsIn;
    for i := 0 to |filters|
      invariant forall k :: 0 <= k < i ==> ShowsIn(lines, FilterAddr(filters[k]))
    {
      if FilterAddr(filters[i]) !in covered {
        return false;
      }
    }
    return true;
  }

  // ----- what a filter says -----

  /** An address as it stands in a filter. */
  ghost predicate Clean(addr: string) {
    addr != "" && forall k :: 0 <= k < |addr| ==> !IsSpace(addr[k]) && addr[k] != ','
  }

  /** What may follow it: settings behind a comma, or a note behind a space. */
  predicate Tail(t: string) {
    t == "" || t[0] == ',' || t[0] == ' '
  }

  lemma {:induction false} BeforeSkips(a: string, t: string, c: char)
    requires forall k :: 0 <= k < |a| ==> a[k] != c
    ensures Before(a + t, c) == a + Before(t, c)
  {
    if a == "" {
      assert a + t == t;
    } else {
      BeforeSkips(a[1..], t, c);
      assert (a + t)[1..] == a[1..] + t;
      assert a == [a[0]] + a[1..];
    }
  }

  lemma {:induction false} TrimLeftSkips(gap: string, s: string)
    requires (forall k :: 0 <= k < |gap| ==> IsSpace(gap[k])) && s != "" && !IsSpace(s[0])
    ensures TrimLeft(gap + s) == s
  {
    hide IsSpace;
    if gap == "" {
      assert gap + s == s;
    } else {
      assert (gap + s)[1..] == gap[1..] + s;
      TrimLeftSkips(gap[1..], s);
    }
  }

  /** Trimming on the right takes something from the tail only, and leaves a tail. */
  lemma {:induction false} TrimRightKeeps(a: string, t: string) returns (t': string)
    requires a != "" && !IsSpace(a[|a| - 1]) && Tail(t)
    ensures TrimRight(a + t) == a + t' && Tail(t') && t' <= t
    decreases |t|
  {
    hide IsSpace;
    if t == "" || !IsSpace(t[|t| - 1]) {
      t' := t;
    } else {
      assert (a + t)[..|a + t| - 1] == a + t[..|t| - 1];
      t' := TrimRightKeeps(a, t[..|t| - 1]);
    }
  }

  lemma AddrIsCut(addr: string, t: string)
    requires Clean(addr) && Tail(t)
    ensures FilterAddr(addr + t) == addr
  {
    var u := Before(t, ',');
    BeforeSkips(addr, t, ',');
    assert u == "" || u[0] == ' ';
    assert TrimLeft(addr + u) == addr + u;
    var u' := TrimRightKeeps(addr, u);
    assert u' == "" || u'[0] == ' ';
    BeforeSkips(addr, u', ' ');
    assert addr + "" == addr;
  }

  /** Whatever settings or note follow it, and however it is indented, a filter's address is read. */
  lemma AddrIsRead(gap: string, addr: string, t: string)
    requires Clean(addr) && Tail(t) && forall k :: 0 <= k < |gap| ==> IsSpace(gap[k])
    ensures FilterAddr(addr + t) == addr && FilterAddr(Trim(gap + (addr + t))) == addr
  {
    AddrIsCut(addr, t);
    TrimLeftSkips(gap, addr + t);
    var t' := TrimRightKeeps(addr, t);
    AddrIsCut(addr, t');
  }

  // ----- what Mimic shows -----

  /** A line of the output: one that shows a filter, or any other. */
  datatype Line = Other(text: string) | Filter(indent: string, gap: string, addr: string, tail: string)

  function Text(l: Line): string {
    match l
    case Other(text) => text
    case Filter(indent, gap, addr, tail) => indent + (MARK + (gap + (addr + tail)))
  }

  predicate NoNewline(s: string) {
    forall k :: 0 <= k < |s| ==> s[k] != '\n'
  }

  ghost predicate LineOk(l: Line) {
    && NoNewline(Text(l))
    && match l
       case Other(text) => BehindMark(text).None?
       case Filter(indent, gap, addr, tail) =>
         && (forall k :: 0 <= k < |indent| ==> indent[k] != MARK[0])
         && (forall k :: 0 <= k < |gap| ==> IsSpace(gap[k]))
         && Clean(addr) && Tail(tail)
  }

  function Output(ls: seq<Line>): string {
    if ls == [] then "" else if |ls| == 1 then Text(ls[0]) else Text(ls[0]) + ("\n" + Output(ls[1..]))
  }

  lemma {:induction false} LinesOf(s: string, t: string)
    requires NoNewline(s)
    ensures Lines(s) == [s]
    ensures Lines(s + ("\n" + t)) == [s] + Lines(t)
  {
    if s == "" {
      assert "" + ("\n" + t) == "\n" + t;
      assert ("\n" + t)[1..] == t;
    } else {
      LinesOf(s[1..], t);
      assert (s + ("\n" + t))[1..] == s[1..] + ("\n" + t);
      assert s == [s[0]] + s[1..];
      assert ([s[1..]] + Lines(t))[1..] == Lines(t);
    }
  }

  lemma OutputMore(ls: seq<Line>)
    requires |ls| > 1 && NoNewline(Text(ls[0]))
    ensures Lines(Output(ls)) == [Text(ls[0])] + Lines(Output(ls[1..]))
  {
    hide Text;
    hide NoNewline;
    LinesOf(Text(ls[0]), Output(ls[1..]));
    hide Lines;
  }

  lemma OneLine(ls: seq<Line>)
    requires |ls| == 1 && NoNewline(Text(ls[0]))
    ensures Lines(Output(ls)) == [Text(ls[0])]
  {
    hide Text;
    hide NoNewline;
    LinesOf(Text(ls[0]), "");
    hide Lines;
  }

  lemma {:induction false} OutputLines(ls: seq<Line>)
    requires ls != [] && forall i :: 0 <= i < |ls| ==> NoNewline(Text(ls[i]))
    ensures |Lines(Output(ls))| == |ls| && forall i :: 0 <= i < |ls| ==> Lines(Output(ls))[i] == Text(ls[i])
  {
    hide Text;
    hide Output;
    hide Lines;
    hide NoNewline;
    if |ls| == 1 {
      OneLine(ls);
    } else {
      OutputMore(ls);
      OutputLines(ls[1..]);
    }
  }

  lemma {:induction false} MarkIsFound(indent: string, s: string)
    requires forall k :: 0 <= k < |indent| ==> indent[k] != MARK[0]
    ensures BehindMark(indent + (MARK + s)) == Some(s)
  {
    if indent == "" {
      assert "" + (MARK + s) == MARK + s;
      assert (MARK + s)[|MARK|..] == s;
    } else {
      assert (indent + (MARK + s))[1..] == indent[1..] + (MARK + s);
      assert (indent + (MARK + s))[0] == indent[0];
      MarkIsFound(indent[1..], s);
    }
  }

  lemma LineShows(l: Line)
    requires LineOk(l)
    ensures forall a :: LineHas(Text(l), a) <==> l.Filter? && l.addr == a
  {
    hide FilterAddr;
    hide Trim;
    hide IsSpace;
    if l.Filter? {
      MarkIsFound(l.indent, l.gap + (l.addr + l.tail));
      AddrIsRead(l.gap, l.addr, l.tail);
    }
  }

  /** Some line shows a filter with this address. */
  ghost predicate Shows(ls: seq<Line>, addr: string) {
    exists i :: 0 <= i < |ls| && ls[i].Filter? && ls[i].addr == addr
  }

  /** The output shows exactly the addresses of its filter lines. */
  lemma OutputShows(ls: seq<Line>, addr: string)
    requires ls != [] && forall i :: 0 <= i < |ls| ==> LineOk(ls[i])
    ensures ShowsIn(Lines(Output(ls)), addr) <==> Shows(ls, addr)
  {
    forall i | 0 <= i < |ls| ensures NoNewline(Text(ls[i])) {
      assert LineOk(ls[i]);
    }
    OutputLines(ls);
    var lines := Lines(Output(ls));
    forall i | 0 <= i < |ls| ensures LineHas(lines[i], addr) <==> ls[i].Filter? && ls[i].addr == addr {
      LineShows(ls[i]);
    }
    hide LineHas;
    hide Lines;
    hide Output;
    hide LineOk;
    hide Text;
  }

  // ----- the filters of a peer -----

  /** An IP as net.IP knows it, with its text; `any` is the unspecified address. */
  datatype Ip = NoIp | V4(text: string, any: bool) | V6(text: string, any: bool)

  datatype UDPAddr = UDPAddr(ip: Ip, port: int)

  /** filterHost */
  function Host(ip: Ip): string {
    match ip
    case NoIp => "0.0.0.0"
    case V4(text, any) => if any then "0.0.0.0" else text
    case V6(text, any) => if any then "[::]" else "[" + text + "]"
  }

  function Remote(a: UDPAddr): string {
    "remote=" + Host(a.ip) + ":" + Itoa(a.port)
  }

  /** The addresses a server filters for; one without an address of its own listens on both families. */
  function Locals(a: UDPAddr): seq<string> {
    if a.ip.NoIp? || (a.ip.V6? && a.ip.any) then ["local=0.0.0.0:" + Itoa(a.port), "local=[::]:" + Itoa(a.port)]
    else ["local=" + Host(a.ip) + ":" + Itoa(a.port)]
  }

  /** An IPv6 address stands in brackets, an IPv4 address as it is, and an unspecified address as that of its
      family, or of IPv4 if it has none. */
  lemma HostTexts(ip: Ip)
    ensures ip.NoIp? ==> Host(ip) == "0.0.0.0"
    ensures ip.V4? && !ip.any ==> Host(ip) == ip.text
    ensures ip.V6? && !ip.any ==> Host(ip) == "[" + ip.text + "]"
    ensures ip.V4? && ip.any ==> Host(ip) == "0.0.0.0"
    ensures ip.V6? && ip.any ==> Host(ip) == "[::]"
  {
  }

  /** Filters name the end they are for; those of a server are passive. A server that listens on no address of
      its own, or on all of IPv6, has one filter for each family. */
  lemma FilterTexts(a: UDPAddr)
    ensures Remote(a) == "remote=" + Host(a.ip) + ":" + Itoa(a.port)
    ensures WithHandshake(Locals(a)) ==
            if a.ip == NoIp || (a.ip.V6? && a.ip.any)
            then ["local=0.0.0.0:" + Itoa(a.port) + ",handshake=0:3", "local=[::]:" + Itoa(a.port) + ",handshake=0:3"]
            else ["local=" + Host(a.ip) + ":" + Itoa(a.port) + ",handshake=0:3"]
  {
  }

  /** The texts that did not come earlier, in order. */
  function FirstOnes(texts: seq<string>): seq<string> {
    if texts == [] then []
    else
      var rest, t := texts[..|texts| - 1], texts[|texts| - 1];
      FirstOnes(rest) + if t in rest then [] else [t]
  }

  /** And where they stand. */
  ghost function Firsts(texts: seq<string>): seq<nat> {
    if texts == [] then []
    else
      var rest, t := texts[..|texts| - 1], texts[|texts| - 1];
      Firsts(rest) + if t in rest then [] else [|rest|]
  }

  /** The text at this place comes here for the first time. */
  ghost predicate IsFirst(texts: seq<string>, n: int) {
    0 <= n < |texts| && texts[n] !in texts[..n]
  }

  lemma IsFirstMore(texts: seq<string>, t: string, n: int)
    ensures IsFirst(texts + [t], n) <==> IsFirst(texts, n) || (n == |texts| && t !in texts)
  {
    var more := texts + [t];
    if 0 <= n < |texts| {
      assert more[..n] == texts[..n];
    }
    assert more[..|texts|] == texts;
  }

  /** The places increase, at each of them its text comes for the first time, and every such place is among
      them. */
  ghost predicate AreFirsts(texts: seq<string>, places: seq<nat>, ones: seq<string>) {
    && |places| == |ones|
    && (forall i :: 0 <= i < |places| ==> places[i] < |texts| && texts[places[i]] == ones[i] && IsFirst(texts, places[i]))
    && (forall i, j :: 0 <= i < j < |places| ==> places[i] < places[j])
    && (forall n :: IsFirst(texts, n) ==> n in places)
  }

  lemma AreFirstsMore(texts: seq<string>, t: string, places: seq<nat>, ones: seq<string>)
    requires AreFirsts(texts, places, ones)
    ensures if t in texts then AreFirsts(texts + [t], places, ones)
            else AreFirsts(texts + [t], places + [|texts|], ones + [t])
  {
    forall n ensures IsFirst(texts + [t], n) <==> IsFirst(texts, n) || (n == |texts| && t !in texts) {
      IsFirstMore(texts, t, n);
    }
    hide IsFirst;
    assert forall n :: n in places + [|texts|] <==> n in places || n == |texts|;
  }

  lemma FirstsMore(texts: seq<string>, t: string)
    ensures Firsts(texts + [t]) == if t in texts then Firsts(texts) else Firsts(texts) + [|texts|]
    ensures FirstOnes(texts + [t]) == if t in texts then FirstOnes(texts) else FirstOnes(texts) + [t]
  {
    assert (texts + [t])[..|texts|] == texts;
    assert Firsts(texts) + [] == Firsts(texts) && FirstOnes(texts) + [] == FirstOnes(texts);
  }

  lemma FirstsExtend(texts: seq<string>, t: string)
    requires AreFirsts(texts, Firsts(texts), FirstOnes(texts))
    ensures AreFirsts(texts + [t], Firsts(texts + [t]), FirstOnes(texts + [t]))
  {
    hide AreFirsts;
    hide Firsts;
    hide FirstOnes;
    AreFirstsMore(texts, t, Firsts(texts), FirstOnes(texts));
    FirstsMore(texts, t);
  }

  lemma NoFirsts()
    ensures AreFirsts([], Firsts([]), FirstOnes([]))
  {
  }

  lemma {:induction false} FirstOnesAreFirst(texts: seq<string>)
    ensures AreFirsts(texts, Firsts(texts), FirstOnes(texts))
  {
    hide AreFirsts;
    hide Firsts;
    hide FirstOnes;
    if texts == [] {
      NoFirsts();
    } else {
      var rest, t := texts[..|texts| - 1], texts[|texts| - 1];
      FirstOnesAreFirst(rest);
      FirstsExtend(rest, t);
      assert texts == rest + [t];
    }
  }

  /** No text twice, and none missing. */
  lemma {:induction false} FirstOnesAreAll(texts: seq<string>)
    ensures forall t :: t in FirstOnes(texts) <==> t in texts
    ensures forall i, j :: 0 <= i < j < |FirstOnes(texts)| ==> FirstOnes(texts)[i] != FirstOnes(texts)[j]
  {
    if texts == [] {
    } else {
      var n := |texts| - 1;
      var rest := texts[..n];
      FirstOnesAreAll(rest);
      assert texts == rest + [texts[n]];
      if texts[n] !in rest {
        assert FirstOnes(texts)[|FirstOnes(rest)|] == texts[n];
        forall t | t in FirstOnes(rest) ensures t in FirstOnes(texts) {
          var i :| 0 <= i < |FirstOnes(rest)| && FirstOnes(rest)[i] == t;
          assert FirstOnes(texts)[i] == t;
        }
      }
    }
  }

  function Remotes(addrs: seq<UDPAddr>): (texts: seq<string>)
    ensures |texts| == |addrs|
  {
    seq(|addrs|, k requires 0 <= k < |addrs| => Remote(addrs[k]))
  }

  const HANDSHAKE := ",handshake=0:3"

  function WithHandshake(texts: seq<string>): (filters: seq<string>)
    ensures |filters| == |texts|
  {
    seq(|texts|, k requires 0 <= k < |texts| => texts[k] + HANDSHAKE)
  }

  /** filtersFor */
  method FiltersFor(client: bool, addrs: seq<UDPAddr>) returns (filters: seq<string>)
    requires client || addrs != []
    ensures filters == if client then FirstOnes(Remotes(addrs)) else WithHandshake(Locals(addrs[0]))
  {
    hide Remote;
    if client {
      filters := [];
      var seen: set<string> := {};
      ghost var texts := Remotes(addrs);
      for i := 0 to |addrs|
        invariant filters == FirstOnes(texts[..i])
        invariant forall t :: t in seen <==> t in texts[..i]
      {
        var f := Remote(addrs[i]);
        assert texts[..i + 1] == texts[..i] + [f];
        if f !in seen {
          seen := seen + {f};
          filters := filters + [f];
        }
      }
      assert texts[..|addrs|] == texts;
      return;
    }
    var addr := addrs[0];
    if addr.ip.NoIp? || (addr.ip.V6? && addr.ip.any) {
      return ["local=0.0.0.0:" + Itoa(addr.port) + HANDSHAKE, "local=[::]:" + Itoa(addr.port) + HANDSHAKE];
    }
    return ["local=" + Host(addr.ip) + ":" + Itoa(addr.port) + HANDSHAKE];
  }

  // ----- from the addresses to the decision -----

  /** Nothing in the text ends an address. */
  ghost predicate NoBreak(s: string) {
    forall k :: 0 <= k < |s| ==> !IsSpace(s[k]) && s[k] != ','
  }

  lemma NoBreakBoth(a: string, b: string)
    requires NoBreak(a) && NoBreak(b)
    ensures NoBreak(a + b)
  {
    hide IsSpace;
  }

  lemma {:induction false} DecimalNoBreak(n: nat)
    ensures NoBreak(Decimal(n))
  {
    assert NoBreak([DIGITS[n % 10]]);
    if n < 10 {
    } else {
      DecimalNoBreak(n / 10);
      NoBreakBoth(Decimal(n / 10), [DIGITS[n % 10]]);
    }
  }

  lemma ItoaNoBreak(n: int)
    ensures NoBreak(Itoa(n))
  {
    DecimalNoBreak(if n < 0 then -n else n);
    assert NoBreak("-");
    NoBreakBoth("-", Decimal(if n < 0 then -n else n));
  }

  /** The texts of IP addresses have neither white space nor commas. */
  ghost predicate IpOk(ip: Ip) {
    !ip.NoIp? ==> NoBreak(ip.text)
  }

  lemma HostNoBreak(ip: Ip)
    requires IpOk(ip)
    ensures NoBreak(Host(ip))
  {
    assert NoBreak("0.0.0.0") && NoBreak("[::]") && NoBreak("[") && NoBreak("]");
    if ip.V6? {
      NoBreakBoth("[", ip.text);
      NoBreakBoth("[" + ip.text, "]");
    }
  }

  lemma ColonIsNoSpace()
    ensures !IsSpace(':')
  {
  }

  lemma AddressClean(kind: string, host: string, port: int)
    requires kind != "" && NoBreak(kind) && NoBreak(host)
    ensures Clean(kind + host + ":" + Itoa(port))
  {
    hide IsSpace;
    hide Itoa;
    ItoaNoBreak(port);
    assert NoBreak(":") by {
      assert !IsSpace(':') by {
        ColonIsNoSpace();
      }
    }
    NoBreakBoth(kind, host);
    NoBreakBoth(kind + host, ":");
    NoBreakBoth(kind + host + ":", Itoa(port));
  }

  /** Every address a peer's filters are for, repetitions included. */
  function Needed(client: bool, addrs: seq<UDPAddr>): seq<string>
    requires client || addrs != []
  {
    if client then Remotes(addrs) else Locals(addrs[0])
  }

  lemma NeededClean(client: bool, addrs: seq<UDPAddr>, k: nat)
    requires (client || addrs != []) && k < |Needed(client, addrs)|
    requires forall i :: 0 <= i < |addrs| ==> IpOk(addrs[i].ip)
    ensures Clean(Needed(client, addrs)[k])
  {
    hide Itoa;
    var a := if client then addrs[k] else addrs[0];
    HostNoBreak(a.ip);
    assert NoBreak("remote=") && NoBreak("local=") && NoBreak("0.0.0.0") && NoBreak("[::]");
    AddressClean("remote=", Host(a.ip), a.port);
    AddressClean("local=", Host(a.ip), a.port);
    AddressClean("local=", "0.0.0.0", a.port);
    AddressClean("local=", "[::]", a.port);
    hide Clean;
    hide NoBreak;
    assert "local=" + "0.0.0.0" + ":" == "local=0.0.0.0:" && "local=" + "[::]" + ":" == "local=[::]:";
  }

  /** The addresses read from the filters are those that are needed. */
  lemma FiltersRead(client: bool, addrs: seq<UDPAddr>, filters: seq<string>)
    requires (client || addrs != []) && forall i :: 0 <= i < |addrs| ==> IpOk(addrs[i].ip)
    requires filters == if client then FirstOnes(Remotes(addrs)) else WithHandshake(Locals(addrs[0]))
    ensures forall i :: 0 <= i < |filters| ==> FilterAddr(filters[i]) in Needed(client, addrs)
    ensures forall k :: 0 <= k < |Needed(client, addrs)| ==>
              exists i :: 0 <= i < |filters| && FilterAddr(filters[i]) == Needed(client, addrs)[k]
  {
    hide FilterAddr;
    hide Itoa;
    hide Clean;
    hide FirstOnes;
    hide IpOk;
    var needed := Needed(client, addrs);
    forall k | 0 <= k < |needed| ensures FilterAddr(needed[k]) == needed[k] && FilterAddr(needed[k] + HANDSHAKE) == needed[k] {
      NeededClean(client, addrs, k);
      AddrIsRead("", needed[k], "");
      AddrIsRead("", needed[k], HANDSHAKE);
      assert needed[k] + "" == needed[k];
    }
    if client {
      FirstOnesAreAll(Remotes(addrs));
      forall i | 0 <= i < |filters| ensures FilterAddr(filters[i]) in needed {
        assert filters[i] in needed;
        var k :| 0 <= k < |needed| && needed[k] == filters[i];
      }
      forall k | 0 <= k < |needed| ensures exists i :: 0 <= i < |filters| && FilterAddr(filters[i]) == needed[k] {
        assert needed[k] in filters;
        var i :| 0 <= i < |filters| && filters[i] == needed[k];
      }
    } else {
      forall k | 0 <= k < |needed| ensures FilterAddr(filters[k]) == needed[k] {
      }
    }
  }

  lemma AllShown(lines: seq<string>, ls: seq<Line>, filters: seq<string>, needed: seq<string>)
    requires forall i :: 0 <= i < |filters| ==> FilterAddr(filters[i]) in needed
    requires forall k :: 0 <= k < |needed| ==> exists i :: 0 <= i < |filters| && FilterAddr(filters[i]) == needed[k]
    requires forall k :: 0 <= k < |needed| ==> (ShowsIn(lines, needed[k]) <==> Shows(ls, needed[k]))
    ensures (forall i :: 0 <= i < |filters| ==> ShowsIn(lines, FilterAddr(filters[i]))) <==>
            forall k :: 0 <= k < |needed| ==> Shows(ls, needed[k])
  {
    hide ShowsIn;
    hide Shows;
    hide FilterAddr;
    if forall i :: 0 <= i < |filters| ==> ShowsIn(lines, FilterAddr(filters[i])) {
      forall k | 0 <= k < |needed| ensures Shows(ls, needed[k]) {
        var i :| 0 <= i < |filters| && FilterAddr(filters[i]) == needed[k];
      }
    }
  }

  /** From the addresses of a peer to the decision: a running Mimic is taken to cover them exactly when it shows
      each of them. */
  method PeerCovered(client: bool, addrs: seq<UDPAddr>, ls: seq<Line>) returns (covers: bool)
    requires client || addrs != []
    requires forall i :: 0 <= i < |addrs| ==> IpOk(addrs[i].ip)
    requires ls != [] && forall i :: 0 <= i < |ls| ==> LineOk(ls[i])
    ensures covers <==> forall k :: 0 <= k < |Needed(client, addrs)| ==> Shows(ls, Needed(client, addrs)[k])
  {
    hide ShowsIn;
    hide Shows;
    hide FilterAddr;
    hide Lines;
    hide Output;
    hide Needed;
    hide LineOk;
    hide IpOk;
    var filters := FiltersFor(client, addrs);
    covers := FiltersCover(Output(ls), filters);
    ghost var needed := Needed(client, addrs);
    forall k | 0 <= k < |needed| ensures ShowsIn(Lines(Output(ls)), needed[k]) <==> Shows(ls, needed[k]) {
      OutputShows(ls, needed[k]);
    }
    FiltersRead(client, addrs, filters);
    AllShown(Lines(Output(ls)), ls, filters, needed);
  }
}
