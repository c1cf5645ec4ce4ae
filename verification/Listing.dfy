/**
 The listing of interfaces and sockets: the lines the board prints for NETIF LIST and PING, and the
 proof that the panel's parser reads back exactly what the board holds.
 */
module Listing {
  import opened Words
  import opened Text
  import opened Registry
  import opened NetManager
  import opened Protocol

  // Size of the `line` buffer the handlers print into.
  const LINE_BUF: nat := 96

  function PortAt(es: Entries, i: nat): Word16 {
    if i < MAX_LISTENERS && es[i].pcb.Some? then es[i].pcb.value.port else 0
  }

  /** The ports of n's sockets, in list order. */
  function PortsOf(es: Entries, n: NetifPtr): seq<Word16> {
    seq(|Sockets(es, n)|, j requires 0 <= j < |Sockets(es, n)| => PortAt(es, Sockets(es, n)[j]))
  }

  // ---------------------------------------------------------------------------------------------
  // Data lines, and their text

  datatype DataLine =
    | NetifData(idx: nat, netif: Netif, count: nat)
    | SockData(owner: nat, nth: nat, port: Word16)
    | PongData(from: Word32, seqno: Word16, bytes: Word16, rtt: Word32, ttl: Byte)
    | TimeoutData
    | HostData(ip: Word32, mac: seq<Byte>)

  function HexDigit(d: nat): char
    requires d < 16
  {
    if d < 10 then Digit(d) else (('a' as int) + d - 10) as char
  }

  /** %02x */
  function Hex2(b: Byte): string { [HexDigit(b / 16), HexDigit(b % 16)] }

  /** The fields of a line that is printed with single spaces between them. */
  function Fields(d: DataLine): seq<string>
    requires !d.HostData?
  {
    match d
    case NetifData(idx, n, count) =>
      ["#NETIF", Dec(idx), Dotted(n.ip), Dotted(n.mask), Dotted(n.gw), "socks=" + Dec(count)]
    case SockData(owner, nth, port) => ["#SOCK", Dec(owner), Dec(nth), Dec(port)]
    case PongData(from, seqno, bytes, rtt, ttl) => ["#PONG", Dotted(from), Dec(seqno), Dec(bytes), Dec(rtt), Dec(ttl)]
    case TimeoutData => ["#TIMEOUT"]
  }

  /** The formats of the handlers, without the final CR LF. */
  function LineText(d: DataLine): string {
    if d.HostData? then
      "Host up: " + Dotted(d.ip) + "  MAC " + Join(seq(|d.mac|, k requires 0 <= k < |d.mac| => Hex2(d.mac[k])), ':')
    else Join(Fields(d), ' ')
  }

  function Texts(ds: seq<DataLine>): (texts: seq<string>)
    ensures |texts| == |ds|
  {
    if ds == [] then [] else Texts(ds[..|ds| - 1]) + [LineText(ds[|ds| - 1])]
  }

  lemma {:induction false} TextsAt(ds: seq<DataLine>, k: nat)
    requires k < |ds|
    ensures Texts(ds)[k] == LineText(ds[k])
  {
    if k < |ds| - 1 {
      TextsAt(ds[..|ds| - 1], k);
    }
  }

  /** The fields of a line with one space between them, written out. */
  function Spaced4(a: string, b: string, c: string, d: string): string { a + (" " + (b + (" " + (c + (" " + d))))) }

  function Spaced6(a: string, b: string, c: string, d: string, e: string, f: string): string {
    a + (" " + (b + (" " + Spaced4(c, d, e, f))))
  }

  lemma JoinStep(a: string, rest: seq<string>)
    requires rest != []
    ensures Join([a] + rest, ' ') == a + (" " + Join(rest, ' '))
  {
    assert ([a] + rest)[1..] == rest;
    assert a + [' '] + Join(rest, ' ') == a + (" " + Join(rest, ' '));
  }

  lemma JoinFour(a: string, b: string, c: string, d: string)
    ensures Join([a, b, c, d], ' ') == Spaced4(a, b, c, d)
  {
    assert [a, b, c, d] == [a] + ([b] + ([c] + [d]));
    JoinStep(c, [d]);
    JoinStep(b, [c] + [d]);
    JoinStep(a, [b] + ([c] + [d]));
  }

  lemma JoinSix(a: string, b: string, c: string, d: string, e: string, f: string)
    ensures Join([a, b, c, d, e, f], ' ') == Spaced6(a, b, c, d, e, f)
  {
    assert [a, b, c, d, e, f] == [a] + ([b] + [c, d, e, f]);
    JoinFour(c, d, e, f);
    JoinStep(b, [c, d, e, f]);
    JoinStep(a, [b] + [c, d, e, f]);
  }

  /** The printed lines, character by character. */
  lemma NetifFormat(idx: nat, n: Netif, count: nat)
    ensures LineText(NetifData(idx, n, count))
            == Spaced6("#NETIF", Dec(idx), Dotted(n.ip), Dotted(n.mask), Dotted(n.gw), "socks=" + Dec(count))
  {
    JoinSix("#NETIF", Dec(idx), Dotted(n.ip), Dotted(n.mask), Dotted(n.gw), "socks=" + Dec(count));
  }

  lemma SockFormat(owner: nat, nth: nat, port: Word16)
    ensures LineText(SockData(owner, nth, port)) == Spaced4("#SOCK", Dec(owner), Dec(nth), Dec(port))
  {
    JoinFour("#SOCK", Dec(owner), Dec(nth), Dec(port));
  }

  lemma PongFormat(from: Word32, seqno: Word16, bytes: Word16, rtt: Word32, ttl: Byte)
    ensures LineText(PongData(from, seqno, bytes, rtt, ttl))
            == Spaced6("#PONG", Dotted(from), Dec(seqno), Dec(bytes), Dec(rtt), Dec(ttl))
    ensures LineText(TimeoutData) == "#TIMEOUT"
  {
    JoinSix("#PONG", Dotted(from), Dec(seqno), Dec(bytes), Dec(rtt), Dec(ttl));
  }

  /** The value of a hexadecimal digit. */
  function HexValue(c: char): nat {
    if '0' <= c <= '9' then (c as int) - ('0' as int)
    else if 'a' <= c <= 'f' then (c as int) - ('a' as int) + 10
    else 0
  }

  /** Two hexadecimal digits, the high one first. */
  lemma HexDenotes(b: Byte)
    ensures |Hex2(b)| == 2 && HexValue(Hex2(b)[0]) * 16 + HexValue(Hex2(b)[1]) == b
    ensures forall k :: 0 <= k < 2 ==> '0' <= Hex2(b)[k] <= '9' || 'a' <= Hex2(b)[k] <= 'f'
  {
  }

  // ---------------------------------------------------------------------------------------------
  // NETIF LIST

  /** #SOCK lines for the first `count` sockets */
  function SockLines(idx: nat, ports: seq<Word16>, count: nat): seq<DataLine>
    requires count <= |ports|
  {
    seq(count, j requires 0 <= j < count => SockData(idx, j + 1, ports[j]))
  }

  function NetifLines(b: Board, k: nat): seq<DataLine>
    requires k < |b.netifs|
  {
    var ports := PortsOf(b.es, b.netifs[k].ptr);
    [NetifData(k + 1, b.netifs[k], |ports|)] + SockLines(k + 1, ports, |ports|)
  }

  /** The data lines of NETIF LIST, up to the first `count` interfaces. */
  function ListLines(b: Board, count: nat): seq<DataLine>
    requires count <= |b.netifs|
  {
    if count == 0 then [] else ListLines(b, count - 1) + NetifLines(b, count - 1)
  }

  function NetifListData(b: Board): seq<DataLine> { ListLines(b, |b.netifs|) }

  // ---------------------------------------------------------------------------------------------
  // What the panel should show

  function SocketInfos(ports: seq<Word16>, count: nat): seq<SocketInfo>
    requires count <= |ports|
  {
    seq(count, j requires 0 <= j < count => SocketInfo(j + 1, ports[j]))
  }

  function InfoOf(b: Board, k: nat): NetifInfo
    requires k < |b.netifs|
  {
    var n := b.netifs[k];
    var ports := PortsOf(b.es, n.ptr);
    NetifInfo(k + 1, Dotted(n.ip), Dotted(n.mask), Dotted(n.gw), SocketInfos(ports, |ports|))
  }

  function Displayed(b: Board, count: nat): (infos: seq<NetifInfo>)
    requires count <= |b.netifs|
    ensures |infos| == count
  {
    if count == 0 then [] else Displayed(b, count - 1) + [InfoOf(b, count - 1)]
  }

  lemma {:induction false} DisplayedAt(b: Board, count: nat, k: nat)
    requires k < count <= |b.netifs|
    ensures Displayed(b, count)[k] == InfoOf(b, k)
  {
    if k < count - 1 {
      DisplayedAt(b, count - 1, k);
    }
  }

  // ---------------------------------------------------------------------------------------------
  // Splitting a printed line gives its fields back

  lemma DecIsToken(n: nat)
    ensures Dec(n) != "" && ' ' !in Dec(n)
  {
    DecRoundTrip(n);
  }

  lemma DottedIsToken(ip: Word32)
    ensures Dotted(ip) != "" && ' ' !in Dotted(ip)
  {
    DottedForm(ip);
  }

  lemma NetifTokens(idx: nat, n: Netif, count: nat)
    ensures Tokens(LineText(NetifData(idx, n, count))) == Fields(NetifData(idx, n, count))
  {
    DecIsToken(idx);
    DecIsToken(count);
    DottedIsToken(n.ip);
    DottedIsToken(n.mask);
    DottedIsToken(n.gw);
    TokensJoin(Fields(NetifData(idx, n, count)));
  }

  lemma SockTokens(owner: nat, nth: nat, port: Word16)
    ensures Tokens(LineText(SockData(owner, nth, port))) == Fields(SockData(owner, nth, port))
  {
    DecIsToken(owner);
    DecIsToken(nth);
    DecIsToken(port);
    TokensJoin(Fields(SockData(owner, nth, port)));
  }

  lemma PongTokens(from: Word32, seqno: Word16, bytes: Word16, rtt: Word32, ttl: Byte)
    ensures var d := PongData(from, seqno, bytes, rtt, ttl); Tokens(LineText(d)) == Fields(d)
  {
    DottedIsToken(from);
    DecIsToken(seqno);
    DecIsToken(bytes);
    DecIsToken(rtt);
    DecIsToken(ttl);
    TokensJoin(Fields(PongData(from, seqno, bytes, rtt, ttl)));
  }

  // ---------------------------------------------------------------------------------------------
  // Reading a listing back, for any parser that reads single lines back

  type Step = (seq<NetifInfo>, DataLine) -> seq<NetifInfo>

  function Folded(f: Step, acc: seq<NetifInfo>, ds: seq<DataLine>): seq<NetifInfo> {
    if ds == [] then acc else f(Folded(f, acc, ds[..|ds| - 1]), ds[|ds| - 1])
  }

  ghost predicate ReadsNetifLine(f: Step, acc: seq<NetifInfo>, idx: nat, n: Netif, count: nat) {
    idx <= INT_MAX ==>
      f(acc, NetifData(idx, n, count)) == acc + [NetifInfo(idx, Dotted(n.ip), Dotted(n.mask), Dotted(n.gw), [])]
  }

  /** A #SOCK line goes to the last interface when no earlier one has its index. */
  ghost predicate ReadsSockLine(f: Step, before: seq<NetifInfo>, last: NetifInfo, nth: nat, port: Word16) {
    0 <= last.index <= INT_MAX && nth <= INT_MAX
    && (forall k :: 0 <= k < |before| ==> before[k].index != last.index) ==>
      f(before + [last], SockData(last.index, nth, port))
      == before + [last.(sockets := last.sockets + [SocketInfo(nth, port)])]
  }

  ghost predicate ReadsLines(f: Step) {
    && (forall acc, idx, n, count :: ReadsNetifLine(f, acc, idx, n, count))
    && (forall before, last, nth, port :: ReadsSockLine(f, before, last, nth, port))
  }

  lemma {:induction false} FoldAppend(f: Step, acc: seq<NetifInfo>, a: seq<DataLine>, b: seq<DataLine>)
    ensures Folded(f, acc, a + b) == Folded(f, Folded(f, acc, a), b)
    decreases |b|
  {
    if b == [] {
      assert a + b == a;
    } else {
      assert (a + b)[..|a + b| - 1] == a + b[..|b| - 1];
      FoldAppend(f, acc, a, b[..|b| - 1]);
    }
  }

  lemma {:induction false} FoldSocks(f: Step, before: seq<NetifInfo>, last: NetifInfo, ports: seq<Word16>, count: nat)
    requires ReadsLines(f)
    requires count <= |ports| <= INT_MAX && 1 <= last.index <= INT_MAX && last.sockets == []
    requires forall k :: 0 <= k < |before| ==> before[k].index != last.index
    ensures Folded(f, before + [last], SockLines(last.index, ports, count)) ==
            before + [last.(sockets := SocketInfos(ports, count))]
  {
    if count == 0 {
      assert SocketInfos(ports, 0) == last.sockets;
    } else {
      FoldSocks(f, before, last, ports, count - 1);
      var lines := SockLines(last.index, ports, count);
      assert lines[..|lines| - 1] == SockLines(last.index, ports, count - 1);
      var soFar := last.(sockets := SocketInfos(ports, count - 1));
      assert ReadsSockLine(f, before, soFar, count, ports[count - 1]);
      assert SocketInfos(ports, count) == SocketInfos(ports, count - 1) + [SocketInfo(count, ports[count - 1])];
    }
  }

  lemma FoldInterface(f: Step, b: Board, k: nat)
    requires ReadsLines(f)
    requires k < |b.netifs| < INT_MAX
    ensures Folded(f, Displayed(b, k), NetifLines(b, k)) == Displayed(b, k + 1)
  {
    var n, ports := b.netifs[k], PortsOf(b.es, b.netifs[k].ptr);
    var head := NetifData(k + 1, n, |ports|);
    var info := NetifInfo(k + 1, Dotted(n.ip), Dotted(n.mask), Dotted(n.gw), []);
    FoldAppend(f, Displayed(b, k), [head], SockLines(k + 1, ports, |ports|));
    assert [head][..0] == [];
    assert ReadsNetifLine(f, Displayed(b, k), k + 1, n, |ports|);
    assert Folded(f, Displayed(b, k), [head]) == f(Displayed(b, k), head);
    SocketsAreOwnedInOrder(b.es, n.ptr, 0, |b.es|);
    forall j | 0 <= j < k ensures Displayed(b, k)[j].index != k + 1 { DisplayedAt(b, k, j); }
    FoldSocks(f, Displayed(b, k), info, ports, |ports|);
  }

  lemma {:induction false} FoldList(f: Step, b: Board, count: nat)
    requires ReadsLines(f)
    requires count <= |b.netifs| < INT_MAX
    ensures Folded(f, [], ListLines(b, count)) == Displayed(b, count)
  {
    if count > 0 {
      FoldList(f, b, count - 1);
      FoldInterface(f, b, count - 1);
      FoldAppend(f, [], ListLines(b, count - 1), NetifLines(b, count - 1));
      assert ListLines(b, count) == ListLines(b, count - 1) + NetifLines(b, count - 1);
    }
  }

  // ---------------------------------------------------------------------------------------------
  // The panel's parser is such a parser

  function ParserStep(): Step { (acc, d) => ParseLine(acc, LineText(d)) }

  lemma ParserReadsNetifLine(acc: seq<NetifInfo>, idx: nat, n: Netif, count: nat)
    ensures ReadsNetifLine(ParserStep(), acc, idx, n, count)
  {
    NetifTokens(idx, n, count);
    TryParseDec(idx);
  }

  /** ParseLine on the fields of a #SOCK line whose owner is the last interface. */
  lemma ParseSockFields(acc: seq<NetifInfo>, line: string, owner: nat, nth: nat, port: Word16)
    requires Tokens(line) == ["#SOCK", Dec(owner), Dec(nth), Dec(port)]
    requires acc != [] && owner <= INT_MAX && nth <= INT_MAX && FindOwner(acc, owner) == |acc| - 1
    ensures var last := acc[|acc| - 1];
            ParseLine(acc, line) == acc[|acc| - 1 := last.(sockets := last.sockets + [SocketInfo(nth, port)])]
  {
    TryParseDec(owner);
    TryParseDec(nth);
    TryParseDec(port);
  }

  lemma OwnerIsLast(before: seq<NetifInfo>, last: NetifInfo)
    requires forall k :: 0 <= k < |before| ==> before[k].index != last.index
    ensures FindOwner(before + [last], last.index) == |before|
  {
    var acc := before + [last];
    assert acc[|before|].index == last.index;
  }

  lemma ParserReadsSockLine(before: seq<NetifInfo>, last: NetifInfo, nth: nat, port: Word16)
    ensures ReadsSockLine(ParserStep(), before, last, nth, port)
  {
    if 0 <= last.index <= INT_MAX && nth <= INT_MAX && forall k :: 0 <= k < |before| ==> before[k].index != last.index {
      ReadSock(before, last, nth, port, LineText(SockData(last.index, nth, port)));
    }
  }

  lemma ReadSock(before: seq<NetifInfo>, last: NetifInfo, nth: nat, port: Word16, line: string)
    requires 0 <= last.index <= INT_MAX && nth <= INT_MAX && forall k :: 0 <= k < |before| ==> before[k].index != last.index
    requires line == LineText(SockData(last.index, nth, port))
    ensures ParseLine(before + [last], line) == before + [last.(sockets := last.sockets + [SocketInfo(nth, port)])]
  {
    SockTokens(last.index, nth, port);
    OwnerIsLast(before, last);
    ParseSockFields(before + [last], line, last.index, nth, port);
  }

  lemma ParserReadsLines()
    ensures ReadsLines(ParserStep())
  {
    forall acc, idx, n, count ensures ReadsNetifLine(ParserStep(), acc, idx, n, count) {
      ParserReadsNetifLine(acc, idx, n, count);
    }
    forall before, last, nth, port ensures ReadsSockLine(ParserStep(), before, last, nth, port) {
      ParserReadsSockLine(before, last, nth, port);
    }
  }

  lemma {:induction false} ParsingIsFolding(acc: seq<NetifInfo>, ds: seq<DataLine>)
    ensures ParseLines(acc, Texts(ds)) == Folded(ParserStep(), acc, ds)
  {
    if ds != [] {
      ParsingIsFolding(acc, ds[..|ds| - 1]);
      assert Texts(ds)[..|ds| - 1] == Texts(ds[..|ds| - 1]);
    }
  }

  lemma ReparseList(b: Board, count: nat)
    requires count <= |b.netifs| < INT_MAX
    ensures ParseLines([], Texts(ListLines(b, count))) == Displayed(b, count)
  {
    ParserReadsLines();
    FoldList(ParserStep(), b, count);
    ParsingIsFolding([], ListLines(b, count));
  }

  // ---------------------------------------------------------------------------------------------
  // The list is short, and so are its lines

  lemma {:induction false} DistinctCount(netifs: seq<Netif>, s: set<NetifPtr>)
    requires Distinct(netifs) && Ptrs(netifs) <= s
    ensures |netifs| <= |s|
  {
    if netifs != [] {
      var last := netifs[|netifs| - 1];
      var front := netifs[..|netifs| - 1];
      assert last in netifs;
      forall m | m in front
        ensures m.ptr in s - {last.ptr}
      {
        assert m in netifs;
      }
      DistinctCount(front, s - {last.ptr});
    }
  }

  /** At most the physical interface and the seven aliases. */
  lemma AtMostEight(b: Board)
    requires Inv(b)
    ensures |b.netifs| <= MAX_ALIAS + 1
  {
    DistinctCount(b.netifs, {1, 2, 3, 4, 5, 6, 7, 8});
  }
}
