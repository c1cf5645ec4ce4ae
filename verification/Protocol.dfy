/** The panel's parsers for the data lines of a response. */
module Protocol {
  import opened Text

  datatype SocketInfo = SocketInfo(nth: int, port: int)
  datatype NetifInfo = NetifInfo(index: int, ip: string, mask: string, gw: string, sockets: seq<SocketInfo>)
  datatype PingReply = PingReply(success: bool, from: string, seqno: int, bytes: int, rttMs: int, ttl: int)

  /** result.Find(n => n.Index == owner): the first match, or the length of the list */
  function FindOwner(result: seq<NetifInfo>, owner: int): (k: nat)
    ensures k <= |result| && (k < |result| ==> result[k].index == owner)
    ensures forall j :: 0 <= j < k ==> result[j].index != owner
  {
    if result == [] then 0
    else if result[0].index == owner then 0
    else 1 + FindOwner(result[1..], owner)
  }

  function ParseLine(result: seq<NetifInfo>, line: string): seq<NetifInfo> {
    var t := Tokens(line);
    if |t| >= 5 && t[0] == "#NETIF" && TryParse(t[1]).Some? then
      result + [NetifInfo(TryParse(t[1]).value, t[2], t[3], t[4], [])]
    else if |t| >= 4 && t[0] == "#SOCK" && TryParse(t[1]).Some? && TryParse(t[2]).Some? && TryParse(t[3]).Some? then
      var k := FindOwner(result, TryParse(t[1]).value);
      if k == |result| then result
      else result[k := result[k].(sockets := result[k].sockets + [SocketInfo(TryParse(t[2]).value, TryParse(t[3]).value)])]
    else result
  }

  function ParseLines(result: seq<NetifInfo>, lines: seq<string>): seq<NetifInfo> {
    if lines == [] then result else ParseLine(ParseLines(result, lines[..|lines| - 1]), lines[|lines| - 1])
  }

  method ParseNetifList(lines: seq<string>) returns (result: seq<NetifInfo>)
    ensures result == ParseLines([], lines)
  {
    result := [];
    for i := 0 to |lines|
      invariant result == ParseLines([], lines[..i])
    {
      ghost var before := result;
      assert lines[..i + 1][..i] == lines[..i];
      assert ParseLines([], lines[..i + 1]) == ParseLine(before, lines[i]);
      var t := Tokens(lines[i]);
      if |t| >= 5 && t[0] == "#NETIF" && TryParse(t[1]).Some? {
        result := result + [NetifInfo(TryParse(t[1]).value, t[2], t[3], t[4], [])];
      } else if |t| >= 4 && t[0] == "#SOCK" {
        var owner, nth, port := TryParse(t[1]), TryParse(t[2]), TryParse(t[3]);
        if owner.Some? && nth.Some? && port.Some? {
          var k := FindOwner(result, owner.value);
          if k < |result| {
            result := result[k := result[k].(sockets := result[k].sockets + [SocketInfo(nth.value, port.value)])];
          }
        }
      }
    }
    assert lines[..|lines|] == lines;
  }

  /** int.TryParse(s, out v): v is 0 when the text is not an int */
  function ParseOrZero(s: string): int {
    match TryParse(s)
    case None => 0
    case Some(v) => v
  }

  predicate IsPong(line: string) { |Tokens(line)| >= 6 && Tokens(line)[0] == "#PONG" }

  function PongOf(line: string): PingReply
    requires IsPong(line)
  {
    var t := Tokens(line);
    PingReply(true, t[1], ParseOrZero(t[2]), ParseOrZero(t[3]), ParseOrZero(t[4]), ParseOrZero(t[5]))
  }

  const NO_REPLY := PingReply(false, "", 0, 0, 0, 0)

  /** The first #PONG line decides; without one the attempt failed. */
  function PingReplyOf(lines: seq<string>): PingReply {
    if lines == [] then NO_REPLY else if IsPong(lines[0]) then PongOf(lines[0]) else PingReplyOf(lines[1..])
  }

  method ParsePing(lines: seq<string>) returns (reply: PingReply)
    ensures reply == PingReplyOf(lines)
    ensures (exists k :: 0 <= k < |lines| && IsPong(lines[k])) ==>
              exists k :: 0 <= k < |lines| && IsPong(lines[k]) && reply == PongOf(lines[k])
                          && forall j :: 0 <= j < k ==> !IsPong(lines[j])
    ensures !(exists k :: 0 <= k < |lines| && IsPong(lines[k])) ==> reply == NO_REPLY
  {
    for i := 0 to |lines|
      invariant forall j :: 0 <= j < i ==> !IsPong(lines[j])
      invariant PingReplyOf(lines[i..]) == PingReplyOf(lines)
    {
      assert lines[i..][1..] == lines[i + 1..];
      if IsPong(lines[i]) {
        return PongOf(lines[i]);
      }
    }
    return NO_REPLY;
  }
}
