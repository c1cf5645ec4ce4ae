/** Decimal numbers, delimited lists and addresses as text, with the inverses the parsers rely on. */
module Text {
  import opened Words

  // ---------------------------------------------------------------------------------------------
  // Decimal

  predicate IsDigit(c: char) { '0' <= c <= '9' }

  predicate AllDigits(s: string) { forall k :: 0 <= k < |s| ==> IsDigit(s[k]) }

  function Digit(d: nat): char
    requires d < 10
  {
    (('0' as int) + d) as char
  }

  function DigitValue(c: char): nat
    requires IsDigit(c)
  {
    (c as int) - ('0' as int)
  }

  /** %u and %lu */
  function Dec(n: nat): string {
    if n < 10 then [Digit(n)] else Dec(n / 10) + [Digit(n % 10)]
  }

  function Value(s: string): nat
    requires AllDigits(s)
  {
    if s == "" then 0 else Value(s[..|s| - 1]) * 10 + DigitValue(s[|s| - 1])
  }

  lemma {:induction false} DecRoundTrip(n: nat)
    ensures Dec(n) != "" && AllDigits(Dec(n)) && Value(Dec(n)) == n
  {
    if n >= 10 {
      DecRoundTrip(n / 10);
      assert Dec(n)[..|Dec(n)| - 1] == Dec(n / 10);
    } else {
      assert Dec(n)[..0] == "";
    }
  }

  /** The ten digits, and no zero in front. */
  lemma {:induction false} DecCanonical(n: nat)
    ensures Digit(0) == '0' && Digit(1) == '1' && Digit(2) == '2' && Digit(3) == '3' && Digit(4) == '4'
    ensures Digit(5) == '5' && Digit(6) == '6' && Digit(7) == '7' && Digit(8) == '8' && Digit(9) == '9'
    ensures Dec(n)[0] == '0' <==> n == 0
    ensures n == 0 ==> Dec(n) == "0"
  {
    if n >= 10 {
      DecCanonical(n / 10);
    }
  }

  lemma DecInjective(m: nat, n: nat)
    requires Dec(m) == Dec(n)
    ensures m == n
  {
    DecRoundTrip(m);
    DecRoundTrip(n);
  }

  function Pow10(k: nat): nat { if k == 0 then 1 else 10 * Pow10(k - 1) }

  lemma {:induction false} DecLength(n: nat, k: nat)
    requires 1 <= k && n < Pow10(k)
    ensures |Dec(n)| <= k
  {
    if n >= 10 {
      assert k >= 2 by { assert Pow10(1) == 10; }
      DecLength(n / 10, k - 1);
    }
  }

  /** %d, and the invariant-culture text of a C# int */
  function SignedDec(i: int): string { if i < 0 then "-" + Dec(-i) else Dec(i) }

  lemma SignedDecForm(i: int)
    ensures SignedDec(i) != "" && (SignedDec(i)[0] == '-' <==> i < 0)
    ensures i < 0 ==> SignedDec(i)[1..] == Dec(-i)
  {
    DecRoundTrip(if i < 0 then -i else i);
    assert IsDigit(Dec(if i < 0 then -i else i)[0]);
  }

  lemma SignedDecInjective(i: int, j: int)
    requires SignedDec(i) == SignedDec(j)
    ensures i == j
  {
    SignedDecForm(i);
    SignedDecForm(j);
    DecInjective(if i < 0 then -i else i, if j < 0 then -j else j);
  }

  /** int.TryParse on a token without white space: an optional sign, digits, and the int32 range. */
  function TryParse(s: string): Option<int> {
    var negative := s != "" && s[0] == '-';
    var digits := if s != "" && (s[0] == '-' || s[0] == '+') then s[1..] else s;
    if digits == "" || !AllDigits(digits) then None
    else
      var v: int := if negative then -(Value(digits) as int) else Value(digits);
      if -INT_MAX - 1 <= v <= INT_MAX then Some(v) else None
  }

  lemma TryParseDec(n: nat)
    ensures TryParse(Dec(n)) == if n <= INT_MAX then Some(n) else None
  {
    DecRoundTrip(n);
    assert IsDigit(Dec(n)[0]);
  }

  // ---------------------------------------------------------------------------------------------
  // Lists with a one-character delimiter

  function IndexOf(s: string, c: char): (k: nat)
    ensures k <= |s|
    ensures k < |s| ==> s[k] == c
    ensures c !in s[..k]
  {
    if s == "" then 0
    else if s[0] == c then 0
    else
      var k := 1 + IndexOf(s[1..], c);
      assert s[..k] == [s[0]] + s[1..][..k - 1];
      k
  }

  /** string.Split(c) */
  function Split(s: string, c: char): (parts: seq<string>)
    ensures |parts| >= 1
  {
    var k := IndexOf(s, c);
    if k == |s| then [s] else [s[..k]] + Split(s[k + 1..], c)
  }

  /** string.Join(c, parts) */
  function Join(parts: seq<string>, c: char): string {
    if parts == [] then ""
    else if |parts| == 1 then parts[0]
    else parts[0] + [c] + Join(parts[1..], c)
  }

  predicate NoneHas(parts: seq<string>, c: char) {
    forall k :: 0 <= k < |parts| ==> c !in parts[k]
  }

  lemma {:induction false} IndexOfFirst(p: string, c: char, rest: string)
    requires c !in p
    ensures IndexOf(p + [c] + rest, c) == |p|
    ensures IndexOf(p, c) == |p|
  {
    if p != "" {
      IndexOfFirst(p[1..], c, rest);
      assert (p + [c] + rest)[1..] == p[1..] + [c] + rest;
    }
  }

  lemma {:induction false} SplitJoin(parts: seq<string>, c: char)
    requires |parts| >= 1 && NoneHas(parts, c)
    ensures Split(Join(parts, c), c) == parts
  {
    if |parts| == 1 {
      IndexOfFirst(parts[0], c, "");
    } else {
      var rest := Join(parts[1..], c);
      IndexOfFirst(parts[0], c, rest);
      SplitJoin(parts[1..], c);
      var s := Join(parts, c);
      assert s == parts[0] + [c] + rest;
      assert s[..|parts[0]|] == parts[0] && s[|parts[0]| + 1..] == rest;
    }
  }

  lemma JoinInjective(a: seq<string>, b: seq<string>, c: char)
    requires |a| >= 1 && |b| >= 1 && NoneHas(a, c) && NoneHas(b, c)
    requires Join(a, c) == Join(b, c)
    ensures a == b
  {
    SplitJoin(a, c);
    SplitJoin(b, c);
  }

  function NonEmpty(parts: seq<string>): seq<string> {
    if parts == [] then []
    else (if parts[0] == "" then [] else [parts[0]]) + NonEmpty(parts[1..])
  }

  /** string.Split(' ', RemoveEmptyEntries) */
  function Tokens(s: string): seq<string> { NonEmpty(Split(s, ' ')) }

  lemma {:induction false} NonEmptyIdentity(parts: seq<string>)
    requires forall k :: 0 <= k < |parts| ==> parts[k] != ""
    ensures NonEmpty(parts) == parts
  {
    if parts != [] {
      NonEmptyIdentity(parts[1..]);
    }
  }

  lemma TokensJoin(parts: seq<string>)
    requires |parts| >= 1 && NoneHas(parts, ' ')
    requires forall k :: 0 <= k < |parts| ==> parts[k] != ""
    ensures Tokens(Join(parts, ' ')) == parts
  {
    SplitJoin(parts, ' ');
    NonEmptyIdentity(parts);
  }

  /** The characters of a joined line are those of its parts and the delimiter. */
  lemma {:induction false} JoinLacks(parts: seq<string>, c: char, d: char)
    requires NoneHas(parts, d) && d != c
    ensures d !in Join(parts, c)
  {
    if |parts| > 1 {
      JoinLacks(parts[1..], c, d);
    }
  }

  function TotalLength(parts: seq<string>): nat {
    if parts == [] then 0 else |parts[0]| + TotalLength(parts[1..])
  }

  lemma TotalLengthStep(parts: seq<string>, k: nat)
    requires k < |parts|
    ensures TotalLength(parts[k..]) == |parts[k]| + TotalLength(parts[k + 1..])
  {
    assert parts[k..][1..] == parts[k + 1..];
  }

  lemma {:induction false} JoinLength(parts: seq<string>, c: char)
    requires parts != []
    ensures |Join(parts, c)| == TotalLength(parts) + |parts| - 1
  {
    if |parts| > 1 {
      JoinLength(parts[1..], c);
    }
  }

  // ---------------------------------------------------------------------------------------------
  // Addresses

  /** The four bytes of an address in decimal, highest first. */
  function OctetTexts(ip: Word32): seq<string> {
    [Dec(ip / 0x100_0000), Dec(ip / 0x1_0000 % 0x100), Dec(ip / 0x100 % 0x100), Dec(ip % 0x100)]
  }

  /** ipaddr_ntoa_r on a big-endian target */
  function Dotted(ip: Word32): string { Join(OctetTexts(ip), '.') }

  predicate IsAddressChar(c: char) { IsDigit(c) || c == '.' }

  predicate IsAddressToken(s: string) { forall k :: 0 <= k < |s| ==> IsAddressChar(s[k]) }

  lemma {:induction false} JoinedDigits(parts: seq<string>)
    requires forall k :: 0 <= k < |parts| ==> AllDigits(parts[k])
    ensures IsAddressToken(Join(parts, '.'))
  {
    if |parts| > 1 {
      JoinedDigits(parts[1..]);
    }
  }

  lemma OctetForm(x: nat)
    requires x < 256
    ensures 1 <= |Dec(x)| <= 3 && AllDigits(Dec(x))
  {
    DecRoundTrip(x);
    assert Pow10(1) == 10 && Pow10(2) == 100 && Pow10(3) == 1000;
    DecLength(x, 3);
  }

  lemma FourJoined(parts: seq<string>)
    requires |parts| == 4 && forall k :: 0 <= k < 4 ==> 1 <= |parts[k]| <= 3 && AllDigits(parts[k])
    ensures 7 <= |Join(parts, '.')| <= 15 && IsAddressToken(Join(parts, '.'))
  {
    JoinLength(parts, '.');
    assert parts[0..] == parts && parts[4..] == [];
    TotalLengthStep(parts, 0);
    TotalLengthStep(parts, 1);
    TotalLengthStep(parts, 2);
    TotalLengthStep(parts, 3);
    JoinedDigits(parts);
  }

  /** An address is at most 15 characters, so it always fits the 16-byte buffers. */
  lemma DottedForm(ip: Word32)
    ensures 7 <= |Dotted(ip)| <= 15 && IsAddressToken(Dotted(ip))
  {
    OctetForm(ip / 0x100_0000);
    OctetForm(ip / 0x1_0000 % 0x100);
    OctetForm(ip / 0x100 % 0x100);
    OctetForm(ip % 0x100);
    FourJoined(OctetTexts(ip));
  }

  lemma DottedInjective(x: Word32, y: Word32)
    requires Dotted(x) == Dotted(y)
    ensures x == y
  {
    DottedDenotes(x);
    DottedDenotes(y);
  }

  // ---------------------------------------------------------------------------------------------
  // What a dotted text denotes

  predicate IsOctet(s: string) { s != "" && AllDigits(s) && Value(s) < 256 }

  /** The address a text stands for: four octets with the most significant one first. */
  function AddressOf(s: string): Option<Word32> {
    var p := Split(s, '.');
    if |p| == 4 && IsOctet(p[0]) && IsOctet(p[1]) && IsOctet(p[2]) && IsOctet(p[3]) then
      Some(((Value(p[0]) * 256 + Value(p[1])) * 256 + Value(p[2])) * 256 + Value(p[3]))
    else
      None
  }

  lemma OctetDenotes(x: nat)
    requires x < 256
    ensures IsOctet(Dec(x)) && Value(Dec(x)) == x && '.' !in Dec(x)
  {
    DecRoundTrip(x);
  }

  /** The text of an address denotes that address. */
  lemma DottedDenotes(ip: Word32)
    ensures AddressOf(Dotted(ip)) == Some(ip)
  {
    var p := OctetTexts(ip);
    OctetDenotes(ip / 0x100_0000);
    OctetDenotes(ip / 0x1_0000 % 0x100);
    OctetDenotes(ip / 0x100 % 0x100);
    OctetDenotes(ip % 0x100);
    SplitJoin(p, '.');
    Octets(ip);
  }

  lemma Octets(x: Word32)
    ensures x == ((x / 0x100_0000 * 0x100 + x / 0x1_0000 % 0x100) * 0x100 + x / 0x100 % 0x100) * 0x100 + x % 0x100
  {
    assert x / 0x1_0000 == x / 0x100_0000 * 0x100 + x / 0x1_0000 % 0x100;
    assert x / 0x100 == x / 0x1_0000 * 0x100 + x / 0x100 % 0x100;
  }
}
