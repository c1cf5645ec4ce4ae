/** The panel's change signature, and the decision not to redraw when it has not changed. */
module Panel {
  import opened Words
  import opened Text
  import opened Protocol

  function PortTexts(sockets: seq<SocketInfo>): seq<string> {
    seq(|sockets|, k requires 0 <= k < |sockets| => SignedDec(sockets[k].port))
  }

  function FieldsOf(n: NetifInfo): seq<string> {
    [SignedDec(n.index), n.ip, n.mask, n.gw, Join(PortTexts(n.sockets), '+')]
  }

  function Entries(netifs: seq<NetifInfo>): seq<string> {
    seq(|netifs|, k requires 0 <= k < |netifs| => Join(FieldsOf(netifs[k]), ','))
  }

  function BuildSignature(netifs: seq<NetifInfo>): string { Join(Entries(netifs), '|') }

  /** Addresses as the board prints them: digits and dots. */
  predicate HasAddressTokens(n: NetifInfo) { IsAddressToken(n.ip) && IsAddressToken(n.mask) && IsAddressToken(n.gw) }

  predicate AllTokens(netifs: seq<NetifInfo>) { forall k :: 0 <= k < |netifs| ==> HasAddressTokens(netifs[k]) }

  /** The data of two interfaces agree: everything but the ordinal numbers of the sockets. */
  predicate SameInterface(a: NetifInfo, b: NetifInfo) {
    && a.index == b.index && a.ip == b.ip && a.mask == b.mask && a.gw == b.gw
    && |a.sockets| == |b.sockets|
    && forall k :: 0 <= k < |a.sockets| ==> a.sockets[k].port == b.sockets[k].port
  }

  predicate SameData(a: seq<NetifInfo>, b: seq<NetifInfo>) {
    |a| == |b| && forall k :: 0 <= k < |a| ==> SameInterface(a[k], b[k])
  }

  // ---------------------------------------------------------------------------------------------
  // The signature is injective

  lemma SignedDecChars(i: int)
    ensures SignedDec(i) != "" && forall c :: c in SignedDec(i) ==> IsDigit(c) || c == '-'
  {
    DecRoundTrip(if i < 0 then -i else i);
  }

  lemma {:induction false} JoinChars(parts: seq<string>, sep: char)
    ensures forall c :: c in Join(parts, sep) ==> c == sep || exists k :: 0 <= k < |parts| && c in parts[k]
  {
    if |parts| > 1 {
      JoinChars(parts[1..], sep);
      forall c | c in Join(parts[1..], sep) && c != sep
        ensures exists k :: 0 <= k < |parts| && c in parts[k]
      {
        var k :| 0 <= k < |parts[1..]| && c in parts[1..][k];
        assert c in parts[k + 1];
      }
    }
  }

  lemma PortTextsChars(sockets: seq<SocketInfo>)
    ensures NoneHas(PortTexts(sockets), '+')
    ensures forall k :: 0 <= k < |sockets| ==> PortTexts(sockets)[k] != ""
    ensures forall c :: c in Join(PortTexts(sockets), '+') ==> IsDigit(c) || c == '-' || c == '+'
  {
    forall k | 0 <= k < |sockets|
      ensures PortTexts(sockets)[k] != "" && forall c :: c in PortTexts(sockets)[k] ==> IsDigit(c) || c == '-'
    {
      SignedDecChars(sockets[k].port);
    }
    JoinChars(PortTexts(sockets), '+');
  }

  lemma FieldsChars(n: NetifInfo)
    requires HasAddressTokens(n)
    ensures NoneHas(FieldsOf(n), ',') && NoneHas(FieldsOf(n), '|')
    ensures Join(FieldsOf(n), ',') != "" && '|' !in Join(FieldsOf(n), ',')
  {
    SignedDecChars(n.index);
    PortTextsChars(n.sockets);
    JoinLacks(FieldsOf(n), ',', '|');
    JoinLength(FieldsOf(n), ',');
  }

  lemma JoinedNonEmpty(parts: seq<string>, c: char)
    requires parts != [] && forall k :: 0 <= k < |parts| ==> parts[k] != ""
    ensures Join(parts, c) != ""
  {
    assert parts[0] != "";
  }

  lemma SamePorts(a: seq<SocketInfo>, b: seq<SocketInfo>)
    requires Join(PortTexts(a), '+') == Join(PortTexts(b), '+')
    ensures |a| == |b| && forall k :: 0 <= k < |a| ==> a[k].port == b[k].port
  {
    PortTextsChars(a);
    PortTextsChars(b);
    if a != [] { JoinedNonEmpty(PortTexts(a), '+'); }
    if b != [] { JoinedNonEmpty(PortTexts(b), '+'); }
    if a != [] && b != [] {
      JoinInjective(PortTexts(a), PortTexts(b), '+');
      forall k | 0 <= k < |a|
        ensures a[k].port == b[k].port
      {
        assert PortTexts(a)[k] == PortTexts(b)[k];
        SignedDecInjective(a[k].port, b[k].port);
      }
    }
  }

  lemma SameEntry(a: NetifInfo, b: NetifInfo)
    requires HasAddressTokens(a) && HasAddressTokens(b) && Join(FieldsOf(a), ',') == Join(FieldsOf(b), ',')
    ensures SameInterface(a, b)
  {
    FieldsChars(a);
    FieldsChars(b);
    JoinInjective(FieldsOf(a), FieldsOf(b), ',');
    var fa, fb := FieldsOf(a), FieldsOf(b);
    assert fa[0] == fb[0] && fa[1] == fb[1] && fa[2] == fb[2] && fa[3] == fb[3] && fa[4] == fb[4];
    SignedDecInjective(a.index, b.index);
    SamePorts(a.sockets, b.sockets);
  }

  /** Equal signatures mean equal data, and the other way round. */
  lemma SignatureIsInjective(a: seq<NetifInfo>, b: seq<NetifInfo>)
    requires AllTokens(a) && AllTokens(b)
    ensures BuildSignature(a) == BuildSignature(b) <==> SameData(a, b)
    ensures BuildSignature(a) == "" <==> a == []
  {
    EntriesChars(a);
    EntriesChars(b);
    if a != [] { JoinedNonEmpty(Entries(a), '|'); }
    if b != [] { JoinedNonEmpty(Entries(b), '|'); }
    if a != [] && b != [] && BuildSignature(a) == BuildSignature(b) {
      JoinInjective(Entries(a), Entries(b), '|');
      forall k | 0 <= k < |a|
        ensures SameInterface(a[k], b[k])
      {
        assert Entries(a)[k] == Entries(b)[k];
        SameEntry(a[k], b[k]);
      }
    }
    if SameData(a, b) {
      forall k | 0 <= k < |a|
        ensures Entries(a)[k] == Entries(b)[k]
      {
        assert PortTexts(a[k].sockets) == PortTexts(b[k].sockets);
      }
      assert Entries(a) == Entries(b);
    }
  }

  lemma EntriesChars(netifs: seq<NetifInfo>)
    requires AllTokens(netifs)
    ensures NoneHas(Entries(netifs), '|') && forall k :: 0 <= k < |netifs| ==> Entries(netifs)[k] != ""
  {
    forall k | 0 <= k < |netifs|
      ensures '|' !in Entries(netifs)[k] && Entries(netifs)[k] != ""
    {
      FieldsChars(netifs[k]);
    }
  }

  // ---------------------------------------------------------------------------------------------
  // Refreshing

  // last: _lastSignature; shown: _netifs, from which the cards were built.
  datatype Screen = Screen(last: string, shown: seq<NetifInfo>)

  // Answer: the list parsed from an OK response, or None when the command failed or timed out.
  datatype Action = Poll(answer: Option<seq<NetifInfo>>) | Force(answer: Option<seq<NetifInfo>>) | Disconnect

  function Refresh(s: Screen, answer: Option<seq<NetifInfo>>): Screen {
    match answer
    case None => s
    case Some(netifs) => if BuildSignature(netifs) == s.last then s else Screen(BuildSignature(netifs), netifs)
  }

  function Act(s: Screen, a: Action): Screen {
    match a
    case Poll(answer) => Refresh(s, answer)
    case Force(answer) => Refresh(s.(last := ""), answer)
    case Disconnect => Screen("", [])
  }

  function Acts(s: Screen, actions: seq<Action>): Screen {
    if actions == [] then s else Act(Acts(s, actions[..|actions| - 1]), actions[|actions| - 1])
  }

  ghost predicate AnswersHaveTokens(actions: seq<Action>) {
    forall k :: 0 <= k < |actions| && !actions[k].Disconnect? && actions[k].answer.Some? ==> AllTokens(actions[k].answer.value)
  }

  ghost predicate ScreenGood(s: Screen) { AllTokens(s.shown) && (s.last == "" || s.last == BuildSignature(s.shown)) }

  lemma {:induction false} ScreensStayGood(actions: seq<Action>)
    requires AnswersHaveTokens(actions)
    ensures ScreenGood(Acts(Screen("", []), actions))
  {
    if actions != [] {
      var front := actions[..|actions| - 1];
      assert forall k :: 0 <= k < |front| ==> front[k] == actions[k];
      ScreensStayGood(front);
    }
  }

  /** In every run, after a refresh with an answer the screen shows that answer, except in one case:
      the signature had been cleared, the answer is the empty list, and something was on the screen.
      A refresh without one leaves the cards. */
  lemma RefreshShowsAnswer(actions: seq<Action>, netifs: seq<NetifInfo>)
    requires AnswersHaveTokens(actions) && AllTokens(netifs)
    ensures var s := Acts(Screen("", []), actions);
            SameData(Refresh(s, Some(netifs)).shown, netifs) <==> !(s.last == "" && netifs == [] && s.shown != [])
    ensures forall s: Screen :: Act(s, Poll(None)) == s && Act(s, Force(None)).shown == s.shown
  {
    var s := Acts(Screen("", []), actions);
    ScreensStayGood(actions);
    SignatureIsInjective(s.shown, netifs);
    SignatureIsInjective(netifs, netifs);
  }

  /** On an empty answer a forced refresh leaves the old cards, where an ordinary one clears the screen. */
  lemma ForcedEmptyRefreshKeepsCards(netifs: seq<NetifInfo>)
    requires netifs != [] && AllTokens(netifs)
    ensures Acts(Screen("", []), [Poll(Some(netifs)), Force(Some([]))]).shown == netifs
    ensures Acts(Screen("", []), [Poll(Some(netifs)), Poll(Some([]))]).shown == []
  {
    SignatureIsInjective(netifs, []);
    assert BuildSignature([]) == "";
    TwoActs(Poll(Some(netifs)), Force(Some([])));
    TwoActs(Poll(Some(netifs)), Poll(Some([])));
  }

  lemma TwoActs(a: Action, c: Action)
    ensures Acts(Screen("", []), [a, c]) == Act(Act(Screen("", []), a), c)
  {
    assert [a, c][..1] == [a] && [a][..0] == [];
    assert Acts(Screen("", []), [a]) == Act(Screen("", []), a);
  }

  class Form {
    var lastSignature: string
    var netifs: seq<NetifInfo>

    ghost function View(): Screen
      reads this
    {
      Screen(lastSignature, netifs)
    }

    constructor ()
      ensures View() == Screen("", [])
    {
      lastSignature, netifs := "", [];
    }

    method RefreshNetifs(answer: Option<seq<NetifInfo>>)
      modifies this
      ensures View() == Act(old(View()), Poll(answer))
    {
      if answer.None? { return; }
      var sig := BuildSignature(answer.value);
      if sig == lastSignature { return; }
      lastSignature := sig;
      netifs := answer.value;
    }

    method ForceRefresh(answer: Option<seq<NetifInfo>>)
      modifies this
      ensures View() == Act(old(View()), Force(answer))
    {
      lastSignature := "";
      RefreshNetifs(answer);
    }
  }
}
