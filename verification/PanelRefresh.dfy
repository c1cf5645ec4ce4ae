/**
 The panel's refresh against the board: what it draws from the answer to NETIF LIST, and how it can be
 handed an empty list although the board always has an interface.
 */
module PanelRefresh {
  import opened Words
  import opened Text
  import opened NetManager
  import opened Protocol
  import opened Listing
  import opened SerialManager
  import opened CommandChannel
  import opened EndToEnd
  import opened Panel

  /** What RefreshNetifsAsync makes of a response: nothing unless it is OK. */
  function AnswerOf(r: Response): Option<seq<NetifInfo>> {
    if r.status == "OK" then Some(ParseLines([], r.data)) else None
  }

  function Listed(b: Board): seq<NetifInfo> { Displayed(b, |b.netifs|) }

  /** The board always lists its physical interface, and prints addresses in digits and dots. */
  lemma ListingHasTokens(b: Board)
    requires Inv(b)
    ensures Listed(b) != [] && AllTokens(Listed(b))
  {
    assert PHYSICAL in Ptrs(b.netifs);
    forall k | 0 <= k < |Listed(b)|
      ensures HasAddressTokens(Listed(b)[k])
    {
      DisplayedAt(b, |b.netifs|, k);
      DottedForm(b.netifs[k].ip);
      DottedForm(b.netifs[k].mask);
      DottedForm(b.netifs[k].gw);
    }
  }

  lemma ListAnswer(b: Board, env: Env)
    requires Inv(b)
    ensures AnswerOf(Expected(ReplyOf(Dispatch(b, "NETIF LIST", env).1))) == Some(Listed(b))
  {
    ListingRoundTrip(b);
  }

  /** Every list the panel was given came from some board, or from the late answer to an edit. */
  ghost predicate FromBoards(actions: seq<Action>) {
    forall k :: 0 <= k < |actions| && !actions[k].Disconnect? && actions[k].answer.Some? && actions[k].answer.value != [] ==>
      exists b :: Inv(b) && actions[k].answer.value == Listed(b)
  }

  lemma BoardAnswersHaveTokens(actions: seq<Action>)
    requires FromBoards(actions)
    ensures AnswersHaveTokens(actions)
  {
    forall k | 0 <= k < |actions| && !actions[k].Disconnect? && actions[k].answer.Some? && actions[k].answer.value != []
      ensures AllTokens(actions[k].answer.value)
    {
      var b :| Inv(b) && actions[k].answer.value == Listed(b);
      ListingHasTokens(b);
    }
  }

  /** After every run of refreshes, forced refreshes and disconnects, on any answers whose addresses are
      digits and dots, a refresh that gets the board's own answer shows that board. */
  lemma RefreshShowsBoard(actions: seq<Action>, b: Board, env: Env)
    requires AnswersHaveTokens(actions) && Inv(b)
    ensures var s := Acts(Screen("", []), actions);
            var answer := AnswerOf(Expected(ReplyOf(Dispatch(b, "NETIF LIST", env).1)));
            SameData(Refresh(s, answer).shown, Listed(b))
  {
    ListAnswer(b, env);
    ListingHasTokens(b);
    RefreshShowsAnswer(actions, Listed(b));
  }

  /** An edit that timed out is answered late: its block completes NETIF LIST with OK and an empty list. */
  lemma EmptyAnswerArrives(h: Collector, b: Board, env: Env)
    requires Inv(b)
    ensures var late, own := ReplyOf(Frame("NETIFSET", "OK", [])), ReplyOf(Dispatch(b, "NETIF LIST", env).1);
            var answers := ProcessLines(Begun(h), ReplyLines(late) + ReplyLines(own)).answers;
            |answers| == 2 && AnswerOf(answers[0]) == Some([]) && AnswerOf(answers[1]) == Some(Listed(b))
  {
    LateEditIsFramed();
    EveryReplyIsFramed(b, "NETIF LIST", env);
    WholeLateReply(h, ReplyOf(Frame("NETIFSET", "OK", [])), ReplyOf(Dispatch(b, "NETIF LIST", env).1));
    ListAnswer(b, env);
  }

  lemma LateEditIsFramed()
    ensures var late := ReplyOf(Frame("NETIFSET", "OK", []));
            IsFramed(late) && Expected(late) == Response("NETIFSET", "OK", [])
  {
    BlockNames();
    CommonStatuses();
    FrameIsFramed("NETIFSET", "OK", []);
    assert Texts([]) == [];
  }

  /** The forced refresh after that edit meets the empty list and leaves every card of the board's earlier
      listing on the screen, while an ordinary refresh would have cleared it. */
  lemma LateEditKeepsCards(h: Collector, shown: Board, b: Board, env: Env)
    requires Inv(shown) && Inv(b)
    ensures var late, own := ReplyOf(Frame("NETIFSET", "OK", [])), ReplyOf(Dispatch(b, "NETIF LIST", env).1);
            var answers := ProcessLines(Begun(h), ReplyLines(late) + ReplyLines(own)).answers;
            && answers != []
            && Acts(Screen("", []), [Poll(Some(Listed(shown))), Force(AnswerOf(answers[0]))]).shown == Listed(shown)
            && Acts(Screen("", []), [Poll(Some(Listed(shown))), Poll(AnswerOf(answers[0]))]).shown == []
  {
    EmptyAnswerArrives(h, b, env);
    ListingHasTokens(shown);
    ForcedEmptyRefreshKeepsCards(Listed(shown));
  }

  /** It does not last: the next answer of the board's own repairs the screen. */
  lemma CardsAreRepaired(shown: Board, b: Board, env: Env)
    requires Inv(shown) && Inv(b)
    ensures var s := Acts(Screen("", []), [Poll(Some(Listed(shown))), Force(Some([]))]);
            var answer := AnswerOf(Expected(ReplyOf(Dispatch(b, "NETIF LIST", env).1)));
            SameData(Refresh(s, answer).shown, Listed(b))
  {
    var actions := [Poll(Some(Listed(shown))), Force(Some([]))];
    assert FromBoards(actions);
    BoardAnswersHaveTokens(actions);
    RefreshShowsBoard(actions, b, env);
  }
}
