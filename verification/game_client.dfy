/** The game client's handling of the lines the server sends: the
    dispatch on the line's shape, the question decoder, the roster decoder
    and the join/leave updater of the player list.

    The listener interfaces are recorded as events: each callback the
    client makes is appended, in order, to `events`. Whether a listener is
    registered is a flag fixed when the client is built. */
module GameClient {
  import opened JavaLib
  import opened QuestionManager
  import opened GameServer

  /** One listener callback. */
  datatype Event =
    | MessageReceived(message: string)
    | HostStatusReceived(isHost: bool)
    | PlayerListReceived(names: seq<string>)
    | QuestionReceived(question: string, answers: seq<string>, correctIndex: int)

  // ---------------------------------------------------------------------
  // The question line
  // ---------------------------------------------------------------------

  /** What `handleQuestionMessage` reads from a line: `None` unless the
      line splits on '|' into exactly four parts whose last one is an
      `int` (a NumberFormatException is swallowed). The answers are the
      third part split on ','. */
  function DecodeQuestion(message: string): (r: Option<QuestionData>)
    ensures var parts := Split(message, '|');
      r.Some? <==> |parts| == 4 && ParseInt(parts[3]).Some?
    ensures r.Some? ==> var parts := Split(message, '|');
      && r.value.question == parts[1]
      && r.value.answers == Split(parts[2], ',')
      && Some(r.value.correctIndex) == ParseInt(parts[3])
    ensures r.Some? ==> '|' !in r.value.question && IsInt32(r.value.correctIndex)
    ensures r.Some? ==> forall i :: 0 <= i < |r.value.answers| ==> '|' !in r.value.answers[i] && ',' !in r.value.answers[i]
  {
    var parts := Split(message, '|');
    if |parts| != 4 then None
    else
      match ParseInt(parts[3])
      case None => None
      case Some(correctIndex) =>
        var answers := Split(parts[2], ',');
        assert forall i :: 0 <= i < |answers| ==> '|' !in answers[i] by {
          forall i | 0 <= i < |answers| ensures '|' !in answers[i] {
            AnswersInsidePart(parts[2], i);
          }
        }
        Some(QuestionData(parts[1], answers, correctIndex))
  }

  /** Every piece of a string is a run of its characters. */
  lemma {:induction false} PieceCharsFromString(s: string, d: char, c: char)
    requires c !in s
    ensures forall i :: 0 <= i < |Pieces(s, d)| ==> c !in Pieces(s, d)[i]
  {
    if s != [] {
      PieceCharsFromString(s[1..], d, c);
      assert c != s[0];
    }
  }

  /** The answers split out of a part hold no character the part lacks. */
  lemma AnswersInsidePart(part: string, i: nat)
    requires '|' !in part
    requires i < |Split(part, ',')|
    ensures '|' !in Split(part, ',')[i]
  {
    if ',' in part {
      PieceCharsFromString(part, ',', '|');
    }
  }

  /** Encoding round trip: the client reads back exactly the question,
      answers and index the server's `getQuestion` line carries, as long as
      neither the text nor an answer holds '|', no answer holds ',', there
      is an answer and the last one is not empty (Java's split would drop
      it), and the index is an `int`. */
  lemma QuestionRoundTrip(q: QuestionData)
    requires '|' !in q.question
    requires forall i :: 0 <= i < |q.answers| ==> '|' !in q.answers[i] && ',' !in q.answers[i]
    requires |q.answers| >= 1 && q.answers[|q.answers| - 1] != ""
    requires IsInt32(q.correctIndex)
    ensures DecodeQuestion(QuestionMessage(q)) == Some(q)
  {
    var joined := Join(q.answers, ',');
    var index := IntToString(q.correctIndex);
    var parts := ["question", q.question, joined, index];
    QuestionMessageParts(q);
    JoinAvoids(q.answers, ',', '|');
    assert '|' !in index;
    assert '|' !in "question";
    SplitOfJoin(parts, '|');
    SplitOfJoin(q.answers, ',');
    ParseIntOfToString(q.correctIndex);
  }

  /** The server's question line is the join, on '|', of the tag, the
      text, the answers joined on ',' and the printed index. */
  lemma QuestionMessageParts(q: QuestionData)
    ensures QuestionMessage(q)
         == Join(["question", q.question, Join(q.answers, ','), IntToString(q.correctIndex)], '|')
  {
    var joined := Join(q.answers, ',');
    var index := IntToString(q.correctIndex);
    var parts := ["question", q.question, joined, index];
    assert parts[1..][1..] == [joined, index];
    assert Join([joined, index], '|') == joined + "|" + index;
  }

  // ---------------------------------------------------------------------
  // The roster line
  // ---------------------------------------------------------------------

  /** The elements of `xs` that are not empty, in order. */
  function NonEmpty(xs: seq<string>): (r: seq<string>)
    ensures |r| <= |xs|
    ensures forall i :: 0 <= i < |r| ==> r[i] != ""
  {
    if xs == [] then []
    else
      var last := xs[|xs| - 1];
      NonEmpty(xs[..|xs| - 1]) + if last == "" then [] else [last]
  }

  /** `NonEmpty` keeps exactly the non-empty elements. */
  lemma {:induction false} NonEmptyMembers(xs: seq<string>)
    ensures forall s :: s in NonEmpty(xs) <==> s in xs && s != ""
  {
    if xs != [] {
      var init := xs[..|xs| - 1];
      NonEmptyMembers(init);
      assert xs == init + [xs[|xs| - 1]];
    }
  }

  /** A list without empty elements passes through `NonEmpty` unchanged. */
  lemma {:induction false} NonEmptyOfNames(xs: seq<string>)
    requires forall i :: 0 <= i < |xs| ==> xs[i] != ""
    ensures NonEmpty(xs) == xs
  {
    if xs != [] {
      NonEmptyOfNames(xs[..|xs| - 1]);
    }
  }

  /** The names `handlePlayerListMessage` keeps from a "players|..." line:
      the non-empty pieces of the rest of the line split on ','. */
  function RosterNames(message: string): (names: seq<string>)
    requires StartsWith(message, "players|")
    ensures forall i :: 0 <= i < |names| ==> names[i] != ""
  {
    NonEmpty(Split(message[|"players|"|..], ','))
  }

  /** A roster line built by joining names with ',' gives the names back,
      provided none of them is empty or holds ','. */
  lemma RosterRoundTrip(names: seq<string>)
    requires forall i :: 0 <= i < |names| ==> names[i] != "" && ',' !in names[i]
    ensures RosterNames("players|" + Join(names, ',')) == names
  {
    var message := "players|" + Join(names, ',');
    assert message[|"players|"|..] == Join(names, ',');
    if names == [] {
      assert Split("", ',') == [""];
    } else {
      SplitOfJoin(names, ',');
      NonEmptyOfNames(names);
    }
  }

  // ---------------------------------------------------------------------
  // Join and leave lines
  // ---------------------------------------------------------------------

  /** What `handlePlayerUpdateMessage` does to the list. */
  datatype RosterChange =
    | Add(name: string)
    | Remove(name: string)
    | NoChange
    | OutOfBounds   // `substring` throws: the line is too short for the cut

  /** The change a "Player ..." line asks for. A line ending in "joined"
      adds the trimmed text between the 7-character prefix and the
      7-character suffix " joined"; a line ending in "left" removes the
      trimmed text between the prefix and the 5-character suffix " left";
      any other line changes nothing. */
  function PlayerUpdate(message: string): (r: RosterChange)
    ensures r.Add? <==> EndsWith(message, "joined") && |message| >= 14
    ensures r.Remove? <==> !EndsWith(message, "joined") && EndsWith(message, "left") && |message| >= 12
    ensures r.NoChange? <==> !EndsWith(message, "joined") && !EndsWith(message, "left")
    ensures (r.Add? || r.Remove?) ==> IsTrimmed(r.name)
  {
    if EndsWith(message, "joined") then
      if |message| - 7 < 7 then OutOfBounds else Add(Trim(message[7..|message| - 7]))
    else if EndsWith(message, "left") then
      if |message| - 5 < 7 then OutOfBounds else Remove(Trim(message[7..|message| - 5]))
    else NoChange
  }

  /** The list after a change: `add` appends the name at the end, `remove`
      takes away one occurrence of the name (if any), and nothing else
      touches the list. */
  function Apply(names: seq<string>, change: RosterChange): (r: seq<string>)
    ensures change.Add? ==> |r| == |names| + 1 && r[..|names|] == names && r[|names|] == change.name
    ensures change.Remove? ==> multiset(r) == multiset(names) - multiset{change.name}
    ensures !change.Add? && !change.Remove? ==> r == names
  {
    match change
    case Add(name) => names + [name]
    case Remove(name) => RemoveFirstMultiset(names, name); RemoveFirst(names, name)
    case _ => names
  }

  /** A join line for a trimmed name adds exactly that name. */
  lemma JoinLineRoundTrip(name: string)
    requires IsTrimmed(name)
    ensures PlayerUpdate("Player " + name + " joined") == Add(name)
  {
    var m := "Player " + name + " joined";
    assert m[|m| - 6..] == "joined";
    assert m[7..|m| - 7] == name;
  }

  /** A leave line for a trimmed name removes exactly that name. */
  lemma LeaveLineRoundTrip(name: string)
    requires IsTrimmed(name)
    ensures PlayerUpdate("Player " + name + " left") == Remove(name)
  {
    var m := "Player " + name + " left";
    assert m[|m| - 4..] == "left";
    assert m[|m| - 1] == 't';
    assert m[7..|m| - 5] == name;
  }

  /** A join line followed by the leave line of the same trimmed name,
      absent before, leaves the list as it was. */
  lemma JoinThenLeave(names: seq<string>, name: string)
    requires IsTrimmed(name) && name !in names
    ensures Apply(Apply(names, PlayerUpdate("Player " + name + " joined")),
                  PlayerUpdate("Player " + name + " left")) == names
  {
    JoinLineRoundTrip(name);
    LeaveLineRoundTrip(name);
    RemoveFirstOfAppended(names, name);
  }

  /** The server's "Player joined. Total players: n" and "Player n answered
      correctly!" lines start like a join or leave line but end in neither
      "joined" nor "left": they leave the list as it is. */
  lemma ServerAnnouncementsKeepRoster(total: nat, id: int)
    ensures StartsWith(JoinedText(total), "Player ") && PlayerUpdate(JoinedText(total)) == NoChange
    ensures StartsWith(CorrectText(id), "Player ") && PlayerUpdate(CorrectText(id)) == NoChange
  {
    var j := JoinedText(total);
    assert j[..7] == "Player ";
    assert IsDigit(j[|j| - 1]);
    var c := CorrectText(id);
    assert c[..7] == "Player ";
    assert c[|c| - 1] == '!';
  }

  // ---------------------------------------------------------------------
  // The client
  // ---------------------------------------------------------------------

  /** The callback a player-list listener gets, if one is registered. */
  function ListNotice(hasListener: bool, names: seq<string>): seq<Event> {
    if hasListener then [PlayerListReceived(names)] else []
  }

  class Client {
    /** The player names shown to the user. */
    var playerNames: seq<string>
    var isHost: bool
    /** Which listeners are registered. */
    const hasMessageListener: bool
    const hasPlayerJoinListener: bool
    const hasQuestionListener: bool
    const hasHostStatusListener: bool
    /** Whether the thread reading the server's lines is still running. */
    var listening: bool
    /** Every listener callback so far, in order. */
    var events: seq<Event>

    /** A client before its first line: no names, not the host. */
    constructor (messageListener: bool, playerJoinListener: bool, questionListener: bool, hostStatusListener: bool)
      ensures playerNames == [] && !isHost && listening && events == []
      ensures hasMessageListener == messageListener && hasPlayerJoinListener == playerJoinListener
      ensures hasQuestionListener == questionListener && hasHostStatusListener == hostStatusListener
    {
      playerNames := [];
      isHost := false;
      hasMessageListener := messageListener;
      hasPlayerJoinListener := playerJoinListener;
      hasQuestionListener := questionListener;
      hasHostStatusListener := hostStatusListener;
      listening := true;
      events := [];
    }

    /** `handleQuestionMessage(message)`: a well-formed question line is
        passed to the question listener; anything else is dropped. */
    method HandleQuestionMessage(message: string)
      modifies this`events
      ensures var d := DecodeQuestion(message);
        events == old(events) + if hasQuestionListener && d.Some? then
          [QuestionReceived(d.value.question, d.value.answers, d.value.correctIndex)] else []
    {
      var parts := Split(message, '|');
      if |parts| == 4 {
        var question := parts[1];
        var answers := Split(parts[2], ',');
        var correctIndex := ParseInt(parts[3]);
        if correctIndex.None? {
          return;
        }
        if hasQuestionListener {
          events := events + [QuestionReceived(question, answers, correctIndex.value)];
        }
      }
    }

    /** `handlePlayerListMessage(message)`: the list is cleared and refilled
        with the line's non-empty names, whatever it held before (so the
        same line twice gives the same list), and the listener is told. */
    method HandlePlayerListMessage(message: string)
      requires StartsWith(message, "players|")
      modifies this`playerNames, this`events
      ensures playerNames == RosterNames(message)
      ensures forall i :: 0 <= i < |playerNames| ==> playerNames[i] != ""
      ensures events == old(events) + ListNotice(hasPlayerJoinListener, playerNames)
    {
      var playerListStr := message[|"players|"|..];
      var players := Split(playerListStr, ',');
      playerNames := [];
      var i := 0;
      while i < |players|
        invariant 0 <= i <= |players|
        invariant playerNames == NonEmpty(players[..i])
        invariant events == old(events)
      {
        assert players[..i + 1][..i] == players[..i];
        if players[i] != "" {
          playerNames := playerNames + [players[i]];
        }
        i := i + 1;
      }
      assert players[..i] == players;
      if hasPlayerJoinListener {
        events := events + [PlayerListReceived(playerNames)];
      }
    }

    /** `handlePlayerUpdateMessage(message)`: applies the change the line
        asks for and tells the listener, unless the cut is out of bounds;
        then the exception ends the reading thread (`alive` is false) and
        nothing changes. */
    method HandlePlayerUpdateMessage(message: string) returns (alive: bool)
      modifies this`playerNames, this`events
      ensures alive == !PlayerUpdate(message).OutOfBounds?
      ensures playerNames == Apply(old(playerNames), PlayerUpdate(message))
      ensures !alive ==> events == old(events)
      ensures alive ==> events == old(events) + ListNotice(hasPlayerJoinListener, playerNames)
    {
      var playerName := message;
      if EndsWith(message, "joined") {
        if |playerName| - 7 < 7 {
          return false;
        }
        playerName := Trim(playerName[7..|playerName| - 7]);
        assert Apply(playerNames, PlayerUpdate(message)) == playerNames + [playerName];
        playerNames := playerNames + [playerName];
      } else if EndsWith(message, "left") {
        if |playerName| - 5 < 7 {
          return false;
        }
        playerName := Trim(playerName[7..|playerName| - 5]);
        assert Apply(playerNames, PlayerUpdate(message)) == RemoveFirst(playerNames, playerName);
        playerNames := RemoveFirst(playerNames, playerName);
      }
      if hasPlayerJoinListener {
        events := events + [PlayerListReceived(playerNames)];
      }
      alive := true;
    }

    /** One pass of the reading loop in `listenForMessages`. With a
        message listener registered the line goes to it and nothing else
        happens. Otherwise exactly the first matching branch runs: "Host"
        makes this client the host, "players|" replaces the list, "Player "
        updates it, "question|" decodes a question; other lines are
        dropped. */
    method Dispatch(message: string)
      requires listening
      modifies this`playerNames, this`isHost, this`events, this`listening
      ensures if hasMessageListener then
          && playerNames == old(playerNames) && isHost == old(isHost) && listening
          && events == old(events) + [MessageReceived(message)]
        else if message == "Host" then
          && playerNames == old(playerNames) && isHost && listening
          && events == old(events) + if hasHostStatusListener then [HostStatusReceived(true)] else []
        else if StartsWith(message, "players|") then
          && playerNames == RosterNames(message) && isHost == old(isHost) && listening
          && events == old(events) + ListNotice(hasPlayerJoinListener, playerNames)
        else if StartsWith(message, "Player ") then
          && playerNames == Apply(old(playerNames), PlayerUpdate(message)) && isHost == old(isHost)
          && listening == !PlayerUpdate(message).OutOfBounds?
          && events == old(events) + if listening then ListNotice(hasPlayerJoinListener, playerNames) else []
        else if StartsWith(message, "question|") then
          && playerNames == old(playerNames) && isHost == old(isHost) && listening
          && var d := DecodeQuestion(message);
             events == old(events) + if hasQuestionListener && d.Some? then
               [QuestionReceived(d.value.question, d.value.answers, d.value.correctIndex)] else []
        else
          playerNames == old(playerNames) && isHost == old(isHost) && listening && events == old(events)
    {
      if hasMessageListener {
        events := events + [MessageReceived(message)];
      } else if message == "Host" {
        isHost := true;
        if hasHostStatusListener {
          events := events + [HostStatusReceived(true)];
        }
      } else if StartsWith(message, "players|") {
        HandlePlayerListMessage(message);
      } else if StartsWith(message, "Player ") {
        listening := HandlePlayerUpdateMessage(message);
      } else if StartsWith(message, "question|") {
        HandleQuestionMessage(message);
      }
    }
  }
}
