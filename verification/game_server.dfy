/** The websocket game server: the table of registered sessions, their
    player IDs and scores, the ID counter, the game-started flag, and the
    handling of the open, close and message events.

    Every `sendText` the server makes is recorded, in order, in `outbox`;
    a broadcast is one send per registered session, in registration order
    (the iteration order of a CopyOnWriteArraySet). A refused connection
    (Java's `session.close()` in `onOpen`) is the result `false` of
    `OnOpen`. */
module GameServer {
  import opened JavaLib
  import opened QuestionManager

  /** An opaque handle for one websocket session. */
  type SessionId = nat

  /** Most players admitted at once. */
  const MAX_PLAYERS: nat := 6

  /** One `sendText` call: a text sent to one session. */
  datatype Delivery = Delivery(to: SessionId, text: string)

  /** How a call of `onMessage` ends. */
  datatype Completion =
    | Returned  // the handler ran to its end
    | Hung      // the handler entered `startGame`, which spins for ever
    | Threw     // an exception left the handler before the echo

  /** A broadcast of `text`: one send to each of `clients`, in order. */
  function Fanout(clients: seq<SessionId>, text: string): (r: seq<Delivery>)
    ensures |r| == |clients|
    ensures forall i :: 0 <= i < |r| ==> r[i] == Delivery(clients[i], text)
  {
    seq(|clients|, i requires 0 <= i < |clients| => Delivery(clients[i], text))
  }

  // ---------------------------------------------------------------------
  // Message texts
  // ---------------------------------------------------------------------

  /** "You are player <id>": the ID can be read back from behind the text. */
  function WelcomeText(id: int): (r: string)
    ensures StartsWith(r, "You are player ")
    ensures IsInt32(id) ==> ParseInt(r[|"You are player "|..]) == Some(id)
  {
    ReadBackAfter("You are player ", id);
    "You are player " + IntToString(id)
  }

  /** "Player joined. Total players: <total>", with the total readable at the end. */
  function JoinedText(total: nat): (r: string)
    ensures StartsWith(r, "Player joined. Total players: ")
    ensures IsInt32(total) ==> ParseInt(r[|"Player joined. Total players: "|..]) == Some(total)
  {
    ReadBackAfter("Player joined. Total players: ", total);
    "Player joined. Total players: " + IntToString(total)
  }

  /** "A player left. Total players: <total>", with the total readable at the end. */
  function LeftText(total: nat): (r: string)
    ensures StartsWith(r, "A player left. Total players: ")
    ensures IsInt32(total) ==> ParseInt(r[|"A player left. Total players: "|..]) == Some(total)
  {
    ReadBackAfter("A player left. Total players: ", total);
    "A player left. Total players: " + IntToString(total)
  }

  /** "Player <id> answered correctly!", with the ID readable between the
      7-character prefix and the 20-character suffix. */
  function CorrectText(id: int): (r: string)
    ensures StartsWith(r, "Player ") && EndsWith(r, " answered correctly!")
    ensures |r| == 27 + |IntToString(id)|
    ensures IsInt32(id) ==> ParseInt(r[7..|r| - 20]) == Some(id)
  {
    var r := "Player " + IntToString(id) + " answered correctly!";
    assert r[7..|r| - 20] == IntToString(id);
    if IsInt32(id) then ParseIntOfToString(id); r else r
  }

  /** The line `getQuestion` broadcasts for a question: it starts with
      "question|" and ends with '|' and the printed index (see
      `QuestionRoundTrip` for what a client reads back from it). */
  function QuestionMessage(q: QuestionData): (r: string)
    ensures StartsWith(r, "question|")
    ensures EndsWith(r, "|" + IntToString(q.correctIndex))
  {
    var head := "question|" + q.question + "|" + Join(q.answers, ',');
    var r := head + "|" + IntToString(q.correctIndex);
    assert r == head + ("|" + IntToString(q.correctIndex));
    r
  }

  /** One player's part of the score line. */
  function ScoreEntry(id: int, score: int): string {
    " Player " + IntToString(id) + ": " + IntToString(score) + " |"
  }

  // ---------------------------------------------------------------------
  // Requests
  // ---------------------------------------------------------------------

  /** The question file a `question <difficulty> <category>` request names:
      the request must split into exactly three words, and the file is that
      of the third word as category and the second as difficulty. */
  function RequestedFile(message: string): (r: Option<string>)
    ensures r.Some? <==> |Split(message, ' ')| == 3
    ensures r.Some? ==> r.value == QuestionPath(Split(message, ' ')[2], Split(message, ' ')[1])
  {
    var parts := Split(message, ' ');
    if |parts| != 3 then None
    else
      var difficulty := parts[1];
      var category := parts[2];
      Some(QuestionPath(category, difficulty))
  }

  /** What `checkAnswer` reads from an `answer <n>` message. */
  datatype AnswerRequest =
    | WrongShape       // not exactly two words: ignored
    | NotANumber       // the second word is not an int: parseInt throws
    | Answer(n: int)

  function ReadAnswer(message: string): (r: AnswerRequest)
    ensures r.WrongShape? <==> |Split(message, ' ')| != 2
    ensures |Split(message, ' ')| == 2 ==> (r.NotANumber? <==> ParseInt(Split(message, ' ')[1]).None?)
    ensures r.Answer? ==> ParseInt(Split(message, ' ')[1]) == Some(r.n) && IsInt32(r.n)
  {
    var parts := Split(message, ' ');
    if |parts| != 2 then WrongShape
    else
      match ParseInt(parts[1])
      case None => NotANumber
      case Some(n) => Answer(n)
  }

  /** `question <difficulty> <category>` names the file of that category
      and difficulty: the words come in the opposite order to the file
      name's. */
  lemma RequestLine(difficulty: string, category: string)
    requires ' ' !in difficulty && ' ' !in category && category != ""
    ensures RequestedFile("question " + difficulty + " " + category) == Some(QuestionPath(category, difficulty))
  {
    var words := ["question", difficulty, category];
    assert Join(words[1..], ' ') == difficulty + " " + category by {
      assert words[1..][1..] == [category];
    }
    assert Join(words, ' ') == "question " + difficulty + " " + category;
    assert ' ' !in "question";
    SplitOfJoin(words, ' ');
  }

  /** `answer <n>`, with `n` printed as Java prints an `int`, is read as the answer `n`. */
  lemma AnswerLine(n: int)
    requires IsInt32(n)
    ensures ReadAnswer("answer " + IntToString(n)) == Answer(n)
  {
    var words := ["answer", IntToString(n)];
    assert Join(words, ' ') == "answer " + IntToString(n) by {
      assert words[1..] == [IntToString(n)];
    }
    assert ' ' !in "answer";
    assert ' ' !in IntToString(n);
    SplitOfJoin(words, ' ');
    ParseIntOfToString(n);
  }

  /** The comparison `checkAnswer` makes: the submitted number against the
      "correct index", which it parses from the very same word. */
  function AnswerIsCorrect(message: string): (r: bool)
    requires ReadAnswer(message).Answer?
  {
    var parts := Split(message, ' ');
    var answer := parts[1];
    var correctIndex := ParseInt(parts[1]).value;
    ParseInt(answer).value == correctIndex
  }

  /** Every well-formed answer is judged correct, whatever its number: the
      branch that broadcasts "answered incorrectly." can never run.
      `CheckAnswer` makes the same comparison of a parsed word with itself,
      which is why the `Answer` case of `Answered` always raises the
      sender's score. */
  lemma EveryAnswerIsCorrect(message: string)
    requires ReadAnswer(message).Answer?
    ensures AnswerIsCorrect(message)
  {
  }

  // ---------------------------------------------------------------------
  // The score line
  // ---------------------------------------------------------------------

  /** `order` lists every element of `keys` exactly once: an iteration
      order of a map with these keys. */
  ghost predicate Enumerates(order: seq<SessionId>, keys: set<SessionId>) {
    && (forall i, j :: 0 <= i < j < |order| ==> order[i] != order[j])
    && (forall i :: 0 <= i < |order| ==> order[i] in keys)
    && (forall s :: s in keys ==> s in order)
  }

  /** Every session of `order` has an ID and a score. */
  predicate Scored(order: seq<SessionId>, ids: map<SessionId, int>, scores: map<SessionId, int>) {
    forall i :: 0 <= i < |order| ==> order[i] in ids && order[i] in scores
  }

  /** The (ID, score) pairs of the score line, one per session of `order`, in that order. */
  function ScoreSegments(order: seq<SessionId>, ids: map<SessionId, int>, scores: map<SessionId, int>): (r: seq<(int, int)>)
    requires Scored(order, ids, scores)
    ensures |r| == |order|
    ensures forall i :: 0 <= i < |r| ==> r[i] == (ids[order[i]], scores[order[i]])
  {
    seq(|order|, i requires 0 <= i < |order| => (ids[order[i]], scores[order[i]]))
  }

  /** The text of a list of (ID, score) pairs. */
  function RenderScores(pairs: seq<(int, int)>): string {
    if pairs == [] then ""
    else
      var last := pairs[|pairs| - 1];
      RenderScores(pairs[..|pairs| - 1]) + ScoreEntry(last.0, last.1)
  }

  /** The text `broadcastScores` builds when the score map is iterated in `order`. */
  function ScoreLine(order: seq<SessionId>, ids: map<SessionId, int>, scores: map<SessionId, int>): (r: string)
    requires Scored(order, ids, scores)
    ensures StartsWith(r, "Scores:")
  {
    "Scores:" + RenderScores(ScoreSegments(order, ids, scores))
  }

  /** A score entry holds exactly one '|', the one that closes it. */
  lemma EntryHasOneBar(id: int, score: int)
    ensures multiset(ScoreEntry(id, score))['|'] == 1
  {
    var a, b := IntToString(id), IntToString(score);
    assert '|' !in a && '|' !in b;
    assert multiset(ScoreEntry(id, score))
        == multiset(" Player ") + multiset(a) + multiset(": ") + multiset(b) + multiset(" |");
  }

  /** The rendered pairs hold one '|' per pair: one closed entry each. */
  lemma {:induction false} RenderedBars(pairs: seq<(int, int)>)
    ensures multiset(RenderScores(pairs))['|'] == |pairs|
  {
    if pairs != [] {
      var last := pairs[|pairs| - 1];
      RenderedBars(pairs[..|pairs| - 1]);
      EntryHasOneBar(last.0, last.1);
      var init := RenderScores(pairs[..|pairs| - 1]);
      assert multiset(init + ScoreEntry(last.0, last.1)) == multiset(init) + multiset(ScoreEntry(last.0, last.1));
    }
  }

  /** The score line holds one '|'-closed entry per iterated session. */
  lemma ScoreLineBars(order: seq<SessionId>, ids: map<SessionId, int>, scores: map<SessionId, int>)
    requires Scored(order, ids, scores)
    ensures multiset(ScoreLine(order, ids, scores))['|'] == |order|
  {
    var body := RenderScores(ScoreSegments(order, ids, scores));
    RenderedBars(ScoreSegments(order, ids, scores));
    assert multiset("Scores:" + body) == multiset("Scores:") + multiset(body);
  }

  /** Iterating one more session appends that session's entry to the line. */
  lemma ScoreLineAppend(order: seq<SessionId>, s: SessionId, ids: map<SessionId, int>, scores: map<SessionId, int>)
    requires Scored(order, ids, scores) && s in ids && s in scores
    ensures Scored(order + [s], ids, scores)
    ensures ScoreLine(order + [s], ids, scores) == ScoreLine(order, ids, scores) + ScoreEntry(ids[s], scores[s])
  {
    var o := order + [s];
    assert o[..|o| - 1] == order;
    var segs := ScoreSegments(o, ids, scores);
    assert segs[..|segs| - 1] == ScoreSegments(order, ids, scores);
    assert RenderScores(segs) == RenderScores(ScoreSegments(order, ids, scores)) + ScoreEntry(ids[s], scores[s]);
  }

  lemma SegmentsOfConcat(a: seq<SessionId>, b: seq<SessionId>, ids: map<SessionId, int>, scores: map<SessionId, int>)
    requires Scored(a + b, ids, scores)
    ensures Scored(a, ids, scores) && Scored(b, ids, scores)
    ensures ScoreSegments(a + b, ids, scores) == ScoreSegments(a, ids, scores) + ScoreSegments(b, ids, scores)
  {
    assert forall i :: 0 <= i < |a| ==> a[i] == (a + b)[i];
    assert forall i :: 0 <= i < |b| ==> b[i] == (a + b)[|a| + i];
  }

  /** In a sequence without repetitions every element occurs once. */
  lemma {:induction false} DistinctOccursOnce(o: seq<SessionId>, s: SessionId)
    requires forall i, j :: 0 <= i < j < |o| ==> o[i] != o[j]
    ensures multiset(o)[s] == if s in o then 1 else 0
  {
    if o != [] {
      var n := |o| - 1;
      DistinctOccursOnce(o[..n], s);
      assert o == o[..n] + [o[n]];
      if s == o[n] {
        assert s !in o[..n];
      }
    }
  }

  /** Two enumerations of the same keys are permutations of each other. */
  lemma EnumerationsArePermutations(o1: seq<SessionId>, o2: seq<SessionId>, keys: set<SessionId>)
    requires Enumerates(o1, keys) && Enumerates(o2, keys)
    ensures multiset(o1) == multiset(o2)
  {
    forall s
      ensures multiset(o1)[s] == multiset(o2)[s]
    {
      DistinctOccursOnce(o1, s);
      DistinctOccursOnce(o2, s);
    }
  }

  /** The entries of `o` are those of `o` without its `k`-th session plus
      that session's entry. */
  lemma SegmentsWithout(o: seq<SessionId>, k: nat, ids: map<SessionId, int>, scores: map<SessionId, int>)
    requires Scored(o, ids, scores) && k < |o|
    ensures Scored(o[..k] + o[k + 1..], ids, scores)
    ensures multiset(ScoreSegments(o, ids, scores))
         == multiset(ScoreSegments(o[..k] + o[k + 1..], ids, scores)) + multiset{(ids[o[k]], scores[o[k]])}
  {
    var a, b := o[..k], o[k + 1..];
    assert o == a + ([o[k]] + b);
    SegmentsOfConcat(a, [o[k]] + b, ids, scores);
    SegmentsOfConcat([o[k]], b, ids, scores);
    SegmentsOfConcat(a, b, ids, scores);
    var sa, sb := ScoreSegments(a, ids, scores), ScoreSegments(b, ids, scores);
    var sk := ScoreSegments([o[k]], ids, scores);
    assert sk == [(ids[o[k]], scores[o[k]])];
    assert ScoreSegments(o, ids, scores) == sa + (sk + sb);
    assert multiset(sa + (sk + sb)) == multiset(sa) + multiset(sk) + multiset(sb);
    assert multiset(sa + sb) == multiset(sa) + multiset(sb);
  }

  /** Dropping the `k`-th element drops one occurrence of it. */
  lemma MultisetWithout(o: seq<SessionId>, k: nat)
    requires k < |o|
    ensures multiset(o[..k] + o[k + 1..]) == multiset(o) - multiset{o[k]}
  {
    assert o == o[..k] + [o[k]] + o[k + 1..];
  }

  /** Taking the same element out of two permutations leaves permutations. */
  lemma PermutationWithout(o1: seq<SessionId>, o2: seq<SessionId>, k1: nat, k2: nat)
    requires multiset(o1) == multiset(o2)
    requires k1 < |o1| && k2 < |o2| && o1[k1] == o2[k2]
    ensures multiset(o1[..k1] + o1[k1 + 1..]) == multiset(o2[..k2] + o2[k2 + 1..])
  {
    MultisetWithout(o1, k1);
    MultisetWithout(o2, k2);
  }

  /** Permuting the sessions permutes their score entries. */
  lemma {:induction false} PermutedSegments(
    o1: seq<SessionId>, o2: seq<SessionId>, ids: map<SessionId, int>, scores: map<SessionId, int>)
    requires multiset(o1) == multiset(o2)
    requires Scored(o1, ids, scores) && Scored(o2, ids, scores)
    ensures multiset(ScoreSegments(o1, ids, scores)) == multiset(ScoreSegments(o2, ids, scores))
    decreases |o1|
  {
    if o1 == [] {
      assert |o2| == |multiset(o2)| == 0;
    } else {
      var n := |o1| - 1;
      assert o1[n] in multiset(o2);
      var k := IndexOf(o2, o1[n]);
      PermutationWithout(o1, o2, n, k);
      SegmentsWithout(o1, n, ids, scores);
      SegmentsWithout(o2, k, ids, scores);
      PermutedSegments(o1[..n] + o1[n + 1..], o2[..k] + o2[k + 1..], ids, scores);
    }
  }

  /** Whatever order the score map is iterated in, the score line holds the
      same entries: one per player, with that player's ID and score. */
  lemma ScoreEntriesIndependentOfOrder(
    o1: seq<SessionId>, o2: seq<SessionId>, keys: set<SessionId>,
    ids: map<SessionId, int>, scores: map<SessionId, int>)
    requires Enumerates(o1, keys) && Enumerates(o2, keys)
    requires forall s :: s in keys ==> s in ids && s in scores
    ensures Scored(o1, ids, scores) && Scored(o2, ids, scores)
    ensures multiset(ScoreSegments(o1, ids, scores)) == multiset(ScoreSegments(o2, ids, scores))
  {
    assert Scored(o1, ids, scores) by {
      forall i | 0 <= i < |o1| ensures o1[i] in keys { assert o1[i] in o1; }
    }
    assert Scored(o2, ids, scores) by {
      forall i | 0 <= i < |o2| ensures o2[i] in keys { assert o2[i] in o2; }
    }
    EnumerationsArePermutations(o1, o2, keys);
    PermutedSegments(o1, o2, ids, scores);
  }

  // ---------------------------------------------------------------------
  // The server
  // ---------------------------------------------------------------------

  /** IDs strictly increase along `clients`, and every client has one. */
  ghost predicate IncreasingIds(clients: seq<SessionId>, ids: map<SessionId, int>) {
    && (forall i :: 0 <= i < |clients| ==> clients[i] in ids)
    && (forall i, j :: 0 <= i < j < |clients| ==> ids[clients[i]] < ids[clients[j]])
  }

  /** Unregistering a session keeps the others' IDs increasing in join order. */
  lemma RemoveKeepsIdsIncreasing(clients: seq<SessionId>, ids: map<SessionId, int>, x: SessionId)
    requires IncreasingIds(clients, ids)
    ensures x !in RemoveFirst(clients, x)
    ensures IncreasingIds(RemoveFirst(clients, x), ids - {x})
  {
    RemoveFirstAtIndex(clients, x);
    var k := IndexOf(clients, x);
    if k >= 0 {
      CutKeepsIdsIncreasing(clients, ids, k);
    }
  }

  /** Cutting the `k`-th session out, with its ID, keeps the remaining IDs
      increasing, and that session occurs nowhere else. */
  lemma CutKeepsIdsIncreasing(clients: seq<SessionId>, ids: map<SessionId, int>, k: nat)
    requires IncreasingIds(clients, ids) && k < |clients|
    ensures clients[k] !in clients[..k] + clients[k + 1..]
    ensures IncreasingIds(clients[..k] + clients[k + 1..], ids - {clients[k]})
  {
    var x := clients[k];
    var r := clients[..k] + clients[k + 1..];
    var ids' := ids - {x};
    forall i | 0 <= i < |r|
      ensures r[i] == clients[if i < k then i else i + 1] && r[i] in ids'
    {
      if i >= k {
        assert ids[clients[k]] < ids[clients[i + 1]];
      } else {
        assert ids[clients[i]] < ids[clients[k]];
      }
    }
    forall i, j | 0 <= i < j < |r|
      ensures ids'[r[i]] < ids'[r[j]]
    {
      var i', j' := if i < k then i else i + 1, if j < k then j else j + 1;
      assert ids[clients[i']] < ids[clients[j']];
    }
  }

  /** The invariant of the server's tables: at most `MAX_PLAYERS`
      registered sessions, each with an ID and an `int` score and nothing
      else in either map; the IDs are positive, below the counter, and
      increase in join order. */
  ghost predicate Registry(clients: seq<SessionId>, ids: map<SessionId, int>, scores: map<SessionId, int>, counter: int)
  {
    && |clients| <= MAX_PLAYERS
    && multiset(clients) == multiset(ids.Keys)
    && ids.Keys == scores.Keys
    && (forall s :: s in scores ==> IsInt32(scores[s]))
    && (forall s :: s in ids ==> 1 <= ids[s] < counter)
    && IncreasingIds(clients, ids)
  }

  /** Admitting an unregistered session below capacity, with the counter as
      its ID and score 0, keeps the invariant. */
  lemma AdmitKeepsRegistry(clients: seq<SessionId>, ids: map<SessionId, int>, scores: map<SessionId, int>,
                           counter: int, session: SessionId)
    requires Registry(clients, ids, scores, counter) && counter >= 1
    requires session !in clients && |clients| < MAX_PLAYERS
    ensures Registry(clients + [session], ids[session := counter], scores[session := 0], counter + 1)
  {
    AdmitKeepsIdsIncreasing(clients, ids, session, counter);
    assert session !in multiset(ids.Keys);
    assert ids[session := counter].Keys == ids.Keys + {session};
    MultisetOfKeysWith(ids.Keys, session);
  }

  /** Adding a new key adds one occurrence of it. */
  lemma MultisetOfKeysWith(keys: set<SessionId>, s: SessionId)
    requires s !in keys
    ensures multiset(keys + {s}) == multiset(keys) + multiset{s}
  {
  }

  /** Taking a key away removes its occurrence. */
  lemma MultisetOfKeysWithout(keys: set<SessionId>, s: SessionId)
    ensures multiset(keys - {s}) == multiset(keys) - multiset{s}
  {
  }

  /** Removing a session keeps the invariant. */
  lemma RemoveKeepsRegistry(clients: seq<SessionId>, ids: map<SessionId, int>, scores: map<SessionId, int>,
                            counter: int, session: SessionId)
    requires Registry(clients, ids, scores, counter)
    ensures session !in RemoveFirst(clients, session)
    ensures Registry(RemoveFirst(clients, session), ids - {session}, scores - {session}, counter)
  {
    RemoveKeepsIdsIncreasing(clients, ids, session);
    RemoveFirstMultiset(clients, session);
    assert (ids - {session}).Keys == ids.Keys - {session};
    assert (scores - {session}).Keys == scores.Keys - {session};
    MultisetOfKeysWithout(ids.Keys, session);
  }


  /** Under the invariant a session has an ID exactly when it is
      registered, and there are as many IDs as registered sessions. */
  lemma RegisteredAreKeyed(clients: seq<SessionId>, ids: map<SessionId, int>, scores: map<SessionId, int>, counter: int)
    requires Registry(clients, ids, scores, counter)
    ensures forall s :: s in ids <==> s in clients
    ensures |ids| == |clients|
  {
    forall s
      ensures s in ids <==> s in clients
    {
      assert s in ids <==> s in multiset(ids.Keys);
      assert s in clients <==> s in multiset(clients);
    }
    assert |multiset(ids.Keys)| == |ids.Keys|;
  }

  /** Admitting a session that is not registered, with an ID above all
      current ones, keeps IDs increasing in join order. */
  lemma AdmitKeepsIdsIncreasing(clients: seq<SessionId>, ids: map<SessionId, int>, session: SessionId, id: int)
    requires IncreasingIds(clients, ids)
    requires forall s :: s in ids ==> ids[s] < id
    requires session !in clients
    ensures IncreasingIds(clients + [session], ids[session := id])
  {
    var cs := clients + [session];
    var ids' := ids[session := id];
    forall i, j | 0 <= i < j < |cs|
      ensures ids'[cs[i]] < ids'[cs[j]]
    {
      assert cs[i] == clients[i] && cs[i] != session;
      if j < |clients| {
        assert cs[j] == clients[j] && cs[j] != session;
      }
    }
  }

  /** The score line, built entry by entry while iterating the score map in
      some order (a HashMap promises none); `order` is the order taken. */
  method BuildScoreLine(ids: map<SessionId, int>, scores: map<SessionId, int>)
    returns (line: string, ghost order: seq<SessionId>)
    requires scores.Keys <= ids.Keys
    ensures Enumerates(order, scores.Keys)
    ensures line == ScoreLine(order, ids, scores)
  {
    line := "Scores:";
    order := [];
    var remaining := scores.Keys;
    while remaining != {}
      invariant remaining <= scores.Keys
      invariant Enumerates(order, scores.Keys - remaining)
      invariant Scored(order, ids, scores)
      invariant line == ScoreLine(order, ids, scores)
      decreases |remaining|
    {
      var s :| s in remaining;
      ScoreLineAppend(order, s, ids, scores);
      line := line + ScoreEntry(ids[s], scores[s]);
      order := order + [s];
      remaining := remaining - {s};
    }
  }

  /** What `getQuestion` does: a request that is not exactly three words
      is ignored; otherwise a question is looked up in the requested file
      and, when there is one, `sent` is drawn from that file and broadcast
      (`outbox0` becoming `outbox`); nothing is sent when the file is
      missing or empty. */
  ghost predicate Asked(message: string, files: map<string, seq<QuestionRecord>>, clients: seq<SessionId>,
                        sent: Option<QuestionData>, outbox0: seq<Delivery>, outbox: seq<Delivery>)
  {
    && (match RequestedFile(message)
        case None => sent.None?
        case Some(path) =>
          && (sent.None? <==> path !in files || files[path] == [])
          && (sent.Some? ==> DrawnFrom(files[path], sent.value)))
    && outbox == outbox0 + if sent.Some? then Fanout(clients, QuestionMessage(sent.value)) else []
  }

  /** What `checkAnswer` does, from scores `scores0` to `scores` and from
      `outbox0` to `outbox`. A message that is not two words changes nothing. A second
      word that is not an int, or a sender without a score, makes Java
      throw before anything changes. Otherwise the answer is judged correct
      (see `EveryAnswerIsCorrect`): only the sender's score goes up by one,
      and everybody hears that the sender answered correctly, then the
      score line in the iteration order `order`. */
  ghost predicate Answered(message: string, session: SessionId, clients: seq<SessionId>, ids: map<SessionId, int>,
                           scores0: map<SessionId, int>, scores: map<SessionId, int>,
                           completion: Completion, order: seq<SessionId>,
                           outbox0: seq<Delivery>, outbox: seq<Delivery>)
  {
    match ReadAnswer(message)
    case WrongShape => completion == Returned && scores == scores0 && outbox == outbox0
    case NotANumber => completion == Threw && scores == scores0 && outbox == outbox0
    case Answer(_) =>
      if session !in scores0 then completion == Threw && scores == scores0 && outbox == outbox0
      else
        && completion == Returned
        && IsInt32(scores0[session])
        && scores == scores0[session := Inc32(scores0[session])]
        && scores.Keys <= ids.Keys
        && Enumerates(order, scores.Keys)
        && outbox == outbox0 + Fanout(clients, CorrectText(ids[session])) + Fanout(clients, ScoreLine(order, ids, scores))
  }

  class Server {
    /** The registered sessions, in the order they joined. */
    var clients: seq<SessionId>
    /** The player ID of each registered session. */
    var clientIds: map<SessionId, int>
    /** The score of each registered session. */
    var playerScores: map<SessionId, int>
    /** The ID the next admitted session gets; it only ever grows, so no ID
        is handed out twice. */
    var clientId: int
    var gameStarted: bool
    /** Every text sent so far, in order. */
    var outbox: seq<Delivery>

    ghost predicate Valid()
      reads this`clients, this`clientIds, this`playerScores, this`clientId
    {
      clientId >= 1 && Registry(clients, clientIds, playerScores, clientId)
    }

    /** The server as the JVM loads it: nobody registered, the counter at 1,
        the game not started. */
    constructor ()
      ensures Valid()
      ensures clients == [] && clientIds == map[] && playerScores == map[]
      ensures clientId == 1 && !gameStarted && outbox == []
    {
      clients := [];
      clientIds := map[];
      playerScores := map[];
      clientId := 1;
      gameStarted := false;
      outbox := [];
    }

    /** The sessions with an ID are exactly the registered ones, there are
        at most `MAX_PLAYERS` of them, and their IDs are pairwise distinct. */
    lemma IdsAreDistinct()
      requires Valid()
      ensures forall s :: s in clientIds <==> s in clients
      ensures |clientIds| == |clients| <= MAX_PLAYERS
      ensures forall s, t :: s in clientIds && t in clientIds && s != t ==> clientIds[s] != clientIds[t]
    {
      RegisteredAreKeyed(clients, clientIds, playerScores, clientId);
      forall s, t | s in clientIds && t in clientIds && s != t
        ensures clientIds[s] != clientIds[t]
      {
        var i :| 0 <= i < |clients| && clients[i] == s;
        var j :| 0 <= j < |clients| && clients[j] == t;
        assert i != j;
      }
    }

    /** `broadcastMessage(text)`: sends `text` to every registered session. */
    method BroadcastMessage(text: string)
      modifies this`outbox
      ensures outbox == old(outbox) + Fanout(clients, text)
    {
      var i := 0;
      while i < |clients|
        invariant 0 <= i <= |clients|
        invariant outbox == old(outbox) + Fanout(clients[..i], text)
      {
        assert clients[..i + 1][..i] == clients[..i];
        outbox := outbox + [Delivery(clients[i], text)];
        i := i + 1;
      }
      assert clients[..i] == clients;
    }

    /** `onOpen(session)`. A connection while the game is started, or while
        `MAX_PLAYERS` sessions are registered, is closed and changes
        nothing. Otherwise the session gets the counter's value as its ID
        and score 0, the counter moves on by one, the session is told its
        ID and everybody (the newcomer included) hears the new total. The
        container opens each session once. */
    method OnOpen(session: SessionId) returns (admitted: bool)
      requires Valid()
      requires session !in clients
      modifies this
      ensures Valid()
      ensures admitted == (!old(gameStarted) && old(|clients|) < MAX_PLAYERS)
      ensures gameStarted == old(gameStarted)
      ensures !admitted ==>
        && clients == old(clients) && clientIds == old(clientIds)
        && playerScores == old(playerScores) && clientId == old(clientId)
        && outbox == old(outbox)
      ensures admitted ==>
        && clients == old(clients) + [session]
        && clientIds == old(clientIds)[session := old(clientId)]
        && playerScores == old(playerScores)[session := 0]
        && clientId == old(clientId) + 1
        && outbox == old(outbox) + [Delivery(session, WelcomeText(old(clientId)))]
                                 + Fanout(clients, JoinedText(|clients|))
    {
      if gameStarted {
        admitted := false;
      } else if |clients| < MAX_PLAYERS {
        AdmitKeepsRegistry(clients, clientIds, playerScores, clientId, session);
        clientIds := clientIds[session := clientId];
        playerScores := playerScores[session := 0];
        clientId := clientId + 1;
        clients := clients + [session];
        outbox := outbox + [Delivery(session, WelcomeText(clientIds[session]))];
        BroadcastMessage(JoinedText(|clients|));
        admitted := true;
      } else {
        admitted := false;
      }
    }

    /** `onClose(session)`: the session leaves the registry and both maps,
        nobody else's ID or score changes, the counter stays where it is
        (so no ID is handed out twice), and the remaining sessions hear the
        new total. The container also calls this for a session `onOpen`
        refused; then only the broadcast happens. */
    method OnClose(session: SessionId)
      requires Valid()
      modifies this
      ensures Valid()
      ensures clients == RemoveFirst(old(clients), session) && session !in clients
      ensures clientIds == old(clientIds) - {session}
      ensures playerScores == old(playerScores) - {session}
      ensures clientId == old(clientId) && gameStarted == old(gameStarted)
      ensures outbox == old(outbox) + Fanout(clients, LeftText(|clients|))
    {
      RemoveKeepsRegistry(clients, clientIds, playerScores, clientId, session);
      clients := RemoveFirst(clients, session);
      clientIds := clientIds - {session};
      playerScores := playerScores - {session};
      assert Valid();
      BroadcastMessage(LeftText(|clients|));
    }

    /** `broadcastScores()`: every session hears the score line. */
    method BroadcastScores() returns (ghost order: seq<SessionId>)
      requires Valid()
      modifies this`outbox
      ensures Enumerates(order, playerScores.Keys)
      ensures outbox == old(outbox) + Fanout(clients, ScoreLine(order, clientIds, playerScores))
    {
      var line;
      line, order := BuildScoreLine(clientIds, playerScores);
      BroadcastMessage(line);
    }

    /** `getQuestion(message, session)`: see `Asked`. `sent` is the
        question broadcast, if any. */
    method GetQuestion(message: string, files: map<string, seq<QuestionRecord>>)
      returns (sent: Option<QuestionData>)
      modifies this`outbox
      ensures Asked(message, files, clients, sent, old(outbox), outbox)
    {
      var parts := Split(message, ' ');
      if |parts| != 3 {
        return None;
      }
      var difficulty := parts[1];
      var category := parts[2];
      sent := GetRandomQuestion(category, difficulty, files);
      if sent.None? {
        return;
      }
      BroadcastMessage(QuestionMessage(sent.value));
    }

    /** `checkAnswer(message, session)`: see `Answered`. `order` is the
        order in which the score map was iterated, if it was. */
    method CheckAnswer(message: string, session: SessionId)
      returns (completion: Completion, ghost order: seq<SessionId>)
      requires Valid()
      modifies this`playerScores, this`outbox
      ensures Valid()
      ensures Answered(message, session, clients, clientIds, old(playerScores), playerScores,
                       completion, order, old(outbox), outbox)
    {
      order := [];
      var parts := Split(message, ' ');
      if |parts| != 2 {
        return Returned, order;
      }
      var answer := parts[1];
      var correctIndex := ParseInt(parts[1]);
      if correctIndex.None? || session !in playerScores {
        return Threw, order;
      }
      if ParseInt(answer).value == correctIndex.value {
        playerScores := playerScores[session := Inc32(playerScores[session])];
        BroadcastMessage(CorrectText(clientIds[session]));
      }
      order := BroadcastScores();
      completion := Returned;
    }

    /** The effect of the branch `onMessage` takes before its echo, from
        the state before the message to the current one, with the outbox
        at `handledOutbox` once the branch is done. "start" while the game
        is not started sets the flag and never returns (`startGame` spins
        while the flag is set). A message starting with "question " or
        "answer " is handled as `Asked` or `Answered` say. Anything else
        changes nothing. */
    twostate predicate Dispatched(message: string, session: SessionId, files: map<string, seq<QuestionRecord>>,
                                  completion: Completion, new sent: Option<QuestionData>, order: seq<SessionId>,
                                  handledOutbox: seq<Delivery>)
      reads this`gameStarted, this`playerScores, this`clients, this`clientIds
    {
      && gameStarted == (old(gameStarted) || message == "start")
      && if message == "start" && !old(gameStarted) then
           completion == Hung && sent.None? && playerScores == old(playerScores) && handledOutbox == old(outbox)
         else if StartsWith(message, "question ") then
           && completion == Returned && playerScores == old(playerScores)
           && Asked(message, files, clients, sent, old(outbox), handledOutbox)
         else if StartsWith(message, "answer ") then
           sent.None? && Answered(message, session, clients, clientIds, old(playerScores), playerScores,
                                  completion, order, old(outbox), handledOutbox)
         else
           completion == Returned && sent.None? && playerScores == old(playerScores) && handledOutbox == old(outbox)
    }

    /** The branch of `onMessage(message, session)` before the echo. */
    method Dispatch(message: string, session: SessionId, files: map<string, seq<QuestionRecord>>)
      returns (completion: Completion, sent: Option<QuestionData>, ghost order: seq<SessionId>)
      requires Valid()
      modifies this`gameStarted, this`playerScores, this`outbox
      ensures Valid()
      ensures Dispatched(message, session, files, completion, sent, order, outbox)
    {
      order := [];
      sent := None;
      completion := Returned;
      if message == "start" && !gameStarted {
        gameStarted := true;
        completion := Hung;
      } else if StartsWith(message, "question ") {
        sent := GetQuestion(message, files);
      } else if StartsWith(message, "answer ") {
        completion, order := CheckAnswer(message, session);
      }
    }

    /** `onMessage(message, session)`: the branch `Dispatched` describes,
        then, unless it hung or threw, the message itself echoed to every
        session. Registration, IDs and the counter never change here. */
    method OnMessage(message: string, session: SessionId, files: map<string, seq<QuestionRecord>>)
      returns (completion: Completion, sent: Option<QuestionData>,
               ghost handledOutbox: seq<Delivery>, ghost order: seq<SessionId>)
      requires Valid()
      modifies this`gameStarted, this`playerScores, this`outbox
      ensures Valid()
      ensures Dispatched(message, session, files, completion, sent, order, handledOutbox)
      ensures outbox == handledOutbox + (if completion == Returned then Fanout(clients, message) else [])
    {
      completion, sent, order := Dispatch(message, session, files);
      handledOutbox := outbox;
      if completion == Returned {
        BroadcastMessage(message);
      }
    }
  }
}
