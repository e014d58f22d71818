# Quizzical-Server in Dafny

This project models the logic of a small multiplayer quiz game. The game has three parts:

- **The websocket server** (`src/GameServer.java`):
  - it admits at most six players while the game has not started;
  - it gives each player an ID from a counter that only grows;
  - it keeps a score per player;
  - it answers the `start`, `question <difficulty> <category>` and `answer <n>` commands;
  - it echoes every handled line to all players.
- **The client's reader of server lines** (`src/GameClient.java`):
  - it dispatches on the shape of each line;
  - it decodes `question|text|a1,a2,...|index` lines;
  - it replaces the player list from `players|n1,n2,...` lines;
  - it updates the list from `Player <name> joined` / `Player <name> left` lines.
- **Question selection** (`src/QuestionManager.java`):
  - it builds the file name from a category and a difficulty;
  - it shuffles each record's answers and recomputes the index of the correct answer;
  - it picks one record at random, or none when the file is missing or empty.

The Java library behaviour these parts depend on is modelled in `java_lib.dfy`:

- `String.split` with a one-character literal delimiter (it drops trailing empty pieces);
- `String.join` and `String.trim`;
- `Integer.parseInt` on 32-bit `int`s, and `Integer.toString`;
- `List.indexOf` and `List.remove(Object)`.

## How each part is modelled

**Server state.** The server is a class. Its fields are:

- the registered sessions, as a sequence in join order (the order a `CopyOnWriteArraySet` iterates);
- the ID map and the score map;
- the ID counter;
- the started flag;
- an `outbox` holding every `sendText`, in order.

The server state always satisfies an invariant (`Registry`):

- at most six sessions;
- the keys of both maps are exactly the registered sessions;
- every ID is positive and below the counter;
- IDs increase in join order;
- scores are 32-bit.

**How `onMessage` ends.** An `onMessage` call ends in one of three ways:

- **Returned**: the handler ran to the end, and the line is echoed.
- **Hung**: `start` makes `startGame` spin for ever, so neither "Game starting!" nor the echo ever happens.
- **Threw**: an `answer` whose number does not parse, or whose sender has no score, throws before the echo.

**Score line.** A `HashMap` has no iteration order. The order the score line takes is therefore a ghost result: an enumeration of the score map's keys. `ScoreEntriesIndependentOfOrder` proves that every order gives the same entries.

**Client.** The client is a class. Its fields are:

- the player list and the host flag;
- which listeners are registered;
- whether the reading thread is still alive;
- the log of listener callbacks.

A `Player ...` line that is too short for its `substring` call throws. Nothing catches that exception, so it ends the reading thread.

**Question selection.** The file system is a map from path to parsed records. `Collections.shuffle` is the JDK's backwards swap loop, with each swap partner chosen nondeterministically. The random pick is any valid index.

**A code behaviour worth knowing.** `checkAnswer` parses the "correct index" from the very word it compares it with. So every well-formed answer is judged correct (`EveryAnswerIsCorrect`), and the "answered incorrectly." branch is never taken. The model follows the code here.

## Model

| member | source | states |
|---|---|---|
| JavaLib.Inc32 | src/GameServer.java:164 | `score + 1` on a Java `int`: stays in 32 bits and is one more modulo 2^32 (wraps at the top) |
| JavaLib.Split | src/GameServer.java:116 | no piece contains the delimiter; a string without the delimiter splits to itself; trailing empty pieces are dropped |
| JavaLib.SplitOfJoin | src/GameServer.java:136-138 | splitting a join gives back the elements when none holds the delimiter and the last is not empty |
| JavaLib.JoinPieces | src/GameClient.java:161 | joining all pieces of a string with its delimiter gives the string back |
| JavaLib.Join | src/GameServer.java:137 | `String.join`: the join starts with the first element |
| JavaLib.JoinDelimiterCount | src/GameServer.java:137 | a join of elements without the delimiter holds exactly one delimiter fewer than there are elements |
| JavaLib.JoinAvoids | src/GameServer.java:136-138 | a character that is not the delimiter and occurs in no element does not occur in the join |
| JavaLib.StartsWithIsPrefix | src/GameServer.java:71-73 | `startsWith` holds exactly when the string is the prefix followed by something |
| JavaLib.EndsWithIsSuffix | src/GameClient.java:200-203 | `endsWith` holds exactly when the string is something followed by the suffix |
| JavaLib.ParseInt | src/GameServer.java:159 | a parsed value is a 32-bit `int` and the text ends in a digit; otherwise it is the NumberFormatException case |
| JavaLib.ParseIntOfToString | src/GameServer.java:138 | parsing the text `Integer.toString` prints gives the same `int` back |
| JavaLib.IntToString | src/GameServer.java:38 | `Integer.toString`: a minus sign exactly for negative values, otherwise digits, ending in a digit; `ParseIntOfToString` reads it back |
| JavaLib.ReadBackAfter | src/GameServer.java:38 | a number printed after a fixed text is parsed back, as the same `int`, from behind that text |
| JavaLib.Trim | src/GameClient.java:201 | the result has no blank at either end, is a slice of the input and equals an already trimmed input |
| JavaLib.IndexOf | src/QuestionManager.java:71 | the first index holding the value, or -1 exactly when it is absent |
| JavaLib.RemoveFirst | src/GameClient.java:205 | removing shortens the list by one exactly when the value is present |
| JavaLib.RemoveFirstAtIndex | src/GameServer.java:55 | `remove` cuts out the first occurrence, or leaves the list unchanged |
| JavaLib.RemoveFirstMultiset | src/GameServer.java:55 | `remove` takes away exactly one occurrence of the value |
| JavaLib.RemoveFirstOfAppended | src/GameClient.java:202-205 | removing a value just appended to a list without it restores the list |
| QuestionManager.QuestionPath | src/QuestionManager.java:10-22 | the path starts with "questions/questions_" and ends with "_" + difficulty + ".json" |
| QuestionManager.QuestionPathInjective | src/QuestionManager.java:22 | distinct (category, difficulty) pairs name distinct files when the category has no underscore |
| QuestionManager.CorrectIndexLocatesAnswer | src/QuestionManager.java:62-77 | after the shuffle the answers keep their number; the index is -1 exactly when the correct answer is absent, and otherwise points at it |
| QuestionManager.Shuffle | src/QuestionManager.java:68 | the shuffled list is a permutation of the original |
| QuestionManager.ReadQuestions | src/QuestionManager.java:44-87 | a missing file gives no questions; otherwise one question per record, in file order, with the same text, permuted answers and the first index of the correct answer |
| QuestionManager.GetRandomQuestion | src/QuestionManager.java:21-35 | null exactly when the file is missing or empty; otherwise a question built from one of the file's records |
| GameServer.Fanout | src/GameServer.java:87-95 | a broadcast is one send of the text to each registered session, in registration order |
| GameServer.WelcomeText | src/GameServer.java:38 | "You are player " followed by the ID, which reads back as the same number |
| GameServer.JoinedText | src/GameServer.java:42 | "Player joined. Total players: " followed by the total, which reads back as the same number |
| GameServer.LeftText | src/GameServer.java:58 | "A player left. Total players: " followed by the total, which reads back as the same number |
| GameServer.CorrectText | src/GameServer.java:165 | "Player ", the ID and " answered correctly!"; the ID reads back from between the two |
| GameServer.QuestionMessage | src/GameServer.java:136-138 | the question line starts with "question\|" and ends with '\|' and the printed index; `QuestionRoundTrip` is its inverse |
| GameServer.RequestedFile | src/GameServer.java:115-125 | a request names a file exactly when it splits into three words; the third word is the category and the second the difficulty |
| GameServer.RequestLine | src/GameServer.java:116-125 | the line `question <difficulty> <category>` (single words, non-empty category) names the file of that category and difficulty: the words swap places |
| GameServer.ReadAnswer | src/GameServer.java:148-159 | an answer is ignored exactly when it is not two words; of two words, it throws exactly when the second does not parse, and otherwise its number is the parsed second word |
| GameServer.AnswerLine | src/GameServer.java:149-159 | the line `answer <n>`, with `n` printed as Java prints an `int`, is read as the answer `n` |
| GameServer.EveryAnswerIsCorrect | src/GameServer.java:155-165 | every well-formed answer is judged correct |
| GameServer.ScoreSegments | src/GameServer.java:179-180 | one (ID, score) pair per iterated session, in iteration order |
| GameServer.ScoreLine | src/GameServer.java:178-182 | the score line starts with "Scores:" |
| GameServer.EntryHasOneBar | src/GameServer.java:180 | one player's entry holds exactly one '\|', the one that closes it |
| GameServer.RenderedBars | src/GameServer.java:179-181 | the appended entries hold one '\|' per pair |
| GameServer.ScoreLineBars | src/GameServer.java:178-182 | the score line holds exactly one closed entry per iterated session |
| GameServer.ScoreLineAppend | src/GameServer.java:178-180 | iterating one more entry appends exactly " Player <id>: <score> \|" to the line |
| GameServer.EnumerationsArePermutations | src/GameServer.java:179 | two iteration orders of the same map are permutations of each other |
| GameServer.PermutedSegments | src/GameServer.java:179-180 | permuting the iterated sessions permutes their (ID, score) pairs |
| GameServer.ScoreEntriesIndependentOfOrder | src/GameServer.java:177-183 | whatever order the map is iterated in, the score line holds the same entries: one per player, with that player's ID and score |
| GameServer.BuildScoreLine | src/GameServer.java:177-181 | the line is "Scores:" followed by one entry per key of the score map, each key exactly once |
| GameServer.RemoveKeepsIdsIncreasing | src/GameServer.java:55-56 | after a removal the session is gone and the remaining IDs still increase in join order |
| GameServer.CutKeepsIdsIncreasing | src/GameServer.java:55-56 | cutting one session out, with its ID, keeps the remaining IDs increasing; that session occurs nowhere else |
| GameServer.AdmitKeepsIdsIncreasing | src/GameServer.java:32-36 | appending a new session with an ID above all current ones keeps IDs increasing in join order |
| GameServer.AdmitKeepsRegistry | src/GameServer.java:31-36 | admitting an unregistered session below capacity, with the counter as its ID and score 0, keeps the invariant |
| GameServer.RemoveKeepsRegistry | src/GameServer.java:54-57 | removing a session from the set and both maps keeps the invariant |
| GameServer.RegisteredAreKeyed | src/GameServer.java:14-20 | under the invariant a session has an ID exactly when it is registered, and there are as many IDs as sessions |
| GameServer.Server.constructor | src/GameServer.java:14-20 | the initial state: no sessions, empty maps, counter 1, game not started |
| GameServer.Server.IdsAreDistinct | src/GameServer.java:18-34 | the sessions with an ID are exactly the registered ones, at most six, and their IDs are pairwise distinct |
| GameServer.Server.BroadcastMessage | src/GameServer.java:87-95 | the outbox gains one delivery of the text per registered session, in order |
| GameServer.Server.OnOpen | src/GameServer.java:24-50 | refused exactly when started or full, and then nothing changes; otherwise ID = counter, score 0, counter + 1, the welcome to the newcomer, then the new total to everyone; the invariant (so at most six players) is kept |
| GameServer.Server.OnClose | src/GameServer.java:54-59 | the session leaves the set and both maps, other IDs and scores and the counter are unchanged, and the others hear the new total |
| GameServer.Server.BroadcastScores | src/GameServer.java:177-183 | everyone hears the score line built in some enumeration order of the score map |
| GameServer.Server.GetQuestion | src/GameServer.java:115-140 | nothing is sent unless the request has three words and a question exists; otherwise the question drawn from the requested file is broadcast as `question\|text\|answers\|index` |
| GameServer.Server.CheckAnswer | src/GameServer.java:148-172 | a wrong shape changes nothing; a bad number or an unregistered sender throws; otherwise only the sender's score goes up by one, then "answered correctly" and the score line are broadcast |
| GameServer.Server.Dispatch | src/GameServer.java:66-76 | `start` while not started sets the flag for good and hangs; `question ` and `answer ` lines are handled as above; other lines change nothing |
| GameServer.Server.OnMessage | src/GameServer.java:63-78 | the dispatched branch, then the line echoed to everyone unless the handler hung or threw; registration, IDs and the counter never change |
| GameClient.DecodeQuestion | src/GameClient.java:158-178 | a question exactly when the line splits into four parts and the fourth parses; then the text is part 2 and the answers are part 3 split on ',' |
| GameClient.QuestionRoundTrip | src/GameClient.java:161-167 | decoding the server's question line gives back the same text, answers and index (no '\|' in text or answers, no ',' in answers, last answer non-empty) |
| GameClient.QuestionMessageParts | src/GameServer.java:136-138 | the question line is the '\|'-join of the tag, the text, the ','-joined answers and the printed index |
| GameClient.NonEmpty | src/GameClient.java:186-190 | the kept names are no more than the pieces, and none is empty |
| GameClient.NonEmptyMembers | src/GameClient.java:186-190 | a name is kept exactly when it is a non-empty piece |
| GameClient.NonEmptyOfNames | src/GameClient.java:186-190 | a list without empty names is kept as it is |
| GameClient.RosterNames | src/GameClient.java:181-190 | the roster read from a `players\|` line holds no empty name |
| GameClient.RosterRoundTrip | src/GameClient.java:181-190 | a roster line joining non-empty names without ',' gives those names back |
| GameClient.PlayerUpdate | src/GameClient.java:198-206 | "joined" adds (needs length 14 or more), "left" removes (needs length 12 or more), anything else changes nothing; the name is trimmed |
| GameClient.Apply | src/GameClient.java:200-206 | `add` appends exactly the name at the end; `remove` takes away one occurrence of it; other lines leave the list as it is |
| GameClient.JoinLineRoundTrip | src/GameClient.java:200-202 | `Player <name> joined` adds exactly that trimmed name |
| GameClient.LeaveLineRoundTrip | src/GameClient.java:203-205 | `Player <name> left` removes exactly that trimmed name |
| GameClient.JoinThenLeave | src/GameClient.java:198-206 | a join then a leave of a name not yet listed restores the list |
| GameClient.ServerAnnouncementsKeepRoster | src/GameClient.java:198-206 | the server's "Player joined. Total players: n" and "Player n answered correctly!" reach the updater but change nothing |
| GameClient.Client.constructor | src/GameClient.java:18-19 | a new client has an empty list and is not the host |
| GameClient.Client.HandleQuestionMessage | src/GameClient.java:158-179 | the question listener gets the decoded question, if the line decodes; nothing else happens |
| GameClient.Client.HandlePlayerListMessage | src/GameClient.java:181-196 | the list becomes the line's non-empty names whatever it held before, so the same line twice gives the same list, and the listener is told |
| GameClient.Client.HandlePlayerUpdateMessage | src/GameClient.java:198-212 | the list changes as `PlayerUpdate` says and the listener is told; a line too short for the cut ends the reading thread with nothing changed |
| GameClient.Client.Dispatch | src/GameClient.java:132-145 | with a message listener only that listener runs; otherwise exactly the first match of "Host", "players\|", "Player ", "question\|" is handled |

## Left out

- Transport is not modelled: sockets, the websocket container, `Session.close`, `getBasicRemote().sendText`, `connect`, `isConnected`, `closeConnection`, the `readLine` loop, `getInstance` and `sendMessage`. A send is an outbox append, and a close is the result `false` of `OnOpen`.
- Concurrency is not modelled: every handler runs as one atomic step on one thread.
- `startGame`'s busy loop and the "Game starting!" broadcast after it are not modelled, because that line is never reached. `start` sets the flag and ends as `Hung`.
- Reading and parsing the JSON files is not modelled: a file is its already parsed list of records. The randomness of `Random` and `Collections.shuffle` is a nondeterministic choice.
- Logging to the console (`System.out`, `printStackTrace`) is not modelled.
- The Android wrapper `GameClient.java` at the repository root is not part of this model, and neither is `src/QuizApp.java`.
- The listener interfaces are recorded as `Event`s. The listener setters are not modelled: which listeners exist is fixed when a `Client` is built.
- There is no turn order, win condition or session reset in this code, so none is modelled.
- Strings are sequences of Unicode characters, not of UTF-16 code units. So a character outside the Basic Multilingual Plane counts once here but twice for Java's `length` and `substring`. Take `"Player 😀joined"`: Java cuts a lone surrogate out of it, while `PlayerUpdate` adds the empty name.
- A `JSONException` from a malformed question file, or from a record without "question", "answers" or "correctAnswer", is not modelled. In Java such an exception escapes `readQuestions`, whose `catch` takes only `IOException`, and also escapes `getQuestion` and `onMessage`, so that message is not echoed. Here every file is its parsed list of well-formed records, so `GetQuestion` always returns and the line is always echoed.
- `ParseInt` accepts ASCII digits only, while Java's `parseInt` also accepts other Unicode decimal digits.
- GameServer.Server.OnOpen: the ID counter is an unbounded integer. Java's `clientID++` would wrap after 2^31 - 1 admissions.
- GameServer.Server.OnOpen: it requires the session not to be registered yet, because the container opens each session once.
- GameServer.BuildScoreLine: the score line's order is a ghost enumeration, because `HashMap` iteration order is unspecified. Only its entries are pinned down, not their order.
- GameServer.Server.BroadcastScores: the same unspecified order applies.
