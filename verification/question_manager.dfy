/** Question selection: the file a category and difficulty map to, the
    records read from it with their answers shuffled and the correct
    answer's index recomputed, and the random pick of one record.

    The file system is a map from path to the records of the JSON array
    stored there; a path missing from the map is a file that cannot be
    opened. The random draws (of `Collections.shuffle` and of
    `Random.nextInt`) are nondeterministic choices within the ranges Java
    draws from. */
module QuestionManager {
  import opened JavaLib

  /** Directory holding the question files. */
  const BASE_PATH: string := "questions/"

  /** One object of a question file's JSON array. */
  datatype QuestionRecord = QuestionRecord(question: string, answers: seq<string>, correctAnswer: string)

  /** The map built per record: the question text, the shuffled answers and
      where the correct answer ended up (-1 when it is not among them). */
  datatype QuestionData = QuestionData(question: string, answers: seq<string>, correctIndex: int)

  /** The file holding the questions of one category and difficulty. */
  function QuestionPath(category: string, difficulty: string): (path: string)
    ensures StartsWith(path, BASE_PATH + "questions_")
    ensures EndsWith(path, "_" + difficulty + ".json")
  {
    BASE_PATH + "questions_" + category + "_" + difficulty + ".json"
  }

  /** Different requests name different files, as long as the category has
      no underscore (the first underscore after the prefix ends it). */
  lemma QuestionPathInjective(c1: string, d1: string, c2: string, d2: string)
    requires '_' !in c1 && '_' !in c2
    requires QuestionPath(c1, d1) == QuestionPath(c2, d2)
    ensures c1 == c2 && d1 == d2
  {
    var prefix := BASE_PATH + "questions_";
    var m1 := c1 + "_" + (d1 + ".json");
    var m2 := c2 + "_" + (d2 + ".json");
    assert QuestionPath(c1, d1) == prefix + m1;
    assert QuestionPath(c2, d2) == prefix + m2;
    assert m1 == (prefix + m1)[|prefix|..];
    assert m2 == (prefix + m2)[|prefix|..];
    UnderscoreSplits(c1, d1 + ".json", c2, d2 + ".json");
    assert d1 == (d1 + ".json")[..|d1|];
    assert d2 == (d2 + ".json")[..|d2|];
  }

  /** `c + "_" + rest` determines `c` and `rest` when `c` has no underscore. */
  lemma UnderscoreSplits(c1: string, r1: string, c2: string, r2: string)
    requires '_' !in c1 && '_' !in c2
    requires c1 + "_" + r1 == c2 + "_" + r2
    ensures c1 == c2 && r1 == r2
  {
    var m := c1 + "_" + r1;
    FirstUnderscore(c1, r1);
    FirstUnderscore(c2, r2);
    assert c1 == m[..|c1|];
    assert c2 == (c2 + "_" + r2)[..|c2|];
    assert r1 == m[|c1| + 1..];
    assert r2 == (c2 + "_" + r2)[|c2| + 1..];
  }

  /** The first underscore of `c + "_" + rest` follows `c` when `c` has none. */
  lemma FirstUnderscore(c: string, rest: string)
    requires '_' !in c
    ensures IndexOf(c + "_" + rest, '_') == |c|
  {
    var m := c + "_" + rest;
    assert m[|c|] == '_';
    assert m[..|c|] == c;
  }

  /** How one stored record relates to the question data built from it: the
      same text, the same answers in some order, and `correctIndex` the
      first place the correct answer now sits (-1 if it is absent). */
  ghost predicate ShuffledFrom(rec: QuestionRecord, q: QuestionData) {
    && q.question == rec.question
    && multiset(q.answers) == multiset(rec.answers)
    && q.correctIndex == IndexOf(q.answers, rec.correctAnswer)
  }

  /** The question data was built from one of `records`. */
  ghost predicate DrawnFrom(records: seq<QuestionRecord>, q: QuestionData) {
    exists k :: 0 <= k < |records| && ShuffledFrom(records[k], q)
  }

  /** After the shuffle, `correctIndex` finds the correct answer exactly
      when the file listed it, and then points at it. */
  lemma CorrectIndexLocatesAnswer(rec: QuestionRecord, q: QuestionData)
    requires ShuffledFrom(rec, q)
    ensures |q.answers| == |rec.answers|
    ensures (q.correctIndex == -1) == (rec.correctAnswer !in rec.answers)
    ensures 0 <= q.correctIndex ==> q.answers[q.correctIndex] == rec.correctAnswer
    ensures -1 <= q.correctIndex < |q.answers|
  {
    assert |multiset(q.answers)| == |multiset(rec.answers)|;
    assert rec.correctAnswer in rec.answers <==> rec.correctAnswer in multiset(rec.answers);
    assert rec.correctAnswer in q.answers <==> rec.correctAnswer in multiset(q.answers);
  }

  /** `Collections.shuffle(list)`: walks the list backwards from the last
      position to the second and swaps each position with one drawn at
      random from those up to it. */
  method Shuffle(a: array<string>)
    modifies a
    ensures multiset(a[..]) == old(multiset(a[..]))
  {
    var i := a.Length;
    while i > 1
      invariant 0 <= i <= a.Length
      invariant multiset(a[..]) == old(multiset(a[..]))
    {
      var j :| 0 <= j < i;
      a[i - 1], a[j] := a[j], a[i - 1];
      i := i - 1;
    }
  }

  /** `readQuestions(filePath)`: one question data per record of the file,
      in file order; a file that cannot be opened gives the empty list. */
  method ReadQuestions(filePath: string, files: map<string, seq<QuestionRecord>>)
    returns (questionsList: seq<QuestionData>)
    ensures filePath !in files ==> questionsList == []
    ensures filePath in files ==>
      && |questionsList| == |files[filePath]|
      && forall k :: 0 <= k < |questionsList| ==> ShuffledFrom(files[filePath][k], questionsList[k])
  {
    questionsList := [];
    if filePath !in files {
      return;
    }
    var questionsArray := files[filePath];
    var i := 0;
    while i < |questionsArray|
      invariant 0 <= i <= |questionsArray|
      invariant |questionsList| == i
      invariant forall k :: 0 <= k < i ==> ShuffledFrom(questionsArray[k], questionsList[k])
    {
      var rec := questionsArray[i];
      var answersList := new string[|rec.answers|];
      var j := 0;
      while j < |rec.answers|
        invariant 0 <= j <= |rec.answers|
        invariant answersList[..j] == rec.answers[..j]
      {
        answersList[j] := rec.answers[j];
        j := j + 1;
      }
      assert answersList[..] == rec.answers;
      Shuffle(answersList);
      var newCorrectIndex := IndexOf(answersList[..], rec.correctAnswer);
      questionsList := questionsList + [QuestionData(rec.question, answersList[..], newCorrectIndex)];
      i := i + 1;
    }
  }

  /** `getRandomQuestion(category, difficulty)`: `None` (Java's null) when
      the file for the pair is missing or holds no question; otherwise a
      question built from one of its records. */
  method GetRandomQuestion(category: string, difficulty: string, files: map<string, seq<QuestionRecord>>)
    returns (r: Option<QuestionData>)
    ensures var path := QuestionPath(category, difficulty);
      r.None? <==> path !in files || files[path] == []
    ensures r.Some? ==> DrawnFrom(files[QuestionPath(category, difficulty)], r.value)
  {
    var filePath := QuestionPath(category, difficulty);
    var questionsList := ReadQuestions(filePath, files);
    if |questionsList| == 0 {
      return None;
    }
    var k :| 0 <= k < |questionsList|;
    r := Some(questionsList[k]);
    assert ShuffledFrom(files[filePath][k], r.value);
  }
}
