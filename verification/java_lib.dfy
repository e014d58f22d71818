/** The pieces of the Java platform that the game's logic leans on, stated
    as functions: String.split with a one-character literal delimiter,
    String.join, trim, startsWith/endsWith, Integer.parseInt,
    Integer.toString, List.indexOf and List.remove(Object). Java strings are
    modelled as sequences of characters. */
module JavaLib {

  datatype Option<T> = None | Some(value: T)

  const INT_MIN: int := -0x8000_0000
  const INT_MAX: int := 0x7fff_ffff

  /** The values of Java's 32-bit `int`. */
  predicate IsInt32(n: int) {
    INT_MIN <= n <= INT_MAX
  }

  /** Java's `x + 1` on an `int`: wraps from the largest value to the smallest. */
  function Inc32(x: int): (r: int)
    requires IsInt32(x)
    ensures IsInt32(r)
    ensures (r - x) % 0x1_0000_0000 == 1
  {
    if x == INT_MAX then INT_MIN else x + 1
  }

  /** `s.startsWith(prefix)`. */
  predicate StartsWith(s: string, prefix: string) {
    |prefix| <= |s| && s[..|prefix|] == prefix
  }

  /** `s.endsWith(suffix)`. */
  predicate EndsWith(s: string, suffix: string) {
    |suffix| <= |s| && s[|s| - |suffix|..] == suffix
  }

  /** `s.startsWith(prefix)` holds exactly when `s` is `prefix` followed by something. */
  lemma StartsWithIsPrefix(s: string, prefix: string)
    ensures StartsWith(s, prefix) <==> |prefix| <= |s| && s == prefix + s[|prefix|..]
  {
    if |prefix| <= |s| && s == prefix + s[|prefix|..] {
      assert s[..|prefix|] == prefix;
    }
  }

  /** `s.endsWith(suffix)` holds exactly when `s` is something followed by `suffix`. */
  lemma EndsWithIsSuffix(s: string, suffix: string)
    ensures EndsWith(s, suffix) <==> |suffix| <= |s| && s == s[..|s| - |suffix|] + suffix
  {
    if |suffix| <= |s| && s == s[..|s| - |suffix|] + suffix {
      assert s[|s| - |suffix|..] == suffix;
    }
  }

  // ---------------------------------------------------------------------
  // String.split and String.join
  // ---------------------------------------------------------------------

  /** All the pieces of `s` between occurrences of `d`, empty ones included. */
  function Pieces(s: string, d: char): (r: seq<string>)
    ensures |r| >= 1
    ensures forall i :: 0 <= i < |r| ==> d !in r[i]
  {
    if s == [] then [""]
    else
      var rest := Pieces(s[1..], d);
      if s[0] == d then [""] + rest
      else [[s[0]] + rest[0]] + rest[1..]
  }

  /** Removes the empty strings at the end of `xs`. */
  function DropTrailingEmpty(xs: seq<string>): (r: seq<string>)
    ensures r <= xs
    ensures r == [] || r[|r| - 1] != ""
    ensures forall i :: |r| <= i < |xs| ==> xs[i] == ""
  {
    if xs == [] || xs[|xs| - 1] != "" then xs else DropTrailingEmpty(xs[..|xs| - 1])
  }

  /** `s.split(d)` for a delimiter that is one literal character: when `d`
      does not occur the result is `[s]` itself (so `"".split(",")` is
      `[""]`); otherwise every piece is kept except the empty ones at the
      end (so `",".split(",")` is `[]`). */
  function Split(s: string, d: char): (r: seq<string>)
    ensures forall i :: 0 <= i < |r| ==> d !in r[i]
    ensures d !in s ==> r == [s]
    ensures d in s ==> r == [] || r[|r| - 1] != ""
  {
    if d !in s then [s] else DropTrailingEmpty(Pieces(s, d))
  }

  /** `String.join(d, xs)`: the elements in order, one delimiter between
      each two. */
  function Join(xs: seq<string>, d: char): (r: string)
    ensures |xs| >= 1 ==> |xs[0]| <= |r| && r[..|xs[0]|] == xs[0]
  {
    if |xs| == 0 then ""
    else if |xs| == 1 then xs[0]
    else xs[0] + [d] + Join(xs[1..], d)
  }

  /** A join of elements without the delimiter holds one delimiter fewer
      than there are elements. */
  lemma {:induction false} JoinDelimiterCount(xs: seq<string>, d: char)
    requires |xs| >= 1
    requires forall i :: 0 <= i < |xs| ==> d !in xs[i]
    ensures multiset(Join(xs, d))[d] == |xs| - 1
  {
    if |xs| >= 2 {
      JoinDelimiterCount(xs[1..], d);
      var rest := Join(xs[1..], d);
      assert multiset(xs[0] + [d] + rest) == multiset(xs[0]) + multiset{d} + multiset(rest);
      assert d !in multiset(xs[0]);
    }
  }

  /** Joining the pieces of `s` with the delimiter gives `s` back. */
  lemma {:induction false} JoinPieces(s: string, d: char)
    ensures Join(Pieces(s, d), d) == s
  {
    if s != [] {
      var rest := Pieces(s[1..], d);
      JoinPieces(s[1..], d);
      if s[0] == d {
        assert Pieces(s, d) == [""] + rest;
        assert |rest| >= 1;
        assert Join([""] + rest, d) == "" + [d] + Join(rest, d) by {
          assert ([""] + rest)[1..] == rest;
        }
        assert s == [s[0]] + s[1..];
      } else {
        var p := [[s[0]] + rest[0]] + rest[1..];
        assert Pieces(s, d) == p;
        if |rest| == 1 {
          assert Join(p, d) == [s[0]] + rest[0];
          assert Join(rest, d) == rest[0];
        } else {
          assert p[1..] == rest[1..];
          assert Join(p, d) == [s[0]] + rest[0] + [d] + Join(rest[1..], d);
          assert Join(rest, d) == rest[0] + [d] + Join(rest[1..], d);
        }
        assert s == [s[0]] + s[1..];
      }
    }
  }

  /** Splitting `a + [d] + rest` yields `a` followed by the pieces of `rest`. */
  lemma {:induction false} PiecesAfterDelimiter(a: string, d: char, rest: string)
    requires d !in a
    ensures Pieces(a + [d] + rest, d) == [a] + Pieces(rest, d)
  {
    var s := a + [d] + rest;
    if a == [] {
      assert s[1..] == rest;
    } else {
      assert s[1..] == a[1..] + [d] + rest;
      PiecesAfterDelimiter(a[1..], d, rest);
      assert [a[0]] + a[1..] == a;
    }
  }

  /** A string without the delimiter is its own single piece. */
  lemma {:induction false} PiecesWithoutDelimiter(a: string, d: char)
    requires d !in a
    ensures Pieces(a, d) == [a]
  {
    if a != [] {
      PiecesWithoutDelimiter(a[1..], d);
      assert [a[0]] + a[1..] == a;
    }
  }

  /** Splitting a join gives back every element, empty ones included. */
  lemma {:induction false} PiecesOfJoin(xs: seq<string>, d: char)
    requires |xs| >= 1
    requires forall i :: 0 <= i < |xs| ==> d !in xs[i]
    ensures Pieces(Join(xs, d), d) == xs
  {
    if |xs| == 1 {
      PiecesWithoutDelimiter(xs[0], d);
    } else {
      PiecesOfJoin(xs[1..], d);
      PiecesAfterDelimiter(xs[0], d, Join(xs[1..], d));
      assert [xs[0]] + xs[1..] == xs;
    }
  }

  /** A join of two or more strings contains the delimiter. */
  lemma JoinHasDelimiter(xs: seq<string>, d: char)
    requires |xs| >= 2
    ensures d in Join(xs, d)
  {
    assert Join(xs, d)[|xs[0]|] == d;
  }

  /** `Split` undoes `Join` when no element holds the delimiter, there is
      at least one element and the last one is not empty (Java would drop
      a trailing empty element). */
  lemma SplitOfJoin(xs: seq<string>, d: char)
    requires |xs| >= 1 && xs[|xs| - 1] != ""
    requires forall i :: 0 <= i < |xs| ==> d !in xs[i]
    ensures Split(Join(xs, d), d) == xs
  {
    if |xs| >= 2 {
      JoinHasDelimiter(xs, d);
      PiecesOfJoin(xs, d);
    }
  }

  /** A character other than the delimiter that no element holds does not
      occur in the join. */
  lemma {:induction false} JoinAvoids(xs: seq<string>, d: char, c: char)
    requires c != d
    requires forall i :: 0 <= i < |xs| ==> c !in xs[i]
    ensures c !in Join(xs, d)
  {
    if |xs| >= 2 {
      JoinAvoids(xs[1..], d, c);
      assert c !in xs[0];
    }
  }

  /** What `Split` drops is only empty pieces at the end: the result is a
      prefix of all the pieces, and joining those pieces gives `s`. */
  lemma SplitIsPrefixOfPieces(s: string, d: char)
    requires d in s
    ensures Split(s, d) <= Pieces(s, d)
    ensures forall i :: |Split(s, d)| <= i < |Pieces(s, d)| ==> Pieces(s, d)[i] == ""
    ensures Join(Pieces(s, d), d) == s
  {
    JoinPieces(s, d);
  }

  // ---------------------------------------------------------------------
  // String.trim
  // ---------------------------------------------------------------------

  /** A character that `String.trim` strips: every code point up to the space. */
  predicate IsBlank(c: char) {
    c <= ' '
  }

  /** Number of blank characters at the start of `s`. */
  function LeadingBlanks(s: string): (n: nat)
    ensures n <= |s|
    ensures forall k :: 0 <= k < n ==> IsBlank(s[k])
    ensures n < |s| ==> !IsBlank(s[n])
  {
    if s == [] || !IsBlank(s[0]) then 0 else 1 + LeadingBlanks(s[1..])
  }

  /** Number of blank characters at the end of `s`. */
  function TrailingBlanks(s: string): (n: nat)
    ensures n <= |s|
    ensures forall k :: |s| - n <= k < |s| ==> IsBlank(s[k])
    ensures n < |s| ==> !IsBlank(s[|s| - 1 - n])
  {
    if s == [] || !IsBlank(s[|s| - 1]) then 0 else 1 + TrailingBlanks(s[..|s| - 1])
  }

  /** A string that `trim` leaves as it is. */
  predicate IsTrimmed(s: string) {
    s == [] || (!IsBlank(s[0]) && !IsBlank(s[|s| - 1]))
  }

  /** `s.trim()`: `s` without its leading and trailing blanks. */
  function Trim(s: string): (r: string)
    ensures IsTrimmed(r)
    ensures LeadingBlanks(s) + |r| <= |s|
    ensures r == s[LeadingBlanks(s)..LeadingBlanks(s) + |r|]
    ensures forall k :: LeadingBlanks(s) + |r| <= k < |s| ==> IsBlank(s[k])
    ensures IsTrimmed(s) ==> r == s
  {
    var lead := LeadingBlanks(s);
    var body := s[lead..];
    var trail := TrailingBlanks(body);
    assert s[lead..lead + |body| - trail] == body[..|body| - trail];
    body[..|body| - trail]
  }

  // ---------------------------------------------------------------------
  // Integer.toString and Integer.parseInt
  // ---------------------------------------------------------------------

  predicate IsDigit(c: char) {
    '0' <= c <= '9'
  }

  predicate AllDigits(s: string) {
    forall k :: 0 <= k < |s| ==> IsDigit(s[k])
  }

  function DigitChar(d: nat): char
    requires d < 10
  {
    ('0' as int + d) as char
  }

  /** The decimal value of a string of digits (leading zeros allowed). */
  function DigitsValue(s: string): nat
    requires AllDigits(s)
  {
    if s == [] then 0
    else DigitsValue(s[..|s| - 1]) * 10 + (s[|s| - 1] as int - '0' as int)
  }

  /** The decimal digits of `n`, most significant first, no leading zero. */
  function NatToString(n: nat): (r: string)
    ensures |r| >= 1 && AllDigits(r)
    ensures DigitsValue(r) == n
    ensures r[0] == '0' ==> n == 0
  {
    if n < 10 then [DigitChar(n)]
    else
      var r := NatToString(n / 10) + [DigitChar(n % 10)];
      assert r[..|r| - 1] == NatToString(n / 10);
      r
  }

  /** `Integer.toString(n)`: a minus sign for negative values, then the digits. */
  function IntToString(n: int): (r: string)
    ensures |r| >= 1 && IsDigit(r[|r| - 1])
    ensures (r[0] == '-') == (n < 0)
    ensures forall k :: 0 <= k < |r| ==> r[k] == '-' || IsDigit(r[k])
  {
    if n < 0 then "-" + NatToString(-n) else NatToString(n)
  }

  /** `Integer.parseInt(s)`: an optional `-` or `+` sign, then one or more
      ASCII digits whose value, with the sign, fits in an `int`. `None`
      stands for the NumberFormatException Java throws otherwise. */
  function ParseInt(s: string): (r: Option<int>)
    ensures r.Some? ==> IsInt32(r.value)
    ensures r.Some? ==> |s| >= 1 && IsDigit(s[|s| - 1])
  {
    if |s| == 0 then None
    else
      var signed := s[0] == '-' || s[0] == '+';
      var digits := if signed then s[1..] else s;
      if |digits| == 0 || !AllDigits(digits) then None
      else
        var v: int := if s[0] == '-' then -(DigitsValue(digits) as int) else DigitsValue(digits);
        if IsInt32(v) then Some(v) else None
  }

  /** Parsing what `Integer.toString` prints gives the value back. */
  lemma ParseIntOfToString(n: int)
    requires IsInt32(n)
    ensures ParseInt(IntToString(n)) == Some(n)
  {
    var s := IntToString(n);
    if n < 0 {
      assert s[1..] == NatToString(-n);
    } else {
      assert s == NatToString(n);
    }
  }

  /** An `int` printed after a fixed text is read back from behind that text. */
  lemma ReadBackAfter(prefix: string, n: int)
    ensures IsInt32(n) ==> ParseInt((prefix + IntToString(n))[|prefix|..]) == Some(n)
  {
    if IsInt32(n) {
      assert (prefix + IntToString(n))[|prefix|..] == IntToString(n);
      ParseIntOfToString(n);
    }
  }

  // ---------------------------------------------------------------------
  // List.indexOf and List.remove(Object)
  // ---------------------------------------------------------------------

  /** `list.indexOf(x)`: the first index holding `x`, or -1. */
  function IndexOf<T(==)>(xs: seq<T>, x: T): (r: int)
    ensures -1 <= r < |xs|
    ensures r == -1 <==> x !in xs
    ensures 0 <= r ==> xs[r] == x && x !in xs[..r]
  {
    if xs == [] then -1
    else if xs[0] == x then 0
    else
      var k := IndexOf(xs[1..], x);
      assert k >= 0 ==> xs[..k + 1] == [xs[0]] + xs[1..][..k];
      if k < 0 then -1 else k + 1
  }

  /** `list.remove(x)`: walks the list and drops the first element equal
      to `x`, if there is one. */
  function RemoveFirst<T(==)>(xs: seq<T>, x: T): (r: seq<T>)
    ensures |r| == if x in xs then |xs| - 1 else |xs|
  {
    if xs == [] then []
    else if xs[0] == x then xs[1..]
    else [xs[0]] + RemoveFirst(xs[1..], x)
  }

  /** `remove` cuts the list at the first occurrence of `x`, or returns it
      unchanged when there is none. */
  lemma {:induction false} RemoveFirstAtIndex<T>(xs: seq<T>, x: T)
    ensures var k := IndexOf(xs, x);
      RemoveFirst(xs, x) == if k < 0 then xs else xs[..k] + xs[k + 1..]
  {
    if xs != [] && xs[0] != x {
      RemoveFirstAtIndex(xs[1..], x);
      var k := IndexOf(xs[1..], x);
      if k >= 0 {
        assert xs[..k + 1] == [xs[0]] + xs[1..][..k];
        assert xs[k + 2..] == xs[1..][k + 1..];
      } else {
        assert xs == [xs[0]] + xs[1..];
      }
    }
  }

  lemma {:induction false} RemoveFirstMultiset<T>(xs: seq<T>, x: T)
    ensures multiset(RemoveFirst(xs, x)) == multiset(xs) - multiset{x}
  {
    if xs != [] {
      assert xs == [xs[0]] + xs[1..];
      if xs[0] != x {
        RemoveFirstMultiset(xs[1..], x);
        assert RemoveFirst(xs, x) == [xs[0]] + RemoveFirst(xs[1..], x);
      }
    }
  }

  /** Removing an element just appended to a list without it gives the list back. */
  lemma {:induction false} RemoveFirstOfAppended<T>(xs: seq<T>, x: T)
    requires x !in xs
    ensures RemoveFirst(xs + [x], x) == xs
  {
    if xs != [] {
      assert (xs + [x])[1..] == xs[1..] + [x];
      RemoveFirstOfAppended(xs[1..], x);
      assert xs == [xs[0]] + xs[1..];
    }
  }
}
