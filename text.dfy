/**
 * The string operations the recipe browser takes from JavaScript's String
 * and Array prototypes: `startsWith`, `includes`, `split` on a one-character
 * separator and `join` with one.
 */
module Text {

  /** `s.startsWith(prefix)`. */
  predicate StartsWith(s: string, prefix: string) {
    |prefix| <= |s| && s[..|prefix|] == prefix
  }

  /** `sub` occurs in `s` starting at position `i`. */
  predicate OccursAt(s: string, sub: string, i: int) {
    0 <= i <= |s| - |sub| && s[i..i + |sub|] == sub
  }

  /** `s.includes(sub)`: `sub` occurs in `s` at some position. */
  predicate Includes(s: string, sub: string) {
    exists i :: 0 <= i <= |s| && OccursAt(s, sub, i)
  }

  /**
   * `s.split(sep)` for a one-character separator: the pieces between the
   * separators, empty pieces included, so "" splits into [""].
   */
  function Split(s: string, sep: char): (parts: seq<string>)
    ensures |parts| >= 1
    ensures forall k :: 0 <= k < |parts| ==> sep !in parts[k]
    decreases |s|
  {
    if s == [] then [""]
    else
      var rest := Split(s[1..], sep);
      if s[0] == sep then [""] + rest
      else [[s[0]] + rest[0]] + rest[1..]
  }

  /** A split yields one more piece than there are separators. */
  lemma {:induction false} SplitCount(s: string, sep: char)
    ensures |Split(s, sep)| == multiset(s)[sep] + 1
    decreases |s|
  {
    if s != [] {
      SplitCount(s[1..], sep);
      assert s == [s[0]] + s[1..];
    }
  }

  /** `parts.join(sep)`: the pieces with one separator between neighbours. */
  function Join(parts: seq<string>, sep: char): (s: string)
    ensures |parts| >= 1 ==> StartsWith(s, parts[0])
    ensures |parts| >= 2 ==> |parts[0]| < |s| && s[|parts[0]|] == sep
  {
    if |parts| == 0 then ""
    else if |parts| == 1 then parts[0]
    else parts[0] + [sep] + Join(parts[1..], sep)
  }

  /** Joining the pieces of a split gives back the text that was split. */
  lemma {:induction false} JoinSplit(s: string, sep: char)
    ensures Join(Split(s, sep), sep) == s
    decreases |s|
  {
    if s != [] {
      var rest := Split(s[1..], sep);
      JoinSplit(s[1..], sep);
      if s[0] == sep {
        JoinAfterEmpty(rest, sep);
      } else {
        JoinAfterChar(s[0], rest, sep);
      }
      assert s == [s[0]] + s[1..];
    }
  }

  lemma JoinAfterEmpty(rest: seq<string>, sep: char)
    requires |rest| >= 1
    ensures Join([""] + rest, sep) == [sep] + Join(rest, sep)
  {
    assert ([""] + rest)[1..] == rest;
  }

  lemma JoinAfterChar(ch: char, rest: seq<string>, sep: char)
    requires |rest| >= 1
    ensures Join([[ch] + rest[0]] + rest[1..], sep) == [ch] + Join(rest, sep)
  {
    var parts := [[ch] + rest[0]] + rest[1..];
    if |rest| > 1 {
      assert parts[1..] == rest[1..];
    }
  }

  /** A piece free of the separator, followed by the separator, splits off as one part. */
  lemma {:induction false} SplitAfterPiece(x: string, sep: char, y: string)
    requires sep !in x
    ensures Split(x + [sep] + y, sep) == [x] + Split(y, sep)
    decreases |x|
  {
    var whole := x + [sep] + y;
    if x == [] {
      assert whole[0] == sep && whole[1..] == y;
    } else {
      SplitAfterPiece(x[1..], sep, y);
      assert whole[0] == x[0] && whole[1..] == x[1..] + [sep] + y;
      var rest := Split(whole[1..], sep);
      assert rest[0] == x[1..] && rest[1..] == Split(y, sep);
      assert [x[0]] + x[1..] == x;
    }
  }

  /** How a split continues after one more leading character. */
  lemma SplitCons(ch: char, t: string, sep: char)
    ensures Split([ch] + t, sep)
            == if ch == sep then [""] + Split(t, sep) else [[ch] + Split(t, sep)[0]] + Split(t, sep)[1..]
  {
    assert ([ch] + t)[0] == ch && ([ch] + t)[1..] == t;
  }

  /** Splitting at a separator between two texts splits each text on its own. */
  lemma {:induction false} SplitAround(x: string, sep: char, y: string)
    ensures Split(x + [sep] + y, sep) == Split(x, sep) + Split(y, sep)
    decreases |x|
  {
    if x == [] {
      assert x + [sep] + y == [sep] + y;
      SplitCons(sep, y, sep);
    } else {
      SplitAround(x[1..], sep, y);
      SplitAroundStep(x[0], x[1..], sep, y);
      assert [x[0]] + x[1..] == x;
      assert [x[0]] + (x[1..] + [sep] + y) == x + [sep] + y;
    }
  }

  /** The inductive step of `SplitAround`: one more leading character. */
  lemma SplitAroundStep(ch: char, rest: string, sep: char, y: string)
    requires Split(rest + [sep] + y, sep) == Split(rest, sep) + Split(y, sep)
    ensures Split([ch] + (rest + [sep] + y), sep) == Split([ch] + rest, sep) + Split(y, sep)
  {
    var long := rest + [sep] + y;
    var front, back := Split(rest, sep), Split(y, sep);
    SplitCons(ch, long, sep);
    SplitCons(ch, rest, sep);
    if ch == sep {
      ConsEmptyPiece(front, back);
    } else {
      ConsPiece([ch], front, back);
    }
  }

  /** Putting an empty piece in front of concatenated splits. */
  lemma ConsEmptyPiece(front: seq<string>, back: seq<string>)
    ensures [""] + (front + back) == ([""] + front) + back
  {
  }

  /** Extending the first piece of concatenated splits. */
  lemma ConsPiece(pre: string, front: seq<string>, back: seq<string>)
    requires |front| >= 1
    ensures [pre + (front + back)[0]] + (front + back)[1..] == ([pre + front[0]] + front[1..]) + back
  {
    var joined := front + back;
    assert joined[0] == front[0] && joined[1..] == front[1..] + back;
  }

  /** The first piece of a split is the whole text exactly when the text holds no separator. */
  lemma SplitHeadWhole(x: string, sep: char)
    ensures Split(x, sep)[0] == x <==> sep !in x
  {
    if sep !in x {
      SplitWithoutSeparator(x, sep);
    }
  }

  /** Text free of the separator splits into itself alone. */
  lemma {:induction false} SplitWithoutSeparator(x: string, sep: char)
    requires sep !in x
    ensures Split(x, sep) == [x]
    decreases |x|
  {
    if x != [] {
      SplitWithoutSeparator(x[1..], sep);
      assert [x[0]] + x[1..] == x;
    }
  }

  /** Splitting a join of separator-free pieces gives back the pieces. */
  lemma {:induction false} SplitJoin(parts: seq<string>, sep: char)
    requires |parts| >= 1
    requires forall k :: 0 <= k < |parts| ==> sep !in parts[k]
    ensures Split(Join(parts, sep), sep) == parts
    decreases |parts|
  {
    if |parts| == 1 {
      SplitWithoutSeparator(parts[0], sep);
    } else {
      SplitJoin(parts[1..], sep);
      SplitAfterPiece(parts[0], sep, Join(parts[1..], sep));
      assert [parts[0]] + parts[1..] == parts;
    }
  }
}
