/** Small string vocabulary shared by the three variants of the scorer:
    substring and suffix tests, character counts, and splitting on a
    separator the way both Python's `str.split(c)` and JavaScript's
    `String.prototype.split(c)` do. */
module Strings {

  datatype Option<+T> = None | Some(value: T)

  datatype Result<+T, +E> = Ok(value: T) | Err(error: E)

  predicate StartsWith(s: string, prefix: string) {
    |prefix| <= |s| && s[..|prefix|] == prefix
  }

  predicate EndsWith(s: string, suffix: string) {
    |suffix| <= |s| && s[|s| - |suffix|..] == suffix
  }

  predicate OccursAt(s: string, t: string, i: int) {
    0 <= i <= |s| - |t| && s[i..i + |t|] == t
  }

  /** `t in s` in Python, `s.includes(t)` in JavaScript. */
  predicate Contains(s: string, t: string) {
    exists i :: 0 <= i <= |s| - |t| && OccursAt(s, t, i)
  }

  /** `s.count(c)` for a one-character `c`. */
  function Count(s: string, c: char): (n: nat)
    ensures n <= |s|
    ensures n == 0 <==> c !in s
  {
    if s == [] then 0
    else (if s[0] == c then 1 else 0) + Count(s[1..], c)
  }

  /** Counting is additive over concatenation. */
  lemma {:induction false} CountConcat(a: string, b: string, c: char)
    ensures Count(a + b, c) == Count(a, c) + Count(b, c)
  {
    if a != [] {
      CountConcat(a[1..], b, c);
      assert (a + b)[1..] == a[1..] + b;
    } else {
      assert a + b == b;
    }
  }

  /** `s.split(c)` for one separator, `re.split('[...]', s)` for a class of
      them: the pieces between separators, always at least one. */
  function Split(s: string, seps: set<char>): (parts: seq<string>)
    ensures |parts| >= 1
  {
    if s == [] then [""]
    else
      var rest := Split(s[1..], seps);
      if s[0] in seps then [""] + rest
      else [[s[0]] + rest[0]] + rest[1..]
  }

  /** The longest prefix of `s` that holds no character of `stops`. */
  function TakeUntil(s: string, stops: set<char>): (r: string)
    ensures r <= s
    ensures forall i :: 0 <= i < |r| ==> r[i] !in stops
    ensures |r| < |s| ==> s[|r|] in stops
  {
    if s == [] || s[0] in stops then ""
    else [s[0]] + TakeUntil(s[1..], stops)
  }

  /** Splitting cuts at every separator: one more piece than separators. */
  lemma {:induction false} SplitLength(s: string, c: char)
    ensures |Split(s, {c})| == Count(s, c) + 1
  {
    if s != [] {
      SplitLength(s[1..], c);
    }
  }

  /** The first piece of a split is the text before the first separator. */
  lemma {:induction false} SplitFirst(s: string, seps: set<char>)
    ensures Split(s, seps)[0] == TakeUntil(s, seps)
  {
    if s != [] {
      SplitFirst(s[1..], seps);
    }
  }

  /** No piece of a split holds the separator. */
  lemma {:induction false} SplitPiecesFree(s: string, seps: set<char>)
    ensures forall k, i :: 0 <= k < |Split(s, seps)| && 0 <= i < |Split(s, seps)[k]| ==>
              Split(s, seps)[k][i] !in seps
  {
    if s != [] {
      SplitPiecesFree(s[1..], seps);
      var rest := Split(s[1..], seps);
      if s[0] !in seps {
        var first := [s[0]] + rest[0];
        assert forall i :: 0 < i < |first| ==> first[i] == rest[0][i - 1];
      }
    }
  }

  /** The pieces glued back together with the separator between them. */
  function Join(parts: seq<string>, c: char): string
    requires |parts| >= 1
  {
    if |parts| == 1 then parts[0] else parts[0] + [c] + Join(parts[1..], c)
  }

  /** Splitting at `c` and joining with `c` gives the string back. */
  lemma {:induction false} SplitJoin(s: string, c: char)
    ensures Join(Split(s, {c}), c) == s
  {
    if s != [] {
      SplitJoin(s[1..], c);
      var rest := Split(s[1..], {c});
      if s[0] == c {
        assert Split(s, {c}) == [""] + rest;
        assert ([""] + rest)[1..] == rest;
        assert s == [c] + s[1..];
      } else {
        var parts := Split(s, {c});
        assert parts == [[s[0]] + rest[0]] + rest[1..];
        if |rest| == 1 {
          assert s == [s[0]] + s[1..];
        } else {
          assert parts[1..] == rest[1..];
          assert s == [s[0]] + (rest[0] + [c] + Join(rest[1..], c));
        }
      }
    }
  }

  /** Being a suffix is transitive through a shorter suffix: if `t1` and `t2`
      both end `s` and `t1` is no longer, then `t1` ends `t2`. */
  lemma SuffixOfSuffix(s: string, t1: string, t2: string)
    requires EndsWith(s, t1) && EndsWith(s, t2) && |t1| <= |t2|
    ensures EndsWith(t2, t1)
  {
    assert t2[|t2| - |t1|..] == s[|s| - |t1|..];
  }
}
