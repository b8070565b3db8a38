/**
 * The string operations the sensor-listing parser is built from: Python's
 * `str.split(sep)` with an explicit, non-empty separator, and its inverse
 * `sep.join(parts)`.
 */
module Text {

  /** `sep` occurs in `s` starting at index `i`. */
  predicate OccursAt(s: string, sep: string, i: nat)
  {
    i + |sep| <= |s| && s[i..i + |sep|] == sep
  }

  /** `sep` occurs somewhere in `s` (Python's `sep in s`). */
  predicate Contains(s: string, sep: string)
  {
    exists i: nat | i <= |s| :: OccursAt(s, sep, i)
  }

  /**
   * No proper prefix of `sep` is also a suffix of it, so two occurrences of
   * `sep` can never overlap. True of every one-character separator and of "/n".
   */
  predicate BorderFree(sep: string)
  {
    forall k :: 0 < k < |sep| ==> sep[k..] != sep[..|sep| - k]
  }

  /** Number of occurrences of the character `c` in `s` (Python's `s.count(c)`). */
  function Count(s: string, c: char): nat
  {
    if s == [] then 0 else (if s[0] == c then 1 else 0) + Count(s[1..], c)
  }

  /**
   * Python's `s.split(sep)`: cut `s` at every occurrence of `sep`, scanning
   * from the left and never reusing the characters of an occurrence. The
   * result always has at least one piece; `"".split(sep)` is `[""]`.
   */
  function Split(s: string, sep: string): (parts: seq<string>)
    requires sep != []
    ensures |parts| >= 1
    decreases |s|
  {
    if s == [] then [[]]
    else if sep <= s then [[]] + Split(s[|sep|..], sep)
    else
      var rest := Split(s[1..], sep);
      [[s[0]] + rest[0]] + rest[1..]
  }

  /** Python's `sep.join(parts)` for a non-empty list of parts. */
  function Join(parts: seq<string>, sep: string): string
    requires |parts| >= 1
    decreases |parts|
  {
    if |parts| == 1 then parts[0] else parts[0] + sep + Join(parts[1..], sep)
  }

  /** Prefixing a character to the first part prefixes it to the join. */
  lemma JoinConsFirst(c: char, parts: seq<string>, sep: string)
    requires |parts| >= 1
    ensures Join([[c] + parts[0]] + parts[1..], sep) == [c] + Join(parts, sep)
  {
    var q := [[c] + parts[0]] + parts[1..];
    assert q[1..] == parts[1..];
  }

  /** Joining the pieces of a split with the same separator gives back the string. */
  lemma {:induction false} JoinSplit(s: string, sep: string)
    requires sep != []
    ensures Join(Split(s, sep), sep) == s
    decreases |s|
  {
    if s == [] {
    } else if sep <= s {
      var tail := s[|sep|..];
      var rest := Split(tail, sep);
      JoinSplit(tail, sep);
      assert Split(s, sep) == [[]] + rest;
      assert ([[]] + rest)[1..] == rest;
      assert Join([[]] + rest, sep) == [] + sep + Join(rest, sep);
      assert s == sep + tail;
    } else {
      var rest := Split(s[1..], sep);
      JoinSplit(s[1..], sep);
      assert Split(s, sep) == [[s[0]] + rest[0]] + rest[1..];
      JoinConsFirst(s[0], rest, sep);
      assert s == [s[0]] + s[1..];
    }
  }

  /** A string without an occurrence of `sep` splits into itself alone. */
  lemma {:induction false} SplitWithoutSeparator(s: string, sep: string)
    requires sep != [] && !Contains(s, sep)
    ensures Split(s, sep) == [s]
    decreases |s|
  {
    if s != [] {
      if sep <= s {
        assert OccursAt(s, sep, 0);
      }
      ContainsTail(s, sep);
      SplitWithoutSeparator(s[1..], sep);
      assert [s[0]] + s[1..] == s;
    }
  }

  /** An occurrence of `sep` at the start of `p + sep + rest`, with `p` shorter than `sep`, is a border. */
  lemma OverlapIsBorder(p: string, sep: string, rest: string)
    requires 0 < |p| < |sep| && sep <= p + sep + rest
    ensures sep[|p|..] == sep[..|sep| - |p|]
  {
    var x := p + sep + rest;
    assert sep[|p|..] == x[|p|..|sep|];
    assert x[|p|..|sep|] == sep[..|sep| - |p|];
  }

  /** A non-empty piece free of `sep`, followed by `sep`, does not start with `sep`. */
  lemma NoSeparatorAtStart(p: string, sep: string, rest: string)
    requires p != [] && BorderFree(sep) && !Contains(p, sep)
    ensures !(sep <= p + sep + rest)
  {
    var x := p + sep + rest;
    if sep <= x {
      if |p| >= |sep| {
        assert p[0..|sep|] == x[..|sep|];
        assert OccursAt(p, sep, 0);
      } else {
        OverlapIsBorder(p, sep, rest);
      }
    }
  }

  /** Dropping the first character cannot create an occurrence. */
  lemma ContainsTail(p: string, sep: string)
    requires p != [] && !Contains(p, sep)
    ensures !Contains(p[1..], sep)
  {
    if Contains(p[1..], sep) {
      var i: nat :| i <= |p[1..]| && OccursAt(p[1..], sep, i);
      assert p[i + 1..i + 1 + |sep|] == p[1..][i..i + |sep|];
      assert OccursAt(p, sep, i + 1);
    }
  }

  /**
   * A piece free of `sep` followed by `sep` is split off as the first piece,
   * provided occurrences of `sep` cannot overlap.
   */
  lemma {:induction false} SplitAfterPiece(p: string, sep: string, rest: string)
    requires sep != [] && BorderFree(sep) && !Contains(p, sep)
    ensures Split(p + sep + rest, sep) == [p] + Split(rest, sep)
    decreases |p|
  {
    var x := p + sep + rest;
    if p == [] {
      assert x == sep + rest;
      assert x[|sep|..] == rest;
    } else {
      NoSeparatorAtStart(p, sep, rest);
      ContainsTail(p, sep);
      assert x[1..] == p[1..] + sep + rest;
      SplitAfterPiece(p[1..], sep, rest);
      assert [x[0]] + p[1..] == p;
    }
  }

  /**
   * Splitting a join gives back the parts when no part contains the
   * separator and occurrences of the separator cannot overlap.
   */
  lemma {:induction false} SplitJoin(parts: seq<string>, sep: string)
    requires |parts| >= 1 && sep != [] && BorderFree(sep)
    requires forall i :: 0 <= i < |parts| ==> !Contains(parts[i], sep)
    ensures Split(Join(parts, sep), sep) == parts
    decreases |parts|
  {
    if |parts| == 1 {
      SplitWithoutSeparator(parts[0], sep);
    } else {
      SplitJoin(parts[1..], sep);
      SplitAfterPiece(parts[0], sep, Join(parts[1..], sep));
      assert parts == [parts[0]] + parts[1..];
    }
  }

  /** A one-character separator occurs exactly where that character does. */
  lemma ContainsChar(s: string, c: char)
    ensures Contains(s, [c]) <==> c in s
  {
    if c in s {
      var i :| 0 <= i < |s| && s[i] == c;
      assert s[i..i + 1] == [c];
      assert OccursAt(s, [c], i);
    }
    if Contains(s, [c]) {
      var i: nat :| i <= |s| && OccursAt(s, [c], i);
      assert s[i] == s[i..i + 1][0];
    }
  }

  /** Every one-character separator is border-free. */
  lemma CharBorderFree(c: char)
    ensures BorderFree([c])
  {
  }

  /** Splitting on a character yields one more piece than it has occurrences. */
  lemma {:induction false} SplitCount(s: string, c: char)
    ensures |Split(s, [c])| == Count(s, c) + 1
    decreases |s|
  {
    if s != [] {
      SplitCount(s[1..], c);
      assert [c] <= s <==> s[0] == c;
      if [c] <= s {
        assert s[|[c]|..] == s[1..];
      }
    }
  }
}
