/**
 * String helpers with the semantics of the JavaScript built-ins the source uses:
 * `String.prototype.split` with a one-character separator, `Array.prototype.join`,
 * `String.prototype.includes` and ASCII lower-casing.
 */
module Strings {

  /** `t` occurs in `s` starting at index `i`. */
  predicate OccursAt(s: string, t: string, i: int) {
    0 <= i <= |s| - |t| && s[i..i + |t|] == t
  }

  /** `t` occurs as a contiguous piece of `s` (`s.includes(t)`). */
  predicate Contains(s: string, t: string) {
    exists i | 0 <= i <= |s| - |t| :: OccursAt(s, t, i)
  }

  /** A non-empty text occurs only in a non-empty string. */
  lemma ContainsNonEmpty(s: string, t: string)
    requires Contains(s, t) && t != ""
    ensures s != ""
  {
    var i :| OccursAt(s, t, i);
  }

  /** `s.split(sep)` for a one-character separator: never empty; `JoinSplit` shows it loses nothing. */
  function Split(s: string, sep: char): (parts: seq<string>)
    ensures |parts| >= 1
    decreases |s|
  {
    if |s| == 0 then [""]
    else
      var rest := Split(s[1..], sep);
      if s[0] == sep then [""] + rest
      else [[s[0]] + rest[0]] + rest[1..]
  }

  /** `parts.join(sep)` for a non-empty array of pieces. */
  function Join(parts: seq<string>, sep: char): string
    requires |parts| >= 1
    decreases |parts|
  {
    if |parts| == 1 then parts[0] else parts[0] + [sep] + Join(parts[1..], sep)
  }

  /** Joining the pieces of a split gives back the original string. */
  lemma {:induction false} JoinSplit(s: string, sep: char)
    ensures Join(Split(s, sep), sep) == s
    decreases |s|
  {
    if |s| > 0 {
      JoinSplit(s[1..], sep);
      var rest := Split(s[1..], sep);
      if s[0] == sep {
        assert Split(s, sep)[1..] == rest;
        assert s == [s[0]] + s[1..];
      } else {
        var parts := Split(s, sep);
        if |rest| == 1 {
          assert parts == [[s[0]] + rest[0]];
        } else {
          assert parts[1..] == rest[1..];
          assert Join(rest, sep) == rest[0] + [sep] + Join(rest[1..], sep);
        }
        assert s == [s[0]] + s[1..];
      }
    }
  }

  /** Two strings with the same pieces are the same string. */
  lemma SplitInjective(p: string, q: string, sep: char)
    requires Split(p, sep) == Split(q, sep)
    ensures p == q
  {
    JoinSplit(p, sep);
    JoinSplit(q, sep);
  }

  /** If the pieces of `p` are a proper prefix of the pieces of `q`, then `q` is `p`,
      the separator, and more: `p` is a proper prefix of `q` as a string. */
  lemma SplitPrefix(p: string, q: string, sep: char)
    requires |Split(p, sep)| < |Split(q, sep)|
    requires Split(q, sep)[..|Split(p, sep)|] == Split(p, sep)
    ensures |p| < |q| && q[..|p|] == p && q[|p|] == sep
  {
    JoinPrefix(Split(p, sep), Split(q, sep), sep);
    JoinSplit(p, sep);
    JoinSplit(q, sep);
  }

  /** The join of a piece list starts with the join of any proper prefix of it and a separator. */
  lemma {:induction false} JoinPrefix(ps: seq<string>, qs: seq<string>, sep: char)
    requires 1 <= |ps| < |qs| && qs[..|ps|] == ps
    ensures var whole, pre := Join(qs, sep), Join(ps, sep);
      |pre| < |whole| && whole[..|pre|] == pre && whole[|pre|] == sep
    decreases |ps|
  {
    var head := qs[0];
    var tail := Join(qs[1..], sep);
    assert ps[0] == head;
    assert Join(qs, sep) == head + [sep] + tail;
    if |ps| > 1 {
      assert qs[1..][..|ps| - 1] == ps[1..];
      JoinPrefix(ps[1..], qs[1..], sep);
      var pre := Join(ps[1..], sep);
      assert Join(ps, sep) == head + [sep] + pre;
      assert tail[..|pre|] == pre;
      assert (head + [sep] + tail)[..|head| + 1 + |pre|] == head + [sep] + tail[..|pre|];
      assert (head + [sep] + tail)[|head| + 1 + |pre|] == tail[|pre|];
    }
  }

  /** Splitting around one separator splits each side separately. */
  lemma {:induction false} SplitAround(a: string, b: string, sep: char)
    ensures Split(a + [sep] + b, sep) == Split(a, sep) + Split(b, sep)
    decreases |a|
  {
    var s := a + [sep] + b;
    if |a| == 0 {
      assert s[1..] == b;
    } else {
      assert s[1..] == a[1..] + [sep] + b;
      SplitAround(a[1..], b, sep);
      SplitStep(s, sep);
      SplitStep(a, sep);
    }
  }

  /** One step of splitting: the first character either ends the first piece or extends it. */
  lemma SplitStep(s: string, sep: char)
    requires |s| > 0
    ensures var rest := Split(s[1..], sep);
      Split(s, sep) == if s[0] == sep then [""] + rest else [[s[0]] + rest[0]] + rest[1..]
  {
  }

  /** A string without the separator splits into itself alone. */
  lemma {:induction false} SplitWithoutSep(s: string, sep: char)
    requires sep !in s
    ensures Split(s, sep) == [s]
    decreases |s|
  {
    if |s| > 0 {
      SplitWithoutSep(s[1..], sep);
      assert s == [s[0]] + s[1..];
    }
  }

  /** The position of the last occurrence of `c` in `s`. */
  function LastIndex(s: string, c: char): (i: nat)
    requires c in s
    ensures i < |s| && s[i] == c && c !in s[i + 1..]
    decreases |s|
  {
    if s[|s| - 1] == c then |s| - 1
    else
      var init := s[..|s| - 1];
      assert c in init by {
        var j :| 0 <= j < |s| && s[j] == c;
        assert init[j] == c;
      }
      var i := LastIndex(init, c);
      assert s[i + 1..] == init[i + 1..] + [s[|s| - 1]];
      i
  }

  /** The last piece of `s.split(sep)`: the whole string when `sep` does not occur,
      otherwise exactly the text after the last occurrence of `sep`. */
  lemma LastPiece(s: string, sep: char)
    ensures var parts := Split(s, sep);
      && (sep !in s ==> parts[|parts| - 1] == s)
      && (sep in s ==> parts[|parts| - 1] == s[LastIndex(s, sep) + 1..])
  {
    if sep !in s {
      SplitWithoutSep(s, sep);
    } else {
      var i := LastIndex(s, sep);
      var after := s[i + 1..];
      assert s == s[..i] + [sep] + after;
      SplitAround(s[..i], after, sep);
      SplitWithoutSep(after, sep);
    }
  }

  /** ASCII lower-casing of one character. */
  function LowerChar(c: char): char {
    if 'A' <= c <= 'Z' then (c as int + 32) as char else c
  }

  /** ASCII lower-casing of a string, character by character. */
  function ToLower(s: string): (r: string)
    ensures |r| == |s|
    ensures forall i :: 0 <= i < |s| ==> r[i] == LowerChar(s[i])
  {
    if s == [] then [] else [LowerChar(s[0])] + ToLower(s[1..])
  }

  /** The concatenation of a list of strings (`parts.join("")`). */
  function Concat(parts: seq<string>): string {
    if parts == [] then "" else parts[0] + Concat(parts[1..])
  }

  /** Concatenation distributes over appending lists. */
  lemma {:induction false} ConcatAppend(a: seq<string>, b: seq<string>)
    ensures Concat(a + b) == Concat(a) + Concat(b)
  {
    if a != [] {
      ConcatAppend(a[1..], b);
      assert (a + b)[1..] == a[1..] + b;
    } else {
      assert a + b == b;
    }
  }
}
