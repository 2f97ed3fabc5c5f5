/** The string primitives the template expander relies on: `indexOf` of a
    two-character marker and `split` on one character, with the facts about
    them that the expander's proofs use. */
module Text {

  /** The two-character pattern `[a, b]` starts at index `i` of `s`. */
  predicate Occurs(s: string, i: int, a: char, b: char) {
    0 <= i && i + 1 < |s| && s[i] == a && s[i + 1] == b
  }

  /** `s.indexOf(a + b)`: the first index where the pattern starts, or -1. */
  function IndexOf2(s: string, a: char, b: char): (x: int)
    ensures -1 <= x
    ensures x >= 0 ==> Occurs(s, x, a, b)
    ensures forall i :: 0 <= i < x ==> !Occurs(s, i, a, b)
    ensures x < 0 ==> forall i :: !Occurs(s, i, a, b)
    decreases |s|
  {
    if |s| < 2 then -1
    else if s[0] == a && s[1] == b then 0
    else
      var r := IndexOf2(s[1..], a, b);
      assert forall i :: 0 < i ==> (Occurs(s, i, a, b) <==> Occurs(s[1..], i - 1, a, b));
      if r < 0 then -1 else r + 1
  }

  /** A string without the pattern's first character does not hold it. */
  lemma NoFirstChar(s: string, a: char, b: char)
    requires a !in s
    ensures IndexOf2(s, a, b) < 0
  {
  }

  /** A suffix of a string without the pattern is without it too. */
  lemma NoOccurrenceInSuffix(s: string, k: nat, a: char, b: char)
    requires k <= |s|
    requires IndexOf2(s, a, b) < 0
    ensures IndexOf2(s[k..], a, b) < 0
  {
    var t := s[k..];
    assert forall i :: Occurs(t, i, a, b) ==> Occurs(s, k + i, a, b);
  }

  /** Searching `pre + rest` when `pre` holds no occurrence and none straddles
      the seam finds the first occurrence in `rest`, shifted by `|pre|`. */
  lemma {:induction false} IndexOfAfter(pre: string, rest: string, a: char, b: char)
    requires IndexOf2(pre, a, b) < 0
    requires !(pre != [] && rest != [] && pre[|pre| - 1] == a && rest[0] == b)
    ensures var r := IndexOf2(rest, a, b);
            IndexOf2(pre + rest, a, b) == if r < 0 then -1 else |pre| + r
  {
    var s := pre + rest;
    var r := IndexOf2(rest, a, b);
    assert forall i :: 0 <= i < |pre| ==> !Occurs(s, i, a, b) by {
      forall i | 0 <= i < |pre|
        ensures !Occurs(s, i, a, b)
      {
        if i + 1 < |pre| {
          assert !Occurs(pre, i, a, b);
        } else {
          assert s[i] == pre[|pre| - 1];
          assert i + 1 < |s| ==> s[i + 1] == rest[0];
        }
      }
    }
    assert forall i :: 0 <= i ==> (Occurs(s, |pre| + i, a, b) <==> Occurs(rest, i, a, b));
    var x := IndexOf2(s, a, b);
    if x >= 0 {
      assert x >= |pre|;
      assert Occurs(rest, x - |pre|, a, b);
    }
    if r >= 0 {
      assert Occurs(s, |pre| + r, a, b);
    }
  }

  /** JavaScript's `s.split(c)`: the segments between the separators,
      including empty ones; never an empty list. */
  function Split(s: string, c: char): (parts: seq<string>)
    ensures |parts| >= 1
    ensures c in s ==> |parts| >= 2
    ensures forall i :: 0 <= i < |parts| ==> c !in parts[i]
    decreases |s|
  {
    if s == [] then [""]
    else
      var rest := Split(s[1..], c);
      if s[0] == c then [""] + rest
      else
        assert c in s[1..] ==> |rest| >= 2;
        assert c !in [s[0]] + rest[0];
        [[s[0]] + rest[0]] + rest[1..]
  }

  /** `parts.join(c)`. */
  function Join(parts: seq<string>, c: char): string
    requires |parts| >= 1
  {
    if |parts| == 1 then parts[0] else parts[0] + [c] + Join(parts[1..], c)
  }

  /** Splitting and joining again gives back the string. */
  lemma {:induction false} JoinSplit(s: string, c: char)
    ensures Join(Split(s, c), c) == s
    decreases |s|
  {
    if s != [] {
      JoinSplit(s[1..], c);
      var rest := Split(s[1..], c);
      if s[0] == c {
        assert Split(s, c) == [""] + rest;
        assert (["" ] + rest)[1..] == rest;
      } else if |rest| == 1 {
        assert Split(s, c) == [[s[0]] + rest[0]];
      } else {
        var parts := Split(s, c);
        assert parts[1..] == rest[1..];
        assert Join(rest, c) == rest[0] + [c] + Join(rest[1..], c);
      }
    }
  }

  /** A string without the separator splits into itself alone. */
  lemma {:induction false} SplitWithout(s: string, c: char)
    requires c !in s
    ensures Split(s, c) == [s]
    decreases |s|
  {
    if s != [] {
      assert c !in s[1..] by {
        assert forall j :: 0 <= j < |s| - 1 ==> s[1..][j] == s[j + 1];
      }
      SplitWithout(s[1..], c);
      assert [s[0]] + s[1..] == s;
    }
  }

  /** The first part of a split is the text before the first separator. */
  lemma {:induction false} SplitHead(s: string, t: string, c: char)
    requires c !in s
    requires t == [] || t[0] == c
    ensures Split(s + t, c)[0] == s
    decreases |s|
  {
    if s == [] {
      assert s + t == t;
    } else {
      assert c !in s[1..] by {
        assert forall j :: 0 <= j < |s| - 1 ==> s[1..][j] == s[j + 1];
      }
      SplitHead(s[1..], t, c);
      assert (s + t)[1..] == s[1..] + t;
      assert [s[0]] + s[1..] == s;
    }
  }

  /** The text before the first separator is the first part; the parts of
      the text after it follow. */
  lemma {:induction false} SplitCons(s: string, t: string, c: char)
    requires c !in s
    ensures Split(s + [c] + t, c) == [s] + Split(t, c)
    decreases |s|
  {
    if s == [] {
      assert s + [c] + t == [c] + t;
      assert ([c] + t)[1..] == t;
    } else {
      assert c !in s[1..] by {
        assert forall j :: 0 <= j < |s| - 1 ==> s[1..][j] == s[j + 1];
      }
      SplitCons(s[1..], t, c);
      assert (s + [c] + t)[1..] == s[1..] + [c] + t;
      assert [s[0]] + s[1..] == s;
    }
  }
}
