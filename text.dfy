/**
 * The few JavaScript string operations the relevance rule is built from:
 * `includes`, `split` on a one-character separator and taking the last
 * element of an array. `Join` is not used by the rule; it is the inverse
 * against which `Split` is proved.
 */
module Text {

  /** The last element of a non-empty sequence (`a[a.length - 1]`, or the value `a.pop()` returns). */
  function Last<T>(s: seq<T>): T
    requires |s| > 0
  {
    s[|s| - 1]
  }

  /** `sub` occurs in `s` starting at index `i`. */
  ghost predicate OccursAt(s: string, sub: string, i: int)
  {
    0 <= i && i + |sub| <= |s| && s[i..i + |sub|] == sub
  }

  /** `s` begins with `prefix`. */
  predicate StartsWith(s: string, prefix: string)
  {
    |prefix| <= |s| && s[..|prefix|] == prefix
  }

  /** JavaScript's `s.includes(sub)`: try every start position from the left. */
  predicate Includes(s: string, sub: string)
    decreases |s|
  {
    StartsWith(s, sub) || (|s| > 0 && Includes(s[1..], sub))
  }

  /** `Includes` holds exactly when `sub` occurs at some index of `s`. */
  lemma {:induction false} IncludesIffOccurs(s: string, sub: string)
    ensures Includes(s, sub) <==> exists i :: OccursAt(s, sub, i)
    decreases |s|
  {
    if StartsWith(s, sub) {
      assert OccursAt(s, sub, 0);
    }
    if |s| > 0 {
      IncludesIffOccurs(s[1..], sub);
      if Includes(s[1..], sub) {
        var i :| OccursAt(s[1..], sub, i);
        assert s[1..][i..i + |sub|] == s[i + 1..i + 1 + |sub|];
        assert OccursAt(s, sub, i + 1);
      }
    }
    if exists i :: OccursAt(s, sub, i) {
      var i :| OccursAt(s, sub, i);
      if i > 0 {
        assert s[1..][i - 1..i - 1 + |sub|] == s[i..i + |sub|];
        assert OccursAt(s[1..], sub, i - 1);
      }
    }
  }

  /** JavaScript's `parts.join(sep)` for a one-character separator. */
  function Join(parts: seq<string>, sep: char): string
  {
    if |parts| == 0 then ""
    else if |parts| == 1 then parts[0]
    else parts[0] + [sep] + Join(parts[1..], sep)
  }

  /**
   * JavaScript's `s.split(sep)` for a one-character separator: the pieces
   * between separators, in order, empty pieces included; never an empty array.
   */
  function Split(s: string, sep: char): (parts: seq<string>)
    ensures |parts| >= 1
    ensures forall k :: 0 <= k < |parts| ==> sep !in parts[k]
    decreases |s|
  {
    if |s| == 0 then [""]
    else
      var rest := Split(s[1..], sep);
      if s[0] == sep then [""] + rest
      else [[s[0]] + rest[0]] + rest[1..]
  }

  /** A character put in front of the first piece comes out in front of the join. */
  lemma {:induction false} JoinConsFirst(c: char, parts: seq<string>, sep: char)
    requires |parts| > 0
    ensures Join([[c] + parts[0]] + parts[1..], sep) == [c] + Join(parts, sep)
  {
    var parts' := [[c] + parts[0]] + parts[1..];
    assert parts'[0] == [c] + parts[0] && parts'[1..] == parts[1..];
  }

  /** An empty first piece leaves just the separator in front of the join. */
  lemma {:induction false} JoinConsEmpty(parts: seq<string>, sep: char)
    requires |parts| > 0
    ensures Join([""] + parts, sep) == [sep] + Join(parts, sep)
  {
    assert ([""] + parts)[1..] == parts;
  }

  /** Joining the pieces back with the separator gives the original string. */
  lemma {:induction false} JoinSplit(s: string, sep: char)
    ensures Join(Split(s, sep), sep) == s
    decreases |s|
  {
    if |s| > 0 {
      var c, t := s[0], s[1..];
      assert s == [c] + t;
      JoinSplit(t, sep);
      SplitCons(c, t, sep);
      var rest := Split(t, sep);
      if c == sep {
        JoinConsEmpty(rest, sep);
      } else {
        JoinConsFirst(c, rest, sep);
      }
    }
  }

  /** A string without the separator splits into itself alone. */
  lemma {:induction false} SplitWithoutSeparator(s: string, sep: char)
    requires sep !in s
    ensures Split(s, sep) == [s]
    decreases |s|
  {
    if |s| > 0 {
      assert sep !in s[1..] by {
        forall k | 0 <= k < |s| - 1 ensures s[1..][k] != sep {
          assert s[1..][k] == s[k + 1];
        }
      }
      SplitWithoutSeparator(s[1..], sep);
      assert [s[0]] + s[1..] == s;
    }
  }

  /** One character in front of `t`: a separator starts a new piece, anything else joins the first piece. */
  lemma {:induction false} SplitCons(c: char, t: string, sep: char)
    ensures Split([c] + t, sep) ==
      if c == sep then [""] + Split(t, sep)
      else [[c] + Split(t, sep)[0]] + Split(t, sep)[1..]
  {
    assert ([c] + t)[1..] == t;
  }

  /** Putting a character in front of the first piece commutes with appending more pieces. */
  lemma {:induction false} ConsFirstPiece(c: char, front: seq<string>, back: seq<string>)
    requires |front| > 0
    ensures [[c] + (front + back)[0]] + (front + back)[1..] == ([[c] + front[0]] + front[1..]) + back
  {
    assert (front + back)[1..] == front[1..] + back;
  }

  /** Splitting at a separator splits the two sides independently. */
  lemma {:induction false} SplitAround(x: string, y: string, sep: char)
    ensures Split(x + [sep] + y, sep) == Split(x, sep) + Split(y, sep)
    decreases |x|
  {
    if |x| == 0 {
      assert x + [sep] + y == [sep] + y;
      SplitCons(sep, y, sep);
    } else {
      var c, t := x[0], x[1..];
      SplitAround(t, y, sep);
      assert x == [c] + t;
      assert x + [sep] + y == [c] + (t + [sep] + y);
      SplitCons(c, t, sep);
      SplitCons(c, t + [sep] + y, sep);
      if c == sep {
        assert [""] + (Split(t, sep) + Split(y, sep)) == ([""] + Split(t, sep)) + Split(y, sep);
      } else {
        ConsFirstPiece(c, Split(t, sep), Split(y, sep));
      }
    }
  }

  /** Splitting a join of separator-free pieces gives the pieces back. */
  lemma {:induction false} SplitJoin(parts: seq<string>, sep: char)
    requires |parts| >= 1
    requires forall k :: 0 <= k < |parts| ==> sep !in parts[k]
    ensures Split(Join(parts, sep), sep) == parts
    decreases |parts|
  {
    SplitWithoutSeparator(parts[0], sep);
    if |parts| > 1 {
      var rest := parts[1..];
      assert forall k :: 0 <= k < |rest| ==> sep !in rest[k] by {
        forall k | 0 <= k < |rest| ensures sep !in rest[k] {
          assert rest[k] == parts[k + 1];
        }
      }
      SplitJoin(rest, sep);
      assert Join(parts, sep) == parts[0] + [sep] + Join(rest, sep);
      SplitAround(parts[0], Join(rest, sep), sep);
      assert parts == [parts[0]] + rest;
    }
  }

  /**
   * `t` is the text of `s` after its last `sep`: a separator-free suffix of
   * `s` that is either all of `s` or preceded by `sep`.
   */
  ghost predicate IsTextAfterLast(s: string, sep: char, t: string)
  {
    && |t| <= |s|
    && s[|s| - |t|..] == t
    && sep !in t
    && (|t| == |s| || s[|s| - |t| - 1] == sep)
  }

  /** There is only one text after the last separator. */
  lemma TextAfterLastUnique(s: string, sep: char, t1: string, t2: string)
    requires IsTextAfterLast(s, sep, t1) && IsTextAfterLast(s, sep, t2)
    ensures t1 == t2
  {
  }

  /** The last piece of `s.split(sep)` is the text of `s` after its last `sep`. */
  lemma {:induction false} LastPieceIsTextAfterLast(s: string, sep: char)
    ensures IsTextAfterLast(s, sep, Last(Split(s, sep)))
    decreases |s|
  {
    if |s| > 0 {
      LastPieceIsTextAfterLast(s[1..], sep);
      var rest := Split(s[1..], sep);
      var t := Last(rest);
      assert s[1..][|s| - 1 - |t|..] == s[|s| - |t|..];
      if |t| < |s| - 1 {
        assert s[1..][|s| - 1 - |t| - 1] == s[|s| - |t| - 1];
      }
      if s[0] != sep && |rest| == 1 {
        JoinSplit(s[1..], sep);
        assert Last(Split(s, sep)) == [s[0]] + s[1..] == s;
      } else if s[0] != sep {
        if |t| == |s| - 1 {
          assert s[1..] == t;
          SplitWithoutSeparator(s[1..], sep);
        }
        assert Last(Split(s, sep)) == t;
      } else {
        assert Last(Split(s, sep)) == t;
      }
    }
  }

  /** Only what follows the last separator decides the last piece. */
  lemma LastPieceAfterSeparator(x: string, y: string, sep: char)
    ensures Last(Split(x + [sep] + y, sep)) == Last(Split(y, sep))
  {
    SplitAround(x, y, sep);
  }
}
