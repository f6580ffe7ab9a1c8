/** String helpers with the meaning JavaScript gives them: `split` on a
    one-character separator, `join` with a separator, substring search.
    Strings are sequences of Dafny `char`s (Unicode scalar values). */
module Text {

  /** `s.split(sep)` for a one-character separator: never empty, and two
      adjacent separators produce an empty piece between them. */
  function Split(s: string, sep: char): (pieces: seq<string>)
    ensures |pieces| >= 1
    ensures forall i :: 0 <= i < |pieces| ==> sep !in pieces[i]
    decreases |s|
  {
    if |s| == 0 then [""]
    else
      var rest := Split(s[1..], sep);
      if s[0] == sep then [""] + rest
      else [[s[0]] + rest[0]] + rest[1..]
  }

  /** `parts.join(sep)`: an empty array joins to the empty string. */
  function Join(parts: seq<string>, sep: string): string
  {
    if |parts| == 0 then ""
    else if |parts| == 1 then parts[0]
    else parts[0] + sep + Join(parts[1..], sep)
  }

  /** True when no piece holds the separator character. */
  predicate NoSeparator(parts: seq<string>, sep: char)
  {
    forall i :: 0 <= i < |parts| ==> sep !in parts[i]
  }

  /** Number of occurrences of `c` in `s`. */
  function Count(s: string, c: char): nat
  {
    if |s| == 0 then 0 else (if s[0] == c then 1 else 0) + Count(s[1..], c)
  }

  predicate IsPrefix(p: string, s: string)
  {
    |p| <= |s| && s[..|p|] == p
  }

  /** `s` holds `t` starting at index `i`. */
  predicate StartsAt(s: string, i: int, t: string)
  {
    0 <= i && i + |t| <= |s| && s[i..i + |t|] == t
  }

  /** `s.includes(t)`. */
  predicate Contains(s: string, t: string)
  {
    exists i :: 0 <= i <= |s| - |t| && StartsAt(s, i, t)
  }

  // ---------------------------------------------------------------------
  // Split and Join are inverse to each other.

  /** Splitting and joining again with the same separator gives back the
      input. */
  lemma {:induction false} JoinSplit(s: string, sep: char)
    ensures Join(Split(s, sep), [sep]) == s
    decreases |s|
  {
    if |s| == 0 {
    } else {
      var rest := Split(s[1..], sep);
      JoinSplit(s[1..], sep);
      if s[0] == sep {
        assert Split(s, sep) == [""] + rest;
        assert ([""] + rest)[1..] == rest;
        assert s == [s[0]] + s[1..];
      } else {
        var pieces := Split(s, sep);
        assert pieces == [[s[0]] + rest[0]] + rest[1..];
        if |rest| == 1 {
          assert s == [s[0]] + rest[0];
        } else {
          assert pieces[1..] == rest[1..];
          assert Join(rest, [sep]) == rest[0] + [sep] + Join(rest[1..], [sep]);
          assert s == [s[0]] + s[1..];
        }
      }
    }
  }

  /** Joining separator-free pieces and splitting again gives back the
      pieces. */
  lemma {:induction false} SplitJoin(parts: seq<string>, sep: char)
    requires |parts| >= 1
    requires NoSeparator(parts, sep)
    ensures Split(Join(parts, [sep]), sep) == parts
    decreases |parts|, |parts[0]|
  {
    var p0 := parts[0];
    if |p0| == 0 {
      if |parts| == 1 {
      } else {
        var tail := parts[1..];
        SplitJoin(tail, sep);
        var j := Join(parts, [sep]);
        assert j == [sep] + Join(tail, [sep]);
        assert j[1..] == Join(tail, [sep]);
        assert parts == [""] + tail;
      }
    } else {
      var shorter := [p0[1..]] + parts[1..];
      assert NoSeparator(shorter, sep) by {
        assert p0[0] != sep;
        forall i | 0 <= i < |shorter| ensures sep !in shorter[i] {
          if i == 0 {
            assert sep !in p0;
          } else {
            assert shorter[i] == parts[i];
          }
        }
      }
      SplitJoin(shorter, sep);
      var j := Join(parts, [sep]);
      assert shorter[1..] == parts[1..];
      assert j == [p0[0]] + Join(shorter, [sep]);
      assert p0[0] != sep by { assert p0[0] in p0; }
      assert j[1..] == Join(shorter, [sep]);
      assert [p0[0]] + p0[1..] == p0;
    }
  }

  /** The number of pieces is one more than the number of separators. */
  lemma {:induction false} SplitCount(s: string, sep: char)
    ensures |Split(s, sep)| == Count(s, sep) + 1
    decreases |s|
  {
    if |s| > 0 {
      SplitCount(s[1..], sep);
    }
  }

  /** Joining a leading run of the pieces gives a prefix of the whole join. */
  lemma {:induction false} JoinPrefix(parts: seq<string>, sep: string, k: nat)
    requires k <= |parts|
    ensures IsPrefix(Join(parts[..k], sep), Join(parts, sep))
    decreases k
  {
    if k == 0 {
      assert parts[..0] == [];
    } else if |parts| == 1 {
      assert parts[..k] == parts;
    } else if k == 1 {
      assert parts[..1] == [parts[0]];
    } else {
      JoinPrefix(parts[1..], sep, k - 1);
      assert parts[..k][1..] == parts[1..][..k - 1];
      assert |parts[..k]| >= 2;
    }
  }

  /** Appending text to the last piece appends it to the join. */
  lemma {:induction false} JoinAppendLast(parts: seq<string>, sep: string, t: string)
    requires |parts| >= 1
    ensures Join(parts[..|parts| - 1] + [parts[|parts| - 1] + t], sep) == Join(parts, sep) + t
    decreases |parts|
  {
    var q := parts[..|parts| - 1] + [parts[|parts| - 1] + t];
    if |parts| == 1 {
      assert q == [parts[0] + t];
    } else {
      var tail := parts[1..];
      JoinAppendLast(tail, sep, t);
      assert q[1..] == tail[..|tail| - 1] + [tail[|tail| - 1] + t];
      assert q[0] == parts[0];
    }
  }
}
