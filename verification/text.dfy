/** The string operations the front-end relies on: JavaScript's `String.prototype.split`
    with a one-character separator, and the positional facts used to state what a
    composed string contains. */
module Text {

  /** `s.split(sep)`: the separator-free pieces of `s`, in order; a string without
      the separator is one piece, and two adjacent separators give an empty piece. */
  function Split(s: string, sep: char): (parts: seq<string>)
    ensures |parts| >= 1
    decreases |s|
  {
    if s == [] then [[]]
    else
      var rest := Split(s[1..], sep);
      if s[0] == sep then [[]] + rest
      else [[s[0]] + rest[0]] + rest[1..]
  }

  /** `parts.join(sep)`, the inverse of Split. */
  function Join(parts: seq<string>, sep: char): string
    decreases |parts|
  {
    if parts == [] then []
    else if |parts| == 1 then parts[0]
    else parts[0] + [sep] + Join(parts[1..], sep)
  }

  /** `pat` appears in `s` starting at index `at`. */
  predicate OccursAt(s: string, pat: string, at: nat)
  {
    at + |pat| <= |s| && s[at..at + |pat|] == pat
  }

  /** `s.endsWith(suffix)`. */
  predicate EndsWith(s: string, suffix: string)
  {
    |suffix| <= |s| && s[|s| - |suffix|..] == suffix
  }

  /** No piece of a split contains the separator. */
  lemma {:induction false} SplitPiecesAreFree(s: string, sep: char)
    ensures forall i :: 0 <= i < |Split(s, sep)| ==> sep !in Split(s, sep)[i]
    decreases |s|
  {
    if s != [] {
      SplitPiecesAreFree(s[1..], sep);
      var rest := Split(s[1..], sep);
      if s[0] != sep {
        assert sep !in rest[0];
        assert sep !in [s[0]] + rest[0];
      }
    }
  }

  /** Joining the pieces of a split with the same separator gives the string back. */
  lemma {:induction false} JoinSplit(s: string, sep: char)
    ensures Join(Split(s, sep), sep) == s
    decreases |s|
  {
    if s != [] {
      JoinSplit(s[1..], sep);
      var rest := Split(s[1..], sep);
      if s[0] == sep {
        assert Split(s, sep)[1..] == rest;
      } else {
        var parts := Split(s, sep);
        assert parts[1..] == rest[1..];
        if |rest| == 1 {
          assert s == [s[0]] + s[1..];
        } else {
          assert Join(rest, sep) == rest[0] + [sep] + Join(rest[1..], sep);
          assert s == [s[0]] + s[1..];
        }
      }
    }
  }

  /** Splitting a string with no separator in it gives that string alone. */
  lemma {:induction false} SplitWithoutSeparator(s: string, sep: char)
    requires sep !in s
    ensures Split(s, sep) == [s]
    decreases |s|
  {
    if s != [] {
      SplitWithoutSeparator(s[1..], sep);
      assert [s[0]] + s[1..] == s;
    }
  }

  /** A string holding the separator splits into at least two pieces. */
  lemma {:induction false} SplitWithSeparator(s: string, sep: char)
    requires sep in s
    ensures |Split(s, sep)| >= 2
    decreases |s|
  {
    if s[0] != sep {
      assert sep in s[1..];
      SplitWithSeparator(s[1..], sep);
    }
  }

  /** A separator-free prefix is glued onto the first piece and leaves the others alone. */
  lemma {:induction false} SplitFreePrefix(a: string, rest: string, sep: char)
    requires sep !in a
    ensures Split(a + rest, sep) == [a + Split(rest, sep)[0]] + Split(rest, sep)[1..]
    decreases |a|
  {
    if a != [] {
      SplitFreePrefix(a[1..], rest, sep);
      assert (a + rest)[1..] == a[1..] + rest;
      assert [a[0]] + (a[1..] + Split(rest, sep)[0]) == a + Split(rest, sep)[0];
    } else {
      var parts := Split(rest, sep);
      assert a + rest == rest;
      assert a + parts[0] == parts[0];
      assert parts == [parts[0]] + parts[1..];
    }
  }

  /** The piece that follows the first separator is the text up to the next separator. */
  lemma SplitSecondPiece(pre: string, piece: string, post: string, sep: char)
    requires sep !in pre && sep !in piece
    requires post == [] || post[0] == sep
    ensures |Split(pre + [sep] + piece + post, sep)| >= 2
    ensures Split(pre + [sep] + piece + post, sep)[0] == pre
    ensures Split(pre + [sep] + piece + post, sep)[1] == piece
  {
    var tail := piece + post;
    assert pre + [sep] + piece + post == pre + ([sep] + tail);
    SplitFreePrefix(pre, [sep] + tail, sep);
    assert ([sep] + tail)[1..] == tail;
    assert Split([sep] + tail, sep) == [[]] + Split(tail, sep);
    SplitFreePrefix(piece, post, sep);
    if post != [] {
      assert Split(post, sep) == [[]] + Split(post[1..], sep);
    }
    assert Split(post, sep)[0] == [];
  }

  /** The pieces written one after another, as a template literal joins its text and
      its substitutions. */
  function Concat(pieces: seq<string>): string
    decreases |pieces|
  {
    if pieces == [] then [] else pieces[0] + Concat(pieces[1..])
  }

  /** Concatenation distributes over splitting the list of pieces. */
  lemma {:induction false} ConcatAppend(a: seq<string>, b: seq<string>)
    ensures Concat(a + b) == Concat(a) + Concat(b)
    decreases |a|
  {
    if a == [] {
      assert a + b == b;
    } else {
      assert (a + b)[1..] == a[1..] + b;
      ConcatAppend(a[1..], b);
    }
  }

  /** A piece spliced between two strings is found at the length of what precedes it. */
  lemma OccursBetween(before: string, pat: string, after: string)
    ensures OccursAt(before + pat + after, pat, |before|)
  {
    assert (before + pat + after)[|before|..|before| + |pat|] == pat;
  }

  /** Any run of adjacent pieces appears in the concatenation, right after the pieces
      before it. */
  lemma ConcatHoldsRun(pieces: seq<string>, i: nat, j: nat)
    requires i <= j <= |pieces|
    ensures OccursAt(Concat(pieces), Concat(pieces[i..j]), |Concat(pieces[..i])|)
  {
    assert pieces == pieces[..i] + pieces[i..j] + pieces[j..];
    ConcatAppend(pieces[..i] + pieces[i..j], pieces[j..]);
    ConcatAppend(pieces[..i], pieces[i..j]);
    OccursBetween(Concat(pieces[..i]), Concat(pieces[i..j]), Concat(pieces[j..]));
  }

  /** Appending text keeps every earlier occurrence. */
  lemma OccursInPrefix(s: string, t: string, pat: string, at: nat)
    requires OccursAt(s, pat, at)
    ensures OccursAt(s + t, pat, at)
  {
    assert (s + t)[at..at + |pat|] == s[at..at + |pat|];
  }

  /** One piece concatenates to itself; two or three to their sum. */
  lemma ConcatSmall(a: string, b: string, c: string)
    ensures Concat([a]) == a
    ensures Concat([a, b]) == a + b
    ensures Concat([a, b, c]) == a + b + c
  {
    assert [a, b, c][1..] == [b, c] && [b, c][1..] == [c] && [c][1..] == [];
    assert Concat([c]) == c + [] == c;
    assert Concat([b, c]) == b + c;
    assert [a][1..] == [] && [b][1..] == [];
    assert a + [] == a && b + [] == b;
    assert Concat([b]) == b;
    assert [a, b][1..] == [b];
  }
}
