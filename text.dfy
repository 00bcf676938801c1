/**
 * String helpers the query formatter is built from: joining a list of
 * strings with a separator, splitting a string on one character, the words
 * of a string, and the last position of a character.
 */
module Text {

  /** The pieces with `sep` between each pair of neighbours (`Array.prototype.join`). */
  function Join(pieces: seq<string>, sep: string): (joined: string)
    decreases |pieces|
  {
    if |pieces| == 0 then ""
    else if |pieces| == 1 then pieces[0]
    else pieces[0] + sep + Join(pieces[1..], sep)
  }

  /**
   * The pieces between the occurrences of `c`, empty pieces included
   * (`String.prototype.split` with a one-character separator). Joining
   * them again with `c` gives back the input.
   */
  function Split(s: string, c: char): (pieces: seq<string>)
    ensures |pieces| >= 1
    ensures forall i :: 0 <= i < |pieces| ==> c !in pieces[i]
    ensures Join(pieces, [c]) == s
    decreases |s|
  {
    if |s| == 0 then [""]
    else
      var rest := Split(s[1..], c);
      if s[0] == c then
        assert ([""] + rest)[1..] == rest;
        assert s == "" + [c] + Join(rest, [c]);
        [""] + rest
      else
        var first := [s[0]] + rest[0];
        assert ([first] + rest[1..])[1..] == rest[1..];
        assert |rest| > 1 ==> Join(rest, [c]) == rest[0] + [c] + Join(rest[1..], [c]);
        assert s == [s[0]] + Join(rest, [c]);
        [first] + rest[1..]
  }

  /** The pieces that are not empty, in order. */
  function NonEmpty(pieces: seq<string>): (r: seq<string>)
    ensures forall i :: 0 <= i < |r| ==> r[i] != ""
    ensures forall i :: 0 <= i < |r| ==> r[i] in pieces
    ensures (forall i :: 0 <= i < |pieces| ==> pieces[i] != "") ==> r == pieces
    decreases |pieces|
  {
    if |pieces| == 0 then []
    else if pieces[0] == "" then NonEmpty(pieces[1..])
    else
      var rest := NonEmpty(pieces[1..]);
      assert pieces == [pieces[0]] + pieces[1..];
      [pieces[0]] + rest
  }

  /**
   * The words of `s`: the pieces between single spaces, with the empty
   * pieces that repeated, leading or trailing spaces produce dropped.
   */
  function Words(s: string): (ws: seq<string>)
    ensures forall i :: 0 <= i < |ws| ==> ws[i] != "" && ' ' !in ws[i]
  {
    NonEmpty(Split(s, ' '))
  }

  /** The position of the last `c` in `s`, or -1 (`String.prototype.lastIndexOf`). */
  function LastIndexOf(s: string, c: char): (k: int)
    ensures -1 <= k < |s|
    ensures k == -1 <==> c !in s
    ensures k >= 0 ==> s[k] == c
    ensures forall j :: k < j < |s| ==> s[j] != c
    decreases |s|
  {
    if |s| == 0 then -1
    else if s[|s| - 1] == c then |s| - 1
    else LastIndexOf(s[..|s| - 1], c)
  }

  /** A string with no `c` splits into itself alone. */
  lemma {:induction false} SplitWithout(s: string, c: char)
    requires c !in s
    ensures Split(s, c) == [s]
    decreases |s|
  {
    if |s| > 0 {
      SplitWithout(s[1..], c);
      assert s == [s[0]] + s[1..];
    }
  }

  /** Splitting `p + c + t`, where `p` has no `c`, gives `p` and then the pieces of `t`. */
  lemma {:induction false} SplitAfter(p: string, c: char, t: string)
    requires c !in p
    ensures Split(p + [c] + t, c) == [p] + Split(t, c)
    decreases |p|
  {
    var s := p + [c] + t;
    if |p| == 0 {
      assert s[1..] == t;
    } else {
      assert s[1..] == p[1..] + [c] + t;
      SplitAfter(p[1..], c, t);
      assert [s[0]] + p[1..] == p;
    }
  }

  /** Split is the inverse of Join for pieces that do not contain the separator. */
  lemma {:induction false} SplitJoin(pieces: seq<string>, c: char)
    requires |pieces| >= 1
    requires forall i :: 0 <= i < |pieces| ==> c !in pieces[i]
    ensures Split(Join(pieces, [c]), c) == pieces
    decreases |pieces|
  {
    if |pieces| == 1 {
      SplitWithout(pieces[0], c);
    } else {
      SplitJoin(pieces[1..], c);
      SplitAfter(pieces[0], c, Join(pieces[1..], [c]));
      assert pieces == [pieces[0]] + pieces[1..];
    }
  }

  /** Words is the inverse of joining with single spaces, for non-empty words without spaces. */
  lemma WordsJoin(ws: seq<string>)
    requires forall i :: 0 <= i < |ws| ==> ws[i] != "" && ' ' !in ws[i]
    ensures Words(Join(ws, " ")) == ws
  {
    if |ws| > 0 {
      SplitJoin(ws, ' ');
    }
  }

  /**
   * NonEmpty keeps the non-empty pieces in their order: it distributes over
   * concatenation, and it keeps a single piece exactly when that piece is
   * not empty. Together these determine it on every list.
   */
  lemma {:induction false} NonEmptyConcat(a: seq<string>, b: seq<string>)
    ensures NonEmpty(a + b) == NonEmpty(a) + NonEmpty(b)
    decreases |a|
  {
    if |a| > 0 {
      assert (a + b)[1..] == a[1..] + b;
      NonEmptyConcat(a[1..], b);
    } else {
      assert a + b == b;
    }
  }

  /** A single piece is kept exactly when it is not empty. */
  lemma NonEmptySingle(p: string)
    ensures NonEmpty([p]) == (if p == "" then [] else [p])
  {
  }

  /** Concatenation regroups freely. */
  lemma AppendAssoc<T>(a: seq<T>, b: seq<T>, c: seq<T>)
    ensures a + (b + c) == (a + b) + c
  {
  }

  /** Joining a first piece in front of a non-empty list puts one separator between. */
  lemma JoinCons(first: string, rest: seq<string>, sep: string)
    requires |rest| > 0
    ensures Join([first] + rest, sep) == first + sep + Join(rest, sep)
  {
    assert ([first] + rest)[1..] == rest;
  }

  /** A character that is in no piece and not in the separator is not in the join. */
  lemma {:induction false} JoinAvoids(pieces: seq<string>, sep: string, c: char)
    requires forall i :: 0 <= i < |pieces| ==> c !in pieces[i]
    requires c !in sep
    ensures c !in Join(pieces, sep)
    decreases |pieces|
  {
    if |pieces| > 1 {
      JoinAvoids(pieces[1..], sep, c);
      assert Join(pieces, sep) == pieces[0] + sep + Join(pieces[1..], sep);
    }
  }

  /** A character of `middle` is a character of `left + middle + right`. */
  lemma ContainsInMiddle(left: string, middle: string, right: string, c: char)
    requires c in middle
    ensures c in left + middle + right
  {
    var k :| 0 <= k < |middle| && middle[k] == c;
    assert (left + middle + right)[|left| + k] == c;
  }

  /** A character of one of the pieces is a character of their join. */
  lemma {:induction false} JoinContains(pieces: seq<string>, sep: string, i: nat, c: char)
    requires i < |pieces| && c in pieces[i]
    ensures c in Join(pieces, sep)
    decreases |pieces|
  {
    if |pieces| > 1 {
      var rest := Join(pieces[1..], sep);
      assert Join(pieces, sep) == pieces[0] + sep + rest;
      if i == 0 {
        var k :| 0 <= k < |pieces[0]| && pieces[0][k] == c;
        assert Join(pieces, sep)[k] == c;
      } else {
        JoinContains(pieces[1..], sep, i - 1, c);
        var k :| 0 <= k < |rest| && rest[k] == c;
        assert Join(pieces, sep)[|pieces[0]| + |sep| + k] == c;
      }
    }
  }
}
