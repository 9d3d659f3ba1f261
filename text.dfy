/**
 * String splitting on a one-character separator, as JavaScript's
 * `String.prototype.split` does it: every separator ends a piece, so a string
 * with n separators yields n + 1 pieces, some of which may be empty.
 */
module Text {

  /** `s.split(sep)` for a one-character separator. */
  function Split(s: string, sep: char): (pieces: seq<string>)
    ensures |pieces| >= 1
    decreases |s|
  {
    if |s| == 0 then [""]
    else if s[0] == sep then [""] + Split(s[1..], sep)
    else
      var rest := Split(s[1..], sep);
      [[s[0]] + rest[0]] + rest[1..]
  }

  /** `pieces.join(sep)`: the inverse of `Split`. */
  function Join(pieces: seq<string>, sep: char): string
    requires |pieces| >= 1
    decreases |pieces|
  {
    if |pieces| == 1 then pieces[0] else pieces[0] + [sep] + Join(pieces[1..], sep)
  }

  /** No piece that `Split` returns contains the separator. */
  lemma {:induction false} SplitPiecesLackSeparator(s: string, sep: char)
    ensures forall i :: 0 <= i < |Split(s, sep)| ==> sep !in Split(s, sep)[i]
    decreases |s|
  {
    if |s| > 0 {
      SplitPiecesLackSeparator(s[1..], sep);
    }
  }

  /** Joining the pieces with the separator gives back the string. */
  lemma {:induction false} JoinSplit(s: string, sep: char)
    ensures Join(Split(s, sep), sep) == s
    decreases |s|
  {
    if |s| > 0 {
      JoinSplit(s[1..], sep);
      var rest := Split(s[1..], sep);
      if s[0] == sep {
        assert Split(s, sep) == [""] + rest;
        assert Split(s, sep)[1..] == rest;
      } else {
        var pieces := Split(s, sep);
        assert pieces == [[s[0]] + rest[0]] + rest[1..];
        if |rest| == 1 {
          assert pieces == [[s[0]] + rest[0]];
        } else {
          assert pieces[1..] == rest[1..];
          assert Join(rest, sep) == rest[0] + [sep] + Join(rest[1..], sep);
        }
      }
    }
  }

  /** Splitting a join of separator-free pieces gives back the pieces. */
  lemma {:induction false} SplitJoin(pieces: seq<string>, sep: char)
    requires |pieces| >= 1
    requires forall i :: 0 <= i < |pieces| ==> sep !in pieces[i]
    ensures Split(Join(pieces, sep), sep) == pieces
    decreases |pieces|, |pieces[0]|
  {
    if |pieces[0]| > 0 {
      var head := pieces[0];
      var shorter := [head[1..]] + pieces[1..];
      assert forall i :: 0 <= i < |shorter| ==> sep !in shorter[i] by {
        forall i | 0 <= i < |shorter| ensures sep !in shorter[i] {
          if i == 0 { assert forall c :: c in head[1..] ==> c in head; } else { assert shorter[i] == pieces[i]; }
        }
      }
      SplitJoin(shorter, sep);
      JoinCons(pieces, sep);
      assert Join(pieces, sep) == [head[0]] + Join(shorter, sep);
      assert head[0] != sep;
      assert ([head[0]] + Join(shorter, sep))[1..] == Join(shorter, sep);
      assert [head[0]] + head[1..] == head;
      assert shorter[1..] == pieces[1..];
    } else if |pieces| > 1 {
      SplitJoin(pieces[1..], sep);
      var joined := Join(pieces, sep);
      assert joined == [sep] + Join(pieces[1..], sep);
      assert joined[1..] == Join(pieces[1..], sep);
      assert [""] + pieces[1..] == pieces;
    }
  }

  /** A string with n separators splits into n + 1 pieces. */
  lemma {:induction false} SplitCount(s: string, sep: char)
    ensures |Split(s, sep)| == multiset(s)[sep] + 1
    decreases |s|
  {
    if |s| > 0 {
      SplitCount(s[1..], sep);
      assert s == [s[0]] + s[1..];
      assert multiset(s) == multiset([s[0]]) + multiset(s[1..]);
    }
  }

  /**
   * `Split` is characterized by its two inverse laws: its pieces are exactly
   * the one nonempty list of separator-free pieces whose join is the string.
   */
  lemma SplitUnique(s: string, sep: char, pieces: seq<string>)
    ensures pieces == Split(s, sep) <==>
      && |pieces| >= 1
      && (forall i :: 0 <= i < |pieces| ==> sep !in pieces[i])
      && Join(pieces, sep) == s
  {
    SplitPiecesLackSeparator(s, sep);
    JoinSplit(s, sep);
    if |pieces| >= 1 && (forall i :: 0 <= i < |pieces| ==> sep !in pieces[i]) && Join(pieces, sep) == s {
      SplitJoin(pieces, sep);
    }
  }

  /**
   * With at least one separator, the string starts with the first piece, the
   * separator and the second piece, followed by its end or another separator.
   */
  lemma SplitFirstTwo(s: string, sep: char)
    ensures var pieces := Split(s, sep);
      |pieces| >= 2 ==>
      var k := |pieces[0]| + 1 + |pieces[1]|;
      && k <= |s|
      && s[..k] == pieces[0] + [sep] + pieces[1]
      && (k == |s| || s[k] == sep)
  {
    var pieces := Split(s, sep);
    if |pieces| >= 2 {
      JoinSplit(s, sep);
      var tail := Join(pieces[1..], sep);
      assert s == pieces[0] + [sep] + tail;
      if |pieces| == 2 {
        assert tail == pieces[1];
      } else {
        assert pieces[1..][1..] == pieces[2..];
        assert tail == pieces[1] + [sep] + Join(pieces[2..], sep);
      }
      var k := |pieces[0]| + 1 + |pieces[1]|;
      assert s[..k] == pieces[0] + [sep] + pieces[1];
    }
  }

  /** The first character of a join comes from the first piece when that piece is nonempty. */
  lemma JoinCons(pieces: seq<string>, sep: char)
    requires |pieces| >= 1 && |pieces[0]| > 0
    ensures Join(pieces, sep) == [pieces[0][0]] + Join([pieces[0][1..]] + pieces[1..], sep)
  {
    var shorter := [pieces[0][1..]] + pieces[1..];
    assert shorter[1..] == pieces[1..];
    assert pieces[0] == [pieces[0][0]] + pieces[0][1..];
  }

  /**
   * Splitting `a + [sep] + b` where `a` has no separator yields `a` as the
   * first piece and the pieces of `b` after it.
   */
  lemma SplitAfterFirst(a: string, b: string, sep: char)
    requires sep !in a
    ensures Split(a + [sep] + b, sep) == [a] + Split(b, sep)
  {
    var pieces := [a] + Split(b, sep);
    SplitPiecesLackSeparator(b, sep);
    assert forall i :: 0 <= i < |pieces| ==> sep !in pieces[i] by {
      forall i | 0 <= i < |pieces| ensures sep !in pieces[i] {
        if i > 0 { assert pieces[i] == Split(b, sep)[i - 1]; }
      }
    }
    SplitJoin(pieces, sep);
    JoinSplit(b, sep);
    assert pieces[1..] == Split(b, sep);
  }
}
