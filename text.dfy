/**
 * Go's `strings.Split(s, sep)` for a one-character separator, as
 * beater/rsbeat.go uses it on the client address `ip:port` of a slow-log
 * record, with `Join` as the reference inverse the lemmas relate it to.
 */
module Text {

  /** The pieces glued back together with `sep` between them; the inverse of `Split`. */
  function Join(parts: seq<string>, sep: char): string
    requires |parts| >= 1
    decreases |parts|
  {
    if |parts| == 1 then parts[0] else parts[0] + [sep] + Join(parts[1..], sep)
  }

  /** Number of occurrences of `c` in `s`. */
  function Count(s: string, c: char): nat
  {
    if s == [] then 0 else (if s[0] == c then 1 else 0) + Count(s[1..], c)
  }

  /**
   * `strings.Split(s, string(sep))`: the pieces of `s` between the
   * separators, one more piece than there are separators (so the empty
   * string gives one empty piece).
   */
  function Split(s: string, sep: char): (parts: seq<string>)
    ensures |parts| == Count(s, sep) + 1
  {
    if s == [] then [""]
    else
      var rest := Split(s[1..], sep);
      if s[0] == sep then [""] + rest
      else [[s[0]] + rest[0]] + rest[1..]
  }

  /** The pieces join back to `s`, and no piece contains the separator. */
  lemma {:induction false} SplitPieces(s: string, sep: char)
    ensures Join(Split(s, sep), sep) == s
    ensures forall i :: 0 <= i < |Split(s, sep)| ==> sep !in Split(s, sep)[i]
  {
    if s != [] {
      var rest := Split(s[1..], sep);
      SplitPieces(s[1..], sep);
      var parts := Split(s, sep);
      if s[0] == sep {
        assert parts == [""] + rest;
        assert parts[1..] == rest;
        assert forall i :: 1 <= i < |parts| ==> parts[i] == rest[i - 1];
      } else {
        var first := [s[0]] + rest[0];
        assert parts == [first] + rest[1..];
        assert forall i :: 1 <= i < |parts| ==> parts[i] == rest[i];
        assert sep !in first;
        if |rest| == 1 {
          assert Join(parts, sep) == first;
        } else {
          assert parts[1..] == rest[1..];
          assert Join(parts, sep) == first + [sep] + Join(rest[1..], sep);
          assert Join(rest, sep) == rest[0] + [sep] + Join(rest[1..], sep);
        }
        assert [s[0]] + s[1..] == s;
      }
    }
  }

  lemma {:induction false} CountZero(s: string, c: char)
    ensures Count(s, c) == 0 <==> c !in s
  {
    if s != [] {
      CountZero(s[1..], c);
      assert s == [s[0]] + s[1..];
    }
  }

  /** Splitting yields at least two pieces exactly when the separator occurs. */
  lemma SplitHasSecondPiece(s: string, sep: char)
    ensures |Split(s, sep)| >= 2 <==> sep in s
  {
    CountZero(s, sep);
  }

  /**
   * Split is the only way to cut `s` into separator-free pieces that join
   * back to `s`: it inverts Join on such pieces.
   */
  lemma {:induction false} SplitJoin(parts: seq<string>, sep: char)
    requires |parts| >= 1
    requires forall i :: 0 <= i < |parts| ==> sep !in parts[i]
    ensures Split(Join(parts, sep), sep) == parts
    decreases |parts|, |parts[0]|
  {
    var p := parts[0];
    if |parts| == 1 {
      SplitNoSep(p, sep);
    } else if p == [] {
      var tail := parts[1..];
      SplitJoin(tail, sep);
      assert Join(parts, sep) == [sep] + Join(tail, sep);
      assert ([sep] + Join(tail, sep))[1..] == Join(tail, sep);
    } else {
      var shorter := [p[1..]] + parts[1..];
      assert shorter[1..] == parts[1..];
      assert forall i :: 0 <= i < |shorter| ==> sep !in shorter[i] by {
        forall i | 0 <= i < |shorter| ensures sep !in shorter[i] {
          if i == 0 {
            assert p == [p[0]] + p[1..];
          } else {
            assert shorter[i] == parts[i];
          }
        }
      }
      SplitJoin(shorter, sep);
      var s := Join(parts, sep);
      assert s == [p[0]] + Join(shorter, sep);
      assert s[1..] == Join(shorter, sep);
      assert p[0] != sep;
      assert [p[0]] + p[1..] == p;
    }
  }

  lemma {:induction false} SplitNoSep(s: string, sep: char)
    requires sep !in s
    ensures Split(s, sep) == [s]
  {
    if s != [] {
      SplitNoSep(s[1..], sep);
      assert [s[0]] + s[1..] == s;
    }
  }

  /**
   * The first piece is the text before the first separator; when there is
   * a separator, the second piece is the text after it up to the next
   * separator or the end.
   */
  lemma FirstPieces(s: string, sep: char)
    requires sep in s
    ensures var parts := Split(s, sep);
      && |parts| >= 2
      && var a, b := |parts[0]|, |parts[1]|;
      && a + 1 + b <= |s|
      && s[..a] == parts[0] && s[a] == sep
      && s[a + 1..a + 1 + b] == parts[1]
      && (a + 1 + b == |s| || s[a + 1 + b] == sep)
  {
    SplitHasSecondPiece(s, sep);
    SplitPieces(s, sep);
    JoinFirstPieces(Split(s, sep), sep);
  }

  lemma JoinFirstPieces(parts: seq<string>, sep: char)
    requires |parts| >= 2
    ensures var s, a, b := Join(parts, sep), |parts[0]|, |parts[1]|;
      && a + 1 + b <= |s|
      && s[..a] == parts[0] && s[a] == sep
      && s[a + 1..a + 1 + b] == parts[1]
      && (a + 1 + b == |s| || s[a + 1 + b] == sep)
  {
    var s := Join(parts, sep);
    var tail := parts[1..];
    var rest := Join(tail, sep);
    var a, b := |parts[0]|, |parts[1]|;
    assert s == parts[0] + [sep] + rest;
    PieceAt(parts[0], sep, rest);
    if |tail| == 1 {
      assert rest == parts[1];
    } else {
      assert rest == parts[1] + [sep] + Join(tail[1..], sep);
      PieceAt(parts[1], sep, Join(tail[1..], sep));
    }
    assert s[a + 1..a + 1 + b] == rest[..b];
  }

  lemma PieceAt(x: string, c: char, y: string)
    ensures var s := x + [c] + y;
      s[..|x|] == x && s[|x|] == c && s[|x| + 1..] == y
  {
  }
}
