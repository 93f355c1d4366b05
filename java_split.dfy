/** A model of Java's `String.split(" ")` on a single-space delimiter
    (limit 0): every space separates two pieces, empty pieces in the
    middle and at the front are kept, trailing empty pieces are removed,
    and a string without any space comes back as itself. */
module JavaStrings {

  /** True when the text contains no space character. */
  predicate NoSpace(t: string) {
    ' ' !in t
  }

  /** Every piece between spaces, nothing dropped: `n` spaces give
      `n + 1` pieces. */
  function Pieces(s: string): (r: seq<string>)
    ensures |r| >= 1
    ensures forall i :: 0 <= i < |r| ==> NoSpace(r[i])
  {
    if s == [] then [""]
    else
      var p := Pieces(s[1..]);
      if s[0] == ' ' then [""] + p
      else [[s[0]] + p[0]] + p[1..]
  }

  /** Java's removal of trailing empty strings from the result of a
      split with limit 0. */
  function DropTrailingEmpty(ts: seq<string>): (r: seq<string>)
    ensures r <= ts
    ensures r == [] || r[|r| - 1] != ""
    ensures forall i :: |r| <= i < |ts| ==> ts[i] == ""
  {
    if ts != [] && ts[|ts| - 1] == "" then DropTrailingEmpty(ts[..|ts| - 1])
    else ts
  }

  /** `s.split(" ")` in Java. */
  function SplitSpace(s: string): (r: seq<string>)
    ensures forall i :: 0 <= i < |r| ==> NoSpace(r[i])
    ensures NoSpace(s) ==> r == [s]
    ensures !NoSpace(s) ==> r == [] || r[|r| - 1] != ""
  {
    if NoSpace(s) then [s] else DropTrailingEmpty(Pieces(s))
  }

  /** `String.join(" ", ts)`. */
  function Join(ts: seq<string>): string {
    if ts == [] then ""
    else if |ts| == 1 then ts[0]
    else ts[0] + " " + Join(ts[1..])
  }

  /** Joining the pieces with single spaces gives back the string. */
  lemma {:induction false} JoinPieces(s: string)
    ensures Join(Pieces(s)) == s
  {
    if s != [] {
      var p := Pieces(s[1..]);
      JoinPieces(s[1..]);
      if s[0] == ' ' {
        assert Pieces(s) == [""] + p;
        assert Join(Pieces(s)) == "" + " " + Join(p);
        assert s == [' '] + s[1..];
      } else if |p| == 1 {
        assert Pieces(s) == [[s[0]] + p[0]];
        assert s == [s[0]] + s[1..];
      } else {
        var q := [[s[0]] + p[0]] + p[1..];
        assert Pieces(s) == q;
        assert q[1..] == p[1..];
        assert Join(q) == [s[0]] + p[0] + " " + Join(p[1..]);
        assert Join(p) == p[0] + " " + Join(p[1..]);
        assert s == [s[0]] + s[1..];
      }
    }
  }

  /** A string without spaces is a single piece. */
  lemma {:induction false} PiecesOfWord(t: string)
    requires NoSpace(t)
    ensures Pieces(t) == [t]
  {
    if t != [] {
      PiecesOfWord(t[1..]);
      assert t == [t[0]] + t[1..];
    }
  }

  /** A word followed by a space contributes exactly one piece. */
  lemma {:induction false} PiecesAfterWord(t: string, x: string)
    requires NoSpace(t)
    ensures Pieces(t + " " + x) == [t] + Pieces(x)
  {
    if t == [] {
      assert t + " " + x == " " + x;
      assert (" " + x)[1..] == x;
    } else {
      var s := t + " " + x;
      assert s[0] == t[0];
      assert s[1..] == t[1..] + " " + x;
      PiecesAfterWord(t[1..], x);
      assert t == [t[0]] + t[1..];
    }
  }

  /** A word followed by nothing or by a space ends the first piece. */
  lemma PiecesWordThenRest(t: string, rest: string)
    requires NoSpace(t)
    requires rest == "" || rest[0] == ' '
    ensures Pieces(t + rest)[0] == t
  {
    if rest == "" {
      assert t + rest == t;
      PiecesOfWord(t);
    } else {
      assert t + rest == t + " " + rest[1..];
      PiecesAfterWord(t, rest[1..]);
    }
  }

  /** The pieces are the only space-free sequence that joins to `s`:
      `Pieces` agrees with this reference characterisation. */
  lemma {:induction false} PiecesUnique(ts: seq<string>, s: string)
    requires |ts| >= 1
    requires forall i :: 0 <= i < |ts| ==> NoSpace(ts[i])
    requires Join(ts) == s
    ensures ts == Pieces(s)
  {
    if |ts| == 1 {
      PiecesOfWord(ts[0]);
    } else {
      assert NoSpace(ts[1..][0]);
      PiecesUnique(ts[1..], Join(ts[1..]));
      PiecesAfterWord(ts[0], Join(ts[1..]));
      assert ts == [ts[0]] + ts[1..];
    }
  }

  /** A trailing space adds one empty piece at the end. */
  lemma {:induction false} PiecesTrailingSpace(s: string)
    ensures Pieces(s + " ") == Pieces(s) + [""]
  {
    if s == [] {
      assert s + " " == " ";
      assert " "[1..] == "";
    } else {
      var q := Pieces(s[1..]);
      PiecesTrailingSpace(s[1..]);
      assert (s + " ")[0] == s[0];
      assert (s + " ")[1..] == s[1..] + " ";
      var p := q + [""];
      assert Pieces(s[1..] + " ") == p;
      if s[0] != ' ' {
        assert p[0] == q[0];
        assert p[1..] == q[1..] + [""];
      }
    }
  }

  /** A string that is not empty and does not end in a space has a
      non-empty last piece. */
  lemma {:induction false} PiecesLastNonEmpty(s: string)
    requires s != [] && s[|s| - 1] != ' '
    ensures Pieces(s)[|Pieces(s)| - 1] != ""
  {
    var p := Pieces(s[1..]);
    if |s| == 1 {
      assert s[1..] == [];
    } else {
      assert s[1..][|s[1..]| - 1] == s[|s| - 1];
      PiecesLastNonEmpty(s[1..]);
    }
  }

  /** Split/join round trip: a line with no trailing space is given back
      by joining its tokens with single spaces. */
  lemma SplitJoin(s: string)
    requires s == [] || s[|s| - 1] != ' '
    ensures Join(SplitSpace(s)) == s
  {
    if !NoSpace(s) {
      PiecesLastNonEmpty(s);
      JoinPieces(s);
    }
  }

  /** A trailing space never changes the tokens of a non-empty line. */
  lemma SplitTrailingSpace(s: string)
    requires s != []
    ensures SplitSpace(s + " ") == SplitSpace(s)
  {
    PiecesTrailingSpace(s);
    assert !NoSpace(s + " ") by { assert (s + " ")[|s|] == ' '; }
    var p := Pieces(s) + [""];
    assert p[..|p| - 1] == Pieces(s);
    if NoSpace(s) {
      PiecesOfWord(s);
    }
  }

  /** The tokens of the method, a space and a path that is followed by
      nothing or by a space start with that method and that path. */
  lemma SplitMethodPath(m: string, p: string, rest: string)
    requires NoSpace(m) && NoSpace(p) && p != ""
    requires rest == "" || rest[0] == ' '
    ensures |SplitSpace(m + " " + p + rest)| >= 2
    ensures SplitSpace(m + " " + p + rest)[0] == m
    ensures SplitSpace(m + " " + p + rest)[1] == p
  {
    var s := m + " " + p + rest;
    assert s == m + " " + (p + rest);
    assert s[|m|] == ' ';
    PiecesAfterWord(m, p + rest);
    PiecesWordThenRest(p, rest);
    var ts := Pieces(s);
    assert ts[0] == m && ts[1] == p;
    assert ts[1] != "";
  }

  /** Two consecutive spaces after the method give an empty token 1,
      unless nothing but spaces follows and token 1 is dropped. */
  lemma SplitDoubleSpace(m: string, rest: string)
    requires NoSpace(m)
    ensures var ts := SplitSpace(m + "  " + rest);
      |ts| < 2 || ts[1] == ""
  {
    var s := m + "  " + rest;
    assert s == m + " " + (" " + rest);
    assert s[|m|] == ' ';
    PiecesAfterWord(m, " " + rest);
    assert (" " + rest)[1..] == rest;
    assert Pieces(s)[1] == "";
  }

  /** Consecutive spaces keep the empty piece between them. */
  lemma SplitKeepsInnerEmpty()
    ensures SplitSpace("GET  /") == ["GET", "", "/"]
  {
    assert "GET  /" == "GET" + " " + (" " + "/");
    SplitInnerEmpty("GET", "/");
  }

  /** Two words around a double space give three tokens. */
  lemma SplitInnerEmpty(a: string, b: string)
    requires NoSpace(a) && NoSpace(b) && b != ""
    ensures SplitSpace(a + " " + (" " + b)) == [a, "", b]
  {
    var line := a + " " + (" " + b);
    assert line[|a|] == ' ';
    PiecesAfterWord(a, " " + b);
    assert " " + b == "" + " " + b;
    PiecesAfterWord("", b);
    PiecesOfWord(b);
    assert Pieces(line) == [a] + ([""] + [b]);
  }

  /** A trailing space leaves a single token. */
  lemma SplitDropsTrailingEmpty()
    ensures SplitSpace("GET ") == ["GET"]
  {
    assert "GET " == "GET" + " ";
    PiecesTrailingSpace("GET");
    PiecesOfWord("GET");
  }

  /** A leading space gives an empty first token. */
  lemma SplitKeepsLeadingEmpty()
    ensures SplitSpace(" GET") == ["", "GET"]
  {
    assert " GET" == "" + " " + "GET";
    PiecesAfterWord("", "GET");
    PiecesOfWord("GET");
  }

  /** The empty line is one empty token; a lone space gives no token. */
  lemma SplitEmptyAndBlank()
    ensures SplitSpace("") == [""]
    ensures SplitSpace(" ") == []
  {
    assert " " == "" + " ";
    PiecesTrailingSpace("");
  }
}
