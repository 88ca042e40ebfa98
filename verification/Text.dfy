/** Option values and the line view of a text file: a text is its lines joined by newlines. */
module Text {

  datatype Option<+T> = None | Some(value: T)

  predicate IsLine(s: string) {
    '\n' !in s
  }

  predicate AllLines(ls: seq<string>) {
    forall i :: 0 <= i < |ls| ==> IsLine(ls[i])
  }

  /** The lines of a text; the text after the last newline is always a line of its own. */
  function Split(t: string): (ls: seq<string>)
    ensures 0 < |ls|
  {
    if t == "" then [""]
    else if t[0] == '\n' then [""] + Split(t[1..])
    else var r := Split(t[1..]); [[t[0]] + r[0]] + r[1..]
  }

  function Join(ls: seq<string>): string
    requires 0 < |ls|
  {
    if |ls| == 1 then ls[0] else ls[0] + "\n" + Join(ls[1..])
  }

  /** Every line ended by a newline. */
  function Unlines(ls: seq<string>): string {
    if ls == [] then "" else ls[0] + "\n" + Unlines(ls[1..])
  }

  lemma {:induction false} SplitGivesLines(t: string)
    ensures AllLines(Split(t))
  {
    if t != "" {
      SplitGivesLines(t[1..]);
      var r := Split(t[1..]);
      if t[0] == '\n' {
        assert Split(t) == [""] + r;
      } else {
        assert Split(t) == [[t[0]] + r[0]] + r[1..];
        assert IsLine(r[0]);
      }
    }
  }

  lemma {:induction false} JoinOfSplit(t: string)
    ensures Join(Split(t)) == t
  {
    if t != "" {
      JoinOfSplit(t[1..]);
      var r := Split(t[1..]);
      if t[0] == '\n' {
        assert Split(t)[1..] == r;
        assert t == "" + "\n" + t[1..];
      } else {
        assert Split(t)[1..] == r[1..];
        if |r| > 1 {
          assert [t[0]] + r[0] + "\n" + Join(r[1..]) == [t[0]] + (r[0] + "\n" + Join(r[1..]));
        }
      }
    }
  }

  lemma {:induction false} SplitOfLine(s: string)
    requires IsLine(s)
    ensures Split(s) == [s]
  {
    if s != "" {
      SplitOfLine(s[1..]);
      assert [s[0]] + s[1..] == s;
    }
  }

  /** Splitting distributes over a newline. */
  lemma {:induction false} SplitAcrossNewline(a: string, b: string)
    ensures Split(a + "\n" + b) == Split(a) + Split(b)
  {
    var t := a + "\n" + b;
    if a == "" {
      assert t[0] == '\n' && t[1..] == b;
    } else {
      var u := a[1..] + "\n" + b;
      assert t[0] == a[0] && t[1..] == u;
      SplitAcrossNewline(a[1..], b);
      HeadLine(a[0], Split(a[1..]), Split(b));
    }
  }

  lemma HeadLine(c: char, r: seq<string>, s: seq<string>)
    requires 0 < |r|
    ensures [""] + (r + s) == ([""] + r) + s
    ensures [[c] + (r + s)[0]] + (r + s)[1..] == ([[c] + r[0]] + r[1..]) + s
  {
  }

  lemma {:induction false} SplitOfJoin(ls: seq<string>)
    requires 0 < |ls| && AllLines(ls)
    ensures Split(Join(ls)) == ls
  {
    SplitOfLine(ls[0]);
    if |ls| > 1 {
      SplitOfJoin(ls[1..]);
      SplitAcrossNewline(ls[0], Join(ls[1..]));
      assert ls == [ls[0]] + ls[1..];
    } else {
      assert ls == [ls[0]];
    }
  }

  lemma {:induction false} JoinAcross(p: seq<string>, q: seq<string>)
    requires 0 < |q|
    ensures Join(p + q) == Unlines(p) + Join(q)
  {
    if p == [] {
      assert p + q == q;
    } else {
      JoinAcross(p[1..], q);
      assert (p + q)[1..] == p[1..] + q;
      assert Unlines(p) == p[0] + "\n" + Unlines(p[1..]);
      assert p[0] + "\n" + (Unlines(p[1..]) + Join(q)) == p[0] + "\n" + Unlines(p[1..]) + Join(q);
    }
  }

  lemma {:induction false} UnlinesAcross(p: seq<string>, q: seq<string>)
    ensures Unlines(p + q) == Unlines(p) + Unlines(q)
  {
    if p == [] {
      assert p + q == q;
    } else {
      UnlinesAcross(p[1..], q);
      assert (p + q)[1..] == p[1..] + q && (p + q)[0] == p[0];
      assert p[0] + "\n" + (Unlines(p[1..]) + Unlines(q)) == p[0] + "\n" + Unlines(p[1..]) + Unlines(q);
    }
  }

  lemma UnlinesIsJoin(ls: seq<string>)
    requires 0 < |ls|
    ensures Unlines(ls) == Join(ls) + "\n"
    ensures Unlines(ls) == Join(ls + [""])
  {
    JoinAcross(ls, [""]);
    assert Unlines(ls) + "" == Unlines(ls);
    JoinThenNewline(ls);
  }

  lemma {:induction false} JoinThenNewline(ls: seq<string>)
    requires 0 < |ls|
    ensures Unlines(ls) == Join(ls) + "\n"
  {
    if |ls| > 1 {
      JoinThenNewline(ls[1..]);
      assert ls[0] + "\n" + (Join(ls[1..]) + "\n") == ls[0] + "\n" + Join(ls[1..]) + "\n";
    } else {
      assert ls[1..] == [];
      assert ls[0] + "\n" + "" == ls[0] + "\n";
    }
  }

  lemma AllLinesAcross(p: seq<string>, q: seq<string>)
    requires AllLines(p) && AllLines(q)
    ensures AllLines(p + q)
  {
  }

  // ---- text modulo trailing newlines ----

  /** The text without its trailing newlines. */
  function Chomp(t: string): string {
    if t != "" && t[|t| - 1] == '\n' then Chomp(t[..|t| - 1]) else t
  }

  /** Equal up to newlines at the end of the text. */
  predicate SameText(a: string, b: string) {
    Chomp(a) == Chomp(b)
  }

  function Newlines(n: nat): string {
    if n == 0 then "" else Newlines(n - 1) + "\n"
  }

  lemma {:induction false} ChompSplits(t: string) returns (n: nat)
    ensures t == Chomp(t) + Newlines(n)
    ensures Chomp(t) != "" ==> Chomp(t)[|Chomp(t)| - 1] != '\n'
  {
    if t != "" && t[|t| - 1] == '\n' {
      var m := ChompSplits(t[..|t| - 1]);
      n := m + 1;
      assert t == t[..|t| - 1] + "\n";
      assert Chomp(t) + Newlines(m) + "\n" == Chomp(t) + (Newlines(m) + "\n");
    } else {
      n := 0;
      assert t == t + "";
    }
  }

  lemma ChompNewline(t: string)
    ensures Chomp(t + "\n") == Chomp(t)
  {
  }

  lemma {:induction false} ChompNewlines(t: string, n: nat)
    ensures Chomp(t + Newlines(n)) == Chomp(t)
  {
    if n == 0 {
      assert t + "" == t;
    } else {
      ChompNewlines(t, n - 1);
      ChompNewline(t + Newlines(n - 1));
      assert t + Newlines(n) == t + Newlines(n - 1) + "\n";
    }
  }

  // ---- line ends, as a text file is read ----

  /** A text as it is read: every "\r\n" and every other '\r' is one newline. The flag says that the last character
      read before was a '\r'. */
  function ReadFrom(t: string, after: bool): string {
    if t == "" then ""
    else if t[0] == '\r' then "\n" + ReadFrom(t[1..], true)
    else if t[0] == '\n' && after then ReadFrom(t[1..], false)
    else [t[0]] + ReadFrom(t[1..], false)
  }

  function Translate(t: string): string {
    ReadFrom(t, false)
  }

  /** Whether the text read so far ends in a '\r'. */
  predicate EndsInReturn(t: string, after: bool) {
    if t == "" then after else t[|t| - 1] == '\r'
  }

  lemma {:induction false} ReadAcross(a: string, b: string, after: bool)
    ensures ReadFrom(a + b, after) == ReadFrom(a, after) + ReadFrom(b, EndsInReturn(a, after))
  {
    if a == "" {
      assert a + b == b;
    } else {
      var t := a + b;
      assert t[0] == a[0] && t[1..] == a[1..] + b;
      ReadAcross(a[1..], b, a[0] == '\r');
    }
  }

  lemma {:induction false} ReadShape(t: string, after: bool)
    ensures '\r' !in ReadFrom(t, after) && |ReadFrom(t, after)| <= |t|
    ensures '\r' !in t && !after ==> ReadFrom(t, after) == t
  {
    if t != "" {
      ReadShape(t[1..], t[0] == '\r');
      assert '\r' !in t ==> '\r' !in t[1..];
      assert t == [t[0]] + t[1..];
    }
  }

  lemma TranslateHasNone(t: string)
    ensures '\r' !in Translate(t)
  {
    ReadShape(t, false);
  }

  lemma TranslateKeeps(t: string)
    requires '\r' !in t
    ensures Translate(t) == t
  {
    ReadShape(t, false);
  }

  /** A line end stays a line end. */
  lemma ReadLine(y: string) returns (z: string)
    ensures Translate(y + "\n") == z + "\n"
  {
    if y != "" && y[|y| - 1] == '\r' {
      var u := y[..|y| - 1];
      assert y == u + "\r" && y + "\n" == u + "\r\n";
      ReadAcross(u, "\r\n", false);
      assert ReadFrom("\r\n", EndsInReturn(u, false)) == "\n" by {
        assert "\r\n"[1..] == "\n" && "\n"[1..] == "";
      }
      z := Translate(u);
    } else {
      ReadAcross(y, "\n", false);
      assert ReadFrom("\n", false) == "\n";
      z := Translate(y);
    }
  }
}
