/** Replacement templates: what the regular expression engine inserts for a template with backslashes in it. */
module Templates {
  import opened Text

  /** The inserted text, or an error: a bad escape or a reference to a group that the pattern does not have. */
  datatype Expansion = Plainly(text: string) | BadTemplate

  /** What a template may refer to: the whole match, and its only group. */
  datatype Match = Match(whole: string, group: string)

  predicate IsLetter(c: char) {
    'a' <= c <= 'z' || 'A' <= c <= 'Z'
  }

  predicate IsDigit(c: char) {
    '0' <= c <= '9'
  }

  predicate IsOctal(c: char) {
    '0' <= c <= '7'
  }

  function Digit(c: char): nat
    requires IsDigit(c)
  {
    c as nat - '0' as nat
  }

  function Escape(c: char): Option<char> {
    if c == 'a' then Some(7 as char)
    else if c == 'b' then Some(8 as char)
    else if c == 'f' then Some(12 as char)
    else if c == 'n' then Some('\n')
    else if c == 'r' then Some('\r')
    else if c == 't' then Some('\t')
    else if c == 'v' then Some(11 as char)
    else if c == '\\' then Some('\\')
    else None
  }

  /** What one escape at the start of a text makes, and how much of the text it uses. */
  datatype Token = BadToken | Makes(text: string, used: nat)

  function OctalChar(n: nat): string
    requires n < 256
  {
    [n as char]
  }

  /** A zero and up to two octal digits. */
  function ZeroToken(t: string): Token
    requires |t| >= 2
  {
    if |t| > 2 && IsOctal(t[2]) then
      if |t| > 3 && IsOctal(t[3]) then Makes(OctalChar(8 * Digit(t[2]) + Digit(t[3])), 4)
      else Makes(OctalChar(Digit(t[2])), 3)
    else Makes(OctalChar(0), 2)
  }

  /** Three octal digits are a character; otherwise one or two digits are the number of a group. */
  function DigitToken(t: string, m: Match): Token
    requires |t| >= 2 && IsDigit(t[1])
  {
    if |t| > 2 && IsDigit(t[2]) then
      if |t| > 3 && IsOctal(t[1]) && IsOctal(t[2]) && IsOctal(t[3]) &&
         64 * Digit(t[1]) + 8 * Digit(t[2]) + Digit(t[3]) < 256
      then Makes(OctalChar(64 * Digit(t[1]) + 8 * Digit(t[2]) + Digit(t[3])), 4)
      else BadToken
    else if t[1] == '1' then Makes(m.group, 2)
    else BadToken
  }

  /** The number that digits name: nothing when they name none, or one above the last group. */
  function GroupNumber(digits: string): Option<nat> {
    if digits == "" then None
    else if digits[0] == '0' then (if |digits| == 1 then Some(0) else GroupNumber(digits[1..]))
    else if digits == "1" then Some(1)
    else None
  }

  /** The digits at the start of a text. */
  function Digits(t: string): (r: string)
    ensures r <= t && forall i :: 0 <= i < |r| ==> IsDigit(r[i])
    ensures |r| < |t| ==> !IsDigit(t[|r|])
  {
    if t != "" && IsDigit(t[0]) then [t[0]] + Digits(t[1..]) else ""
  }

  /** A group by its number between angle brackets. */
  function GroupToken(t: string, m: Match): Token
    requires |t| >= 2
  {
    if |t| == 2 || t[2] != '<' then BadToken
    else
      var name := Digits(t[3..]);
      if |t| == 3 + |name| || t[3 + |name|] != '>' then BadToken
      else match GroupNumber(name)
        case None => BadToken
        case Some(n) => Makes(if n == 0 then m.whole else m.group, 4 + |name|)
  }

  function TokenOf(t: string, m: Match): (r: Token)
    requires |t| >= 2 && t[0] == '\\'
    ensures r.Makes? ==> 2 <= r.used <= |t|
  {
    var c := t[1];
    if c == 'g' then GroupToken(t, m)
    else if c == '0' then ZeroToken(t)
    else if IsDigit(c) then DigitToken(t, m)
    else if Escape(c).Some? then Makes([Escape(c).value], 2)
    else if IsLetter(c) then BadToken
    else Makes(t[..2], 2)
  }

  function Prepend(s: string, e: Expansion): Expansion {
    match e
    case Plainly(t) => Plainly(s + t)
    case BadTemplate => BadTemplate
  }

  function Expand(t: string, m: Match): Expansion {
    if t == "" then Plainly("")
    else if t[0] != '\\' then Prepend([t[0]], Expand(t[1..], m))
    else if |t| == 1 then BadTemplate
    else match TokenOf(t, m)
      case BadToken => BadTemplate
      case Makes(text, used) => Prepend(text, Expand(t[used..], m))
  }

  /** No backslash that the engine would interpret. */
  predicate Literal(t: string) {
    forall i :: 0 <= i < |t| && t[i] == '\\' ==>
      i + 1 < |t| && !IsLetter(t[i + 1]) && !IsDigit(t[i + 1]) && t[i + 1] != '\\'
  }

  lemma LiteralTail(t: string, n: nat)
    requires n <= |t| && Literal(t)
    ensures Literal(t[n..])
  {
  }

  lemma NothingToEscape(t: string, m: Match)
    requires Literal(t) && t != "" && t[0] == '\\'
    ensures |t| > 1 && TokenOf(t, m) == Makes(t[..2], 2) && Literal(t[2..])
  {
    LiteralTail(t, 2);
  }

  lemma {:induction false} LiteralExpands(t: string, m: Match)
    requires Literal(t)
    ensures Expand(t, m) == Plainly(t)
  {
    if t == "" { return; }
    if t[0] == '\\' { NothingToEscape(t, m); }
    LiteralTail(t, 1);
    hide Literal, TokenOf;
    if t[0] != '\\' {
      LiteralExpands(t[1..], m);
      assert t == [t[0]] + t[1..];
    } else {
      LiteralExpands(t[2..], m);
      assert t == t[..2] + t[2..];
    }
  }

  lemma EmptyExpands(m: Match)
    ensures Literal("") && Expand("", m) == Plainly("")
  {
  }

  // ---- what templates mean ----

  /** The template that stands for a text: every backslash doubled. */
  function Escaped(t: string): string {
    if t == "" then "" else (if t[0] == '\\' then "\\\\" else [t[0]]) + Escaped(t[1..])
  }

  /** Every text is what its escaped form inserts. */
  lemma {:induction false} EscapedExpands(t: string, m: Match)
    ensures Expand(Escaped(t), m) == Plainly(t)
  {
    if t != "" {
      EscapedExpands(t[1..], m);
      var e := Escaped(t);
      if t[0] == '\\' {
        assert e[1] == '\\' && e[2..] == Escaped(t[1..]);
        assert TokenOf(e, m) == Makes("\\", 2);
      } else {
        assert e[1..] == Escaped(t[1..]);
      }
      assert [t[0]] + t[1..] == t;
    }
  }

  /** References insert the match or its group, whatever follows, unless a digit follows a bare one. */
  lemma ReferencesExpand(rest: string, m: Match)
    ensures rest == "" || !IsDigit(rest[0]) ==> Expand("\\1" + rest, m) == Prepend(m.group, Expand(rest, m))
    ensures Expand("\\g<1>" + rest, m) == Prepend(m.group, Expand(rest, m))
    ensures Expand("\\g<0>" + rest, m) == Prepend(m.whole, Expand(rest, m))
  {
    Numbered("1", rest, m);
    Numbered("0", rest, m);
    assert "\\g<" + "1" + ">" == "\\g<1>" && "\\g<" + "0" + ">" == "\\g<0>";
    hide Expand;
    if rest == "" || !IsDigit(rest[0]) { Bare(rest, m); }
  }

  lemma Bare(rest: string, m: Match)
    requires rest == "" || !IsDigit(rest[0])
    ensures Expand("\\1" + rest, m) == Prepend(m.group, Expand(rest, m))
  {
    var t := "\\1" + rest;
    assert t[0] == '\\' && t[1] == '1' && t[2..] == rest;
    assert |t| > 2 ==> t[2] == rest[0];
    assert TokenOf(t, m) == Makes(m.group, 2);
  }

  lemma Numbered(digit: string, rest: string, m: Match)
    requires digit == "0" || digit == "1"
    ensures var t := "\\g<" + digit + ">" + rest;
            Expand(t, m) == Prepend(if digit == "0" then m.whole else m.group, Expand(rest, m))
  {
    var t := "\\g<" + digit + ">" + rest;
    assert t[0] == '\\' && t[1] == 'g' && t[2] == '<' && t[3] == digit[0] && t[4] == '>';
    assert t[3..][0] == digit[0] && t[3..][1] == '>';
    assert t[3..][1..][0] == '>';
    assert Digits(t[3..][1..]) == "";
    assert Digits(t[3..]) == digit;
    assert t[5..] == rest;
  }

  /** The character that a letter behind a backslash stands for. */
  predicate Names(letter: char, c: char) {
    (letter == 'a' && c as int == 7) || (letter == 'b' && c as int == 8) || (letter == 't' && c as int == 9) ||
    (letter == 'n' && c as int == 10) || (letter == 'v' && c as int == 11) || (letter == 'f' && c as int == 12) ||
    (letter == 'r' && c as int == 13)
  }

  /** The escape of a control character inserts it. */
  lemma ControlExpands(letter: char, c: char, rest: string, m: Match)
    requires Names(letter, c)
    ensures Expand(['\\', letter] + rest, m) == Prepend([c], Expand(rest, m))
  {
    var t := ['\\', letter] + rest;
    assert t[0] == '\\' && t[1] == letter && t[2..] == rest;
    assert TokenOf(t, m) == Makes([c], 2);
  }

  /** Three octal digits that make at most 255 insert the character of that number. */
  lemma OctalExpands(a: char, b: char, c: char, rest: string, m: Match)
    requires IsOctal(a) && IsOctal(b) && IsOctal(c) && a <= '3'
    ensures var n := 64 * Digit(a) + 8 * Digit(b) + Digit(c);
            n < 256 && Expand(['\\', a, b, c] + rest, m) == Prepend([n as char], Expand(rest, m))
  {
    var t := ['\\', a, b, c] + rest;
    assert t[0] == '\\' && t[1] == a && t[2] == b && t[3] == c && t[4..] == rest;
    assert TokenOf(t, m) == Makes([(64 * Digit(a) + 8 * Digit(b) + Digit(c)) as char], 4);
  }

  // ---- part by part ----

  lemma PrependAcross(a: string, b: string, e: Expansion)
    ensures Prepend(a, Prepend(b, e)) == Prepend(a + b, e)
    ensures Prepend("", e) == e
  {
    if e.Plainly? {
      assert a + (b + e.text) == a + b + e.text;
      assert "" + e.text == e.text;
    }
  }

  function Both(a: Expansion, b: Expansion): Expansion {
    match a
    case Plainly(s) => Prepend(s, b)
    case BadTemplate => BadTemplate
  }

  lemma {:induction false} DigitsAcross(a: string, b: string)
    requires a != "" && a[|a| - 1] == '\n'
    ensures Digits(a + b) == Digits(a) && |Digits(a)| < |a|
  {
    if IsDigit(a[0]) {
      assert (a + b)[1..] == a[1..] + b;
      DigitsAcross(a[1..], b);
    }
  }

  /** An escape does not look beyond the end of its line. */
  lemma TokenAcross(a: string, b: string, m: Match)
    requires |a| >= 2 && a[0] == '\\' && a[|a| - 1] == '\n'
    ensures TokenOf(a + b, m) == TokenOf(a, m)
  {
    hide Escape, GroupNumber;
    assert forall i :: 0 <= i < |a| ==> (a + b)[i] == a[i];
    assert (a + b)[..2] == a[..2];
    if a[1] == 'g' && |a| > 3 {
      assert (a + b)[3..] == a[3..] + b;
      DigitsAcross(a[3..], b);
    }
  }

  /** A template is expanded line by line. */
  lemma {:induction false} ExpandAcross(a: string, b: string, m: Match)
    requires a == "" || a[|a| - 1] == '\n'
    ensures Expand(a + b, m) == Both(Expand(a, m), Expand(b, m))
  {
    hide TokenOf;
    if a == "" {
      assert a + b == b;
      PrependAcross("", "", Expand(b, m));
    } else if a[0] != '\\' {
      assert (a + b)[1..] == a[1..] + b;
      ExpandAcross(a[1..], b, m);
      if Expand(a[1..], m).Plainly? { PrependAcross([a[0]], Expand(a[1..], m).text, Expand(b, m)); }
    } else {
      TokenAcross(a, b, m);
      match TokenOf(a, m)
      case BadToken =>
      case Makes(text, used) =>
        assert (a + b)[used..] == a[used..] + b;
        ExpandAcross(a[used..], b, m);
        if Expand(a[used..], m).Plainly? { PrependAcross(text, Expand(a[used..], m).text, Expand(b, m)); }
    }
  }

  /** A token that uses the end of its line keeps it. */
  lemma TokenAtEnd(t: string, m: Match)
    requires |t| >= 2 && t[0] == '\\' && t[|t| - 1] == '\n' && TokenOf(t, m).Makes? && TokenOf(t, m).used == |t|
    ensures |t| == 2 && TokenOf(t, m).text == t
  {
    hide GroupNumber;
  }

  /** A line end stays a line end. */
  lemma {:induction false} ExpandLine(t: string, m: Match) returns (y: string)
    requires Expand(t + "\n", m).Plainly?
    ensures Expand(t + "\n", m).text == y + "\n"
  {
    hide TokenOf;
    var l := t + "\n";
    if t == "" {
      assert l[1..] == "";
      y := "";
    } else if t[0] != '\\' {
      assert l[1..] == t[1..] + "\n";
      var z := ExpandLine(t[1..], m);
      y := [t[0]] + z;
      assert [t[0]] + (z + "\n") == y + "\n";
    } else {
      var k := TokenOf(l, m);
      if k.used == |l| {
        TokenAtEnd(l, m);
        assert l[k.used..] == "" && k.text + "" == k.text;
        y := t;
      } else {
        assert l[k.used..] == t[k.used..] + "\n";
        var z := ExpandLine(t[k.used..], m);
        y := k.text + z;
        assert k.text + (z + "\n") == y + "\n";
      }
    }
  }

  // ---- no template with an active escape reproduces itself ----

  /** Where nothing that an escape can refer to begins with anything but a hash sign. */
  predicate Hashed(m: Match) {
    "#" <= m.whole && "#" <= m.group
  }

  /** What was produced, as it stands or as it is read back. */
  function Seen(t: string, back: bool, after: bool): string {
    if back then ReadFrom(t, after) else t
  }

  lemma SeenAcross(a: string, b: string, back: bool, after: bool)
    ensures Seen(a + b, back, after) == Seen(a, back, after) + Seen(b, back, EndsInReturn(a, after))
    ensures |Seen(a, back, after)| <= |a|
  {
    ReadAcross(a, b, after);
    ReadShape(a, after);
  }

  lemma SeenHash(a: string, b: string, back: bool, after: bool)
    requires "#" <= a
    ensures "#" <= Seen(a + b, back, after)
  {
    assert (a + b)[0] == '#';
  }

  /** Production that lags behind what it should reproduce never catches up: the first hash sign would have to be
      produced before it is reached. */
  lemma {:induction false} NeverCatchesUp(s: string, c: nat, r: nat, m: Match, back: bool, after: bool)
    requires Hashed(m) && r < c <= |s| && '#' !in s[..c]
    requires Expand(s[c..], m).Plainly?
    ensures !(s[r..] <= Seen(Expand(s[c..], m).text, back, after))
    decreases |s| - c
  {
    hide TokenOf, ReadFrom, Expand, Seen;
    if c == |s| {
      NothingSeen(m, back, after);
      assert s[c..] == "";
    } else {
      var x, used := NextPart(s[c..], m);
      assert s[c..][used..] == s[c + used..] && s[c..][0] == s[c];
      var rest := Expand(s[c + used..], m).text;
      if "#" <= x {
        SeenHash(x, rest, back, after);
        NotHere(s, c, r, 0, "#", Seen(x + rest, back, after));
      } else if "\\#" <= x {
        SeenEscape(x, rest, back, after);
        NotHere(s, c, r, 1, "\\#", Seen(x + rest, back, after));
      } else {
        assert s[..c + used] == s[..c] + s[c..][..used];
        SeenAcross(x, rest, back, after);
        var z := Seen(x, back, after);
        if r + |z| <= |s| {
          NeverCatchesUp(s, c + used, r + |z|, m, back, EndsInReturn(x, after));
          OneLess(s, r, z, Seen(rest, back, EndsInReturn(x, after)));
        }
      }
    }
  }

  lemma NothingSeen(m: Match, back: bool, after: bool)
    ensures Expand("", m) == Plainly("") && Seen("", back, after) == ""
  {
  }

  lemma NotHere(s: string, c: nat, r: nat, i: nat, x: string, t: string)
    requires r < c < |s| && '#' !in s[..c] && x <= t && i < |x| && x[i] == '#' && i <= 1
    requires i == 1 ==> s[c] == '\\'
    ensures !(s[r..] <= t)
  {
    assert r + i < c ==> s[..c][r + i] == s[r + i];
  }

  lemma SeenEscape(a: string, b: string, back: bool, after: bool)
    requires "\\#" <= a
    ensures "\\#" <= Seen(a + b, back, after)
  {
    SeenAcross("\\#", (a + b)[2..], back, after);
    assert a + b == "\\#" + (a + b)[2..];
    assert "\\#"[1..] == "#" && "#"[1..] == "";
    assert ReadFrom("#", false) == "#";
  }

  /** The first character or escape of a template: what it makes, and how much of the template it uses. */
  lemma NextPart(t: string, m: Match) returns (x: string, used: nat)
    requires Hashed(m) && t != "" && Expand(t, m).Plainly?
    ensures 1 <= used <= |t| && Expand(t[used..], m).Plainly? && Expand(t, m).text == x + Expand(t[used..], m).text
    ensures "#" <= x || "\\#" <= x || (|x| <= used && '#' !in t[..used])
    ensures "\\#" <= x ==> t[0] == '\\'
  {
    hide TokenOf;
    if t[0] != '\\' {
      x, used := [t[0]], 1;
      assert t[..1] == [t[0]];
    } else {
      var k := TokenOf(t, m);
      TokenKinds(t, m);
      x, used := k.text, k.used;
      assert t[..2] == [t[0], t[1]];
    }
  }

  lemma OneLess(s: string, r: nat, x: string, rest: string)
    requires r + |x| <= |s|
    ensures s[r..] <= x + rest ==> s[r + |x|..] <= rest
  {
    if s[r..] <= x + rest {
      var n := |s| - r;
      assert (x + rest)[..n] == s[r..];
      assert (x + rest)[|x|..n] == s[r..][|x|..] == s[r + |x|..];
      assert rest[..n - |x|] == (x + rest)[|x|..n];
    }
  }

  /** What an escape makes: text that begins with a hash sign, itself, or one character for several. */
  lemma TokenKinds(t: string, m: Match)
    requires Hashed(m) && |t| >= 2 && t[0] == '\\' && TokenOf(t, m).Makes?
    ensures var k := TokenOf(t, m);
            "#" <= k.text ||
            (k.text == t[..2] && k.used == 2 && !IsLetter(t[1]) && !IsDigit(t[1]) && t[1] != '\\') ||
            (|k.text| == 1 && '#' !in t[..k.used])
  {
    hide GroupNumber;
  }

  /** A template is inserted verbatim, even as the beginning of what is inserted, exactly when it holds no active
      backslash; and what is inserted reads back so only then, too. */
  lemma {:induction false} ReproducesIffLiteral(t: string, m: Match, back: bool)
    requires Hashed(m) && Expand(t, m).Plainly? && (back ==> '\r' !in t)
    ensures t <= Seen(Expand(t, m).text, back, false) <==> Literal(t)
    decreases |t|, 1
  {
    hide TokenOf, ReadFrom;
    if t == "" {
    } else if t[0] != '\\' {
      ReproducesStep(t, 1, m, back);
    } else {
      var k := TokenOf(t, m);
      TokenKinds(t, m);
      if k.text == t[..2] && k.used == 2 {
        ReproducesStep(t, 2, m, back);
      } else {
        ActiveIsNot(t, m, back);
      }
    }
  }

  lemma {:induction false} ReproducesStep(t: string, n: nat, m: Match, back: bool)
    requires Hashed(m) && (back ==> '\r' !in t)
    requires (n == 1 && t != "" && t[0] != '\\') ||
             (n == 2 && |t| >= 2 && t[0] == '\\' && !IsLetter(t[1]) && !IsDigit(t[1]) && t[1] != '\\')
    requires Expand(t[n..], m).Plainly? && Expand(t, m) == Plainly(t[..n] + Expand(t[n..], m).text)
    ensures t <= Seen(Expand(t, m).text, back, false) <==> Literal(t)
    decreases |t|, 0
  {
    hide TokenOf, ReadFrom, Expand, Literal;
    ReproducesIffLiteral(t[n..], m, back);
    LiteralStep(t, n);
    SeenAcross(t[..n], Expand(t[n..], m).text, back, false);
    if back { ReadShape(t[..n], false); }
    HeadPrefix(t, n, Seen(Expand(t[n..], m).text, back, false));
  }

  lemma HeadPrefix(t: string, n: nat, rest: string)
    requires n <= |t|
    ensures t <= t[..n] + rest <==> t[n..] <= rest
  {
    var x := t[..n] + rest;
    assert t == t[..n] + t[n..];
    if t[n..] <= rest { assert x[..|t|] == t; }
    assert t[0..] == t;
    OneLess(t, 0, t[..n], rest);
  }

  lemma LiteralStep(t: string, n: nat)
    requires (n == 1 && t != "" && t[0] != '\\') ||
             (n == 2 && |t| >= 2 && t[0] == '\\' && !IsLetter(t[1]) && !IsDigit(t[1]) && t[1] != '\\')
    ensures Literal(t) <==> Literal(t[n..])
  {
    if Literal(t[n..]) {
      forall i | 0 <= i < |t| && t[i] == '\\'
        ensures i + 1 < |t| && !IsLetter(t[i + 1]) && !IsDigit(t[i + 1]) && t[i + 1] != '\\'
      {
        if i >= n { assert t[n..][i - n] == '\\' && t[n..][i - n + 1] == t[i + 1]; }
      }
    }
  }

  lemma ActiveIsNot(t: string, m: Match, back: bool)
    requires Hashed(m) && |t| >= 2 && t[0] == '\\' && Expand(t, m).Plainly?
    requires TokenOf(t, m).text != t[..2] || TokenOf(t, m).used != 2
    ensures !Literal(t) && !(t <= Seen(Expand(t, m).text, back, false))
  {
    var k := TokenOf(t, m);
    TokenKinds(t, m);
    if Literal(t) { NothingToEscape(t, m); }
    hide TokenOf, Literal, ReadFrom;
    var rest := Expand(t[k.used..], m).text;
    if "#" <= k.text {
      SeenHash(k.text, rest, back, false);
    } else {
      SeenAcross(k.text, rest, back, false);
      var z := Seen(k.text, back, false);
      NeverCatchesUp(t, k.used, |z|, m, back, EndsInReturn(k.text, false));
      assert t[0..] == t;
      OneLess(t, 0, z, Seen(rest, back, EndsInReturn(k.text, false)));
    }
  }

  /** A template is inserted verbatim exactly when it holds no active backslash. */
  lemma VerbatimIffLiteral(t: string, m: Match)
    requires Hashed(m)
    ensures Expand(t, m) == Plainly(t) <==> Literal(t)
  {
    if Literal(t) { LiteralExpands(t, m); }
    if Expand(t, m) == Plainly(t) { ReproducesIffLiteral(t, m, false); }
  }

  // ---- templates that do not depend on the match ----

  lemma TokenAnyway(t: string, m: Match, n: Match)
    requires |t| >= 2 && t[0] == '\\'
    ensures TokenOf(t, m).BadToken? <==> TokenOf(t, n).BadToken?
    ensures TokenOf(t, m).Makes? ==> TokenOf(t, m).used == TokenOf(t, n).used
  {
    hide Escape, GroupNumber, Digits;
  }

  /** Whether a template is in order does not depend on the match. */
  lemma {:induction false} BadAnyway(t: string, m: Match, n: Match)
    ensures Expand(t, m).BadTemplate? <==> Expand(t, n).BadTemplate?
  {
    hide TokenOf;
    if t != "" && t[0] != '\\' {
      BadAnyway(t[1..], m, n);
    } else if |t| > 1 {
      TokenAnyway(t, m, n);
      if TokenOf(t, m).Makes? { BadAnyway(t[TokenOf(t, m).used..], m, n); }
    }
  }

  /** A template that is inserted as it is, or that is no template. */
  predicate Steady(t: string) {
    Literal(t) || Expand(t, Match("", "")).BadTemplate?
  }

  lemma SteadyExpands(t: string, m: Match)
    requires Steady(t)
    ensures Expand(t, m) == if Literal(t) then Plainly(t) else BadTemplate
  {
    if Literal(t) {
      LiteralExpands(t, m);
    } else {
      BadAnyway(t, m, Match("", ""));
    }
  }
}
