/** There is a way of writing JSON objects as text that obeys all the laws the model relies on. */
module CodecWitness {
  import opened Text
  import opened JsonMerge
  import opened World

  // ---- values as numbers ----

  function OfText(s: string): seq<nat> {
    if s == "" then [0] else [1, s[0] as nat] + OfText(s[1..])
  }

  ghost function OfValue(j: Json): seq<nat>
    decreases j, 1, 0
  {
    match j
    case Null => [0]
    case Bool(b) => [1, if b then 1 else 0]
    case Number(n) => [2, if n < 0 then -2 * n - 1 else 2 * n]
    case Str(s) => [3] + OfText(s)
    case List(items) => [4] + OfItems(items)
    case Object(fields) => [5] + OfFields(j, fields)
  }

  ghost function OfItems(items: seq<Json>): seq<nat>
    decreases items, 0, 0
  {
    if items == [] then [0] else [1] + OfValue(items[0]) + OfItems(items[1..])
  }

  ghost predicate Part(m: Fields, j: Json) {
    j.Object? && forall k :: k in m ==> k in j.fields && m[k] == j.fields[k]
  }

  /** The fields one after the other, in some order. */
  ghost function OfFields(j: Json, m: Fields): seq<nat>
    requires Part(m, j)
    decreases j, 0, |m|
  {
    if m == map[] then [0]
    else
      var k :| k in m;
      [1] + OfText(k) + OfValue(j.fields[k]) + OfFields(j, m - {k})
  }

  lemma {:induction false} TextIsUnique(a: string, b: string, s: seq<nat>, t: seq<nat>)
    requires OfText(a) + s == OfText(b) + t
    ensures a == b && s == t
  {
    var x, y := OfText(a) + s, OfText(b) + t;
    assert x[0] == (if a == "" then 0 else 1) && y[0] == (if b == "" then 0 else 1);
    if a == "" {
      assert x[1..] == s && y[1..] == t;
    } else {
      assert x[1] == a[0] as nat && y[1] == b[0] as nat;
      assert x[2..] == OfText(a[1..]) + s && y[2..] == OfText(b[1..]) + t;
      TextIsUnique(a[1..], b[1..], s, t);
      assert a == [a[0]] + a[1..] && b == [b[0]] + b[1..];
    }
  }

  lemma {:induction false} ValueIsUnique(a: Json, b: Json, s: seq<nat>, t: seq<nat>)
    requires OfValue(a) + s == OfValue(b) + t
    ensures a == b && s == t
    decreases a, 1, 0
  {
    hide OfText, OfItems, OfFields;
    var x, y := OfValue(a) + s, OfValue(b) + t;
    assert x[0] == OfValue(a)[0] && y[0] == OfValue(b)[0];
    match a
    case Null => assert x[1..] == s && y[1..] == t;
    case Bool(_) => assert x[1] == OfValue(a)[1] && y[1] == OfValue(b)[1] && x[2..] == s && y[2..] == t;
    case Number(_) => assert x[1] == OfValue(a)[1] && y[1] == OfValue(b)[1] && x[2..] == s && y[2..] == t;
    case Str(u) =>
      assert x[1..] == OfText(u) + s && y[1..] == OfText(b.s) + t;
      TextIsUnique(u, b.s, s, t);
    case List(items) =>
      assert x[1..] == OfItems(items) + s && y[1..] == OfItems(b.items) + t;
      ItemsAreUnique(items, b.items, s, t);
    case Object(fields) =>
      assert x[1..] == OfFields(a, fields) + s && y[1..] == OfFields(b, b.fields) + t;
      FieldsAreUnique(a, fields, b, b.fields, s, t);
  }

  lemma {:induction false} ItemsAreUnique(a: seq<Json>, b: seq<Json>, s: seq<nat>, t: seq<nat>)
    requires OfItems(a) + s == OfItems(b) + t
    ensures a == b && s == t
    decreases a, 0, 0
  {
    hide OfValue;
    var x, y := OfItems(a) + s, OfItems(b) + t;
    assert x[0] == (if a == [] then 0 else 1) && y[0] == (if b == [] then 0 else 1);
    if a == [] {
      assert x[1..] == s && y[1..] == t;
    } else {
      assert x[1..] == OfValue(a[0]) + (OfItems(a[1..]) + s);
      assert y[1..] == OfValue(b[0]) + (OfItems(b[1..]) + t);
      ValueIsUnique(a[0], b[0], OfItems(a[1..]) + s, OfItems(b[1..]) + t);
      ItemsAreUnique(a[1..], b[1..], s, t);
      assert a == [a[0]] + a[1..] && b == [b[0]] + b[1..];
    }
  }

  lemma {:induction false} FieldsAreUnique(a: Json, m: Fields, b: Json, n: Fields, s: seq<nat>, t: seq<nat>)
    requires Part(m, a) && Part(n, b)
    requires OfFields(a, m) + s == OfFields(b, n) + t
    ensures m == n && s == t
    decreases a, 0, |m|
  {
    hide OfFields, OfValue, OfText;
    if m == map[] || n == map[] {
      NoFields(a, m, s, b, n, t);
    } else {
      var k := FirstField(a, m, s);
      var l := FirstField(b, n, t);
      var restA, restB := OfFields(a, m - {k}) + s, OfFields(b, n - {l}) + t;
      var x, y := OfText(k) + (OfValue(a.fields[k]) + restA), OfText(l) + (OfValue(b.fields[l]) + restB);
      assert ([1] + x)[1..] == x && ([1] + y)[1..] == y;
      TextIsUnique(k, l, OfValue(a.fields[k]) + restA, OfValue(b.fields[l]) + restB);
      ValueIsUnique(a.fields[k], b.fields[l], restA, restB);
      FieldsAreUnique(a, m - {k}, b, n - {l}, s, t);
      assert m == (m - {k})[k := m[k]] && n == (n - {l})[l := n[l]];
    }
  }

  lemma FirstField(j: Json, m: Fields, s: seq<nat>) returns (k: string)
    requires Part(m, j) && m != map[]
    ensures k in m && OfFields(j, m) + s == [1] + (OfText(k) + (OfValue(j.fields[k]) + (OfFields(j, m - {k}) + s)))
  {
    hide OfValue, OfText;
    k :| k in m && OfFields(j, m) == [1] + OfText(k) + OfValue(j.fields[k]) + OfFields(j, m - {k});
  }

  lemma NoFields(a: Json, m: Fields, s: seq<nat>, b: Json, n: Fields, t: seq<nat>)
    requires Part(m, a) && Part(n, b) && OfFields(a, m) + s == OfFields(b, n) + t
    requires m == map[] || n == map[]
    ensures m == n && s == t
  {
    var x, y := OfFields(a, m) + s, OfFields(b, n) + t;
    assert x[0] == (if m == map[] then 0 else 1) && y[0] == (if n == map[] then 0 else 1);
    assert x[1..] == s && y[1..] == t;
  }

  // ---- numbers as text ----

  function Tally(n: nat): string {
    if n == 0 then "0" else "1" + Tally(n - 1)
  }

  function Tallies(ns: seq<nat>): string {
    if ns == [] then "" else Tally(ns[0]) + Tallies(ns[1..])
  }

  lemma {:induction false} TallyIsUnique(a: nat, b: nat, s: string, t: string)
    requires Tally(a) + s == Tally(b) + t
    ensures a == b && s == t
  {
    var x, y := Tally(a) + s, Tally(b) + t;
    assert x[0] == Tally(a)[0] && y[0] == Tally(b)[0];
    if a == 0 {
      assert x[1..] == s && y[1..] == t;
    } else {
      assert x[1..] == Tally(a - 1) + s && y[1..] == Tally(b - 1) + t;
      TallyIsUnique(a - 1, b - 1, s, t);
    }
  }

  lemma {:induction false} TalliesAreUnique(a: seq<nat>, b: seq<nat>)
    requires Tallies(a) == Tallies(b)
    ensures a == b
  {
    if a != [] && b != [] {
      TallyIsUnique(a[0], b[0], Tallies(a[1..]), Tallies(b[1..]));
      TalliesAreUnique(a[1..], b[1..]);
      assert a == [a[0]] + a[1..] && b == [b[0]] + b[1..];
    }
  }

  predicate Binary(t: string) {
    forall i :: 0 <= i < |t| ==> t[i] == '0' || t[i] == '1'
  }

  lemma {:induction false} TalliesAreBinary(ns: seq<nat>)
    ensures Binary(Tallies(ns)) && (ns != [] ==> Tallies(ns) != "")
  {
    if ns != [] {
      TallyIsBinary(ns[0]);
      TalliesAreBinary(ns[1..]);
    }
  }

  lemma {:induction false} TallyIsBinary(n: nat)
    ensures Binary(Tally(n)) && Tally(n) != ""
  {
    if n > 0 { TallyIsBinary(n - 1); }
  }

  // ---- the witness ----

  ghost function Render(o: Fields): string {
    Tallies(OfValue(Object(o)))
  }

  lemma RenderIsUnique(a: Fields, b: Fields)
    requires Render(a) == Render(b)
    ensures a == b
  {
    TalliesAreUnique(OfValue(Object(a)), OfValue(Object(b)));
    ValueIsUnique(Object(a), Object(b), [], []);
  }

  lemma RenderIsBinary(o: Fields)
    ensures Binary(Render(o)) && Render(o) != "" && Chomp(Render(o)) == Render(o)
  {
    TalliesAreBinary(OfValue(Object(o)));
    var t := Render(o);
    assert t[|t| - 1] != '\n';
  }

  ghost function Parse(t: string): Option<Json> {
    if exists o: Fields :: Render(o) == Chomp(t) then
      var o: Fields :| Render(o) == Chomp(t);
      Some(Object(o))
    else None
  }

  lemma HashAt(t: string, i: nat) returns (n: nat)
    requires i < |Split(t)| && "#" <= Split(t)[i]
    ensures n < |t| && t[n] == '#'
  {
    hide Split, Join;
    var ls := Split(t);
    JoinOfSplit(t);
    assert ls == ls[..i] + ls[i..];
    JoinAcross(ls[..i], ls[i..]);
    FirstChar(ls[i..]);
    n := |Unlines(ls[..i])|;
    assert t[n] == Join(ls[i..])[0] == '#';
  }

  lemma FirstChar(ls: seq<string>)
    requires 0 < |ls| && "#" <= ls[0]
    ensures Join(ls) != "" && Join(ls)[0] == '#'
  {
  }

  lemma ParsedText(t: string, o: Fields)
    requires Render(o) == Chomp(t)
    ensures !Blank(t) && !HashLine(t)
  {
    RenderIsBinary(o);
    var n := ChompSplits(t);
    assert t[0] == Render(o)[0];
    NewlinesOnly(n);
    assert forall i :: 0 <= i < |t| ==> t[i] != '#';
    if HashLine(t) {
      var i :| 0 <= i < |Split(t)| && "#" <= Split(t)[i];
      var at := HashAt(t, i);
    }
  }

  lemma {:induction false} NewlinesOnly(n: nat)
    ensures forall i :: 0 <= i < |Newlines(n)| ==> Newlines(n)[i] == '\n'
  {
    if n > 0 { NewlinesOnly(n - 1); }
  }

  /** The laws that the model assumes of the JSON text syntax are consistent. */
  lemma LawfulCodecExists() returns (codec: Codec)
    ensures Lawful(codec)
  {
    codec := Codec(Parse, Render);
    forall o: Fields ensures codec.parse(codec.render(o)) == Some(Object(o)) && '\r' !in codec.render(o) {
      RenderIsBinary(o);
      forall p: Fields | Render(p) == Chomp(Render(o)) ensures p == o { RenderIsUnique(p, o); }
    }
    forall t: string ensures codec.parse(t + "\n") == codec.parse(t) {
      ChompNewline(t);
    }
    forall t: string | Blank(t) || HashLine(t) ensures codec.parse(t) == None {
      forall o: Fields ensures Render(o) != Chomp(t) {
        if Render(o) == Chomp(t) { ParsedText(t, o); }
      }
    }
  }
}
