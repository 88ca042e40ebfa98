/** The working copy of a build context: copied under a budget, listed in name order, named by one digest. */
module BuildContext {
  import opened Order
  import opened Text

  datatype Node =
    | File(executable: bool, content: string)
    | Folder(entries: seq<Entry>)
    | Link
    | Special

  datatype Entry = Entry(name: string, node: Node)

  /** One regular file of a context, by its path relative to the context. */
  datatype Item = Item(path: string, executable: bool, content: string)

  // ---- entries in name order ----

  function Insert(e: Entry, es: seq<Entry>): seq<Entry> {
    if es == [] then [e]
    else if Before(e.name, es[0].name) then [e] + es
    else [es[0]] + Insert(e, es[1..])
  }

  function Sort(es: seq<Entry>): seq<Entry> {
    if es == [] then [] else Insert(es[0], Sort(es[1..]))
  }

  predicate Distinct(es: seq<Entry>) {
    forall i, j :: 0 <= i < j < |es| ==> es[i].name != es[j].name
  }

  predicate Sorted(es: seq<Entry>) {
    forall i, j :: 0 <= i < j < |es| ==> Before(es[i].name, es[j].name)
  }

  lemma {:induction false} InsertSet(e: Entry, es: seq<Entry>)
    ensures multiset(Insert(e, es)) == multiset{e} + multiset(es)
  {
    if es == [] {
    } else {
      assert es == [es[0]] + es[1..];
      InsertSet(e, es[1..]);
    }
  }

  lemma {:induction false} SortSet(es: seq<Entry>)
    ensures multiset(Sort(es)) == multiset(es)
  {
    if es != [] {
      assert es == [es[0]] + es[1..];
      SortSet(es[1..]);
      InsertSet(es[0], Sort(es[1..]));
    }
  }

  lemma SortMembers(es: seq<Entry>)
    ensures forall e :: e in Sort(es) <==> e in es
  {
    SortSet(es);
    forall e ensures e in Sort(es) <==> e in es {
      assert e in multiset(Sort(es)) <==> e in multiset(es);
    }
  }

  lemma {:induction false} InsertSorted(e: Entry, es: seq<Entry>)
    requires Sorted(es) && forall x :: x in es ==> x.name != e.name
    ensures Sorted(Insert(e, es))
  {
    hide Before;
    if es != [] {
      BeforeTrichotomy(e.name, es[0].name);
      var r := Insert(e, es);
      if Before(e.name, es[0].name) {
        forall j | 0 < j < |r| ensures Before(e.name, r[j].name) {
          if j > 1 { BeforeTransitive(e.name, es[0].name, es[j - 1].name); }
        }
      } else {
        InsertSorted(e, es[1..]);
        InsertSet(e, es[1..]);
        var t := Insert(e, es[1..]);
        assert es[0] in es;
        forall j | 0 < j < |r| ensures Before(es[0].name, r[j].name) {
          assert r[j] == t[j - 1];
          assert t[j - 1] in multiset(t);
          if t[j - 1] != e {
            var k :| 0 <= k < |es[1..]| && es[1..][k] == t[j - 1];
            assert es[k + 1] == t[j - 1];
          }
        }
        assert forall i, j :: 0 < i < j < |r| ==> r[i] == t[i - 1] && r[j] == t[j - 1];
      }
    }
  }

  lemma {:induction false} SortSorts(es: seq<Entry>)
    requires Distinct(es)
    ensures Sorted(Sort(es))
  {
    if es != [] {
      SortSorts(es[1..]);
      SortMembers(es[1..]);
      forall x | x in Sort(es[1..]) ensures x.name != es[0].name {
        var k :| 0 <= k < |es[1..]| && es[1..][k] == x;
        assert es[k + 1] == x;
      }
      InsertSorted(es[0], Sort(es[1..]));
    }
  }

  lemma SameFirst(a: seq<Entry>, b: seq<Entry>)
    requires Sorted(a) && Sorted(b) && (forall e :: e in a <==> e in b) && a != []
    ensures b != [] && a[0] == b[0]
  {
    hide Before;
    assert a[0] in b;
    var i :| 0 <= i < |b| && b[i] == a[0];
    assert b[0] in a;
    var j :| 0 <= j < |a| && a[j] == b[0];
    BeforeTrichotomy(a[0].name, b[0].name);
  }

  lemma TailMembers(a: seq<Entry>, e: Entry)
    requires Sorted(a) && a != []
    ensures e in a[1..] <==> e in a && e != a[0]
  {
    if e in a[1..] {
      var k :| 0 <= k < |a[1..]| && a[1..][k] == e;
      assert a[k + 1] == e;
      BeforeTrichotomy(a[0].name, e.name);
    }
    assert a == [a[0]] + a[1..];
  }

  /** A sorted sequence is determined by its entries. */
  lemma {:induction false} SortedUnique(a: seq<Entry>, b: seq<Entry>)
    requires Sorted(a) && Sorted(b) && forall e :: e in a <==> e in b
    ensures a == b
  {
    hide Before;
    if a == [] {
      if b != [] { SameFirst(b, a); }
    } else {
      SameFirst(a, b);
      forall e ensures e in a[1..] <==> e in b[1..] {
        TailMembers(a, e);
        TailMembers(b, e);
      }
      SortedUnique(a[1..], b[1..]);
      assert a == [a[0]] + a[1..] && b == [b[0]] + b[1..];
    }
  }

  // ---- listing ----

  /** Every regular file below a folder in name order; nothing when a link or a special file is met. */
  function Regular(n: Node, prefix: string): Option<seq<Item>>
    decreases n, 1, 0
  {
    match n
    case Folder(entries) => SortMembers(entries); RegularIn(n, Sort(entries), prefix)
    case _ => None
  }

  function RegularIn(parent: Node, es: seq<Entry>, prefix: string): Option<seq<Item>>
    requires parent.Folder? && forall e :: e in es ==> e in parent.entries
    decreases parent, 0, |es|
  {
    if es == [] then Some([])
    else
      var e := es[0];
      assert e in parent.entries;
      var first := match e.node
        case File(x, c) => Some([Item(prefix + e.name, x, c)])
        case Folder(_) => Regular(e.node, prefix + e.name + "/")
        case _ => None;
      match first
      case None => None
      case Some(items) =>
        match RegularIn(parent, es[1..], prefix)
        case None => None
        case Some(rest) => Some(items + rest)
  }

  // ---- copying ----

  const MAX_FILES: nat := 4096
  const MAX_BYTES: nat := 67108864

  datatype Spent = Spent(files: nat, bytes: nat)

  function Within(s: Spent): bool {
    s.files <= MAX_FILES && s.bytes <= MAX_BYTES
  }

  datatype Copied = Refused | Copied(entries: seq<Entry>, spent: Spent)

  /** The copy of a folder: its entries are made in name order, and every file is paid for. */
  function CopyOf(n: Node, spent: Spent): Copied
    decreases n, 1, 0
  {
    match n
    case Folder(entries) => SortMembers(entries); CopyIn(n, Sort(entries), spent)
    case _ => Refused
  }

  function CopyIn(parent: Node, es: seq<Entry>, spent: Spent): Copied
    requires parent.Folder? && forall e :: e in es ==> e in parent.entries
    decreases parent, 0, |es|
  {
    if es == [] then Copied([], spent)
    else
      match CopyEntry(parent, es[0], spent)
      case Refused => Refused
      case Copied(first, now) =>
        match CopyIn(parent, es[1..], now)
        case Refused => Refused
        case Copied(rest, end) => Copied(first + rest, end)
  }

  function CopyEntry(parent: Node, e: Entry, spent: Spent): (r: Copied)
    requires parent.Folder? && e in parent.entries
    ensures r.Copied? ==> |r.entries| == 1 && r.entries[0].name == e.name
    decreases parent, 0, 0
  {
    match e.node
    case File(x, c) =>
      var now := Spent(spent.files + 1, spent.bytes + |c|);
      if Within(now) then Copied([Entry(e.name, File(x, c))], now) else Refused
    case Folder(_) =>
      (match CopyOf(e.node, spent)
       case Refused => Refused
       case Copied(inside, now) => Copied([Entry(e.name, Folder(inside))], now))
    case _ => Refused
  }

  class CopyBudget {
    var files: nat
    var bytes: nat

    constructor ()
      ensures files == 0 && bytes == 0
    {
      files, bytes := 0, 0;
    }

    function Used(): Spent
      reads this
    {
      Spent(files, bytes)
    }

    method Take(size: nat) returns (ok: bool)
      modifies this
      ensures Used() == Spent(old(files) + 1, old(bytes) + size)
      ensures ok <==> Within(Used())
    {
      files := files + 1;
      bytes := bytes + size;
      ok := files <= MAX_FILES && bytes <= MAX_BYTES;
    }
  }

  method CopyContext(source: Node, budget: CopyBudget) returns (made: Option<seq<Entry>>)
    requires source.Folder?
    modifies budget
    ensures match CopyOf(source, old(budget.Used()))
            case Refused => made.None?
            case Copied(entries, spent) => made == Some(entries) && budget.Used() == spent
    decreases source
  {
    hide Sort, CopyIn;
    var es := Sort(source.entries);
    SortMembers(source.entries);
    ghost var whole := CopyIn(source, es, budget.Used());
    var entries: seq<Entry> := [];
    NothingDone(whole);
    assert es[0..] == es;
    for i := 0 to |es|
      invariant whole == Continue(entries, CopyIn(source, es[i..], budget.Used()))
    {
      var e := es[i];
      assert e in es && e in source.entries;
      assert es[i..][0] == e && es[i..][1..] == es[i + 1..];
      CopyStep(source, es[i..], entries, budget.Used());
      match e.node {
        case File(x, c) =>
          var ok := budget.Take(|c|);
          if !ok { return None; }
          entries := entries + [Entry(e.name, File(x, c))];
        case Folder(_) =>
          var inside := CopyContext(e.node, budget);
          if inside.None? { return None; }
          entries := entries + [Entry(e.name, Folder(inside.value))];
        case _ =>
          return None;
      }
    }
    NothingLeft(source, es[|es|..], entries, budget.Used());
    made := Some(entries);
  }

  function Continue(done: seq<Entry>, rest: Copied): Copied {
    match rest
    case Refused => Refused
    case Copied(entries, spent) => Copied(done + entries, spent)
  }

  lemma NothingDone(whole: Copied)
    ensures whole == Continue([], whole)
  {
  }

  lemma NothingLeft(parent: Node, es: seq<Entry>, done: seq<Entry>, spent: Spent)
    requires parent.Folder? && es == []
    ensures Continue(done, CopyIn(parent, es, spent)) == Copied(done, spent)
  {
  }

  lemma CopyStep(parent: Node, es: seq<Entry>, done: seq<Entry>, spent: Spent)
    requires parent.Folder? && es != [] && forall e :: e in es ==> e in parent.entries
    ensures match CopyEntry(parent, es[0], spent)
            case Refused => Continue(done, CopyIn(parent, es, spent)) == Refused
            case Copied(first, now) =>
              Continue(done, CopyIn(parent, es, spent)) == Continue(done + first, CopyIn(parent, es[1..], now))
  {
  }

  // ---- the same tree, whatever the enumeration order ----

  /** Names in a folder are distinct, all the way down. */
  predicate Proper(n: Node) {
    n.Folder? ==> Distinct(n.entries) && forall e :: e in n.entries ==> Proper(e.node)
  }

  /** The tree with every folder in name order. */
  function Canon(n: Node): Node
    decreases n, 1, 0
  {
    match n
    case Folder(entries) => SortMembers(entries); Folder(CanonIn(n, Sort(entries)))
    case _ => n
  }

  function CanonIn(parent: Node, es: seq<Entry>): (r: seq<Entry>)
    requires parent.Folder? && forall e :: e in es ==> e in parent.entries
    ensures |r| == |es| && forall i :: 0 <= i < |es| ==> r[i].name == es[i].name
    decreases parent, 0, |es|
  {
    if es == [] then []
    else
      assert es[0] in parent.entries;
      [Entry(es[0].name, Canon(es[0].node))] + CanonIn(parent, es[1..])
  }

  lemma CanonSorted(parent: Node, es: seq<Entry>)
    requires parent.Folder? && forall e :: e in es ==> e in parent.entries
    requires Sorted(es)
    ensures Sort(CanonIn(parent, es)) == CanonIn(parent, es)
  {
  }

  /** The listing of a tree is the listing of its canonical form: it does not depend on enumeration order. */
  lemma {:induction false} ListingIsCanonical(n: Node, prefix: string)
    requires Proper(n)
    ensures Regular(n, prefix) == Regular(Canon(n), prefix)
    decreases n, 1, 0
  {
    if n.Folder? {
      var es := Sort(n.entries);
      SortMembers(n.entries);
      SortSorts(n.entries);
      CanonSorted(n, es);
      var c := Folder(CanonIn(n, es));
      ListingInIsCanonical(n, c, es, prefix);
    }
  }

  lemma {:induction false} ListingInIsCanonical(parent: Node, c: Node, es: seq<Entry>, prefix: string)
    requires parent.Folder? && Proper(parent) && forall e :: e in es ==> e in parent.entries
    requires c.Folder? && forall e :: e in CanonIn(parent, es) ==> e in c.entries
    ensures RegularIn(parent, es, prefix) == RegularIn(c, CanonIn(parent, es), prefix)
    decreases parent, 0, |es|
  {
    if es != [] {
      var r := CanonIn(parent, es);
      assert es[0] in parent.entries;
      assert r[1..] == CanonIn(parent, es[1..]);
      assert r[0] in r;
      ListingIsCanonical(es[0].node, prefix + es[0].name + "/");
      ListingInIsCanonical(parent, c, es[1..], prefix);
    }
  }

  function Find(es: seq<Entry>, name: string): (r: Option<Entry>)
    ensures r.Some? ==> r.value in es && r.value.name == name
  {
    if es == [] then None else if es[0].name == name then Some(es[0]) else Find(es[1..], name)
  }

  lemma {:induction false} FindsOwn(es: seq<Entry>, e: Entry)
    requires Distinct(es) && e in es
    ensures Find(es, e.name) == Some(e)
  {
    if es[0] != e {
      var k :| 0 <= k < |es| && es[k] == e;
      assert es[1..][k - 1] == e;
      FindsOwn(es[1..], e);
    }
  }

  /** The trees hold the same, but their folders may be enumerated in different orders. */
  predicate Shuffled(a: Node, b: Node)
    decreases a
  {
    if a.Folder? && b.Folder? then
      Distinct(a.entries) && Distinct(b.entries) &&
      (forall e :: e in a.entries ==> Twin(e, b).Some? && Shuffled(e.node, Twin(e, b).value.node)) &&
      (forall f :: f in b.entries ==> Twin(f, a).Some?)
    else a == b
  }

  /** The entry of the same name in the other folder. */
  function Twin(e: Entry, other: Node): Option<Entry>
    requires other.Folder?
  {
    Find(other.entries, e.name)
  }

  lemma {:induction false} CanonMembers(parent: Node, es: seq<Entry>, x: Entry)
    requires parent.Folder? && forall e :: e in es ==> e in parent.entries
    ensures x in CanonIn(parent, es) <==> exists e :: e in es && x == Entry(e.name, Canon(e.node))
    decreases |es|
  {
    hide Canon;
    if es != [] {
      CanonMembers(parent, es[1..], x);
      assert CanonIn(parent, es) == [Entry(es[0].name, Canon(es[0].node))] + CanonIn(parent, es[1..]);
      assert forall e :: e in es <==> e == es[0] || e in es[1..];
    }
  }

  /** Such trees have one canonical form. */
  lemma {:induction false} ShuffledSameCanon(a: Node, b: Node)
    requires Shuffled(a, b)
    ensures Canon(a) == Canon(b)
    decreases a, 2, 0
  {
    if a.Folder? && b.Folder? {
      ShuffledFolders(a, b);
    }
  }

  lemma ShuffledFolders(a: Node, b: Node)
    requires a.Folder? && b.Folder? && Shuffled(a, b)
    ensures Canon(a) == Canon(b)
    decreases a, 1, 0
  {
    assert Distinct(a.entries) && Distinct(b.entries);
    var es, fs := Sort(a.entries), Sort(b.entries);
    SortMembers(a.entries);
    SortMembers(b.entries);
    SortSorts(a.entries);
    SortSorts(b.entries);
    hide Shuffled, Sort, CanonIn, Sorted, Distinct;
    var r, t := CanonIn(a, es), CanonIn(b, fs);
    forall x ensures x in r <==> x in t {
      CanonMembers(a, es, x);
      CanonMembers(b, fs, x);
      SameMembers(a, b, x);
    }
    CanonKeepsOrder(a, es);
    CanonKeepsOrder(b, fs);
    SortedUnique(r, t);
  }

  lemma SameMembers(a: Node, b: Node, x: Entry)
    requires a.Folder? && b.Folder? && Shuffled(a, b)
    ensures (exists e :: e in a.entries && x == Entry(e.name, Canon(e.node)))
       <==> (exists f :: f in b.entries && x == Entry(f.name, Canon(f.node)))
    decreases a, 0, 0
  {
    hide Canon, Sort, Distinct;
    if e :| e in a.entries && x == Entry(e.name, Canon(e.node)) {
      ShuffledSameCanon(e.node, Twin(e, b).value.node);
    }
    if f :| f in b.entries && x == Entry(f.name, Canon(f.node)) {
      var e := Twin(f, a).value;
      FindsOwn(b.entries, f);
      ShuffledSameCanon(e.node, f.node);
    }
  }

  lemma CanonKeepsOrder(parent: Node, es: seq<Entry>)
    requires parent.Folder? && (forall e :: e in es ==> e in parent.entries) && Sorted(es)
    ensures Sorted(CanonIn(parent, es))
  {
    hide Before, Canon;
    var r := CanonIn(parent, es);
    assert forall i :: 0 <= i < |r| ==> r[i].name == es[i].name;
  }

  /** Two trees that differ only in the order in which their folders are enumerated list the same files. */
  lemma ListingIgnoresOrder(a: Node, b: Node, prefix: string)
    requires Proper(a) && Proper(b) && Shuffled(a, b)
    ensures Regular(a, prefix) == Regular(b, prefix)
  {
    ShuffledSameCanon(a, b);
    ListingIsCanonical(a, prefix);
    ListingIsCanonical(b, prefix);
  }

  /** A successful copy is the source tree, up to enumeration order. */
  lemma {:induction false} CopyIsCanonical(n: Node, spent: Spent)
    requires CopyOf(n, spent).Copied?
    ensures Folder(CopyOf(n, spent).entries) == Canon(n)
    decreases n, 1, 0
  {
    SortMembers(n.entries);
    CopyInIsCanonical(n, Sort(n.entries), spent);
  }

  lemma {:induction false} CopyInIsCanonical(parent: Node, es: seq<Entry>, spent: Spent)
    requires parent.Folder? && forall e :: e in es ==> e in parent.entries
    requires CopyIn(parent, es, spent).Copied?
    ensures CopyIn(parent, es, spent).entries == CanonIn(parent, es)
    decreases parent, 0, |es|
  {
    if es != [] {
      var first := CopyEntry(parent, es[0], spent);
      assert es[0] in parent.entries;
      if es[0].node.Folder? { CopyIsCanonical(es[0].node, spent); }
      CopyInIsCanonical(parent, es[1..], first.spent);
    }
  }

  // ---- when a copy succeeds ----

  function Bytes(items: seq<Item>): nat {
    if items == [] then 0 else |items[0].content| + Bytes(items[1..])
  }

  lemma {:induction false} BytesAcross(a: seq<Item>, b: seq<Item>)
    ensures Bytes(a + b) == Bytes(a) + Bytes(b)
  {
    if a == [] {
      assert a + b == b;
    } else {
      assert (a + b)[1..] == a[1..] + b;
      BytesAcross(a[1..], b);
    }
  }

  function Plus(s: Spent, items: seq<Item>): Spent {
    Spent(s.files + |items|, s.bytes + Bytes(items))
  }

  /** A copy succeeds exactly when the context holds only regular files and folders and its files fit the budget. */
  lemma {:induction false} CopyExactly(n: Node, spent: Spent, prefix: string)
    requires n.Folder? && Within(spent)
    ensures var r := Regular(n, prefix);
            (CopyOf(n, spent).Copied? <==> r.Some? && Within(Plus(spent, r.value))) &&
            (CopyOf(n, spent).Copied? ==> CopyOf(n, spent).spent == Plus(spent, r.value))
    decreases n, 1, 0
  {
    SortMembers(n.entries);
    CopyInExactly(n, Sort(n.entries), spent, prefix);
  }

  lemma {:induction false} CopyInExactly(parent: Node, es: seq<Entry>, spent: Spent, prefix: string)
    requires parent.Folder? && Within(spent) && forall e :: e in es ==> e in parent.entries
    ensures var r := RegularIn(parent, es, prefix);
            (CopyIn(parent, es, spent).Copied? <==> r.Some? && Within(Plus(spent, r.value))) &&
            (CopyIn(parent, es, spent).Copied? ==> CopyIn(parent, es, spent).spent == Plus(spent, r.value))
    decreases parent, 0, |es|
  {
    if es != [] {
      var e := es[0];
      assert e in parent.entries;
      if e.node.Folder? { CopyExactly(e.node, spent, prefix + e.name + "/"); }
      var first := CopyEntry(parent, e, spent);
      if first.Copied? {
        CopyInExactly(parent, es[1..], first.spent, prefix);
      }
      var items := match e.node
        case File(x, c) => Some([Item(prefix + e.name, x, c)])
        case Folder(_) => Regular(e.node, prefix + e.name + "/")
        case _ => None;
      if items.Some? && RegularIn(parent, es[1..], prefix).Some? {
        BytesAcross(items.value, RegularIn(parent, es[1..], prefix).value);
      }
    }
  }

  // ---- the digest ----

  const NUL: char := 0 as char

  /** The bytes that are hashed: path, end mark, executable bit, content hash, end mark, for every file. */
  function DigestInput(items: seq<Item>, hash: string -> string): string {
    if items == [] then ""
    else
      items[0].path + [NUL] + (if items[0].executable then "x" else "-") + hash(items[0].content) + [NUL] +
      DigestInput(items[1..], hash)
  }

  predicate PathsProper(items: seq<Item>) {
    forall i :: 0 <= i < |items| ==> NUL !in items[i].path
  }

  lemma UpToNul(p: string, r: string, q: string, s: string)
    requires NUL !in p && NUL !in q && p + [NUL] + r == q + [NUL] + s
    ensures p == q && r == s
  {
    var t := p + [NUL] + r;
    assert t[|p|] == NUL && t[|q|] == NUL;
    assert forall i :: 0 <= i < |p| ==> t[i] == p[i] && t[i] != NUL;
    assert forall i :: 0 <= i < |q| ==> t[i] == q[i] && t[i] != NUL;
    assert |p| == |q|;
    assert t[..|p|] == p && t[..|q|] == q;
    assert t[|p| + 1..] == r && t[|q| + 1..] == s;
  }

  lemma FixedWidth(x: string, h: string, r: string, y: string, k: string, s: string)
    requires |x| == |y| == 1 && |h| == |k| == 64
    requires x + h + [NUL] + r == y + k + [NUL] + s
    ensures x == y && h == k && r == s
  {
    var t := x + h + [NUL] + r;
    assert t[..1] == x && t[1..65] == h && t[66..] == r;
    assert t[..1] == y && t[1..65] == k && t[66..] == s;
  }

  /** What is hashed decodes to one list of paths, executable bits and content hashes. */
  lemma {:induction false} DigestInputDecodes(a: seq<Item>, b: seq<Item>, hash: string -> string)
    requires PathsProper(a) && PathsProper(b)
    requires forall c :: |hash(c)| == 64
    requires DigestInput(a, hash) == DigestInput(b, hash)
    ensures |a| == |b|
    ensures forall i :: 0 <= i < |a| ==>
              a[i].path == b[i].path && a[i].executable == b[i].executable && hash(a[i].content) == hash(b[i].content)
  {
    if a != [] && b != [] {
      var x, y := if a[0].executable then "x" else "-", if b[0].executable then "x" else "-";
      var h, k := hash(a[0].content), hash(b[0].content);
      var r, s := DigestInput(a[1..], hash), DigestInput(b[1..], hash);
      assert DigestInput(a, hash) == a[0].path + [NUL] + (x + h + [NUL] + r);
      assert DigestInput(b, hash) == b[0].path + [NUL] + (y + k + [NUL] + s);
      UpToNul(a[0].path, x + h + [NUL] + r, b[0].path, y + k + [NUL] + s);
      FixedWidth(x, h, r, y, k, s);
      DigestInputDecodes(a[1..], b[1..], hash);
      assert forall i :: 1 <= i < |a| ==> a[i] == a[1..][i - 1];
      assert forall i :: 1 <= i < |b| ==> b[i] == b[1..][i - 1];
    }
  }

  /** A copy that succeeds, however its folders are enumerated afterwards, holds the files of the source with their
      paths, executable bits and contents, so it has the same digest; and it is within the budget. */
  lemma CopyHasSameDigest(source: Node, enumerated: Node, hash: string -> string)
    requires Proper(source) && Proper(enumerated) && CopyOf(source, Spent(0, 0)).Copied?
    requires Shuffled(enumerated, Folder(CopyOf(source, Spent(0, 0)).entries))
    ensures Regular(enumerated, "") == Regular(source, "") && Regular(source, "").Some?
    ensures DigestInput(Regular(enumerated, "").value, hash) == DigestInput(Regular(source, "").value, hash)
    ensures |Regular(source, "").value| <= MAX_FILES && Bytes(Regular(source, "").value) <= MAX_BYTES
  {
    CopyIsCanonical(source, Spent(0, 0));
    CanonTwice(source);
    ShuffledSameCanon(enumerated, Folder(CopyOf(source, Spent(0, 0)).entries));
    ListingIsCanonical(enumerated, "");
    ListingIsCanonical(source, "");
    CopyExactly(source, Spent(0, 0), "");
  }

  lemma {:induction false} CanonTwice(n: Node)
    requires Proper(n)
    ensures Canon(Canon(n)) == Canon(n)
    decreases n, 1, 0
  {
    if n.Folder? {
      var es := Sort(n.entries);
      SortMembers(n.entries);
      SortSorts(n.entries);
      CanonSorted(n, es);
      CanonInTwice(n, Canon(n), es);
    }
  }

  lemma {:induction false} CanonInTwice(parent: Node, c: Node, es: seq<Entry>)
    requires parent.Folder? && Proper(parent) && forall e :: e in es ==> e in parent.entries
    requires c.Folder? && forall e :: e in CanonIn(parent, es) ==> e in c.entries
    ensures CanonIn(c, CanonIn(parent, es)) == CanonIn(parent, es)
    decreases parent, 0, |es|
  {
    if es != [] {
      var r := CanonIn(parent, es);
      assert es[0] in parent.entries && r[0] in r;
      assert r[1..] == CanonIn(parent, es[1..]);
      CanonTwice(es[0].node);
      CanonInTwice(parent, c, es[1..]);
    }
  }
}
