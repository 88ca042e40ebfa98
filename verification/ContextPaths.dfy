/** What a build context lists and what its digest tells apart, by following paths through the folders. */
module ContextPaths {
  import opened BuildContext
  import opened Order
  import opened Text

  // ---- following a path ----

  /** Where the first slash of a path stands, or the end of the path. */
  function Slash(p: string): (r: nat)
    ensures r <= |p| && '/' !in p[..r] && (r < |p| ==> p[r] == '/')
  {
    if p == "" || p[0] == '/' then 0 else 1 + Slash(p[1..])
  }

  function First(p: string): string {
    p[..Slash(p)]
  }

  predicate Deep(p: string) {
    Slash(p) < |p|
  }

  function Below(p: string): string
    requires Deep(p)
  {
    p[Slash(p) + 1..]
  }

  /** The file or folder that is reached from a folder by the names of a path. */
  function Walk(n: Node, p: string): Option<Node>
    decreases |p|, 1
  {
    if n.Folder? then WalkIn(n.entries, p) else None
  }

  function WalkIn(es: seq<Entry>, p: string): Option<Node>
    decreases |p|, 0
  {
    match Find(es, First(p))
    case None => None
    case Some(e) => if Deep(p) then Walk(e.node, Below(p)) else Some(e.node)
  }

  /** Names hold neither slashes nor the end mark of the digest, all the way down. */
  predicate Named(n: Node) {
    n.Folder? ==> forall e :: e in n.entries ==> '/' !in e.name && NUL !in e.name && Named(e.node)
  }

  lemma OneSlash(p: string, name: string, rest: string)
    requires '/' !in name
    ensures p == name ==> !Deep(p) && First(p) == name
    ensures p == name + "/" + rest ==> Deep(p) && First(p) == name && Below(p) == rest
  {
    var i := Slash(p);
    forall k | 0 <= k < i ensures p[k] != '/' { assert p[..i][k] == p[k]; }
    if p == name + "/" + rest {
      assert p[|name|] == '/';
      assert forall k :: 0 <= k < |name| ==> p[k] == name[k];
    }
  }

  lemma PathParts(p: string)
    ensures if Deep(p) then p == First(p) + "/" + Below(p) else p == First(p)
  {
  }

  // ---- what is listed ----

  /** The item is the file that its path, behind the prefix, leads to. */
  predicate Leads(found: Option<Node>, item: Item) {
    found == Some(File(item.executable, item.content))
  }

  predicate IsListed(items: Option<seq<Item>>, item: Item) {
    items.Some? && item in items.value
  }

  lemma FindSorted(es: seq<Entry>, name: string)
    requires Distinct(es)
    ensures Distinct(Sort(es)) && Find(Sort(es), name) == Find(es, name)
  {
    hide Sort, Before;
    SortMembers(es);
    SortSorts(es);
    StillDistinct(Sort(es));
    if Find(es, name).Some? { FindsOwn(Sort(es), Find(es, name).value); }
    if Find(Sort(es), name).Some? { FindsOwn(es, Find(Sort(es), name).value); }
  }

  lemma StillDistinct(es: seq<Entry>)
    requires Sorted(es)
    ensures Distinct(es)
  {
    forall i, j | 0 <= i < j < |es| ensures es[i].name != es[j].name {
      BeforeTrichotomy(es[i].name, es[j].name);
    }
  }

  lemma {:induction false} FindAbsent(es: seq<Entry>, name: string)
    requires forall e :: e in es ==> e.name != name
    ensures Find(es, name) == None
  {
  }

  /** A file is listed if and only if following its path from the folder ends at it, with its bit and its content. */
  lemma {:induction false} ListedExactly(n: Node, prefix: string, item: Item)
    requires n.Folder? && Proper(n) && Named(n) && Regular(n, prefix).Some?
    ensures IsListed(Regular(n, prefix), item) <==>
            prefix <= item.path && Leads(Walk(n, item.path[|prefix|..]), item)
    decreases n, 1, 0
  {
    hide Sort, WalkIn;
    var es := Sort(n.entries);
    SortMembers(n.entries);
    assert Distinct(n.entries);
    FindSorted(n.entries, "");
    ListedInExactly(n, es, prefix, item);
    if prefix <= item.path { SameWalk(n.entries, item.path[|prefix|..]); }
  }

  lemma SameWalk(es: seq<Entry>, p: string)
    requires Distinct(es)
    ensures WalkIn(Sort(es), p) == WalkIn(es, p)
  {
    FindSorted(es, First(p));
  }

  lemma {:induction false} ListedInExactly(parent: Node, es: seq<Entry>, prefix: string, item: Item)
    requires parent.Folder? && Proper(parent) && Named(parent) && Distinct(es)
    requires (forall e :: e in es ==> e in parent.entries) && RegularIn(parent, es, prefix).Some?
    ensures IsListed(RegularIn(parent, es, prefix), item) <==>
            prefix <= item.path && Leads(WalkIn(es, item.path[|prefix|..]), item)
    decreases parent, 0, |es|
  {
    hide Walk, WalkIn, Regular;
    if es == [] {
      NothingIn(prefix, item);
    } else {
      var e := es[0];
      assert e in parent.entries;
      ListedInExactly(parent, es[1..], prefix, item);
      if e.node.Folder? { ListedExactly(e.node, prefix + e.name + "/", item); }
      FirstEntry(parent, es, prefix, item);
    }
  }

  lemma NothingIn(prefix: string, item: Item)
    ensures prefix <= item.path ==> WalkIn([], item.path[|prefix|..]) == None
  {
  }

  /** What the first entry of a folder contributes. */
  function FirstItems(e: Entry, prefix: string): Option<seq<Item>> {
    match e.node
    case File(x, c) => Some([Item(prefix + e.name, x, c)])
    case Folder(_) => Regular(e.node, prefix + e.name + "/")
    case _ => None
  }

  lemma FirstEntry(parent: Node, es: seq<Entry>, prefix: string, item: Item)
    requires parent.Folder? && Named(parent) && Distinct(es) && es != [] && es[0] in parent.entries
    requires (forall e :: e in es ==> e in parent.entries) && RegularIn(parent, es, prefix).Some?
    requires var e := es[0];
             e.node.Folder? ==>
               (IsListed(Regular(e.node, prefix + e.name + "/"), item) <==>
                prefix + e.name + "/" <= item.path && Leads(Walk(e.node, item.path[|prefix + e.name + "/"|..]), item))
    requires IsListed(RegularIn(parent, es[1..], prefix), item) <==>
             prefix <= item.path && Leads(WalkIn(es[1..], item.path[|prefix|..]), item)
    ensures IsListed(RegularIn(parent, es, prefix), item) <==>
            prefix <= item.path && Leads(WalkIn(es, item.path[|prefix|..]), item)
  {
    hide Walk, Regular, Slash;
    var e := es[0];
    assert IsListed(RegularIn(parent, es, prefix), item) <==>
      IsListed(FirstItems(e, prefix), item) || IsListed(RegularIn(parent, es[1..], prefix), item);
    if prefix <= item.path {
      var q := item.path[|prefix|..];
      assert item.path == prefix + q;
      OtherNames(es);
      FindAbsent(es[1..], e.name);
      EntryWalk(e, prefix, q, item);
      assert First(q) != e.name ==> WalkIn(es, q) == WalkIn(es[1..], q);
    }
  }

  lemma OtherNames(es: seq<Entry>)
    requires Distinct(es) && es != []
    ensures forall e :: e in es[1..] ==> e.name != es[0].name
  {
    forall e | e in es[1..] ensures e.name != es[0].name {
      var k :| 0 <= k < |es[1..]| && es[1..][k] == e;
      assert es[k + 1] == e;
    }
  }

  /** The items of one entry are those whose path begins with its name. */
  lemma EntryWalk(e: Entry, prefix: string, q: string, item: Item)
    requires '/' !in e.name && item.path == prefix + q
    requires e.node.Folder? ==>
               (IsListed(Regular(e.node, prefix + e.name + "/"), item) <==>
                prefix + e.name + "/" <= item.path && Leads(Walk(e.node, item.path[|prefix + e.name + "/"|..]), item))
    ensures IsListed(FirstItems(e, prefix), item) <==>
            First(q) == e.name && Leads(if Deep(q) then Walk(e.node, Below(q)) else Some(e.node), item)
  {
    hide Regular, Slash;
    PathParts(q);
    match e.node
    case File(x, c) =>
      OneSlash(q, e.name, "");
      assert item.path == prefix + e.name <==> q == e.name by { assert item.path[|prefix|..] == q; }
    case Folder(_) =>
      var head := prefix + e.name + "/";
      if First(q) == e.name && Deep(q) { assert item.path == head + Below(q); }
      if head <= item.path {
        var rest := item.path[|head|..];
        assert item.path == head + rest;
        assert q == item.path[|prefix|..] == e.name + "/" + rest;
        OneSlash(q, e.name, rest);
      }
    case _ =>
  }

  /** Files and folders only, all the way down. */
  predicate Plain(n: Node) {
    n.File? || (n.Folder? && forall e :: e in n.entries ==> Plain(e.node))
  }

  /** A folder can be listed if and only if it holds nothing but files and folders. */
  lemma {:induction false} ListedWhenPlain(n: Node, prefix: string)
    requires n.Folder?
    ensures Regular(n, prefix).Some? <==> Plain(n)
    decreases n, 1, 0
  {
    hide Sort;
    SortMembers(n.entries);
    ListedInWhenPlain(n, Sort(n.entries), prefix);
  }

  lemma {:induction false} ListedInWhenPlain(parent: Node, es: seq<Entry>, prefix: string)
    requires parent.Folder? && forall e :: e in es ==> e in parent.entries
    ensures RegularIn(parent, es, prefix).Some? <==> forall e :: e in es ==> Plain(e.node)
    decreases parent, 0, |es|
  {
    hide Regular;
    if es != [] {
      var e := es[0];
      assert e in parent.entries;
      ListedInWhenPlain(parent, es[1..], prefix);
      if e.node.Folder? { ListedWhenPlain(e.node, prefix + e.name + "/"); }
      assert forall x :: x in es <==> x == e || x in es[1..];
      assert RegularIn(parent, es, prefix).Some? <==>
        FirstItems(e, prefix).Some? && RegularIn(parent, es[1..], prefix).Some?;
    }
  }

  /** A context is copied if and only if it holds nothing but files and folders, and not more than 4096 files with not
      more than 64 MiB together. */
  lemma CopiedExactly(n: Node)
    requires n.Folder?
    ensures CopyOf(n, Spent(0, 0)).Copied? <==>
            Plain(n) && Regular(n, "").Some? && |Regular(n, "").value| <= 4096 &&
            Bytes(Regular(n, "").value) <= 64 * 1024 * 1024
  {
    ListedWhenPlain(n, "");
    CopyExactly(n, Spent(0, 0), "");
  }

  // ---- in which order ----

  /** Paths in the order of the listing: by their first names, then by what is below. */
  predicate Earlier(p: string, q: string)
    decreases |p|
  {
    if First(p) != First(q) then Before(First(p), First(q))
    else Deep(p) && Deep(q) && Earlier(Below(p), Below(q))
  }

  lemma {:induction false} NeverEarlier(p: string)
    ensures !Earlier(p, p)
    decreases |p|
  {
    if Deep(p) { NeverEarlier(Below(p)); }
  }

  lemma {:induction false} EarlierOneWay(p: string, q: string)
    ensures !(Earlier(p, q) && Earlier(q, p)) && !Earlier(p, p)
    decreases |p|
  {
    hide Before, Slash;
    NeverEarlier(p);
    if First(p) != First(q) {
      BeforeTrichotomy(First(p), First(q));
    } else if Deep(p) && Deep(q) {
      EarlierOneWay(Below(p), Below(q));
    }
  }

  predicate Ascending(items: seq<Item>, skip: nat) {
    (forall i :: 0 <= i < |items| ==> skip <= |items[i].path|) &&
    forall i, j :: 0 <= i < j < |items| ==> Earlier(items[i].path[skip..], items[j].path[skip..])
  }

  /** The paths of a listing are distinct and ascend. */
  lemma {:induction false} ListingAscends(n: Node, prefix: string)
    requires n.Folder? && Proper(n) && Named(n) && Regular(n, prefix).Some?
    ensures Ascending(Regular(n, prefix).value, |prefix|)
    decreases n, 1, 0
  {
    hide Sort, Earlier;
    SortMembers(n.entries);
    SortSorts(n.entries);
    ListingInAscends(n, Sort(n.entries), prefix);
  }

  lemma {:induction false} ListingInAscends(parent: Node, es: seq<Entry>, prefix: string)
    requires parent.Folder? && Proper(parent) && Named(parent) && Sorted(es)
    requires (forall e :: e in es ==> e in parent.entries) && RegularIn(parent, es, prefix).Some?
    ensures Ascending(RegularIn(parent, es, prefix).value, |prefix|)
    decreases parent, 0, |es|
  {
    hide Earlier, Regular, Before, Slash;
    if es != [] {
      var e := es[0];
      assert e in parent.entries;
      var first, rest := FirstItems(e, prefix).value, RegularIn(parent, es[1..], prefix).value;
      ListingInAscends(parent, es[1..], prefix);
      FirstAscends(e, prefix) by {
        if e.node.Folder? {
          var head := prefix + e.name + "/";
          ListingAscends(e.node, head);
          forall item ensures IsListed(Regular(e.node, head), item) ==> head <= item.path {
            ListedExactly(e.node, head, item);
          }
        }
      }
      forall i, j | 0 <= i < |first| && 0 <= j < |rest|
        ensures Earlier(first[i].path[|prefix|..], rest[j].path[|prefix|..])
      {
        FirstBeforeRest(parent, es, prefix, first[i], rest[j]);
      }
      Joined(first, rest, |prefix|);
    }
  }

  lemma FirstBeforeRest(parent: Node, es: seq<Entry>, prefix: string, a: Item, b: Item)
    requires parent.Folder? && Proper(parent) && Named(parent) && es != [] && Sorted(es)
    requires forall e :: e in es ==> e in parent.entries
    requires IsListed(FirstItems(es[0], prefix), a) && IsListed(RegularIn(parent, es[1..], prefix), b)
    ensures prefix <= a.path && prefix <= b.path && Earlier(a.path[|prefix|..], b.path[|prefix|..])
  {
    hide Earlier, Regular, RegularIn, Before, Slash, Walk;
    var e := es[0];
    assert e in parent.entries;
    StillDistinct(es[1..]);
    if e.node.Folder? { ListedExactly(e.node, prefix + e.name + "/", a); }
    PrefixOfFirst(e, prefix, a);
    var q := a.path[|prefix|..];
    assert a.path == prefix + q;
    EntryWalk(e, prefix, q, a);
    ListedInExactly(parent, es[1..], prefix, b);
    var f := Find(es[1..], First(b.path[|prefix|..])).value;
    var k :| 0 <= k < |es[1..]| && es[1..][k] == f;
    assert es[k + 1] == f && Before(e.name, f.name);
    BeforeTrichotomy(e.name, f.name);
    EarlierByName(q, b.path[|prefix|..]);
  }

  lemma PrefixOfFirst(e: Entry, prefix: string, item: Item)
    requires IsListed(FirstItems(e, prefix), item)
    requires e.node.Folder? && IsListed(Regular(e.node, prefix + e.name + "/"), item) ==>
             prefix + e.name + "/" <= item.path
    ensures prefix <= item.path
  {
    hide Regular;
  }

  lemma EarlierByName(p: string, q: string)
    requires Before(First(p), First(q)) && First(p) != First(q)
    ensures Earlier(p, q)
  {
  }

  lemma Joined(a: seq<Item>, b: seq<Item>, skip: nat)
    requires Ascending(a, skip) && Ascending(b, skip)
    requires forall i, j :: 0 <= i < |a| && 0 <= j < |b| ==> Earlier(a[i].path[skip..], b[j].path[skip..])
    ensures Ascending(a + b, skip)
  {
    hide Earlier;
  }

  lemma FirstAscends(e: Entry, prefix: string)
    requires '/' !in e.name && FirstItems(e, prefix).Some?
    requires e.node.Folder? ==>
               var head := prefix + e.name + "/";
               Ascending(Regular(e.node, head).value, |head|) &&
               forall item :: IsListed(Regular(e.node, head), item) ==> head <= item.path
    ensures Ascending(FirstItems(e, prefix).value, |prefix|)
  {
    hide Regular, Before, Slash;
    if e.node.Folder? {
      var items, head := FirstItems(e, prefix).value, prefix + e.name + "/";
      forall i, j | 0 <= i < j < |items|
        ensures Earlier(items[i].path[|prefix|..], items[j].path[|prefix|..])
      {
        assert IsListed(Regular(e.node, head), items[i]) && IsListed(Regular(e.node, head), items[j]);
        BehindName(e.name, prefix, items[i].path);
        BehindName(e.name, prefix, items[j].path);
      }
    }
  }

  lemma BehindName(name: string, prefix: string, path: string)
    requires '/' !in name && prefix + name + "/" <= path
    ensures var q := path[|prefix|..];
            Deep(q) && First(q) == name && Below(q) == path[|prefix + name + "/"|..]
  {
    var head := prefix + name + "/";
    assert path == head + path[|head|..];
    assert path[|prefix|..] == name + "/" + path[|head|..];
    OneSlash(path[|prefix|..], name, path[|head|..]);
  }

  // ---- what the digest tells apart ----

  /** What is hashed is item after item. */
  lemma {:induction false} DigestAcross(a: seq<Item>, b: seq<Item>, hash: string -> string)
    ensures DigestInput(a + b, hash) == DigestInput(a, hash) + DigestInput(b, hash)
  {
    if a == [] {
      assert a + b == b;
    } else {
      assert (a + b)[1..] == a[1..] + b;
      DigestAcross(a[1..], b, hash);
      var head := a[0].path + [NUL] + (if a[0].executable then "x" else "-") + hash(a[0].content) + [NUL];
      assert head + (DigestInput(a[1..], hash) + DigestInput(b, hash))
          == head + DigestInput(a[1..], hash) + DigestInput(b, hash);
    }
  }

  /** For each item its path, a mark, whether it is executable, the hash of its content, and a mark. */
  lemma DigestOfOne(item: Item, hash: string -> string)
    ensures DigestInput([item], hash) ==
            item.path + "\0" + (if item.executable then "x" else "-") + hash(item.content) + "\0"
  {
  }

  /** No two contents of these listings have the same hash. */
  predicate Separates(hash: string -> string, a: seq<Item>, b: seq<Item>) {
    forall i, j :: 0 <= i < |a| && 0 <= j < |b| && hash(a[i].content) == hash(b[j].content) ==>
      a[i].content == b[j].content
  }

  /** Both trees have the same files at the same paths. */
  ghost predicate SameFiles(a: Node, b: Node) {
    forall p, x, c :: Walk(a, p) == Some(File(x, c)) <==> Walk(b, p) == Some(File(x, c))
  }

  lemma {:induction false} SameListing(a: seq<Item>, b: seq<Item>)
    requires Ascending(a, 0) && Ascending(b, 0) && forall item :: item in a <==> item in b
    ensures a == b
  {
    hide Earlier;
    if a == [] || b == [] {
      if a != [] { HasMember(a); }
      if b != [] { HasMember(b); }
    } else {
      SameHead(a, b);
      forall item ensures item in a[1..] <==> item in b[1..] {
        OnlyTail(a, item);
        OnlyTail(b, item);
      }
      SameListing(a[1..], b[1..]);
      assert a == [a[0]] + a[1..] && b == [b[0]] + b[1..];
    }
  }

  lemma HasMember(items: seq<Item>)
    requires items != []
    ensures exists item :: item in items
  {
    assert items[0] in items;
  }

  lemma SameHead(a: seq<Item>, b: seq<Item>)
    requires Ascending(a, 0) && Ascending(b, 0) && (forall item :: item in a <==> item in b) && a != [] && b != []
    ensures a[0] == b[0]
  {
    hide Earlier;
    assert a[0] in b && b[0] in a;
    var i :| 0 <= i < |b| && b[i] == a[0];
    var j :| 0 <= j < |a| && a[j] == b[0];
    EarlierOneWay(a[0].path, b[0].path);
    assert a[0].path[0..] == a[0].path && b[0].path[0..] == b[0].path;
  }

  lemma OnlyTail(a: seq<Item>, item: Item)
    requires Ascending(a, 0) && a != []
    ensures item in a[1..] <==> item in a && item != a[0]
  {
    hide Earlier;
    assert a == [a[0]] + a[1..];
    if item in a[1..] {
      var k :| 0 <= k < |a[1..]| && a[1..][k] == item;
      assert a[k + 1] == item;
      EarlierOneWay(a[0].path[0..], item.path[0..]);
    }
  }

  /** Two contexts list the same exactly when they have the same files at the same paths, whatever empty folders they
      hold. */
  lemma ListsExactlyFiles(a: Node, b: Node)
    requires a.Folder? && b.Folder? && Proper(a) && Proper(b) && Named(a) && Named(b)
    requires Regular(a, "").Some? && Regular(b, "").Some?
    ensures Regular(a, "") == Regular(b, "") <==> SameFiles(a, b)
  {
    hide Walk, Regular, Earlier;
    if SameFiles(a, b) {
      forall item ensures item in Regular(a, "").value <==> item in Regular(b, "").value {
        ListedExactly(a, "", item);
        ListedExactly(b, "", item);
        assert item.path[0..] == item.path;
      }
      ListingAscends(a, "");
      ListingAscends(b, "");
      SameListing(Regular(a, "").value, Regular(b, "").value);
    }
    if Regular(a, "") == Regular(b, "") {
      forall p, x, c ensures Walk(a, p) == Some(File(x, c)) <==> Walk(b, p) == Some(File(x, c)) {
        ListedExactly(a, "", Item(p, x, c));
        ListedExactly(b, "", Item(p, x, c));
        assert p[0..] == p;
      }
    }
  }

  lemma {:induction false} PathsHaveNoMark(n: Node, p: string)
    requires Named(n) && Walk(n, p).Some?
    ensures NUL !in p
    decreases |p|
  {
    PathParts(p);
    var e := Find(n.entries, First(p)).value;
    if Deep(p) { PathsHaveNoMark(e.node, Below(p)); }
  }

  lemma ListedPathsProper(n: Node)
    requires n.Folder? && Proper(n) && Named(n) && Regular(n, "").Some?
    ensures PathsProper(Regular(n, "").value)
  {
    hide Regular, Walk;
    var items := Regular(n, "").value;
    forall i | 0 <= i < |items| ensures NUL !in items[i].path {
      ListedExactly(n, "", items[i]);
      assert items[i].path[0..] == items[i].path;
      PathsHaveNoMark(n, items[i].path);
    }
  }

  /** Two contexts have the same digest input if and only if they have the same files with the same executable bits and
      contents at the same paths, as far as the hash separates their contents. */
  lemma DigestExactly(a: Node, b: Node, hash: string -> string)
    requires a.Folder? && b.Folder? && Proper(a) && Proper(b) && Named(a) && Named(b)
    requires Regular(a, "").Some? && Regular(b, "").Some? && forall c :: |hash(c)| == 64
    requires Separates(hash, Regular(a, "").value, Regular(b, "").value)
    ensures DigestInput(Regular(a, "").value, hash) == DigestInput(Regular(b, "").value, hash) <==> SameFiles(a, b)
  {
    hide Regular, DigestInput, SameFiles;
    var i, j := Regular(a, "").value, Regular(b, "").value;
    ListsExactlyFiles(a, b);
    ListedPathsProper(a);
    ListedPathsProper(b);
    if DigestInput(i, hash) == DigestInput(j, hash) {
      DigestInputDecodes(i, j, hash);
      forall k | 0 <= k < |i| ensures i[k] == j[k] {
        assert i[k].content == j[k].content;
      }
      assert i == j;
    }
  }

  // ---- what a copy holds ----

  lemma {:induction false} FindCanon(parent: Node, es: seq<Entry>, name: string)
    requires parent.Folder? && forall e :: e in es ==> e in parent.entries
    ensures match Find(es, name)
            case None => Find(CanonIn(parent, es), name) == None
            case Some(e) => Find(CanonIn(parent, es), name) == Some(Entry(name, Canon(e.node)))
    decreases |es|
  {
    hide Canon;
    if es != [] {
      FindCanon(parent, es[1..], name);
      assert CanonIn(parent, es)[1..] == CanonIn(parent, es[1..]);
    }
  }

  lemma {:induction false} WalkCanon(n: Node, p: string)
    requires Proper(n)
    ensures match Walk(n, p)
            case None => Walk(Canon(n), p) == None
            case Some(m) => Walk(Canon(n), p) == Some(Canon(m))
    decreases |p|
  {
    if n.Folder? {
      FoundCanon(n, First(p));
      var found := Find(n.entries, First(p));
      if Deep(p) && found.Some? {
        assert found.value in n.entries;
        WalkCanon(found.value.node, Below(p));
        StepDown(n, Canon(n), p, found.value.node);
      } else {
        StopsHere(n.entries, p);
        StopsHere(Canon(n).entries, p);
        assert Walk(n, p) == WalkIn(n.entries, p) && Walk(Canon(n), p) == WalkIn(Canon(n).entries, p);
      }
    }
  }

  lemma StopsHere(es: seq<Entry>, p: string)
    ensures Find(es, First(p)).None? ==> WalkIn(es, p) == None
    ensures Find(es, First(p)).Some? && !Deep(p) ==> WalkIn(es, p) == Some(Find(es, First(p)).value.node)
  {
    hide Find, Slash;
  }

  lemma StepDown(n: Node, c: Node, p: string, m: Node)
    requires n.Folder? && c.Folder? && Deep(p)
    requires Find(n.entries, First(p)).Some? && Find(n.entries, First(p)).value.node == m
    requires Find(c.entries, First(p)) == Some(Entry(First(p), Canon(m)))
    ensures Walk(n, p) == Walk(m, Below(p)) && Walk(c, p) == Walk(Canon(m), Below(p))
  {
    hide Canon, Find;
  }

  lemma FoundCanon(n: Node, name: string)
    requires n.Folder? && Proper(n)
    ensures Canon(n).Folder?
    ensures match Find(n.entries, name)
            case None => Find(Canon(n).entries, name) == None
            case Some(e) => Find(Canon(n).entries, name) == Some(Entry(name, Canon(e.node)))
  {
    hide Sort, Find, CanonIn;
    var es := Sort(n.entries);
    SortMembers(n.entries);
    assert Distinct(n.entries);
    FindSorted(n.entries, name);
    FindCanon(n, es, name);
  }

  /** A copy holds at every path what the source holds there: the same file with its bit and its content, a folder for a
      folder, also an empty one, and nothing where nothing was. */
  lemma CopyHoldsSame(source: Node, spent: Spent, p: string)
    requires Proper(source) && CopyOf(source, spent).Copied?
    ensures var copy := Folder(CopyOf(source, spent).entries);
            match Walk(source, p)
            case None => Walk(copy, p) == None
            case Some(Folder(_)) => Walk(copy, p).Some? && Walk(copy, p).value.Folder?
            case Some(m) => Walk(copy, p) == Some(m)
  {
    hide Walk, CopyOf;
    CopyIsCanonical(source, spent);
    WalkCanon(source, p);
  }
}
