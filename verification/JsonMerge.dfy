/** Merging one value into a JSON object along a path, and taking it out again. */
module JsonMerge {
  import opened Text

  datatype Json =
    | Null
    | Bool(b: bool)
    | Number(n: int)
    | Str(s: string)
    | List(items: seq<Json>)
    | Object(fields: map<string, Json>)

  type Fields = map<string, Json>

  /** A list occurs somewhere in the value. */
  predicate HasList(j: Json) {
    j.List? || (j.Object? && exists k :: k in j.fields && HasList(j.fields[k]))
  }

  /** The object found under a key on the way down: a missing or null value counts as an empty object. */
  function Child(o: Fields, key: string): Option<Fields> {
    if key !in o || o[key] == Null then Some(map[])
    else if o[key].Object? then Some(o[key].fields)
    else None
  }

  datatype Merge =
    | Same                                     // the path already holds this value
    | Merged(root: Fields, replaced: bool)
    | Collision

  function MergeAt(o: Fields, path: seq<string>, value: Json, replaceExisting: bool): Merge
    requires path != []
    decreases |path|
  {
    var key := path[0];
    if |path| == 1 then
      if key in o && o[key] == value then Same
      else if key in o && !replaceExisting then Collision
      else Merged(o[key := value], key in o)
    else match Child(o, key)
      case None => Collision
      case Some(child) =>
        match MergeAt(child, path[1..], value, replaceExisting)
        case Merged(c, replaced) => Merged(o[key := Object(c)], replaced)
        case other => other
  }

  /** The value under a key; a missing key reads as null. */
  function Get(o: Fields, key: string): Json {
    if key in o then o[key] else Null
  }

  /** Takes the leaf out, only where it still holds the installed value. */
  function UnmergeAt(o: Fields, path: seq<string>, installed: Json): Option<Fields>
    requires path != []
    decreases |path|
  {
    var key := path[0];
    if |path| == 1 then
      if Get(o, key) != installed then None else Some(o - {key})
    else if !Get(o, key).Object? then None
    else match UnmergeAt(o[key].fields, path[1..], installed)
      case Some(c) => Some(o[key := Object(c)])
      case None => None
  }

  // ---- reading along a path ----

  function Lookup(o: Fields, path: seq<string>): Option<Json>
    requires path != []
    decreases |path|
  {
    if path[0] !in o then None
    else if |path| == 1 then Some(o[path[0]])
    else if o[path[0]].Object? then Lookup(o[path[0]].fields, path[1..])
    else None
  }

  /** Neither path runs along the other. */
  predicate Diverge(p: seq<string>, q: seq<string>) {
    !(p <= q) && !(q <= p)
  }

  lemma TailDiverges(p: seq<string>, q: seq<string>)
    requires p != [] && q != [] && p[0] == q[0] && Diverge(p, q)
    ensures |p| > 1 && |q| > 1 && Diverge(p[1..], q[1..])
  {
  }

  /** A merge puts the value at its path. */
  lemma {:induction false} MergeInstalls(o: Fields, path: seq<string>, value: Json, replaceExisting: bool)
    requires path != []
    ensures var m := MergeAt(o, path, value, replaceExisting);
            (m.Same? ==> Lookup(o, path) == Some(value)) &&
            (m.Merged? ==> Lookup(m.root, path) == Some(value)) &&
            (m.Merged? ==> (m.replaced <==> Lookup(o, path).Some?))
    decreases |path|
  {
    if |path| > 1 && Child(o, path[0]).Some? {
      var c := Child(o, path[0]).value;
      MergeInstalls(c, path[1..], value, replaceExisting);
      if path[0] !in o || o[path[0]] == Null {
        assert Lookup(map[], path[1..]) == None;
      }
    }
  }

  /** Every value off the path is unchanged by a merge. */
  lemma {:induction false} MergeFrame(o: Fields, path: seq<string>, value: Json, replaceExisting: bool, q: seq<string>)
    requires path != [] && q != [] && Diverge(path, q)
    requires MergeAt(o, path, value, replaceExisting).Merged?
    ensures Lookup(MergeAt(o, path, value, replaceExisting).root, q) == Lookup(o, q)
    decreases |path|
  {
    if path[0] == q[0] {
      TailDiverges(path, q);
      MergeFrame(Child(o, path[0]).value, path[1..], value, replaceExisting, q[1..]);
      assert Lookup(map[], q[1..]) == None;
    }
  }

  /** ... and by taking the value out. */
  lemma {:induction false} UnmergeFrame(o: Fields, path: seq<string>, installed: Json, q: seq<string>)
    requires path != [] && q != [] && Diverge(path, q)
    requires UnmergeAt(o, path, installed).Some?
    ensures Lookup(UnmergeAt(o, path, installed).value, q) == Lookup(o, q)
    decreases |path|
  {
    if path[0] == q[0] {
      TailDiverges(path, q);
      UnmergeFrame(o[path[0]].fields, path[1..], installed, q[1..]);
    }
  }

  /** A merge collides exactly when something that is neither null nor an object stands in the way, or another
      value is at the path and may not be replaced. */
  lemma {:induction false} CollisionExactly(o: Fields, path: seq<string>, value: Json, replaceExisting: bool)
    requires path != []
    ensures MergeAt(o, path, value, replaceExisting).Collision?
       <==> Blocked(o, path) || (!replaceExisting && Lookup(o, path).Some? && Lookup(o, path).value != value)
    decreases |path|
  {
    if |path| > 1 {
      var key := path[0];
      if Child(o, key).Some? {
        CollisionExactly(Child(o, key).value, path[1..], value, replaceExisting);
      }
      if key !in o || o[key] == Null {
        assert Lookup(map[], path[1..]) == None;
        NothingBlocksEmpty(path[1..]);
      }
      BlockedStep(o, path);
    } else {
      assert !Blocked(o, path);
    }
  }

  /** A proper prefix of the path holds a value that is neither null nor an object. */
  predicate Blocked(o: Fields, path: seq<string>)
    requires path != []
  {
    exists n :: 0 < n < |path| && BlocksAt(o, path, n)
  }

  predicate BlocksAt(o: Fields, path: seq<string>, n: nat)
    requires 0 < n < |path|
  {
    var v := Lookup(o, path[..n]);
    v.Some? && !v.value.Null? && !v.value.Object?
  }

  lemma NothingBlocksEmpty(path: seq<string>)
    requires path != []
    ensures !Blocked(map[], path)
  {
  }

  lemma BlockedStep(o: Fields, path: seq<string>)
    requires |path| > 1
    ensures Blocked(o, path) <==>
            path[0] in o && !o[path[0]].Null? &&
            (!o[path[0]].Object? || Blocked(o[path[0]].fields, path[1..]))
  {
    var key := path[0];
    assert path[..1] == [key];
    if key in o && o[key].Object? {
      var c := o[key].fields;
      forall n | 1 < n < |path|
        ensures BlocksAt(o, path, n) == BlocksAt(c, path[1..], n - 1)
      {
        assert path[..n][1..] == path[1..][..n - 1];
      }
      if Blocked(o, path) {
        var n :| 0 < n < |path| && BlocksAt(o, path, n);
        assert n > 1;
        assert BlocksAt(c, path[1..], n - 1);
      }
      if Blocked(c, path[1..]) {
        var n :| 0 < n < |path| - 1 && BlocksAt(c, path[1..], n);
        assert BlocksAt(o, path, n + 1);
      }
    } else if key in o && !o[key].Null? {
      assert BlocksAt(o, path, 1);
    } else {
      forall n | 0 < n < |path|
        ensures !BlocksAt(o, path, n)
      {
        assert path[..n][0] == key;
      }
    }
  }

  /** A value is taken out exactly when it is still the one that was installed. */
  lemma {:induction false} UnmergeExactly(o: Fields, path: seq<string>, installed: Json)
    requires path != []
    ensures Lookup(o, path) == Some(installed) ==> UnmergeAt(o, path, installed).Some?
    ensures installed != Null && UnmergeAt(o, path, installed).Some? ==> Lookup(o, path) == Some(installed)
    ensures UnmergeAt(o, path, installed).Some? ==> Lookup(UnmergeAt(o, path, installed).value, path) == None
    decreases |path|
  {
    if |path| > 1 && Get(o, path[0]).Object? {
      UnmergeExactly(o[path[0]].fields, path[1..], installed);
    }
  }

  /** The object that holds the leaf is there. */
  predicate ParentThere(o: Fields, path: seq<string>)
    requires path != []
  {
    |path| == 1 ||
    (Lookup(o, path[..|path| - 1]).Some? && Lookup(o, path[..|path| - 1]).value.Object?)
  }

  /** A value can be taken out if and only if the object around it is there and it is still the installed one; a null
      may also be missing. */
  lemma {:induction false} UnmergeWhenThere(o: Fields, path: seq<string>, installed: Json)
    requires path != []
    ensures UnmergeAt(o, path, installed).Some? <==>
            ParentThere(o, path) &&
            (Lookup(o, path) == Some(installed) || (installed == Null && Lookup(o, path).None?))
    decreases |path|
  {
    if |path| > 1 {
      var key, rest := path[0], path[1..];
      assert path[..1] == [key];
      if Get(o, key).Object? {
        UnmergeWhenThere(o[key].fields, rest, installed);
        assert |path| > 2 ==> path[..|path| - 1][0] == key && path[..|path| - 1][1..] == rest[..|rest| - 1];
      } else {
        assert path[..|path| - 1][0] == key;
      }
    }
  }

  /** A value has a list somewhere if and only if it is one or a path through its objects leads to one. */
  lemma {:induction false} HasListExactly(j: Json)
    ensures HasList(j) <==> j.List? || (j.Object? && exists path :: LeadsToList(j.fields, path))
  {
    if j.Object? {
      forall k | k in j.fields && HasList(j.fields[k])
        ensures exists path :: LeadsToList(j.fields, path)
      {
        HasListExactly(j.fields[k]);
        if j.fields[k].List? {
          assert LeadsToList(j.fields, [k]);
        } else {
          var path :| LeadsToList(j.fields[k].fields, path);
          assert ([k] + path)[1..] == path;
          assert LeadsToList(j.fields, [k] + path);
        }
      }
      forall path | LeadsToList(j.fields, path) ensures HasList(j) {
        var k := path[0];
        HasListExactly(j.fields[k]);
        if |path| > 1 { assert LeadsToList(j.fields[k].fields, path[1..]); }
      }
    }
  }

  predicate LeadsToList(o: Fields, path: seq<string>) {
    path != [] && Lookup(o, path).Some? && Lookup(o, path).value.List?
  }

  // ---- the merge and its inverse ----

  /** The object with every missing or null step above the leaf turned into an empty object. */
  function Opened(o: Fields, path: seq<string>): Fields
    requires path != []
    decreases |path|
  {
    if |path| == 1 || Child(o, path[0]).None? then o
    else o[path[0] := Object(Opened(Child(o, path[0]).value, path[1..]))]
  }

  /** Taking out a freshly merged value gives back the original object, with only the missing or null objects
      on the path opened. */
  lemma {:induction false} MergeThenUnmerge(o: Fields, path: seq<string>, value: Json, replaceExisting: bool)
    requires path != []
    requires MergeAt(o, path, value, replaceExisting).Merged? && !MergeAt(o, path, value, replaceExisting).replaced
    ensures UnmergeAt(MergeAt(o, path, value, replaceExisting).root, path, value) == Some(Opened(o, path))
    decreases |path|
  {
    var key := path[0];
    if |path| == 1 {
      assert o[key := value] - {key} == o;
    } else {
      MergeThenUnmerge(Child(o, key).value, path[1..], value, replaceExisting);
      var c := MergeAt(Child(o, key).value, path[1..], value, replaceExisting).root;
      var d := Opened(Child(o, key).value, path[1..]);
      assert o[key := Object(c)][key := Object(d)] == o[key := Object(d)];
    }
  }

  /** An object with no values in it, only further such objects. */
  predicate Hollow(j: Json) {
    j.Object? && forall k :: k in j.fields ==> Hollow(j.fields[k])
  }

  /** The second value is the first one, except that missing or null values may have become hollow objects. */
  predicate Grown(a: Json, b: Json) {
    a == b || (a.Null? && Hollow(b)) ||
    (a.Object? && b.Object? &&
     (forall k :: k in a.fields ==> k in b.fields && Grown(a.fields[k], b.fields[k])) &&
     (forall k :: k in b.fields && k !in a.fields ==> Hollow(b.fields[k])))
  }

  predicate GrownFields(a: Fields, b: Fields) {
    (forall k :: k in a ==> k in b && Grown(a[k], b[k])) &&
    (forall k :: k in b && k !in a ==> Hollow(b[k]))
  }

  lemma GrownSelf(o: Fields)
    ensures GrownFields(o, o)
  {
  }

  lemma {:induction false} OpenedIsGrown(o: Fields, path: seq<string>)
    requires path != []
    ensures GrownFields(o, Opened(o, path))
    ensures o == map[] ==> Hollow(Object(Opened(o, path)))
    decreases |path|
  {
    GrownSelf(o);
    if |path| > 1 && Child(o, path[0]).Some? {
      OpenedIsGrown(Child(o, path[0]).value, path[1..]);
    }
  }

  /** Taking a value out of an object that has grown since the merge leaves one grown from the original. */
  lemma {:induction false} UnmergeGrown(o: Fields, path: seq<string>, value: Json, replaceExisting: bool, now: Fields)
    requires path != []
    requires MergeAt(o, path, value, replaceExisting).Merged? && !MergeAt(o, path, value, replaceExisting).replaced
    requires GrownFields(MergeAt(o, path, value, replaceExisting).root, now)
    requires UnmergeAt(now, path, value).Some?
    ensures GrownFields(o, UnmergeAt(now, path, value).value)
    ensures o == map[] ==> Hollow(Object(UnmergeAt(now, path, value).value))
    decreases |path|
  {
    var key := path[0];
    if |path| == 1 {
      GrownWithout(o, key, value, now);
    } else {
      var c := Child(o, key).value;
      var m := MergeAt(c, path[1..], value, replaceExisting).root;
      assert Grown(Object(m), now[key]);
      GrownSelf(m);
      UnmergeGrown(c, path[1..], value, replaceExisting, now[key].fields);
      GrownBelow(o, key, m, now, UnmergeAt(now[key].fields, path[1..], value).value);
    }
  }

  lemma GrownWithout(o: Fields, key: string, value: Json, now: Fields)
    requires key !in o && GrownFields(o[key := value], now)
    ensures GrownFields(o, now - {key})
    ensures o == map[] ==> Hollow(Object(now - {key}))
  {
  }

  /** Replacing the object under a key by one grown from the object that was there keeps the whole grown. */
  lemma GrownBelow(o: Fields, key: string, m: Fields, now: Fields, c: Fields)
    requires Child(o, key).Some? && GrownFields(o[key := Object(m)], now)
    requires GrownFields(Child(o, key).value, c)
    requires Child(o, key).value == map[] ==> Hollow(Object(c))
    ensures GrownFields(o, now[key := Object(c)])
    ensures o == map[] ==> Hollow(Object(now[key := Object(c)]))
  {
  }
}
