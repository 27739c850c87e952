/** Git tree objects as they are listed one directory at a time, and the recursive walk. */
module GitTrees {
  import opened Common

  /** A blob object. It is identified by its data; an unreadable one is listed but cannot be read. */
  datatype Blob = Blob(data: string, readable: bool)

  datatype Directory = Directory(entries: seq<Entry>)

  datatype Entry = Leaf(name: string, blob: Blob) | Sub(name: string, dir: Directory)

  datatype Listed = Listed(path: Path, blob: Blob)

  /** Within each directory a name occurs once. */
  ghost predicate WellNamed(entries: seq<Entry>)
    decreases entries
  {
    && (forall i, j :: 0 <= i < j < |entries| ==> entries[i].name != entries[j].name)
    && (forall i :: 0 <= i < |entries| && entries[i].Sub? ==> WellNamed(entries[i].dir.entries))
  }

  /** What the walk meets, in its order. */
  function Listing(entries: seq<Entry>, prefix: Path): seq<Listed>
    decreases entries, 1
  {
    if entries == [] then []
    else Listing(entries[..|entries| - 1], prefix) + ListEntry(entries[|entries| - 1], prefix)
  }

  function ListEntry(e: Entry, prefix: Path): seq<Listed>
    decreases e, 0
  {
    match e
    case Leaf(name, blob) => [Listed(prefix + [name], blob)]
    case Sub(name, dir) => Listing(dir.entries, prefix + [name])
  }

  /** git cat-file blob <revision>:<path>, going down one name at a time. */
  function Lookup(entries: seq<Entry>, path: Path): Option<Blob>
    decreases |path|
  {
    if path == [] then None
    else
      match Named(entries, path[0])
      case None => None
      case Some(Leaf(_, blob)) => if |path| == 1 then Some(blob) else None
      case Some(Sub(_, dir)) => Lookup(dir.entries, path[1..])
  }

  function Named(entries: seq<Entry>, name: string): Option<Entry> {
    if entries == [] then None
    else if entries[|entries| - 1].name == name then Some(entries[|entries| - 1])
    else Named(entries[..|entries| - 1], name)
  }

  lemma {:induction false} NamedExactly(entries: seq<Entry>, name: string)
    ensures Named(entries, name).Some?
            ==> Named(entries, name).value in entries && Named(entries, name).value.name == name
    ensures Named(entries, name).None? ==> forall e :: e in entries ==> e.name != name
  {
    if entries != [] { NamedExactly(entries[..|entries| - 1], name); }
  }

  function LookupEntry(e: Entry, path: Path): Option<Blob> {
    if path == [] || path[0] != e.name then None
    else
      match e
      case Leaf(_, blob) => if |path| == 1 then Some(blob) else None
      case Sub(_, dir) => Lookup(dir.entries, path[1..])
  }

  lemma LookupSnoc(entries: seq<Entry>, path: Path)
    requires entries != [] && path != []
    ensures var last := entries[|entries| - 1];
            Lookup(entries, path) ==
            if path[0] == last.name then LookupEntry(last, path) else Lookup(entries[..|entries| - 1], path)
  {
  }

  lemma WellNamedSnoc(entries: seq<Entry>)
    requires WellNamed(entries) && entries != []
    ensures WellNamed(entries[..|entries| - 1])
    ensures entries[|entries| - 1].Sub? ==> WellNamed(entries[|entries| - 1].dir.entries)
  {
  }

  /** The walk meets a path with a blob exactly when looking the path up finds that blob. */
  lemma {:induction false} WalkFindsExactly(entries: seq<Entry>, prefix: Path, path: Path, blob: Blob)
    requires WellNamed(entries)
    ensures Listed(prefix + path, blob) in Listing(entries, prefix) <==> Lookup(entries, path) == Some(blob)
    decreases entries, 1
  {
    if entries == [] {
      assert Named(entries, if path == [] then "" else path[0]) == None;
    } else {
      var n := |entries| - 1;
      WellNamedSnoc(entries);
      WalkFindsExactly(entries[..n], prefix, path, blob);
      EntryFindsExactly(entries[n], prefix, path, blob);
      if path != [] {
        LookupSnoc(entries, path);
        NamedExactly(entries[..n], path[0]);
        if path[0] == entries[n].name {
          assert forall e :: e in entries[..n] ==> e.name != path[0];
        }
      }
    }
  }

  lemma {:induction false} EntryFindsExactly(e: Entry, prefix: Path, path: Path, blob: Blob)
    requires e.Sub? ==> WellNamed(e.dir.entries)
    ensures Listed(prefix + path, blob) in ListEntry(e, prefix) <==> LookupEntry(e, path) == Some(blob)
    decreases e, 0
  {
    match e {
      case Leaf(name, b) =>
        assert |path| == 1 && path[0] == name ==> path == [name];
        assert (prefix + path)[|prefix|..] == path && (prefix + [name])[|prefix|..] == [name];
      case Sub(name, dir) =>
        if path != [] && path[0] == name {
          WalkFindsExactly(dir.entries, prefix + [name], path[1..], blob);
          assert prefix + [name] + path[1..] == prefix + path;
        } else {
          ListedByName(e, prefix);
          forall l | l in ListEntry(e, prefix) ensures l.path != prefix + path {
            assert l.path[|prefix|] == (prefix + [name])[|prefix|] == name;
          }
        }
    }
  }

  /** The entries one goes through, from directory to directory, to the blob at the path. */
  ghost predicate Chain(entries: seq<Entry>, path: Path, es: seq<Entry>, blob: Blob) {
    && path != [] && |es| == |path| && es[0] in entries && es[|es| - 1] == Leaf(path[|es| - 1], blob)
    && forall i :: 0 <= i < |es| - 1 ==> es[i].Sub? && es[i].name == path[i] && es[i + 1] in es[i].dir.entries
  }

  lemma {:induction false} NamedIs(entries: seq<Entry>, e: Entry)
    requires WellNamed(entries) && e in entries
    ensures Named(entries, e.name) == Some(e)
  {
    var n := |entries| - 1;
    if entries[n] != e {
      WellNamedSnoc(entries);
      NamedIs(entries[..n], e);
    }
  }

  lemma {:induction false} ChainFound(entries: seq<Entry>, path: Path, es: seq<Entry>, blob: Blob)
    requires WellNamed(entries) && Chain(entries, path, es, blob)
    ensures Lookup(entries, path) == Some(blob)
    decreases |path|
  {
    NamedIs(entries, es[0]);
    if |path| > 1 {
      var inner, rest := es[0].dir.entries, es[1..];
      var i :| 0 <= i < |entries| && entries[i] == es[0];
      assert forall k :: 0 <= k < |rest| ==> rest[k] == es[k + 1] && path[1..][k] == path[k + 1];
      assert Chain(inner, path[1..], rest, blob);
      ChainFound(inner, path[1..], rest, blob);
    }
  }

  lemma {:induction false} FoundChain(entries: seq<Entry>, path: Path) returns (es: seq<Entry>)
    requires Lookup(entries, path).Some?
    ensures Chain(entries, path, es, Lookup(entries, path).value)
    decreases |path|
  {
    hide Chain;
    NamedExactly(entries, path[0]);
    var e := Named(entries, path[0]).value;
    if |path| == 1 {
      es := [e];
      LeafChain(entries, path, e);
    } else {
      var rest := FoundChain(e.dir.entries, path[1..]);
      es := [e] + rest;
      LongerChain(entries, path, e, rest, Lookup(entries, path).value);
    }
  }

  lemma LeafChain(entries: seq<Entry>, path: Path, e: Entry)
    requires e in entries && e.Leaf? && path == [e.name]
    ensures Chain(entries, path, [e], e.blob)
  {
  }

  lemma LongerChain(entries: seq<Entry>, path: Path, e: Entry, rest: seq<Entry>, blob: Blob)
    requires |path| > 1 && e in entries && e.Sub? && e.name == path[0] && Chain(e.dir.entries, path[1..], rest, blob)
    ensures Chain(entries, path, [e] + rest, blob)
  {
    var es := [e] + rest;
    assert forall k :: 0 <= k < |rest| ==> es[k + 1] == rest[k] && path[1..][k] == path[k + 1];
    forall i | 0 <= i < |es| - 1 ensures es[i].Sub? && es[i].name == path[i] && es[i + 1] in es[i].dir.entries {
      if i > 0 { assert es[i] == rest[i - 1] && es[i + 1] == rest[i]; }
    }
  }

  /** A path is looked up by going from entry to entry: what is found is exactly what such a chain ends in. */
  lemma LookupExactly(entries: seq<Entry>, path: Path, blob: Blob)
    requires WellNamed(entries)
    ensures Lookup(entries, path) == Some(blob) <==> exists es :: Chain(entries, path, es, blob)
  {
    hide Chain;
    if Lookup(entries, path) == Some(blob) { var es := FoundChain(entries, path); }
    if es :| Chain(entries, path, es, blob) { ChainFound(entries, path, es, blob); }
  }

  /** All that the walk meets below a directory lies strictly below it. */
  lemma {:induction false} ListedUnder(entries: seq<Entry>, prefix: Path)
    ensures forall l :: l in Listing(entries, prefix) ==> prefix < l.path
    decreases entries, 1
  {
    if entries != [] {
      ListedUnder(entries[..|entries| - 1], prefix);
      match entries[|entries| - 1] {
        case Leaf(_, _) =>
        case Sub(name, dir) =>
          ListedUnder(dir.entries, prefix + [name]);
          forall l | l in Listing(dir.entries, prefix + [name]) ensures prefix < l.path {
            assert prefix + [name] < l.path;
          }
      }
    }
  }

  ghost predicate DistinctPaths(ls: seq<Listed>) {
    forall i, j :: 0 <= i < j < |ls| ==> ls[i].path != ls[j].path
  }

  lemma ListedByName(e: Entry, prefix: Path)
    ensures forall l :: l in ListEntry(e, prefix) ==> prefix + [e.name] <= l.path
  {
    if e.Sub? { ListedUnder(e.dir.entries, prefix + [e.name]); }
  }

  lemma {:induction false} ListedByNames(entries: seq<Entry>, prefix: Path)
    ensures forall l :: l in Listing(entries, prefix) ==>
              |l.path| > |prefix| && exists e :: e in entries && l.path[|prefix|] == e.name
    decreases |entries|
  {
    if entries != [] {
      var n := |entries| - 1;
      ListedByNames(entries[..n], prefix);
      ListedByName(entries[n], prefix);
      forall l | l in Listing(entries, prefix)
        ensures |l.path| > |prefix| && exists e :: e in entries && l.path[|prefix|] == e.name
      {
        if l in ListEntry(entries[n], prefix) {
          assert (prefix + [entries[n].name])[|prefix|] == l.path[|prefix|];
          assert entries[n] in entries;
        } else {
          var e :| e in entries[..n] && l.path[|prefix|] == e.name;
          assert e in entries;
        }
      }
    }
  }

  /** The walk meets no path twice. */
  lemma {:induction false} WalkMeetsEachOnce(entries: seq<Entry>, prefix: Path)
    requires WellNamed(entries)
    ensures DistinctPaths(Listing(entries, prefix))
    decreases entries
  {
    if entries != [] {
      var n := |entries| - 1;
      WellNamedSnoc(entries);
      WalkMeetsEachOnce(entries[..n], prefix);
      if entries[n].Sub? { WalkMeetsEachOnce(entries[n].dir.entries, prefix + [entries[n].name]); }
      ListedByNames(entries[..n], prefix);
      ListedByName(entries[n], prefix);
      var xs, ys := Listing(entries[..n], prefix), ListEntry(entries[n], prefix);
      forall x, y | x in xs && y in ys ensures x.path != y.path {
        assert (prefix + [entries[n].name])[|prefix|] == y.path[|prefix|];
        var e :| e in entries[..n] && x.path[|prefix|] == e.name;
      }
      assert DistinctPaths(ys);
    }
  }
}
