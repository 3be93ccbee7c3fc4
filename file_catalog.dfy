/** A catalog mapping file names to full paths, kept sorted by file name
    (src/scottbrian_utils/file_catalog.py).

    The pandas frame of the original is modelled as a sequence of
    (name, path) entries in strictly increasing name order; `ToMap` gives
    the name -> path mapping it stands for. */
module FileCatalogs {
  import opened Optional
  import opened Strings

  /** One catalog entry, the `FileSpec` tuple `(file_name, full_path)`. */
  datatype FileSpec = FileSpec(name: string, path: string)

  /** One element of a `file_specs` argument: a `tuple(str, str)` or
      anything else. */
  datatype SpecArg = Spec(name: string, path: string) | NotAFileSpec

  /** A `file_specs` argument: a single tuple, or a list of elements. */
  datatype SpecsArg = Single(spec: SpecArg) | List(specs: seq<SpecArg>)

  datatype CatalogError =
    | FileSpecIncorrect
    | IllegalAddAttempt(name: string, path: string, existingPath: string)
    | IllegalDelAttempt(name: string, path: string, existingPath: string)
    | FileNameNotFound(name: string)

  datatype Result<T> = Ok(value: T) | Err(error: CatalogError)

  /** A single tuple is wrapped into a one-element list. */
  function AsList(arg: SpecsArg): (items: seq<SpecArg>)
    ensures arg.Single? ==> items == [arg.spec]
    ensures arg.List? ==> items == arg.specs
  {
    match arg
    case Single(s) => [s]
    case List(ss) => ss
  }

  //--------------------------------------------------------------------------
  // Entries, names and the mapping they stand for
  //--------------------------------------------------------------------------

  function Names(c: seq<FileSpec>): set<string>
    decreases |c|
  {
    if c == [] then {} else {c[0].name} + Names(c[1..])
  }

  predicate UniqueNames(c: seq<FileSpec>)
    decreases |c|
  {
    c == [] || (c[0].name !in Names(c[1..]) && UniqueNames(c[1..]))
  }

  /** The catalog's index order: strictly increasing file names. */
  predicate Sorted(c: seq<FileSpec>)
    decreases |c|
  {
    c == [] || ((forall n :: n in Names(c[1..]) ==> Less(c[0].name, n)) && Sorted(c[1..]))
  }

  lemma {:induction false} SortedUnique(c: seq<FileSpec>)
    requires Sorted(c)
    ensures UniqueNames(c)
    decreases |c|
  {
    if c != [] {
      LessIrreflexive(c[0].name);
      SortedUnique(c[1..]);
    }
  }

  lemma {:induction false} NamesAppend(c: seq<FileSpec>, e: FileSpec)
    ensures Names(c + [e]) == Names(c) + {e.name}
    ensures UniqueNames(c) && e.name !in Names(c) ==> UniqueNames(c + [e])
    ensures UniqueNames(c) && e.name !in Names(c) ==> ToMap(c + [e]) == ToMap(c)[e.name := e.path]
    decreases |c|
  {
    if c != [] {
      assert (c + [e])[1..] == c[1..] + [e];
      NamesAppend(c[1..], e);
    }
  }

  /** The name -> path mapping the entries stand for. */
  function ToMap(c: seq<FileSpec>): (m: map<string, string>)
    ensures m.Keys == Names(c)
    decreases |c|
  {
    if c == [] then map[] else ToMap(c[1..])[c[0].name := c[0].path]
  }

  lemma {:induction false} UniqueCard(c: seq<FileSpec>)
    requires UniqueNames(c)
    ensures |Names(c)| == |c|
    decreases |c|
  {
    if c != [] {
      UniqueCard(c[1..]);
    }
  }

  /** Looks up a name the way `catalog.loc[name]` does. */
  function Lookup(c: seq<FileSpec>, name: string): (r: Option<string>)
    ensures r.Some? <==> name in ToMap(c)
    ensures r.Some? ==> r.value == ToMap(c)[name]
    decreases |c|
  {
    if c == [] then None
    else if c[0].name == name then Some(c[0].path)
    else Lookup(c[1..], name)
  }

  //--------------------------------------------------------------------------
  // Sorted insertion and removal (`append(...).sort_index()`, `drop`)
  //--------------------------------------------------------------------------

  function Insert(c: seq<FileSpec>, e: FileSpec): (r: seq<FileSpec>)
    requires Sorted(c) && e.name !in Names(c)
    ensures Sorted(r)
    ensures |r| == |c| + 1
    ensures Names(r) == Names(c) + {e.name}
    ensures ToMap(r) == ToMap(c)[e.name := e.path]
    decreases |c|
  {
    if c == [] then [e]
    else if Less(e.name, c[0].name) then
      var r := [e] + c;
      assert r[1..] == c;
      forall n | n in Names(c[1..]) ensures Less(e.name, n) {
        LessTransitive(e.name, c[0].name, n);
      }
      r
    else
      LessTotal(e.name, c[0].name);
      var rest := Insert(c[1..], e);
      var r := [c[0]] + rest;
      assert r[1..] == rest;
      r
  }

  /** Inserts every entry of `adds` into the sorted catalog `c`. */
  function InsertAll(c: seq<FileSpec>, adds: seq<FileSpec>): (r: seq<FileSpec>)
    requires Sorted(c) && UniqueNames(adds) && Names(adds) !! Names(c)
    ensures Sorted(r)
    ensures Names(r) == Names(c) + Names(adds)
    decreases |adds|
  {
    if adds == [] then c
    else
      var c' := Insert(c, adds[0]);
      assert Names(adds[1..]) !! Names(c');
      InsertAll(c', adds[1..])
  }

  /** The merged catalog holds the old entries and the added ones. */
  lemma {:induction false} InsertAllContents(c: seq<FileSpec>, adds: seq<FileSpec>)
    requires Sorted(c) && UniqueNames(adds) && Names(adds) !! Names(c)
    ensures |InsertAll(c, adds)| == |c| + |adds|
    ensures ToMap(InsertAll(c, adds)) == ToMap(c) + ToMap(adds)
    decreases |adds|
  {
    if adds != [] {
      var c' := Insert(c, adds[0]);
      assert Names(adds[1..]) !! Names(c');
      InsertAllContents(c', adds[1..]);
      UpdateThenMerge(ToMap(c), ToMap(adds[1..]), adds[0].name, adds[0].path);
    }
  }

  lemma UpdateThenMerge<K, V>(m1: map<K, V>, m2: map<K, V>, k: K, v: V)
    requires k !in m2
    ensures m1[k := v] + m2 == m1 + m2[k := v]
  {
    var a, b := m1[k := v] + m2, m1 + m2[k := v];
    assert a.Keys == b.Keys;
    assert forall x :: x in a ==> a[x] == b[x];
  }

  /** Removes every entry whose name is in `names` (`drop(index=...)`). */
  function RemoveNames(c: seq<FileSpec>, names: set<string>): (r: seq<FileSpec>)
    requires Sorted(c)
    ensures Sorted(r)
    ensures Names(r) == Names(c) - names
    ensures ToMap(r) == ToMap(c) - names
    ensures names == {} ==> r == c
    decreases |c|
  {
    if c == [] then []
    else
      var rest := RemoveNames(c[1..], names);
      if c[0].name in names then
        assert ToMap(rest) == ToMap(c) - names;
        rest
      else
        var r := [c[0]] + rest;
        assert r[1..] == rest;
        r
  }

  lemma {:induction false} RemoveNamesLength(c: seq<FileSpec>, names: set<string>)
    requires Sorted(c)
    ensures |RemoveNames(c, names)| == |c| - |Names(c) * names|
    decreases |c|
  {
    if c != [] {
      RemoveNamesLength(c[1..], names);
      RemoveNamesHead(c, names);
      SortedUnique(c);
      RemovedNamesHead(c, names);
    }
  }

  /** Removal keeps or drops the first entry and removes from the rest. */
  lemma RemoveNamesHead(c: seq<FileSpec>, names: set<string>)
    requires Sorted(c) && c != []
    ensures |RemoveNames(c, names)| ==
      |RemoveNames(c[1..], names)| + (if c[0].name in names then 0 else 1)
  {
  }

  /** The removed names are those of the rest, plus the first one when
      it is removed. */
  lemma RemovedNamesHead(c: seq<FileSpec>, names: set<string>)
    requires UniqueNames(c) && c != []
    ensures |Names(c) * names| ==
      |Names(c[1..]) * names| + (if c[0].name in names then 1 else 0)
  {
    var t := Names(c[1..]) * names;
    if c[0].name in names {
      assert Names(c) * names == t + {c[0].name};
    } else {
      assert Names(c) * names == t;
    }
  }

  //--------------------------------------------------------------------------
  // add_paths and del_paths as functions of the old catalog
  //--------------------------------------------------------------------------

  /** The names the well-formed elements of a batch mention. */
  function SpecNames(items: seq<SpecArg>): set<string>
    decreases |items|
  {
    if items == [] then {}
    else (if items[0].Spec? then {items[0].name} else {}) + SpecNames(items[1..])
  }

  /** A batch add_paths accepts: every element a (str, str) pair, no name
      already catalogued under another path, no name given two paths. */
  predicate AddableBatch(cat: seq<FileSpec>, items: seq<SpecArg>)
  {
    && (forall it :: it in items ==>
          it.Spec? && (it.name in ToMap(cat) ==> ToMap(cat)[it.name] == it.path))
    && (forall a, b :: a in items && b in items && a.Spec? && b.Spec? && a.name == b.name ==>
          a.path == b.path)
  }

  /** The loop of add_paths: the entries still to be added, in batch
      order, given those already collected in `pending`. A name that is
      already catalogued or already pending is skipped when its path
      agrees and rejected when it does not. */
  function CollectAdds(cat: seq<FileSpec>, items: seq<SpecArg>, pending: seq<FileSpec>): (r: Result<seq<FileSpec>>)
    requires UniqueNames(pending) && Names(pending) !! Names(cat)
    ensures r.Ok? ==> UniqueNames(r.value) && Names(r.value) !! Names(cat)
    ensures r.Ok? ==> Names(r.value) == Names(pending) + (SpecNames(items) - Names(cat))
    decreases |items|
  {
    if items == [] then Ok(pending)
    else
      match items[0]
      case NotAFileSpec => Err(FileSpecIncorrect)
      case Spec(n, p) =>
        var existing := Lookup(cat, n);
        if existing.Some? then
          if p != existing.value then Err(IllegalAddAttempt(n, p, existing.value))
          else CollectAdds(cat, items[1..], pending)
        else
          var queued := Lookup(pending, n);
          if queued.Some? then
            if p != queued.value then Err(IllegalAddAttempt(n, p, queued.value))
            else CollectAdds(cat, items[1..], pending)
          else
            NamesAppend(pending, FileSpec(n, p));
            CollectAdds(cat, items[1..], pending + [FileSpec(n, p)])
  }

  /** A batch element whose name is catalogued or pending under the same
      path is skipped. */
  lemma CollectAddsSkip(cat: seq<FileSpec>, items: seq<SpecArg>, i: nat, pending: seq<FileSpec>)
    requires UniqueNames(pending) && Names(pending) !! Names(cat)
    requires i < |items| && items[i].Spec?
    requires var n, p := items[i].name, items[i].path;
      Lookup(cat, n) == Some(p) || (Lookup(cat, n).None? && Lookup(pending, n) == Some(p))
    ensures CollectAdds(cat, items[i..], pending) == CollectAdds(cat, items[i + 1..], pending)
  {
    assert items[i..][1..] == items[i + 1..];
  }

  /** A batch element with a name neither catalogued nor pending is
      collected. */
  lemma CollectAddsNew(cat: seq<FileSpec>, items: seq<SpecArg>, i: nat, pending: seq<FileSpec>)
    requires UniqueNames(pending) && Names(pending) !! Names(cat)
    requires i < |items| && items[i].Spec?
    requires Lookup(cat, items[i].name).None? && Lookup(pending, items[i].name).None?
    ensures UniqueNames(pending + [FileSpec(items[i].name, items[i].path)])
    ensures Names(pending + [FileSpec(items[i].name, items[i].path)]) !! Names(cat)
    ensures CollectAdds(cat, items[i..], pending) ==
      CollectAdds(cat, items[i + 1..], pending + [FileSpec(items[i].name, items[i].path)])
  {
    assert items[i..][1..] == items[i + 1..];
    NamesAppend(pending, FileSpec(items[i].name, items[i].path));
  }

  /** What a successful collection promises: every element was a pair whose
      name ends up mapped to its path, and pending entries stay as they were. */
  lemma {:induction false} CollectAddsMaps(cat: seq<FileSpec>, items: seq<SpecArg>, pending: seq<FileSpec>)
    requires UniqueNames(pending) && Names(pending) !! Names(cat)
    requires CollectAdds(cat, items, pending).Ok?
    ensures var adds := CollectAdds(cat, items, pending).value;
      && (forall it :: it in items ==>
            it.Spec? && it.name in ToMap(cat) + ToMap(adds) && (ToMap(cat) + ToMap(adds))[it.name] == it.path)
      && (forall n :: n in ToMap(pending) ==> n in ToMap(adds) && ToMap(adds)[n] == ToMap(pending)[n])
    decreases |items|
  {
    if items != [] {
      var n, p := items[0].name, items[0].path;
      var rest := items[1..];
      assert forall it :: it in items ==> it == items[0] || it in rest;
      if Lookup(cat, n).Some? || Lookup(pending, n).Some? {
        CollectAddsMaps(cat, rest, pending);
      } else {
        NamesAppend(pending, FileSpec(n, p));
        CollectAddsMaps(cat, rest, pending + [FileSpec(n, p)]);
      }
    }
  }

  /** What add_paths does to the catalog `cat`: the new catalog, or the
      error it raises (in which case nothing was added). */
  function AddPathsSpec(cat: seq<FileSpec>, fileSpecs: SpecsArg): Result<seq<FileSpec>>
    requires Sorted(cat)
  {
    var items := AsList(fileSpecs);
    if |items| == 0 then Err(FileSpecIncorrect)
    else
      match CollectAdds(cat, items, [])
      case Err(e) => Err(e)
      case Ok(adds) => Ok(InsertAll(cat, adds))
  }

  /** The loop of del_paths: the names to drop, given those already
      collected in `acc`. Absent names are skipped; a present name given
      with another path is rejected. */
  function CollectDels(cat: seq<FileSpec>, items: seq<SpecArg>, acc: set<string>): (r: Result<set<string>>)
    ensures r.Ok? ==> r.value == acc + (SpecNames(items) * Names(cat))
    decreases |items|
  {
    if items == [] then Ok(acc)
    else
      match items[0]
      case NotAFileSpec => Err(FileSpecIncorrect)
      case Spec(n, p) =>
        var existing := Lookup(cat, n);
        if existing.Some? then
          if p != existing.value then Err(IllegalDelAttempt(n, p, existing.value))
          else CollectDels(cat, items[1..], acc + {n})
        else CollectDels(cat, items[1..], acc)
  }

  /** What del_paths does to the catalog `cat`. */
  function DelPathsSpec(cat: seq<FileSpec>, fileSpecs: SpecsArg): Result<seq<FileSpec>>
    requires Sorted(cat)
  {
    var items := AsList(fileSpecs);
    if |items| == 0 then Err(FileSpecIncorrect)
    else
      match CollectDels(cat, items, {})
      case Err(e) => Err(e)
      case Ok(names) => Ok(RemoveNames(cat, names))
  }

  /** A single FileSpec is added or deleted exactly as the one-element
      list of it. */
  lemma SingleAsList(cat: seq<FileSpec>, spec: SpecArg)
    requires Sorted(cat)
    ensures AddPathsSpec(cat, Single(spec)) == AddPathsSpec(cat, List([spec]))
    ensures DelPathsSpec(cat, Single(spec)) == DelPathsSpec(cat, List([spec]))
  {
  }

  //--------------------------------------------------------------------------
  // Properties of add_paths and del_paths
  //--------------------------------------------------------------------------

  /** A successful add_paths: the result is sorted, every name of the batch
      maps to its path, no existing entry changes, nothing else appears,
      and the length grows by the number of new names. */
  lemma AddPathsOk(cat: seq<FileSpec>, fileSpecs: SpecsArg, c': seq<FileSpec>)
    requires Sorted(cat) && AddPathsSpec(cat, fileSpecs) == Ok(c')
    ensures Sorted(c')
    ensures forall it :: it in AsList(fileSpecs) ==>
      it.Spec? && it.name in ToMap(c') && ToMap(c')[it.name] == it.path
    ensures forall n :: n in ToMap(cat) ==> n in ToMap(c') && ToMap(c')[n] == ToMap(cat)[n]
    ensures ToMap(c').Keys == ToMap(cat).Keys + SpecNames(AsList(fileSpecs))
    ensures |c'| == |cat| + |SpecNames(AsList(fileSpecs)) - ToMap(cat).Keys|
  {
    AddPathsOkMaps(cat, fileSpecs, c');
    AddPathsOkSize(cat, fileSpecs, c');
  }

  lemma AddPathsOkMaps(cat: seq<FileSpec>, fileSpecs: SpecsArg, c': seq<FileSpec>)
    requires Sorted(cat) && AddPathsSpec(cat, fileSpecs) == Ok(c')
    ensures forall it :: it in AsList(fileSpecs) ==>
      it.Spec? && it.name in ToMap(c') && ToMap(c')[it.name] == it.path
    ensures forall n :: n in ToMap(cat) ==> n in ToMap(c') && ToMap(c')[n] == ToMap(cat)[n]
  {
    var items := AsList(fileSpecs);
    var adds := CollectAdds(cat, items, []).value;
    assert c' == InsertAll(cat, adds);
    CollectAddsMaps(cat, items, []);
    InsertAllContents(cat, adds);
    MergeDisjoint(ToMap(cat), ToMap(adds));
  }

  lemma AddPathsOkSize(cat: seq<FileSpec>, fileSpecs: SpecsArg, c': seq<FileSpec>)
    requires Sorted(cat) && AddPathsSpec(cat, fileSpecs) == Ok(c')
    ensures Sorted(c')
    ensures ToMap(c').Keys == ToMap(cat).Keys + SpecNames(AsList(fileSpecs))
    ensures |c'| == |cat| + |SpecNames(AsList(fileSpecs)) - ToMap(cat).Keys|
  {
    var items := AsList(fileSpecs);
    var adds := CollectAdds(cat, items, []).value;
    assert c' == InsertAll(cat, adds);
    InsertAllContents(cat, adds);
    CollectAddsFromEmpty(cat, items);
    UnionDifference(ToMap(cat).Keys, SpecNames(items));
  }

  /** Collected from an empty start, the new entries are exactly the
      batch's names not yet catalogued, one entry each. */
  lemma CollectAddsFromEmpty(cat: seq<FileSpec>, items: seq<SpecArg>)
    requires CollectAdds(cat, items, []).Ok?
    ensures ToMap(CollectAdds(cat, items, []).value).Keys == SpecNames(items) - ToMap(cat).Keys
    ensures |CollectAdds(cat, items, []).value| == |SpecNames(items) - ToMap(cat).Keys|
  {
    var adds := CollectAdds(cat, items, []).value;
    var empty: seq<FileSpec> := [];
    assert Names(empty) == {};
    UniqueCard(adds);
  }

  lemma MergeDisjoint<K, V>(m1: map<K, V>, m2: map<K, V>)
    requires m1.Keys !! m2.Keys
    ensures forall k :: k in m1 ==> (m1 + m2)[k] == m1[k]
  {
  }

  lemma UnionDifference<T>(a: set<T>, b: set<T>)
    ensures a + (b - a) == a + b
  {
  }

  /** A batch with no name given two paths and none catalogued (or pending)
      under another path: collecting it succeeds. */
  lemma {:induction false} CollectAddsSucceeds(cat: seq<FileSpec>, items: seq<SpecArg>, pending: seq<FileSpec>)
    requires UniqueNames(pending) && Names(pending) !! Names(cat)
    requires AddableBatch(cat, items)
    requires forall it :: it in items && it.Spec? && it.name in ToMap(pending) ==>
               ToMap(pending)[it.name] == it.path
    ensures CollectAdds(cat, items, pending).Ok?
    decreases |items|
  {
    if items != [] {
      var n, p := items[0].name, items[0].path;
      var rest := items[1..];
      assert forall it :: it in rest ==> it in items;
      if Lookup(cat, n).None? && Lookup(pending, n).None? {
        NamesAppend(pending, FileSpec(n, p));
        CollectAddsSucceeds(cat, rest, pending + [FileSpec(n, p)]);
      } else {
        CollectAddsSucceeds(cat, rest, pending);
      }
    }
  }

  /** add_paths succeeds exactly when the batch is non-empty and addable;
      otherwise it raises and the catalog is left as it was. */
  lemma AddPathsSucceedsIff(cat: seq<FileSpec>, fileSpecs: SpecsArg)
    requires Sorted(cat)
    ensures AddPathsSpec(cat, fileSpecs).Ok? <==>
      |AsList(fileSpecs)| > 0 && AddableBatch(cat, AsList(fileSpecs))
  {
    var items := AsList(fileSpecs);
    if |items| > 0 && AddableBatch(cat, items) {
      CollectAddsSucceeds(cat, items, []);
    }
    if AddPathsSpec(cat, fileSpecs).Ok? {
      var adds := CollectAdds(cat, items, []).value;
      CollectAddsMaps(cat, items, []);
      assert Names(adds) !! Names(cat);
    }
  }

  /** With every name already present under the same path, the loop
      collects nothing. */
  lemma {:induction false} CollectAddsNothingNew(cat: seq<FileSpec>, items: seq<SpecArg>)
    requires forall it :: it in items ==>
      it.Spec? && it.name in ToMap(cat) && ToMap(cat)[it.name] == it.path
    ensures CollectAdds(cat, items, []) == Ok([])
    decreases |items|
  {
    if items != [] {
      assert forall it :: it in items[1..] ==> it in items;
      CollectAddsNothingNew(cat, items[1..]);
    }
  }

  /** Adding the same batch a second time changes nothing. */
  lemma AddPathsIdempotent(cat: seq<FileSpec>, fileSpecs: SpecsArg)
    requires Sorted(cat) && AddPathsSpec(cat, fileSpecs).Ok?
    ensures AddPathsSpec(AddPathsSpec(cat, fileSpecs).value, fileSpecs) == AddPathsSpec(cat, fileSpecs)
  {
    var c' := AddPathsSpec(cat, fileSpecs).value;
    AddPathsOk(cat, fileSpecs, c');
    CollectAddsNothingNew(c', AsList(fileSpecs));
  }

  /** Re-adding a (name, path) pair that is already catalogued leaves the
      catalog as it is. */
  lemma ReAddIdentical(cat: seq<FileSpec>, name: string)
    requires Sorted(cat) && name in ToMap(cat)
    ensures AddPathsSpec(cat, Single(Spec(name, ToMap(cat)[name]))) == Ok(cat)
  {
    CollectAddsNothingNew(cat, [Spec(name, ToMap(cat)[name])]);
  }

  /** A successful del_paths removes exactly the named entries that are
      present and keeps everything else. */
  lemma DelPathsOk(cat: seq<FileSpec>, fileSpecs: SpecsArg, c': seq<FileSpec>)
    requires Sorted(cat) && DelPathsSpec(cat, fileSpecs) == Ok(c')
    ensures Sorted(c')
    ensures ToMap(c') == ToMap(cat) - SpecNames(AsList(fileSpecs))
    ensures |c'| == |cat| - |SpecNames(AsList(fileSpecs)) * ToMap(cat).Keys|
  {
    var items := AsList(fileSpecs);
    var names := CollectDels(cat, items, {}).value;
    assert c' == RemoveNames(cat, names);
    RemoveNamesLength(cat, names);
    var m, sn := ToMap(cat), SpecNames(items);
    CollectDelsFromEmpty(cat, items);
    MinusPresentKeys(m, sn);
    InterAbsorb(m.Keys, sn);
  }

  /** Collected from an empty start, the names to drop are exactly the
      batch's names that are catalogued. */
  lemma CollectDelsFromEmpty(cat: seq<FileSpec>, items: seq<SpecArg>)
    requires CollectDels(cat, items, {}).Ok?
    ensures CollectDels(cat, items, {}).value == SpecNames(items) * ToMap(cat).Keys
  {
  }

  lemma MinusPresentKeys<K, V>(m: map<K, V>, s: set<K>)
    ensures m - (s * m.Keys) == m - s
  {
    var a, b := m - (s * m.Keys), m - s;
    assert a.Keys == b.Keys;
  }

  lemma InterAbsorb<T>(a: set<T>, b: set<T>)
    ensures a * (b * a) == b * a
  {
  }

  /** A batch del_paths accepts: every element a (str, str) pair and no
      catalogued name given with another path. */
  predicate DeletableBatch(cat: seq<FileSpec>, items: seq<SpecArg>)
  {
    forall it :: it in items ==>
      it.Spec? && (it.name in ToMap(cat) ==> ToMap(cat)[it.name] == it.path)
  }

  lemma {:induction false} CollectDelsOkIff(cat: seq<FileSpec>, items: seq<SpecArg>, acc: set<string>)
    ensures CollectDels(cat, items, acc).Ok? <==> DeletableBatch(cat, items)
    decreases |items|
  {
    if items != [] {
      var rest := items[1..];
      assert forall it :: it in items <==> it == items[0] || it in rest;
      CollectDelsOkIff(cat, rest, acc);
      if items[0].Spec? {
        CollectDelsOkIff(cat, rest, acc + {items[0].name});
      }
    }
  }

  /** del_paths succeeds exactly when the batch is non-empty and deletable. */
  lemma DelPathsSucceedsIff(cat: seq<FileSpec>, fileSpecs: SpecsArg)
    requires Sorted(cat)
    ensures DelPathsSpec(cat, fileSpecs).Ok? <==>
      |AsList(fileSpecs)| > 0 && DeletableBatch(cat, AsList(fileSpecs))
  {
    CollectDelsOkIff(cat, AsList(fileSpecs), {});
  }

  //--------------------------------------------------------------------------
  // __repr__
  //--------------------------------------------------------------------------

  const ClassName: string := "FileCatalog"

  /** The indentation of every rendered entry after the first. */
  function Indent(): string
  {
    Repeat(' ', |ClassName| + |"(["|)
  }

  function EntryText(e: FileSpec): string
  {
    "('" + e.name + "', '" + e.path + "')"
  }

  /** The rendered entries: the first two, `...` in third place when that
      is not the last entry, and the last entry, one per line. */
  function ReprEntries(c: seq<FileSpec>, ind: string): string
  {
    var nl := ",\n";
    if |c| == 0 then ""
    else if |c| == 1 then EntryText(c[0])
    else if |c| == 2 then EntryText(c[0]) + nl + ind + EntryText(c[1])
    else if |c| == 3 then EntryText(c[0]) + nl + ind + EntryText(c[1]) + nl + ind + EntryText(c[2])
    else EntryText(c[0]) + nl + ind + EntryText(c[1]) + nl + ind + "...\n" + ind + EntryText(c[|c| - 1])
  }

  /** The representation: `FileCatalog()` when empty, brackets only around
      more than one entry. */
  function ReprText(c: seq<FileSpec>): string
  {
    Wrap(|c|, ReprEntries(c, Indent()))
  }

  /** The class name around the entries, bracketed when there are more
      than one. */
  function Wrap(n: nat, entries: string): string
  {
    ClassName + "(" + (if n > 1 then "[" + entries + "]" else entries) + ")"
  }

  /** What iteration `i` of the `__repr__` loop appends to `parms`. */
  ghost function ReprPiece(c: seq<FileSpec>, i: nat, ind: string): string
    requires i < |c|
  {
    var indent := if i == 0 then "" else ind;
    if i < 2 || i == |c| - 1 then indent + EntryText(c[i]) + ",\n"
    else if i == 2 then indent + "...\n"
    else ""
  }

  /** The text `__repr__` has accumulated in `parms` after `i` iterations. */
  ghost function ReprPrefix(c: seq<FileSpec>, i: nat, ind: string): string
    requires i <= |c|
  {
    if i == 0 then "" else ReprPrefix(c, i - 1, ind) + ReprPiece(c, i - 1, ind)
  }

  /** Between the ellipsis and the last entry the loop appends nothing. */
  lemma {:induction false} ReprPrefixMiddle(c: seq<FileSpec>, i: nat, ind: string)
    requires 3 <= i < |c|
    ensures ReprPrefix(c, i, ind) == ReprPrefix(c, 3, ind)
  {
    if i > 3 {
      ReprPrefixMiddle(c, i - 1, ind);
    }
  }

  /** The first two iterations render the first two entries. */
  lemma ReprPrefixTwo(c: seq<FileSpec>, ind: string)
    requires |c| >= 2
    ensures ReprPrefix(c, 2, ind) == EntryText(c[0]) + ",\n" + ind + EntryText(c[1]) + ",\n"
  {
    assert ReprPrefix(c, 1, ind) == EntryText(c[0]) + ",\n";
    Assoc4(EntryText(c[0]) + ",\n", ind, EntryText(c[1]), ",\n");
  }

  /** The third iteration renders the third entry when it is the last,
      and the ellipsis otherwise. */
  lemma ReprPrefixThree(c: seq<FileSpec>, ind: string)
    requires |c| >= 3
    ensures var p2 := EntryText(c[0]) + ",\n" + ind + EntryText(c[1]) + ",\n";
      ReprPrefix(c, 3, ind) == if |c| == 3 then p2 + ind + EntryText(c[2]) + ",\n" else p2 + ind + "...\n"
  {
    ReprPrefixTwo(c, ind);
    var p2 := EntryText(c[0]) + ",\n" + ind + EntryText(c[1]) + ",\n";
    if |c| == 3 {
      Assoc4(p2, ind, EntryText(c[2]), ",\n");
    } else {
      Assoc3(p2, ind, "...\n");
    }
  }

  lemma ReprCompleteOne(c: seq<FileSpec>, ind: string)
    requires |c| == 1
    ensures ReprPrefix(c, |c|, ind) == ReprEntries(c, ind) + ",\n"
  {
    assert ReprPrefix(c, 1, ind) == EntryText(c[0]) + ",\n";
  }

  lemma ReprCompleteTwo(c: seq<FileSpec>, ind: string)
    requires |c| == 2
    ensures ReprPrefix(c, |c|, ind) == ReprEntries(c, ind) + ",\n"
  {
    ReprPrefixTwo(c, ind);
  }

  lemma ReprCompleteThree(c: seq<FileSpec>, ind: string)
    requires |c| == 3
    ensures ReprPrefix(c, |c|, ind) == ReprEntries(c, ind) + ",\n"
  {
    ReprPrefixThree(c, ind);
  }

  lemma ReprCompleteMany(c: seq<FileSpec>, ind: string)
    requires |c| >= 4
    ensures ReprPrefix(c, |c|, ind) == ReprEntries(c, ind) + ",\n"
  {
    var n := |c|;
    ReprPrefixThree(c, ind);
    ReprPrefixMiddle(c, n - 1, ind);
    var p3, last := ReprPrefix(c, 3, ind), EntryText(c[n - 1]);
    assert ReprPiece(c, n - 1, ind) == ind + last + ",\n";
    assert ReprPrefix(c, n, ind) == p3 + (ind + last + ",\n");
    Assoc4(p3, ind, last, ",\n");
    assert ReprEntries(c, ind) == p3 + ind + last;
  }

  /** After the last iteration `parms` holds the rendered entries and a
      trailing ",\n", which `__repr__` strips. */
  lemma ReprPrefixComplete(c: seq<FileSpec>, ind: string)
    requires |c| >= 1
    ensures ReprPrefix(c, |c|, ind) == ReprEntries(c, ind) + ",\n"
  {
    if |c| == 1 {
      ReprCompleteOne(c, ind);
    } else if |c| == 2 {
      ReprCompleteTwo(c, ind);
    } else if |c| == 3 {
      ReprCompleteThree(c, ind);
    } else {
      ReprCompleteMany(c, ind);
    }
  }

  /** Stripping the trailing ",\n" from what the loop accumulated, when it
      accumulated anything, leaves the rendered entries. */
  lemma ReprStrip(c: seq<FileSpec>, ind: string)
    ensures var p := ReprPrefix(c, |c|, ind);
      && (p == "" ==> ReprEntries(c, ind) == "")
      && (p != "" ==> |p| >= 2 && p[..|p| - 2] == ReprEntries(c, ind))
  {
    if |c| >= 1 {
      ReprPrefixComplete(c, ind);
      var e := ReprEntries(c, ind);
      assert (e + ",\n")[..|e|] == e;
    }
  }

  /** One iteration of the `__repr__` loop appends exactly `ReprPiece`. */
  lemma ReprLoopStep(c: seq<FileSpec>, i: nat, ind: string, indentSpaces: string, piece: string)
    requires i < |c| && indentSpaces == if i == 0 then "" else ind
    requires piece ==
      if i < 2 || i == |c| - 1 then indentSpaces + "(" + ("'" + c[i].name + "'") + ", " + ("'" + c[i].path + "'") + "),\n"
      else if i == 2 then indentSpaces + "...\n"
      else ""
    ensures ReprPrefix(c, i + 1, ind) == ReprPrefix(c, i, ind) + piece
  {
    assert piece == ReprPiece(c, i, ind);
  }

  lemma Assoc3(a: string, b: string, c: string)
    ensures a + (b + c) == a + b + c
  {
  }

  lemma Assoc4(a: string, b: string, c: string, d: string)
    ensures a + (b + c + d) == a + b + c + d
  {
  }

  //--------------------------------------------------------------------------
  // The catalog object
  //--------------------------------------------------------------------------

  class FileCatalog {
    var catalog: seq<FileSpec>

    ghost predicate Valid()
      reads this
    {
      Sorted(catalog)
    }

    /** `FileCatalog()`: an empty catalog. */
    constructor Empty()
      ensures Valid() && catalog == []
    {
      catalog := [];
    }

    /** `FileCatalog(file_specs)`: `None` gives an empty catalog; anything
        else is added with add_paths, whose error is raised. */
    static method New(fileSpecs: Option<SpecsArg>) returns (r: Result<FileCatalog>)
      ensures fileSpecs.None? ==> r.Ok? && fresh(r.value) && r.value.Valid() && r.value.catalog == []
      ensures fileSpecs.Some? ==>
        match AddPathsSpec([], fileSpecs.value)
        case Ok(c) => r.Ok? && fresh(r.value) && r.value.Valid() && r.value.catalog == c
        case Err(e) => r == Err(e)
    {
      var cat := new FileCatalog.Empty();
      if fileSpecs.Some? {
        var err := cat.AddPaths(fileSpecs.value);
        if err.Some? {
          return Err(err.value);
        }
      }
      r := Ok(cat);
    }

    /** `len(catalog)`: the number of distinct file names. */
    function Length(): (n: nat)
      reads this
      requires Valid()
      ensures n == |ToMap(catalog)|
    {
      SortedUnique(catalog);
      UniqueCard(catalog);
      |catalog|
    }

    /** `get_path(file_name)`: the stored path, or FileNameNotFound. */
    function GetPath(fileName: string): (r: Result<string>)
      reads this
      ensures r.Ok? <==> fileName in ToMap(catalog)
      ensures r.Ok? ==> r.value == ToMap(catalog)[fileName]
      ensures r.Err? ==> r.error == FileNameNotFound(fileName)
    {
      match Lookup(catalog, fileName)
      case Some(p) => Ok(p)
      case None => Err(FileNameNotFound(fileName))
    }

    /** `add_paths(file_specs)`: validates the whole batch, then adds the
        new names; on an error nothing is added. */
    method AddPaths(fileSpecs: SpecsArg) returns (err: Option<CatalogError>)
      requires Valid()
      modifies this
      ensures Valid()
      ensures match AddPathsSpec(old(catalog), fileSpecs)
        case Ok(c) => err.None? && catalog == c
        case Err(e) => err == Some(e) && catalog == old(catalog)
    {
      var items := AsList(fileSpecs);
      if |items| == 0 {
        return Some(FileSpecIncorrect);
      }
      var toAdd: seq<FileSpec> := [];
      var cat := catalog;
      var i := 0;
      while i < |items|
        invariant 0 <= i <= |items|
        invariant catalog == cat == old(catalog)
        invariant UniqueNames(toAdd) && Names(toAdd) !! Names(cat)
        invariant CollectAdds(cat, items, []) == CollectAdds(cat, items[i..], toAdd)
      {
        match items[i]
        case NotAFileSpec =>
          return Some(FileSpecIncorrect);
        case Spec(name, path) =>
          var existing := Lookup(cat, name);
          if existing.Some? {
            if path != existing.value {
              return Some(IllegalAddAttempt(name, path, existing.value));
            }
            CollectAddsSkip(cat, items, i, toAdd);
          } else {
            var queued := Lookup(toAdd, name);
            if queued.Some? {
              if path != queued.value {
                return Some(IllegalAddAttempt(name, path, queued.value));
              }
              CollectAddsSkip(cat, items, i, toAdd);
            } else {
              CollectAddsNew(cat, items, i, toAdd);
              toAdd := toAdd + [FileSpec(name, path)];
            }
          }
        i := i + 1;
      }
      if toAdd != [] {
        catalog := InsertAll(catalog, toAdd);
      }
      err := None;
    }

    /** `del_paths(file_specs)`: validates the whole batch, then drops the
        named entries that are present; on an error nothing is dropped. */
    method DelPaths(fileSpecs: SpecsArg) returns (err: Option<CatalogError>)
      requires Valid()
      modifies this
      ensures Valid()
      ensures match DelPathsSpec(old(catalog), fileSpecs)
        case Ok(c) => err.None? && catalog == c
        case Err(e) => err == Some(e) && catalog == old(catalog)
    {
      var items := AsList(fileSpecs);
      if |items| == 0 {
        return Some(FileSpecIncorrect);
      }
      var delIndex: set<string> := {};
      var i := 0;
      while i < |items|
        invariant 0 <= i <= |items|
        invariant catalog == old(catalog)
        invariant CollectDels(catalog, items, {}) == CollectDels(catalog, items[i..], delIndex)
      {
        assert items[i..][1..] == items[i + 1..];
        match items[i]
        case NotAFileSpec =>
          return Some(FileSpecIncorrect);
        case Spec(name, path) =>
          var existing := Lookup(catalog, name);
          if existing.Some? {
            if path != existing.value {
              return Some(IllegalDelAttempt(name, path, existing.value));
            }
            delIndex := delIndex + {name};
          }
        i := i + 1;
      }
      if delIndex != {} {
        catalog := RemoveNames(catalog, delIndex);
      }
      err := None;
    }

    /** The loop of `__repr__`: every entry's line, or the ellipsis,
        each followed by ",\n". */
    method ReprLines() returns (parms: string)
      ensures parms == ReprPrefix(catalog, |catalog|, Indent())
    {
      var n := |catalog|;
      var indentSpaces := "";
      parms := "";
      var i := 0;
      while i < n
        invariant 0 <= i <= n
        invariant parms == ReprPrefix(catalog, i, Indent())
        invariant indentSpaces == if i == 0 then "" else Indent()
      {
        var piece := "";
        if i < 2 || i == n - 1 {
          var catIndex := "'" + catalog[i].name + "'";
          var catPath := "'" + catalog[i].path + "'";
          piece := indentSpaces + "(" + catIndex + ", " + catPath + "),\n";
        } else if i == 2 {
          piece := indentSpaces + "...\n";
        }
        ReprLoopStep(catalog, i, Indent(), indentSpaces, piece);
        parms := parms + piece;
        indentSpaces := Repeat(' ', |ClassName| + |"(["|);
        i := i + 1;
      }
    }

    /** `repr(catalog)`. */
    method Repr() returns (s: string)
      ensures s == ReprText(catalog)
    {
      var n := |catalog|;
      var parms := ReprLines();
      ReprStrip(catalog, Indent());
      if parms != "" {
        parms := parms[..|parms| - 2];
      }
      ghost var entries := parms;
      if n > 1 {
        parms := "[" + parms + "]";
      }
      s := ClassName + "(" + parms + ")";
      assert s == Wrap(n, entries);
    }
  }

  //--------------------------------------------------------------------------
  // add_paths as written: no check between names of the same batch
  //--------------------------------------------------------------------------

  /** The loop of add_paths exactly as written: a name is compared with the
      catalog only, never with the names collected earlier in the batch. */
  function ToAddAsWritten(cat: seq<FileSpec>, items: seq<SpecArg>): Result<seq<FileSpec>>
    decreases |items|
  {
    if items == [] then Ok([])
    else
      match items[0]
      case NotAFileSpec => Err(FileSpecIncorrect)
      case Spec(n, p) =>
        var existing := Lookup(cat, n);
        if existing.Some? then
          if p != existing.value then Err(IllegalAddAttempt(n, p, existing.value))
          else ToAddAsWritten(cat, items[1..])
        else
          match ToAddAsWritten(cat, items[1..])
          case Err(e) => Err(e)
          case Ok(rest) => Ok([FileSpec(n, p)] + rest)
  }

  /** As written, a batch naming one new file twice queues two rows for it
      (so the catalog would hold two entries under one name); the corrected
      add_paths adds the name once. */
  lemma BatchDuplicateAsWritten()
    ensures var batch := [Spec("f", "p"), Spec("f", "p")];
      && ToAddAsWritten([], batch) == Ok([FileSpec("f", "p"), FileSpec("f", "p")])
      && AddPathsSpec([], List(batch)) == Ok([FileSpec("f", "p")])
  {
    var batch := [Spec("f", "p"), Spec("f", "p")];
    assert batch[1..] == [Spec("f", "p")];
    assert batch[1..][1..] == [];
    assert Lookup([], "f") == None;
    assert ToAddAsWritten([], batch[1..][1..]) == Ok([]);
    assert [FileSpec("f", "p")] + [] == [FileSpec("f", "p")];
    assert ToAddAsWritten([], batch[1..]) == Ok([FileSpec("f", "p")]);
    var pending := [FileSpec("f", "p")];
    assert Lookup(pending, "f") == Some("p");
    assert CollectAdds([], batch[1..], pending) == Ok(pending);
    assert [] + pending == pending;
    assert CollectAdds([], batch, []) == Ok(pending);
    assert pending[1..] == [];
    assert InsertAll([], pending) == InsertAll(Insert([], pending[0]), []);
    assert [FileSpec("f", "p")] + [FileSpec("f", "p")] == [FileSpec("f", "p"), FileSpec("f", "p")];
  }

  /** The corrected add_paths rejects a batch that gives one new name two
      paths, where the code as written would queue both rows. */
  lemma BatchConflictRejected()
    ensures var batch := [Spec("f", "p"), Spec("f", "q")];
      && ToAddAsWritten([], batch) == Ok([FileSpec("f", "p"), FileSpec("f", "q")])
      && AddPathsSpec([], List(batch)) == Err(IllegalAddAttempt("f", "q", "p"))
  {
    var batch := [Spec("f", "p"), Spec("f", "q")];
    assert batch[1..] == [Spec("f", "q")];
    assert batch[1..][1..] == [];
    assert Lookup([], "f") == None;
    assert ToAddAsWritten([], batch[1..][1..]) == Ok([]);
    assert [FileSpec("f", "q")] + [] == [FileSpec("f", "q")];
    assert ToAddAsWritten([], batch[1..]) == Ok([FileSpec("f", "q")]);
    var pending := [FileSpec("f", "p")];
    assert Lookup(pending, "f") == Some("p");
    assert CollectAdds([], batch[1..], pending) == Err(IllegalAddAttempt("f", "q", "p"));
    assert [] + pending == pending;
    assert [FileSpec("f", "p")] + [FileSpec("f", "q")] == [FileSpec("f", "p"), FileSpec("f", "q")];
  }
}
