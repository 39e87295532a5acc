/**
 * The two steps of main.go's action that choose which structs are drawn:
 * merging the structs of every file into one map keyed by name, filtered by
 * the `--include` and `--exclude` patterns, and, with `--root`, keeping only
 * the structs reachable from the root through field references.
 */
module Selection {
  import opened Wrappers
  import opened Structs

  /** A compiled pattern, seen through its `MatchString`. */
  type Matcher = string -> bool

  /** A struct is kept unless excluded, and when an includes pattern is given, only if it matches. */
  predicate Admitted(name: string, includes: Option<Matcher>, excludes: Option<Matcher>)
  {
    && !(excludes.Some? && excludes.value(name))
    && !(includes.Some? && !includes.value(name))
  }

  /** The structs of all files, file after file. */
  function Flatten(files: seq<seq<StructInfo>>): seq<StructInfo>
  {
    if files == [] then [] else Flatten(files[..|files| - 1]) + files[|files| - 1]
  }

  /** The `classes` map after the admitted structs of `infos` are written in order. */
  function MergeAll(infos: seq<StructInfo>, includes: Option<Matcher>, excludes: Option<Matcher>): map<string, StructInfo>
  {
    if infos == [] then map[]
    else
      var classes := MergeAll(infos[..|infos| - 1], includes, excludes);
      var info := infos[|infos| - 1];
      if Admitted(info.name, includes, excludes) then classes[info.name := info] else classes
  }

  /** Every struct is filed under its own name. */
  predicate KeyedByName(classes: map<string, StructInfo>)
  {
    forall t :: t in classes ==> classes[t].name == t
  }

  /**
   * The merge loop: for every file, for every struct it declares, skip it
   * when excluded or not included, else store it under its name, replacing
   * any struct of that name stored before.
   */
  method Merge(files: seq<seq<StructInfo>>, includes: Option<Matcher>, excludes: Option<Matcher>)
    returns (classes: map<string, StructInfo>)
    ensures classes == MergeAll(Flatten(files), includes, excludes)
  {
    classes := map[];
    for i := 0 to |files|
      invariant classes == MergeAll(Flatten(files[..i]), includes, excludes)
    {
      assert files[..i + 1][..i] == files[..i];
      classes := MergeFile(classes, Flatten(files[..i]), files[i], includes, excludes);
    }
    assert files[..|files|] == files;
  }

  /** The inner loop of the merge: the structs of one file written after `before`. */
  method MergeFile(classes: map<string, StructInfo>, ghost before: seq<StructInfo>, structs: seq<StructInfo>,
                   includes: Option<Matcher>, excludes: Option<Matcher>)
    returns (merged: map<string, StructInfo>)
    requires classes == MergeAll(before, includes, excludes)
    ensures merged == MergeAll(before + structs, includes, excludes)
  {
    merged := classes;
    assert before + structs[..0] == before;
    for j := 0 to |structs|
      invariant merged == MergeAll(before + structs[..j], includes, excludes)
    {
      var info := structs[j];
      MergeAllStep(before, structs, j, includes, excludes);
      if excludes.Some? && excludes.value(info.name) {
        continue;
      }
      if includes.Some? && !includes.value(info.name) {
        continue;
      }
      merged := merged[info.name := info];
    }
    assert structs[..|structs|] == structs;
  }

  /** Writing one more struct of a file: the map gains it unless it is filtered out. */
  lemma MergeAllStep(before: seq<StructInfo>, structs: seq<StructInfo>, j: int,
                     includes: Option<Matcher>, excludes: Option<Matcher>)
    requires 0 <= j < |structs|
    ensures MergeAll(before + structs[..j + 1], includes, excludes) ==
      var m := MergeAll(before + structs[..j], includes, excludes);
      if Admitted(structs[j].name, includes, excludes) then m[structs[j].name := structs[j]] else m
  {
    var xs := before + structs[..j + 1];
    assert xs[..|xs| - 1] == before + structs[..j];
    assert xs[|xs| - 1] == structs[j];
  }

  /** A name is a key of the merged map exactly when some admitted struct has it. */
  lemma {:induction false} MergeAllKeys(infos: seq<StructInfo>, includes: Option<Matcher>, excludes: Option<Matcher>, t: string)
    ensures t in MergeAll(infos, includes, excludes) <==>
      Admitted(t, includes, excludes) && exists k :: 0 <= k < |infos| && infos[k].name == t
  {
    if infos != [] {
      var init := infos[..|infos| - 1];
      MergeAllKeys(init, includes, excludes, t);
      if exists k :: 0 <= k < |infos| && infos[k].name == t {
        var k :| 0 <= k < |infos| && infos[k].name == t;
        if k < |init| {
          assert init[k].name == t;
        }
      }
    }
  }

  /**
   * The struct stored under a name is the last struct of that name: later
   * ones replace earlier ones.
   */
  lemma {:induction false} MergeAllLast(infos: seq<StructInfo>, includes: Option<Matcher>, excludes: Option<Matcher>, t: string)
    requires t in MergeAll(infos, includes, excludes)
    ensures exists k ::
      && 0 <= k < |infos| && infos[k].name == t
      && MergeAll(infos, includes, excludes)[t] == infos[k]
      && forall j :: k < j < |infos| ==> infos[j].name != t
  {
    var init, info := infos[..|infos| - 1], infos[|infos| - 1];
    var classes := MergeAll(infos, includes, excludes);
    if info.name == t && Admitted(t, includes, excludes) {
      var k := |infos| - 1;
      assert infos[k].name == t && classes[t] == infos[k];
    } else {
      assert info.name != t by {
        MergeAllKeys(infos, includes, excludes, t);
      }
      assert classes[t] == MergeAll(init, includes, excludes)[t];
      MergeAllLast(init, includes, excludes, t);
      var k :| 0 <= k < |init| && init[k].name == t
        && MergeAll(init, includes, excludes)[t] == init[k]
        && forall j :: k < j < |init| ==> init[j].name != t;
      assert infos[k] == init[k];
      assert forall j :: k < j < |infos| ==> infos[j].name != t by {
        forall j | k < j < |infos|
          ensures infos[j].name != t
        {
          if j < |init| {
            assert infos[j] == init[j];
          }
        }
      }
    }
  }

  /** The merged map files every struct under its name. */
  lemma {:induction false} MergeAllKeyedByName(infos: seq<StructInfo>, includes: Option<Matcher>, excludes: Option<Matcher>)
    ensures KeyedByName(MergeAll(infos, includes, excludes))
  {
    if infos != [] {
      MergeAllKeyedByName(infos[..|infos| - 1], includes, excludes);
    }
  }

  /** Merging the merged structs again, under the same patterns, changes nothing. */
  lemma {:induction false} MergeAllIdempotent(infos: seq<StructInfo>, includes: Option<Matcher>, excludes: Option<Matcher>, order: seq<string>)
    requires forall i, j :: 0 <= i < j < |order| ==> order[i] != order[j]
    requires forall t :: t in order <==> t in MergeAll(infos, includes, excludes)
    ensures MergeAll(Values(MergeAll(infos, includes, excludes), order), includes, excludes) == MergeAll(infos, includes, excludes)
  {
    var classes := MergeAll(infos, includes, excludes);
    MergeAllKeyedByName(infos, includes, excludes);
    forall t | t in classes
      ensures Admitted(t, includes, excludes)
    {
      MergeAllKeys(infos, includes, excludes, t);
    }
    RewriteAll(classes, order, includes, excludes);
  }

  /** The structs stored under the names of `order`, in that order. */
  function Values(classes: map<string, StructInfo>, order: seq<string>): seq<StructInfo>
    requires forall t :: t in order ==> t in classes
  {
    if order == [] then [] else Values(classes, order[..|order| - 1]) + [classes[order[|order| - 1]]]
  }

  /** Writing back admitted, name-keyed structs under their names rebuilds the map. */
  lemma {:induction false} RewriteAll(classes: map<string, StructInfo>, order: seq<string>, includes: Option<Matcher>, excludes: Option<Matcher>)
    requires KeyedByName(classes)
    requires forall t :: t in classes ==> Admitted(t, includes, excludes)
    requires forall i, j :: 0 <= i < j < |order| ==> order[i] != order[j]
    requires forall t :: t in order ==> t in classes
    ensures MergeAll(Values(classes, order), includes, excludes) == map t | t in order :: classes[t]
  {
    if order != [] {
      var init, t := order[..|order| - 1], order[|order| - 1];
      assert order == init + [t];
      RewriteAll(classes, init, includes, excludes);
      var vs := Values(classes, order);
      assert vs[..|vs| - 1] == Values(classes, init);
      MapSnoc(classes, init, t);
    } else {
      assert (map u | u in order :: classes[u]) == map[];
    }
  }

  /** The map of the names of `init + [t]` is that of `init` with `t` added. */
  lemma MapSnoc(classes: map<string, StructInfo>, init: seq<string>, t: string)
    requires forall u :: u in init + [t] ==> u in classes
    ensures (map u | u in init + [t] :: classes[u]) == (map u | u in init :: classes[u])[t := classes[t]]
  {
  }

  // ---------------------------------------------------------------------
  // Root selection
  // ---------------------------------------------------------------------

  /** Struct `a` has a field whose type refers to struct `b`. */
  predicate Refers(classes: map<string, StructInfo>, a: string, b: string)
  {
    && a in classes && b in classes
    && exists k :: 0 <= k < |classes[a].fields| && classes[a].fields[k].hasA == b
  }

  /** `p` is a chain of references starting at the root. */
  predicate IsPath(classes: map<string, StructInfo>, root: string, p: seq<string>)
  {
    && |p| >= 1 && p[0] == root && root in classes
    && forall i :: 0 <= i < |p| - 1 ==> Refers(classes, p[i], p[i + 1])
  }

  /** Struct `t` can be reached from the root by following references. */
  ghost predicate Reachable(classes: map<string, StructInfo>, root: string, t: string)
  {
    exists p :: IsPath(classes, root, p) && p[|p| - 1] == t
  }

  /** Every reference out of `names` lands in `names`. */
  ghost predicate Closed(classes: map<string, StructInfo>, names: set<string>)
  {
    forall a, b :: a in names && Refers(classes, a, b) ==> b in names
  }

  /** Following one more reference keeps a struct reachable. */
  lemma ReachableStep(classes: map<string, StructInfo>, root: string, a: string, b: string)
    requires Reachable(classes, root, a) && Refers(classes, a, b)
    ensures Reachable(classes, root, b)
  {
    var p :| IsPath(classes, root, p) && p[|p| - 1] == a;
    var q := p + [b];
    forall i | 0 <= i < |q| - 1
      ensures Refers(classes, q[i], q[i + 1])
    {
      if i < |p| - 1 {
        assert q[i] == p[i] && q[i + 1] == p[i + 1];
      }
    }
    assert IsPath(classes, root, q);
  }

  /** The root, when known, is reachable. */
  lemma ReachableRoot(classes: map<string, StructInfo>, root: string)
    requires root in classes
    ensures Reachable(classes, root, root)
  {
    assert IsPath(classes, root, [root]);
  }

  /** A closed set of names holding the root holds every struct reachable from it. */
  lemma {:induction false} ClosedHoldsPath(classes: map<string, StructInfo>, root: string, names: set<string>, p: seq<string>)
    requires root in names && Closed(classes, names)
    requires IsPath(classes, root, p)
    ensures p[|p| - 1] in names
  {
    if |p| > 1 {
      var q := p[..|p| - 1];
      assert IsPath(classes, root, q) by {
        forall i | 0 <= i < |q| - 1
          ensures Refers(classes, q[i], q[i + 1])
        {
          assert q[i] == p[i] && q[i + 1] == p[i + 1];
        }
      }
      ClosedHoldsPath(classes, root, names, q);
      assert Refers(classes, p[|p| - 2], p[|p| - 1]);
    }
  }

  /** The names of the structs of a level. */
  function Names(structs: seq<StructInfo>): set<string>
  {
    set k | 0 <= k < |structs| :: structs[k].name
  }

  /** The structs a struct's fields refer to, in field order, as the child loop collects them. */
  function ChildList(classes: map<string, StructInfo>, fields: seq<FieldInfo>): seq<StructInfo>
  {
    if fields == [] then []
    else
      var f := fields[|fields| - 1];
      ChildList(classes, fields[..|fields| - 1]) + (if f.hasA in classes then [classes[f.hasA]] else [])
  }

  /** The collected children are exactly the known structs the fields refer to. */
  lemma {:induction false} ChildListRefers(classes: map<string, StructInfo>, fields: seq<FieldInfo>)
    requires KeyedByName(classes)
    ensures forall c :: c in ChildList(classes, fields) ==>
      c.name in classes && classes[c.name] == c && exists k :: 0 <= k < |fields| && fields[k].hasA == c.name
    ensures forall k :: 0 <= k < |fields| && fields[k].hasA in classes ==> fields[k].hasA in Names(ChildList(classes, fields))
  {
    if fields != [] {
      var init := fields[..|fields| - 1];
      ChildListRefers(classes, init);
      var kids := ChildList(classes, fields);
      forall k | 0 <= k < |fields| && fields[k].hasA in classes
        ensures fields[k].hasA in Names(kids)
      {
        if k < |init| {
          var i :| 0 <= i < |ChildList(classes, init)| && ChildList(classes, init)[i].name == fields[k].hasA;
          assert kids[i] == ChildList(classes, init)[i];
        } else {
          assert kids[|kids| - 1] == classes[fields[k].hasA];
        }
      }
      forall c | c in kids
        ensures c.name in classes && classes[c.name] == c && exists k :: 0 <= k < |fields| && fields[k].hasA == c.name
      {
        if c in ChildList(classes, init) {
          var k :| 0 <= k < |init| && init[k].hasA == c.name;
          assert fields[k] == init[k];
        }
      }
    }
  }

  /** The child loop: append the known structs the fields of `info` refer to. */
  method AppendChildren(classes: map<string, StructInfo>, info: StructInfo, children: seq<StructInfo>)
    returns (more: seq<StructInfo>)
    ensures more == children + ChildList(classes, info.fields)
  {
    more := children;
    var fields := info.fields;
    for k := 0 to |fields|
      invariant more == children + ChildList(classes, fields[..k])
    {
      var field := fields[k];
      assert fields[..k + 1][..k] == fields[..k];
      if field.hasA in classes {
        var child := classes[field.hasA];
        more := more + [child];
      }
    }
    assert fields[..|fields|] == fields;
  }

  /** The kept structs are known, unchanged and reachable from the root. */
  ghost predicate Kept(classes: map<string, StructInfo>, root: string, selected: map<string, StructInfo>)
  {
    forall t :: t in selected ==> t in classes && selected[t] == classes[t] && Reachable(classes, root, t)
  }

  /** The structs of a level are known, filed under their names, and reachable from the root. */
  ghost predicate Frontier(classes: map<string, StructInfo>, root: string, structs: seq<StructInfo>)
  {
    forall s :: s in structs ==> s.name in classes && classes[s.name] == s && Reachable(classes, root, s.name)
  }

  /** Every reference out of `names` lands in `names` or in `pending`. */
  ghost predicate ClosedUpTo(classes: map<string, StructInfo>, names: set<string>, pending: set<string>)
  {
    forall a, b :: a in names && Refers(classes, a, b) ==> b in names || b in pending
  }

  /** What the root selection leaves: the chosen map, or the fatal error. */
  datatype RootChoice = Chosen(classes: map<string, StructInfo>) | RootNotFound(root: string)

  /**
   * With no root, every struct is kept. A root that is not a known struct is
   * the fatal error. Otherwise the level-by-level walk from the root keeps
   * exactly the structs reachable from it, each as it was: the root is kept,
   * nothing else is added, and every reference out of a kept struct lands on
   * a kept struct.
   */
  method SelectRoot(classes: map<string, StructInfo>, root: string) returns (r: RootChoice)
    requires KeyedByName(classes)
    ensures root == [] ==> r == Chosen(classes)
    ensures root != [] && root !in classes ==> r == RootNotFound(root)
    ensures root != [] && root in classes ==>
      && r.Chosen?
      && root in r.classes
      && (forall t :: t in r.classes ==> t in classes && r.classes[t] == classes[t])
      && (forall t :: t in r.classes <==> Reachable(classes, root, t))
      && Closed(classes, r.classes.Keys)
  {
    if |root| == 0 {
      return Chosen(classes);
    }
    if root !in classes {
      return RootNotFound(root);
    }
    var info := classes[root];
    ReachableRoot(classes, root);
    var structs := [info];
    var selected: map<string, StructInfo> := map[];
    assert structs[0].name == root;
    assert root in Names(structs);
    while |structs| > 0
      invariant Kept(classes, root, selected)
      invariant Frontier(classes, root, structs)
      invariant ClosedUpTo(classes, selected.Keys, Names(structs))
      invariant root in selected || root in Names(structs)
      decreases |classes.Keys - selected.Keys|, |structs|
    {
      ghost var before := selected;
      var children;
      selected, children := VisitLevel(classes, root, structs, selected);
      SetShrinks(classes.Keys - selected.Keys, classes.Keys - before.Keys);
      structs := children;
    }
    assert Names(structs) == {};
    forall p | IsPath(classes, root, p)
      ensures p[|p| - 1] in selected
    {
      ClosedHoldsPath(classes, root, selected.Keys, p);
    }
    r := Chosen(selected);
  }

  /**
   * One level of the walk: each struct of the level not kept yet is kept,
   * and the structs its fields refer to make up the next level.
   */
  method VisitLevel(classes: map<string, StructInfo>, root: string, structs: seq<StructInfo>, selected: map<string, StructInfo>)
    returns (kept: map<string, StructInfo>, children: seq<StructInfo>)
    requires KeyedByName(classes)
    requires Kept(classes, root, selected) && Frontier(classes, root, structs)
    requires ClosedUpTo(classes, selected.Keys, Names(structs))
    ensures Kept(classes, root, kept) && Frontier(classes, root, children)
    ensures ClosedUpTo(classes, kept.Keys, Names(children))
    ensures selected.Keys <= kept.Keys && Names(structs) <= kept.Keys
    ensures classes.Keys - kept.Keys <= classes.Keys - selected.Keys
    ensures children != [] ==> classes.Keys - kept.Keys < classes.Keys - selected.Keys
  {
    kept := selected;
    children := [];
    for j := 0 to |structs|
      invariant LevelInvariant(classes, root, structs, selected, j, kept, children)
    {
      if structs[j].name in kept {
        SkipKept(classes, root, structs, selected, j, kept, children);
      } else {
        kept, children := VisitAt(classes, root, structs, selected, j, kept, children);
      }
    }
    forall t | t in Names(structs)
      ensures t in kept
    {
      var k :| 0 <= k < |structs| && structs[k].name == t;
    }
    assert structs[|structs|..] == [];
  }

  /**
   * What the level loop keeps after visiting the first `j` structs of the
   * level: the kept and collected structs are sound, every reference out of
   * a kept struct lands on a kept struct, the rest of the level or a
   * collected child, the visited structs are kept, and a collected child
   * means something new was kept.
   */
  ghost predicate LevelInvariant(classes: map<string, StructInfo>, root: string, structs: seq<StructInfo>,
                                 selected: map<string, StructInfo>, j: int,
                                 kept: map<string, StructInfo>, children: seq<StructInfo>)
    requires 0 <= j <= |structs|
  {
    && Kept(classes, root, kept) && Frontier(classes, root, children)
    && ClosedUpTo(classes, kept.Keys, Names(structs[j..]) + Names(children))
    && selected.Keys <= kept.Keys
    && (forall k :: 0 <= k < j ==> structs[k].name in kept)
    && classes.Keys - kept.Keys <= classes.Keys - selected.Keys
    && (children != [] ==> classes.Keys - kept.Keys < classes.Keys - selected.Keys)
  }

  /** The level loop passing over a struct it already kept. */
  lemma SkipKept(classes: map<string, StructInfo>, root: string, structs: seq<StructInfo>,
                 selected: map<string, StructInfo>, j: int,
                 kept: map<string, StructInfo>, children: seq<StructInfo>)
    requires 0 <= j < |structs| && structs[j].name in kept
    requires LevelInvariant(classes, root, structs, selected, j, kept, children)
    ensures LevelInvariant(classes, root, structs, selected, j + 1, kept, children)
  {
    NamesTail(structs, j);
    ClosedSkip(classes, kept.Keys, structs[j].name, Names(structs[j + 1..]) + Names(children));
  }

  /** The level loop visiting a struct it has not kept yet. */
  method VisitAt(classes: map<string, StructInfo>, root: string, structs: seq<StructInfo>,
                 selected: map<string, StructInfo>, j: int,
                 kept: map<string, StructInfo>, children: seq<StructInfo>)
    returns (kept': map<string, StructInfo>, children': seq<StructInfo>)
    requires KeyedByName(classes) && Frontier(classes, root, structs)
    requires 0 <= j < |structs| && structs[j].name !in kept
    requires LevelInvariant(classes, root, structs, selected, j, kept, children)
    ensures LevelInvariant(classes, root, structs, selected, j + 1, kept', children')
  {
    var current := structs[j];
    assert current in structs;
    NamesTail(structs, j);
    kept', children' := Visit(classes, root, current, kept, children);
    assert kept'.Keys == kept.Keys + {current.name};
    ClosedVisit(classes, kept.Keys, current.name, Names(structs[j + 1..]), Names(children), Names(children'));
  }

  /**
   * The body of the level loop for a struct not kept yet: keep it and
   * append the structs its fields refer to.
   */
  method Visit(classes: map<string, StructInfo>, root: string, current: StructInfo,
               kept: map<string, StructInfo>, children: seq<StructInfo>)
    returns (kept': map<string, StructInfo>, children': seq<StructInfo>)
    requires KeyedByName(classes)
    requires current.name in classes && classes[current.name] == current && Reachable(classes, root, current.name)
    requires Kept(classes, root, kept) && Frontier(classes, root, children)
    ensures kept' == kept[current.name := current]
    ensures children' == children + ChildList(classes, current.fields)
    ensures Kept(classes, root, kept') && Frontier(classes, root, children')
    ensures forall b :: Refers(classes, current.name, b) ==> b in Names(children')
    ensures Names(children) <= Names(children')
  {
    kept' := kept[current.name := current];
    ChildListRefers(classes, current.fields);
    forall c | c in ChildList(classes, current.fields)
      ensures Reachable(classes, root, c.name)
    {
      var k :| 0 <= k < |current.fields| && current.fields[k].hasA == c.name;
      ReachableStep(classes, root, current.name, c.name);
    }
    children' := AppendChildren(classes, current, children);
    NamesAppend(children, ChildList(classes, current.fields));
  }

  /** Skipping a struct already kept leaves the kept names closed. */
  lemma ClosedSkip(classes: map<string, StructInfo>, names: set<string>, t: string, pending: set<string>)
    requires t in names
    requires ClosedUpTo(classes, names, {t} + pending)
    ensures ClosedUpTo(classes, names, pending)
  {
  }

  /**
   * Keeping struct `t`, whose references all land among the new children,
   * leaves the kept names closed up to the rest of the level and the children.
   */
  lemma ClosedVisit(classes: map<string, StructInfo>, names: set<string>, t: string,
                    rest: set<string>, earlier: set<string>, later: set<string>)
    requires ClosedUpTo(classes, names, {t} + rest + earlier)
    requires forall b :: Refers(classes, t, b) ==> b in later
    requires earlier <= later
    ensures ClosedUpTo(classes, names + {t}, rest + later)
  {
  }

  /** The names of a level's tail, from `j` on, are the name at `j` and those after. */
  lemma NamesTail(structs: seq<StructInfo>, j: int)
    requires 0 <= j < |structs|
    ensures Names(structs[j..]) == {structs[j].name} + Names(structs[j + 1..])
  {
    assert structs[j..] == [structs[j]] + structs[j + 1..];
    NamesAppend([structs[j]], structs[j + 1..]);
    assert Names([structs[j]]) == {structs[j].name};
  }

  /** Names of a concatenation. */
  lemma NamesAppend(a: seq<StructInfo>, b: seq<StructInfo>)
    ensures Names(a + b) == Names(a) + Names(b)
  {
    var ab := a + b;
    forall t | t in Names(a) + Names(b)
      ensures t in Names(ab)
    {
      if t in Names(a) {
        var k :| 0 <= k < |a| && a[k].name == t;
        assert ab[k] == a[k];
      } else {
        var k :| 0 <= k < |b| && b[k].name == t;
        assert ab[|a| + k] == b[k];
      }
    }
  }

  /** A proper subset is smaller. */
  lemma SetShrinks(a: set<string>, b: set<string>)
    requires a <= b
    ensures |a| <= |b|
    ensures a < b ==> |a| < |b|
  {
    var extra := b - a;
    assert b == a + extra;
    assert |b| == |a| + |extra|;
  }
}
