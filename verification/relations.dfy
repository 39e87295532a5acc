/**
 * `SprintRelations` of main.go: the aggregation edges from the structs a
 * struct's fields refer to, one edge per referenced known struct, labelled
 * with the number of fields when there is more than one.
 */
module Relations {
  import opened Text
  import opened Structs

  // ---------------------------------------------------------------------
  // Counting the references
  // ---------------------------------------------------------------------

  /**
   * The `relations` map after the counting loop over `fields`: each field
   * whose `hasA` names a known struct adds one to that name's count (a
   * missing entry counts as zero).
   */
  function Tally(fields: seq<FieldInfo>, known: set<string>): map<string, nat>
  {
    if fields == [] then map[]
    else
      var counts := Tally(fields[..|fields| - 1], known);
      var t := fields[|fields| - 1].hasA;
      if t in known then counts[t := (if t in counts then counts[t] else 0) + 1] else counts
  }

  /** The number of fields that refer to `t`. */
  function Occurrences(fields: seq<FieldInfo>, t: string): nat
  {
    if fields == [] then 0
    else Occurrences(fields[..|fields| - 1], t) + (if fields[|fields| - 1].hasA == t then 1 else 0)
  }

  /** The number of fields that refer to some name of `names`. */
  function Within(fields: seq<FieldInfo>, names: set<string>): nat
  {
    if fields == [] then 0
    else Within(fields[..|fields| - 1], names) + (if fields[|fields| - 1].hasA in names then 1 else 0)
  }

  /**
   * The counting loop computes, for each known struct, how many fields
   * refer to it, and holds an entry for exactly the known structs referred
   * to at least once.
   */
  lemma {:induction false} TallyCounts(fields: seq<FieldInfo>, known: set<string>)
    ensures forall t :: t in Tally(fields, known) <==> t in known && Occurrences(fields, t) > 0
    ensures forall t :: t in Tally(fields, known) ==> Tally(fields, known)[t] == Occurrences(fields, t)
  {
    if fields != [] {
      TallyCounts(fields[..|fields| - 1], known);
    }
  }

  /** Nothing is counted exactly when no field refers to a known struct. */
  lemma {:induction false} TallyEmpty(fields: seq<FieldInfo>, known: set<string>)
    ensures Tally(fields, known) == map[] <==> forall k :: 0 <= k < |fields| ==> fields[k].hasA !in known
  {
    if fields != [] {
      var init, t := fields[..|fields| - 1], fields[|fields| - 1].hasA;
      TallyEmpty(init, known);
      if t in known {
        assert t in Tally(fields, known);
      } else {
        assert forall k :: 0 <= k < |init| ==> init[k] == fields[k];
      }
    }
  }

  /** A field refers to its own `hasA` at least once. */
  lemma {:induction false} OccurrencesOfField(fields: seq<FieldInfo>, k: int)
    requires 0 <= k < |fields|
    ensures Occurrences(fields, fields[k].hasA) > 0
  {
    if k < |fields| - 1 {
      OccurrencesOfField(fields[..|fields| - 1], k);
    }
  }

  /** Adding a new name to `names` adds the fields referring to it. */
  lemma {:induction false} WithinAdd(fields: seq<FieldInfo>, names: set<string>, t: string)
    requires t !in names
    ensures Within(fields, names + {t}) == Within(fields, names) + Occurrences(fields, t)
  {
    if fields != [] {
      WithinAdd(fields[..|fields| - 1], names, t);
    }
  }

  /** Two name sets that no field tells apart catch the same fields. */
  lemma {:induction false} WithinSame(fields: seq<FieldInfo>, a: set<string>, b: set<string>)
    requires forall k :: 0 <= k < |fields| ==> (fields[k].hasA in a <==> fields[k].hasA in b)
    ensures Within(fields, a) == Within(fields, b)
  {
    if fields != [] {
      WithinSame(fields[..|fields| - 1], a, b);
    }
  }

  // ---------------------------------------------------------------------
  // Emitting the edges
  // ---------------------------------------------------------------------

  /** `order` lists every name of `names` once. */
  predicate Enumerates(order: seq<string>, names: set<string>)
  {
    && (forall i, j :: 0 <= i < j < |order| ==> order[i] != order[j])
    && (forall t :: t in order ==> t in names)
    && (forall t :: t in names ==> t in order)
  }

  /** The edge from struct `t`, referred to `count` times, to struct `name`. */
  function RelationRow(t: string, count: nat, name: string): string
  {
    if count > 1 then t + " \"" + Decimal(count) + "\" --* " + name
    else t + " --* " + name
  }

  /** The edges for the names of `order`, one line each, in that order. */
  function RelationsText(order: seq<string>, counts: map<string, nat>, name: string): string
    requires forall t :: t in order ==> t in counts
  {
    if order == [] then []
    else
      var t := order[|order| - 1];
      RelationsText(order[..|order| - 1], counts, name) + RelationRow(t, counts[t], name) + "\n"
  }

  /** One more name adds its edge line at the end. */
  lemma RelationsTextSnoc(order: seq<string>, t: string, counts: map<string, nat>, name: string)
    requires forall u :: u in order ==> u in counts
    requires t in counts
    ensures RelationsText(order + [t], counts, name) == RelationsText(order, counts, name) + RelationRow(t, counts[t], name) + "\n"
  {
    assert (order + [t])[..|order|] == order;
  }

  /** Appending a name not listed yet keeps the names distinct. */
  lemma DistinctSnoc(order: seq<string>, t: string)
    requires forall i, j :: 0 <= i < j < |order| ==> order[i] != order[j]
    requires t !in order
    ensures forall i, j :: 0 <= i < j < |order + [t]| ==> (order + [t])[i] != (order + [t])[j]
  {
  }

  /** There are no edge lines exactly when there are no counts. */
  lemma NoEdges(order: seq<string>, counts: map<string, nat>, name: string)
    requires Enumerates(order, counts.Keys)
    ensures RelationsText(order, counts, name) == [] <==> counts == map[]
  {
    if counts != map[] {
      var t :| t in counts;
      assert t in order;
    }
    if order != [] {
      var t := order[|order| - 1];
      assert |RelationsText(order, counts, name)| >= |RelationRow(t, counts[t], name) + "\n"|;
    }
  }

  /** The same edges as a list of lines. */
  function RelationRows(order: seq<string>, counts: map<string, nat>, name: string): (r: seq<string>)
    requires forall t :: t in order ==> t in counts
    ensures |r| == |order|
  {
    if order == [] then []
    else
      var t := order[|order| - 1];
      RelationRows(order[..|order| - 1], counts, name) + [RelationRow(t, counts[t], name)]
  }

  /** Line `k` is the edge from `order[k]`. */
  lemma {:induction false} RelationRowsAt(order: seq<string>, counts: map<string, nat>, name: string, k: int)
    requires forall t :: t in order ==> t in counts
    requires 0 <= k < |order|
    ensures RelationRows(order, counts, name)[k] == RelationRow(order[k], counts[order[k]], name)
  {
    if k < |order| - 1 {
      RelationRowsAt(order[..|order| - 1], counts, name, k);
    }
  }

  /** The text is its rows, each ended by a line break. */
  lemma {:induction false} RelationsTextLines(order: seq<string>, counts: map<string, nat>, name: string)
    requires forall t :: t in order ==> t in counts
    ensures RelationsText(order, counts, name) == Lines(RelationRows(order, counts, name))
  {
    if order != [] {
      var init, t := order[..|order| - 1], order[|order| - 1];
      RelationsTextLines(init, counts, name);
      LinesAppend(RelationRows(init, counts, name), [RelationRow(t, counts[t], name)]);
    }
  }

  /**
   * The count label is there exactly when more than one field refers to the
   * target, and it reads back as that number. Struct names hold no quote.
   */
  lemma RelationLabel(t: string, count: nat, name: string)
    requires count >= 1
    requires '"' !in t && '"' !in name
    ensures ('"' in RelationRow(t, count, name)) <==> count > 1
    ensures count > 1 ==>
      RelationRow(t, count, name) == t + " \"" + Decimal(count) + "\" --* " + name
      && DecimalValue(Decimal(count)) == count
  {
    if count > 1 {
      var row := RelationRow(t, count, name);
      assert row[|t| + 1] == '"';
      DecimalRoundTrip(count);
    } else {
      var row := RelationRow(t, count, name);
      assert row == t + (" --* " + name);
      assert forall k :: 0 <= k < |row| ==> row[k] != '"';
    }
  }

  /** The total of the counts over the names of `order`. */
  function Sum(order: seq<string>, counts: map<string, nat>): nat
    requires forall t :: t in order ==> t in counts
  {
    if order == [] then 0
    else Sum(order[..|order| - 1], counts) + counts[order[|order| - 1]]
  }

  /** Summing the occurrences over distinct names counts the fields referring to them. */
  lemma {:induction false} SumOccurrences(fields: seq<FieldInfo>, known: set<string>, order: seq<string>)
    requires forall i, j :: 0 <= i < j < |order| ==> order[i] != order[j]
    requires forall t :: t in order ==> t in Tally(fields, known)
    ensures Sum(order, Tally(fields, known)) == Within(fields, set t | t in order)
  {
    TallyCounts(fields, known);
    if order == [] {
      WithinNone(fields);
      assert (set t | t in order) == {};
    } else {
      var init, t := order[..|order| - 1], order[|order| - 1];
      SumOccurrences(fields, known, init);
      assert t !in init by {
        forall i | 0 <= i < |init|
          ensures init[i] != t
        {
          assert init[i] == order[i];
        }
      }
      assert (set u | u in order) == (set u | u in init) + {t};
      WithinAdd(fields, (set u | u in init), t);
    }
  }

  /** No field refers to a name of the empty set. */
  lemma {:induction false} WithinNone(fields: seq<FieldInfo>)
    ensures Within(fields, {}) == 0
  {
    if fields != [] {
      WithinNone(fields[..|fields| - 1]);
    }
  }

  /**
   * Whatever order the edges come out in, their counts add up to the number
   * of fields that refer to a known struct.
   */
  lemma CountsSum(fields: seq<FieldInfo>, known: set<string>, order: seq<string>)
    requires Enumerates(order, Tally(fields, known).Keys)
    ensures Sum(order, Tally(fields, known)) == Within(fields, known)
  {
    SumOccurrences(fields, known, order);
    TallyCounts(fields, known);
    forall k | 0 <= k < |fields|
      ensures fields[k].hasA in (set t | t in order) <==> fields[k].hasA in known
    {
      OccurrencesOfField(fields, k);
    }
    WithinSame(fields, (set t | t in order), known);
  }

  /**
   * A struct whose field refers to the struct itself gets an edge to itself
   * when it is known.
   */
  lemma SelfReference(info: StructInfo, known: set<string>, k: int)
    requires 0 <= k < |info.fields| && info.fields[k].hasA == info.name && info.name in known
    ensures info.name in Tally(info.fields, known)
  {
    TallyCounts(info.fields, known);
    OccurrencesOfField(info.fields, k);
  }

  /** The counting loop of `SprintRelations`. */
  method CountRelations(fields: seq<FieldInfo>, classes: map<string, StructInfo>) returns (relations: map<string, nat>)
    ensures relations == Tally(fields, classes.Keys)
  {
    relations := map[];
    for i := 0 to |fields|
      invariant relations == Tally(fields[..i], classes.Keys)
    {
      var field := fields[i];
      assert fields[..i + 1][..i] == fields[..i];
      if field.hasA in classes {
        relations := relations[field.hasA := (if field.hasA in relations then relations[field.hasA] else 0) + 1];
      }
    }
    assert fields[..|fields|] == fields;
  }

  /** The body of the emitting loop of `SprintRelations`: one edge. */
  method SprintRelation(relation: string, count: nat, name: string) returns (line: string)
    ensures line == RelationRow(relation, count, name) + "\n"
  {
    if count > 1 {
      line := relation + " \"" + Decimal(count) + "\" --* " + name + "\n";
    } else {
      line := relation + " --* " + name + "\n";
    }
  }

  /**
   * `SprintRelations`: count the fields per referenced known struct, then
   * emit one edge per entry of the `relations` map, in the map's iteration
   * order, here any order the choice in `EmitRelations` makes, returned as
   * `order`. No edge is emitted exactly when no field refers to a known
   * struct.
   */
  method SprintRelations(info: StructInfo, classes: map<string, StructInfo>) returns (uml: string, ghost order: seq<string>)
    ensures Enumerates(order, Tally(info.fields, classes.Keys).Keys)
    ensures uml == RelationsText(order, Tally(info.fields, classes.Keys), info.name)
    ensures uml == [] <==> forall k :: 0 <= k < |info.fields| ==> info.fields[k].hasA !in classes
  {
    var relations := CountRelations(info.fields, classes);
    uml, order := EmitRelations(relations, info.name);
    TallyEmpty(info.fields, classes.Keys);
    NoEdges(order, relations, info.name);
  }

  /** The emitting loop of `SprintRelations`, over the entries of `relations` in any order. */
  method EmitRelations(relations: map<string, nat>, name: string) returns (uml: string, ghost order: seq<string>)
    ensures Enumerates(order, relations.Keys)
    ensures uml == RelationsText(order, relations, name)
  {
    uml := "";
    order := [];
    var remaining := relations.Keys;
    while remaining != {}
      invariant remaining <= relations.Keys
      invariant forall t :: t in order ==> t in relations && t !in remaining
      invariant forall t :: t in relations ==> t in order || t in remaining
      invariant forall i, j :: 0 <= i < j < |order| ==> order[i] != order[j]
      invariant uml == RelationsText(order, relations, name)
      decreases |remaining|
    {
      var relation :| relation in remaining;
      var line := SprintRelation(relation, relations[relation], name);
      ghost var before := order;
      order := order + [relation];
      RelationsTextSnoc(before, relation, relations, name);
      DistinctSnoc(before, relation);
      AppendAssoc(uml, RelationRow(relation, relations[relation], name), "\n");
      uml := uml + line;
      remaining := remaining - {relation};
    }
  }
}
