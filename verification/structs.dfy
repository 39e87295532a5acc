/**
 * The extracted metadata (main.go, `FieldInformation` and
 * `StructInformation`) and its derivation from the parser's field records
 * inside `ParseFile`. The syntax tree itself is abstracted: a field arrives
 * as its declared names, the source text of its type, its raw tag literal
 * (if any) and the texts of its trailing comments.
 */
module Structs {
  import opened Text
  import opened Wrappers

  /** One field of a struct. `hasA` is derived from `typ` (see `DeriveField`). */
  datatype FieldInfo = FieldInfo(name: string, typ: string, hasA: string, tag: string, comment: string)

  /** One struct declaration, its fields in declaration order. */
  datatype StructInfo = StructInfo(name: string, fields: seq<FieldInfo>)

  /** What the parser reports for one field of a struct type. */
  datatype RawField = RawField(names: seq<string>, typeText: string, tag: Option<string>, comments: seq<string>)

  /** A type declaration: a struct with its field list, or any other shape. */
  datatype TypeSpec = StructSpec(name: string, fields: seq<RawField>) | OtherSpec(name: string)

  /** The cutset `"*[]"` trimmed off a field's type to find the referenced name. */
  const TypeDecorations: set<char> := {'*', '[', ']'}

  /** The cutset trimmed off a raw tag literal. */
  const TagDelimiters: set<char> := {'`'}

  /**
   * The field record built for one parsed field. `hasA` is the type with
   * every leading and trailing `*`, `[` and `]` trimmed off; an embedded
   * field (no names) is named after its type.
   */
  function DeriveField(raw: RawField): (f: FieldInfo)
    ensures f.typ == raw.typeText
    ensures Untrimmable(f.hasA, TypeDecorations)
    ensures exists i :: PaddedBy(f.typ, f.hasA, i, TypeDecorations)
    ensures f.name == if |raw.names| > 0 then raw.names[0] else raw.typeText
    ensures raw.tag.None? ==> f.tag == []
    ensures raw.tag.Some? ==> exists i :: PaddedBy(raw.tag.value, f.tag, i, TagDelimiters)
    ensures Untrimmable(f.tag, TagDelimiters)
    ensures f.comment == Concat(raw.comments)
  {
    FieldInfo(
      if |raw.names| > 0 then raw.names[0] else raw.typeText,
      raw.typeText,
      Trim(raw.typeText, TypeDecorations),
      if raw.tag.Some? then Trim(raw.tag.value, TagDelimiters) else [],
      Concat(raw.comments))
  }

  /** The invariant of every derived field: `hasA` is fixed by `typ`. */
  ghost predicate WellFormed(f: FieldInfo)
  {
    f.hasA == Trim(f.typ, TypeDecorations)
  }

  /** A slice of pointers to `Node` refers to `Node`. */
  lemma HasASliceOfPointers()
    ensures Trim("[]*Node", TypeDecorations) == "Node"
  {
    var pre, r := "[]*", "Node";
    assert pre[0] == '[' && pre[1] == ']' && pre[2] == '*';
    assert r[0] == 'N' && r[3] == 'e';
    assert "[]*Node" == pre + r + [];
    TrimAround(pre, r, [], TypeDecorations);
  }

  /**
   * `Trim` only removes the ends: a fixed-size array keeps its length and its
   * closing bracket, so it refers to no struct.
   */
  lemma HasAFixedArray()
    ensures Trim("[5]Node", TypeDecorations) == "5]Node"
  {
    var pre, r := "[", "5]Node";
    assert pre[0] == '[';
    assert r[0] == '5' && r[5] == 'e';
    assert "[5]Node" == pre + r + [];
    TrimAround(pre, r, [], TypeDecorations);
  }

  /** A map type is left as written. */
  lemma HasAMap()
    ensures Trim("map[string]Node", TypeDecorations) == "map[string]Node"
  {
    var r := "map[string]Node";
    assert r[0] == 'm' && r[14] == 'e';
    assert r == [] + r + [];
    TrimAround([], r, [], TypeDecorations);
  }

  /** The field records built for `raws`, in order. */
  function DeriveFields(raws: seq<RawField>): (fs: seq<FieldInfo>)
    ensures |fs| == |raws|
  {
    if raws == [] then [] else DeriveFields(raws[..|raws| - 1]) + [DeriveField(raws[|raws| - 1])]
  }

  /** `info` is the struct built for declaration `name` with fields `raws`. */
  predicate Derives(info: StructInfo, name: string, raws: seq<RawField>)
  {
    && info.name == name
    && |info.fields| == |raws|
    && forall k :: 0 <= k < |raws| ==> info.fields[k] == DeriveField(raws[k])
  }

  /** Field record `k` is built from parsed field `k`. */
  lemma {:induction false} DeriveFieldsAt(raws: seq<RawField>, k: int)
    requires 0 <= k < |raws|
    ensures DeriveFields(raws)[k] == DeriveField(raws[k])
  {
    if k < |raws| - 1 {
      DeriveFieldsAt(raws[..|raws| - 1], k);
    }
  }

  /** The comment loop of `ParseFile`: the texts appended with no separator. */
  method JoinComments(texts: seq<string>) returns (comment: string)
    ensures comment == Concat(texts)
  {
    comment := [];
    for j := 0 to |texts|
      invariant comment == Concat(texts[..j])
    {
      assert texts[..j + 1][..j] == texts[..j];
      comment := comment + texts[j];
    }
    assert texts[..|texts|] == texts;
  }

  /**
   * The field loop of `ParseFile` for one struct declaration: one field
   * record per parsed field, in order, with the comment texts joined by
   * `JoinComments`.
   */
  method ExtractStruct(name: string, raws: seq<RawField>) returns (info: StructInfo)
    ensures info == StructInfo(name, DeriveFields(raws))
  {
    var fields: seq<FieldInfo> := [];
    for i := 0 to |raws|
      invariant fields == DeriveFields(raws[..i])
    {
      var raw := raws[i];
      assert raws[..i + 1][..i] == raws[..i];
      var typ := raw.typeText;
      var hasA := Trim(typ, TypeDecorations);
      var tag := if raw.tag.Some? then Trim(raw.tag.value, TagDelimiters) else [];
      var fieldName := if |raw.names| > 0 then raw.names[0] else typ;
      var comment := JoinComments(raw.comments);
      var field := FieldInfo(fieldName, typ, hasA, tag, comment);
      fields := fields + [field];
    }
    assert raws[..|raws|] == raws;
    info := StructInfo(name, fields);
  }

  /**
   * The struct built for a declaration has its name and one well-formed
   * field record per parsed field, in order.
   */
  lemma ExtractedStruct(name: string, raws: seq<RawField>)
    ensures Derives(StructInfo(name, DeriveFields(raws)), name, raws)
    ensures forall f :: f in DeriveFields(raws) ==> WellFormed(f)
  {
    forall k | 0 <= k < |raws|
      ensures DeriveFields(raws)[k] == DeriveField(raws[k])
    {
      DeriveFieldsAt(raws, k);
    }
  }

  /** The struct declarations among `specs`, in order. */
  function StructDecls(specs: seq<TypeSpec>): (r: seq<TypeSpec>)
    ensures |r| <= |specs|
    ensures forall k :: 0 <= k < |r| ==> r[k].StructSpec? && r[k] in specs
    ensures forall d :: d in specs && d.StructSpec? ==> d in r
  {
    if specs == [] then []
    else
      var last := specs[|specs| - 1];
      var init := StructDecls(specs[..|specs| - 1]);
      assert specs == specs[..|specs| - 1] + [last];
      if last.StructSpec? then init + [last] else init
  }

  /** The structs built for `specs`: one per struct declaration, in order. */
  function DeriveStructs(specs: seq<TypeSpec>): seq<StructInfo>
  {
    if specs == [] then []
    else
      var last := specs[|specs| - 1];
      var init := DeriveStructs(specs[..|specs| - 1]);
      if last.StructSpec? then init + [StructInfo(last.name, DeriveFields(last.fields))] else init
  }

  /**
   * `ParseFile` after parsing: one `StructInfo` per struct declaration in the
   * order they are visited; other type declarations contribute nothing.
   */
  method ExtractStructs(specs: seq<TypeSpec>) returns (infos: seq<StructInfo>)
    ensures infos == DeriveStructs(specs)
  {
    infos := [];
    for n := 0 to |specs|
      invariant infos == DeriveStructs(specs[..n])
    {
      var spec := specs[n];
      assert specs[..n + 1][..n] == specs[..n];
      if spec.StructSpec? {
        var info := ExtractStruct(spec.name, spec.fields);
        infos := infos + [info];
      }
    }
    assert specs[..|specs|] == specs;
  }

  /**
   * The structs built for a file correspond one to one, in order, to its
   * struct declarations, each with the declaration's name and fields.
   */
  lemma {:induction false} DeriveStructsMatch(specs: seq<TypeSpec>)
    ensures |DeriveStructs(specs)| == |StructDecls(specs)|
    ensures forall i :: 0 <= i < |StructDecls(specs)| ==>
      Derives(DeriveStructs(specs)[i], StructDecls(specs)[i].name, StructDecls(specs)[i].fields)
  {
    if specs != [] {
      var last := specs[|specs| - 1];
      DeriveStructsMatch(specs[..|specs| - 1]);
      if last.StructSpec? {
        ExtractedStruct(last.name, last.fields);
      }
    }
  }
}
