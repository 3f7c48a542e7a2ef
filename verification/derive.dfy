/** `kserde_derive_impl`: the text of the `Serialize` and `Deserialize` impls
    generated for a struct with named fields. The struct description stands
    for what the `kreflect` crate hands over; a field's type is taken as the
    text its `as_string` gives. Only the generated text is modelled, not its
    compilation. */
module Derive {
  import opened Base

  datatype Field = Field(name: string, ty: string)

  /** The fields of a struct: named, or the tuple and unit forms the
      generator does not handle. */
  datatype Fields = Named(fields: seq<Field>) | Tuple | Unit

  datatype Struct = Struct(name: string, lifetimes: seq<string>, generics: seq<string>, fields: Fields)

  /** What the derive is applied to: a struct or an enum. */
  datatype Item = StructItem(s: Struct) | EnumItem

  /** Whether a field type is taken for an `Option`: its first six characters
      spell `Option`. Nothing else is checked. */
  predicate IsOptionType(ty: string)
  {
    |ty| >= 6 && ty[..6] == "Option"
  }

  /** Both generators answer with `todo!()` for tuple structs, unit structs
      and enums. */
  predicate Generated(v: Item)
  {
    v.StructItem? && v.s.fields.Named?
  }

  /** Whether the byte slice `[7..len - 1]` of a type taken for an `Option`
      succeeds. The prefix `Option` is six one-byte characters, so the slice
      starts on a character boundary exactly when the character at index 6
      is ASCII, ends on one exactly when the last character is, and is not
      reversed exactly when the type then has at least eight characters. On
      such a type the byte slice and the character slice `[7..|ty| - 1]`
      agree. */
  predicate SliceableType(ty: string)
  {
    IsOptionType(ty) ==> |ty| >= 8 && ty[6] as int < 128 && ty[|ty| - 1] as int < 128
  }

  /** What the deserialize generator handles without reaching `todo!()` or
      panicking. */
  predicate Supported(v: Item)
  {
    Generated(v) && SliceableTypes(v.s.fields.fields)
  }

  /** The lifetimes, each with its leading quote. */
  function LifetimeParams(ls: seq<string>): (r: seq<string>)
    ensures |r| == |ls|
    ensures forall i :: 0 <= i < |ls| ==> r[i] == "'" + ls[i]
  {
    seq(|ls|, i requires 0 <= i < |ls| => "'" + ls[i])
  }

  /** `lifetimes_and_generics`: every lifetime and then every generic type,
      each followed by a comma. */
  function GenericsText(s: Struct): string
  {
    Terminated(LifetimeParams(s.lifetimes), ",") + Terminated(s.generics, ",")
  }

  function PropertyLine(name: string): string
  {
    "    object.property(\"" + name + "\", &self." + name + ");"
  }

  function PropertyLines(fs: seq<Field>): (r: seq<string>)
    ensures |r| == |fs|
    ensures forall i :: 0 <= i < |fs| ==> r[i] == PropertyLine(fs[i].name)
  {
    seq(|fs|, i requires 0 <= i < |fs| => PropertyLine(fs[i].name))
  }

  /** The generated `Serialize` impl: one `property` line per field between
      `begin_object` and `end_object`. */
  function SerializeText(s: Struct): string
    requires s.fields.Named?
  {
    SerializeTemplate(GenericsText(s), s.name, Terminated(PropertyLines(s.fields.fields), "\n"))
  }

  /** The `format!` template of `kserde_serialize_impl`. */
  function SerializeTemplate(generics: string, name: string, properties: string): string
  {
    "impl<" + generics + "> Serialize for " + name + "<" + generics + "> {\n"
    + "    fn serialize<E: Serializer>(&self, serializer: &mut E) {\n"
    + "        let mut object = serializer.begin_object();\n"
    + properties
    + "\n        object.end_object();\n    }\n}"
  }

  /** The type an `Option` field's value is deserialized as: the type with
      its first seven and its last character removed. */
  function OptionInner(ty: string): string
    requires |ty| >= 8
  {
    ty[7..|ty| - 1]
  }

  /** The local declared for a field: an `Option` field with its own type,
      any other field wrapped in `Option`; both start as `None`. */
  function DeclLine(f: Field): string
  {
    if IsOptionType(f.ty) then Declaration(f.name, f.ty)
    else Declaration(f.name, "Option<" + f.ty + ">")
  }

  function Declaration(name: string, ty: string): string
  {
    "    let mut " + name + ": " + ty + " = None;"
  }

  /** The match arm for a field: its name, and the value deserialized as the
      field's type (the inner type for an `Option`). */
  function MatchLine(f: Field): string
    requires SliceableType(f.ty)
  {
    var t := if IsOptionType(f.ty) then OptionInner(f.ty) else f.ty;
    "                \"" + f.name + "\" => " + f.name + " = Some(<" + t + ">::deserialize(deserializer)?),"
  }

  /** How a field is built into the result: an `Option` field as it is, any
      other field unwrapped with `?`, so that a field never seen makes the
      generated `deserialize` answer `None`. */
  function AssignLine(f: Field): string
  {
    if IsOptionType(f.ty) then "    " + f.name + ","
    else "        " + f.name + ": " + f.name + "?,"
  }

  predicate SliceableTypes(fs: seq<Field>)
  {
    forall i :: 0 <= i < |fs| ==> SliceableType(fs[i].ty)
  }

  function DeclLines(fs: seq<Field>): (r: seq<string>)
    ensures |r| == |fs|
    ensures forall i :: 0 <= i < |fs| ==> r[i] == DeclLine(fs[i])
  {
    seq(|fs|, i requires 0 <= i < |fs| => DeclLine(fs[i]))
  }

  function MatchLines(fs: seq<Field>): (r: seq<string>)
    requires SliceableTypes(fs)
    ensures |r| == |fs|
    ensures forall i :: 0 <= i < |fs| ==> r[i] == MatchLine(fs[i])
  {
    seq(|fs|, i requires 0 <= i < |fs| => MatchLine(fs[i]))
  }

  function AssignLines(fs: seq<Field>): (r: seq<string>)
    ensures |r| == |fs|
    ensures forall i :: 0 <= i < |fs| ==> r[i] == AssignLine(fs[i])
  {
    seq(|fs|, i requires 0 <= i < |fs| => AssignLine(fs[i]))
  }

  /** The generated `Deserialize` impl: the declarations, a loop over
      `has_property` with one arm per field and a catch-all arm that skips
      unknown names, and the construction of the struct. */
  function DeserializeText(s: Struct): string
    requires s.fields.Named? && SliceableTypes(s.fields.fields)
  {
    var fs := s.fields.fields;
    DeserializeTemplate(GenericsText(s), s.name, Terminated(DeclLines(fs), "\n"),
                        Terminated(MatchLines(fs), "\n"), Terminated(AssignLines(fs), "\n"))
  }

  /** The `format!` template of `kserde_deserialize_impl`. */
  function DeserializeTemplate(generics: string, name: string, declarations: string, arms: string, assignments: string): string
  {
    "impl<'kserde, " + generics + "> Deserialize<'kserde> for " + name + "<" + generics + "> {\n"
    + "    fn deserialize<D: Deserializer<'kserde>>(deserializer: &mut D) -> Option<Self> {\n"
    + "        deserializer.begin_object().then(|| {})?;\n"
    + declarations
    + "\n        while let Some(p) = deserializer.has_property() {\n"
    + "            match &*p {\n"
    + arms
    + "              _ => {}\n"
    + "            }\n"
    + "        }\n"
    + "        Some(Self {\n"
    + assignments
    + "\n        })\n    }\n}"
  }

  /** The `lifetimes_and_generics` loops, which both generators share. */
  method LifetimesAndGenerics(s: Struct) returns (r: string)
    ensures r == GenericsText(s)
  {
    r := "";
    ghost var ls := LifetimeParams(s.lifetimes);
    for i := 0 to |s.lifetimes|
      invariant r == Terminated(ls[..i], ",")
    {
      ghost var before := r;
      r := r + ['\''];
      r := r + s.lifetimes[i];
      r := r + [','];
      assert r == before + ls[i] + ",";
      assert ls[..i + 1] == ls[..i] + [ls[i]];
      TerminatedSnoc(ls[..i], ls[i], ",");
    }
    assert ls[..|ls|] == ls;
    ghost var prefix := r;
    for i := 0 to |s.generics|
      invariant r == prefix + Terminated(s.generics[..i], ",")
    {
      r := r + s.generics[i];
      r := r + [','];
      assert s.generics[..i + 1] == s.generics[..i] + [s.generics[i]];
      TerminatedSnoc(s.generics[..i], s.generics[i], ",");
    }
    assert s.generics[..|s.generics|] == s.generics;
  }

  /** `kserde_serialize_impl`. */
  method SerializeImpl(v: Item) returns (r: string)
    requires Generated(v)
    ensures r == SerializeText(v.s)
  {
    var s := v.s;
    var g := LifetimesAndGenerics(s);
    var fs := s.fields.fields;
    var properties := "";
    ghost var lines := PropertyLines(fs);
    for i := 0 to |fs|
      invariant properties == Terminated(lines[..i], "\n")
    {
      var name := fs[i].name;
      properties := properties + ("    object.property(\"" + name + "\", &self." + name + ");\n");
      assert lines[..i + 1] == lines[..i] + [lines[i]];
      TerminatedSnoc(lines[..i], lines[i], "\n");
    }
    assert lines[..|fs|] == lines;
    r := SerializeTemplate(g, s.name, properties);
  }

  /** The three lines the loop of `kserde_deserialize_impl` writes for one
      field, each with its line break. */
  method FieldLines(f: Field) returns (declaration: string, arm: string, assignment: string)
    requires SliceableType(f.ty)
    ensures declaration == DeclLine(f) + "\n"
    ensures arm == MatchLine(f) + "\n"
    ensures assignment == AssignLine(f) + "\n"
  {
    var name := f.name;
    var ty := f.ty;
    if |ty| >= 6 && ty[..6] == "Option" {
      declaration := "    let mut " + name + ": " + ty + " = None;\n";
      assignment := "    " + name + ",\n";
      arm := "                \"" + name + "\" => " + name + " = Some(<" + ty[7..|ty| - 1] + ">::deserialize(deserializer)?),\n";
    } else {
      declaration := "    let mut " + name + ": Option<" + ty + "> = None;\n";
      assignment := "        " + name + ": " + name + "?,\n";
      arm := "                \"" + name + "\" => " + name + " = Some(<" + ty + ">::deserialize(deserializer)?),\n";
    }
  }

  /** `kserde_deserialize_impl`. */
  method DeserializeImpl(v: Item) returns (r: string)
    requires Supported(v)
    ensures r == DeserializeText(v.s)
  {
    var s := v.s;
    var g := LifetimesAndGenerics(s);
    var fs := s.fields.fields;
    var deserializeMatch := "";
    var propertiesDeclaration := "";
    var propertyAssignment := "";
    ghost var decls, matches, assigns := DeclLines(fs), MatchLines(fs), AssignLines(fs);
    for i := 0 to |fs|
      invariant deserializeMatch == Terminated(matches[..i], "\n")
      invariant propertiesDeclaration == Terminated(decls[..i], "\n")
      invariant propertyAssignment == Terminated(assigns[..i], "\n")
    {
      var declaration, arm, assignment := FieldLines(fs[i]);
      TerminatedAppend(propertiesDeclaration, decls, i, declaration, "\n");
      TerminatedAppend(deserializeMatch, matches, i, arm, "\n");
      TerminatedAppend(propertyAssignment, assigns, i, assignment, "\n");
      propertiesDeclaration := propertiesDeclaration + declaration;
      deserializeMatch := deserializeMatch + arm;
      propertyAssignment := propertyAssignment + assignment;
    }
    assert matches[..|fs|] == matches;
    assert decls[..|fs|] == decls;
    assert assigns[..|fs|] == assigns;
    r := DeserializeTemplate(g, s.name, propertiesDeclaration, deserializeMatch, propertyAssignment);
  }

  /** No character of `s` is `c`. */
  predicate Free(s: string, c: char)
  {
    forall j :: 0 <= j < |s| ==> s[j] != c
  }

  lemma FreeConcat(a: string, b: string, c: char)
    requires Free(a, c) && Free(b, c)
    ensures Free(a + b, c)
  {
  }

  /** The generics text splits back at its commas into the quoted lifetimes
      followed by the generic types, when none of them holds a comma. */
  lemma GenericsSplit(s: Struct)
    requires forall i :: 0 <= i < |s.lifetimes| ==> Free(s.lifetimes[i], ',')
    requires forall i :: 0 <= i < |s.generics| ==> Free(s.generics[i], ',')
    ensures SplitTerminated(GenericsText(s), ',') == LifetimeParams(s.lifetimes) + s.generics
  {
    var ls := LifetimeParams(s.lifetimes);
    TerminatedConcat(ls, s.generics, ",");
    forall i | 0 <= i < |ls|
      ensures Free(ls[i], ',')
    {
      FreeConcat("'", s.lifetimes[i], ',');
    }
    SplitTerminatedInverse(ls + s.generics, ',');
  }

  /** The serializer's body holds exactly one line per field, in field order,
      each passing the field under its own name. */
  lemma PropertyLinesSplit(fs: seq<Field>)
    requires forall i :: 0 <= i < |fs| ==> Free(fs[i].name, '\n')
    ensures SplitTerminated(Terminated(PropertyLines(fs), "\n"), '\n') == PropertyLines(fs)
  {
    var lines := PropertyLines(fs);
    forall i | 0 <= i < |lines|
      ensures Free(lines[i], '\n')
    {
      var n := fs[i].name;
      FreeConcat("    object.property(\"", n, '\n');
      FreeConcat("    object.property(\"" + n, "\", &self.", '\n');
      FreeConcat("    object.property(\"" + n + "\", &self.", n, '\n');
      FreeConcat("    object.property(\"" + n + "\", &self." + n, ");", '\n');
    }
    SplitTerminatedInverse(lines, '\n');
  }

  /** The three blocks of the deserializer each hold exactly one line per
      field, in field order, when no name or type holds a line break. */
  lemma DeserializeLinesSplit(fs: seq<Field>)
    requires SliceableTypes(fs)
    requires forall i :: 0 <= i < |fs| ==> Free(fs[i].name, '\n') && Free(fs[i].ty, '\n')
    ensures SplitTerminated(Terminated(DeclLines(fs), "\n"), '\n') == DeclLines(fs)
    ensures SplitTerminated(Terminated(MatchLines(fs), "\n"), '\n') == MatchLines(fs)
    ensures SplitTerminated(Terminated(AssignLines(fs), "\n"), '\n') == AssignLines(fs)
  {
    var decls, matches, assigns := DeclLines(fs), MatchLines(fs), AssignLines(fs);
    forall i | 0 <= i < |fs|
      ensures Free(decls[i], '\n') && Free(matches[i], '\n') && Free(assigns[i], '\n')
    {
      FieldLinesFree(fs[i]);
    }
    SplitTerminatedInverse(decls, '\n');
    SplitTerminatedInverse(matches, '\n');
    SplitTerminatedInverse(assigns, '\n');
  }

  lemma FieldLinesFree(f: Field)
    requires SliceableType(f.ty)
    requires Free(f.name, '\n') && Free(f.ty, '\n')
    ensures Free(DeclLine(f), '\n') && Free(MatchLine(f), '\n') && Free(AssignLine(f), '\n')
  {
    var n := f.name;
    var t := if IsOptionType(f.ty) then OptionInner(f.ty) else f.ty;
    assert Free(t, '\n');
    var arm := ["                \"", n, "\" => ", n, " = Some(<", t, ">::deserialize(deserializer)?),"];
    FreeConcat(arm[0], arm[1], '\n');
    FreeConcat(arm[0] + arm[1], arm[2], '\n');
    FreeConcat(arm[0] + arm[1] + arm[2], arm[3], '\n');
    FreeConcat(arm[0] + arm[1] + arm[2] + arm[3], arm[4], '\n');
    FreeConcat(arm[0] + arm[1] + arm[2] + arm[3] + arm[4], arm[5], '\n');
    FreeConcat(arm[0] + arm[1] + arm[2] + arm[3] + arm[4] + arm[5], arm[6], '\n');
    if IsOptionType(f.ty) {
      FreeConcat("    let mut " + n + ": ", f.ty, '\n');
      FreeConcat("    let mut " + n + ": " + f.ty, " = None;", '\n');
      FreeConcat("    " + n, ",", '\n');
    } else {
      var o := "Option<" + f.ty + ">";
      FreeConcat("Option<", f.ty, '\n');
      FreeConcat("Option<" + f.ty, ">", '\n');
      FreeConcat("    let mut " + n + ": ", o, '\n');
      FreeConcat("    let mut " + n + ": " + o, " = None;", '\n');
      FreeConcat("        " + n + ": " + n, "?,", '\n');
    }
  }

  /** A field of type `Option<T>` gets the same local and the same match arm
      as a field of plain type `T`: both declare an `Option<T>` and read a `T`.
      They differ in how the struct is built: the plain field is unwrapped
      with `?`, the `Option` field is passed on as it is. */
  lemma OptionFieldReadsInner(name: string, t: string)
    requires !IsOptionType(t)
    ensures IsOptionType("Option<" + t + ">")
    ensures DeclLine(Field(name, "Option<" + t + ">")) == DeclLine(Field(name, t))
    ensures MatchLine(Field(name, "Option<" + t + ">")) == MatchLine(Field(name, t))
    ensures AssignLine(Field(name, t)) == "        " + name + ": " + name + "?,"
    ensures AssignLine(Field(name, "Option<" + t + ">")) == "    " + name + ","
  {
    var o := "Option<" + t + ">";
    assert o[..6] == "Option";
    assert OptionInner(o) == t;
  }

  /** The types whose slice panics: an `Option`-prefixed type shorter than
      eight characters, or one with a non-ASCII character at index 6 or at
      the end. The serialize generator never looks at field types, so it
      still handles a struct with such a field. */
  lemma PanickingTypes()
    ensures !SliceableType("Option") && !SliceableType("Options")
    ensures !SliceableType("Option\U{E9}") && !SliceableType("Option<u8\U{E9}")
    ensures SliceableType("Option<u8>") && SliceableType("Optional<u8>") && SliceableType("u8")
    ensures var v := StructItem(Struct("S", [], [], Named([Field("x", "Options")])));
            Generated(v) && !Supported(v)
  {
    assert "Option"[..6] == "Option";
    assert "Options"[..6] == "Option";
    assert "Option\U{E9}"[..6] == "Option";
    assert "Option<u8\U{E9}"[..6] == "Option";
    var v := StructItem(Struct("S", [], [], Named([Field("x", "Options")])));
    assert v.s.fields.fields[0].ty == "Options";
  }

  /** Only the first six characters are looked at: a type that merely starts
      with `Option` is taken for one, and its inner type is cut out by
      position. */
  lemma OptionIsAPrefixTest()
    ensures IsOptionType("Optional<u8>")
    ensures OptionInner("Optional<u8>") == "l<u8"
  {
    var o := "Optional<u8>";
    assert o[7..|o| - 1] == "l<u8";
  }
}
