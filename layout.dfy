/**
 * The lines the generator writes, as functions of the descriptors and of the
 * indentation depth they are written at. Each emitter of the Generator class
 * is proved to append exactly these lines; the lemmas here state what the
 * layout guarantees.
 */
module Layout {
  import opened Text
  import opened Descriptors
  import opened Fields

  /** Generator#puts of `msg` at depth `d`: two spaces per level, then the text. */
  function Line(d: nat, msg: string): (r: string)
    ensures |r| == 2 * d + |msg|
    ensures Indentation(d) <= r && r[2 * d..] == msg
  {
    Indentation(d) + msg
  }

  /** The declaration enum! writes for one value: `"%s = %d" % [name, number]`. */
  function ValueDecl(v: EnumValueDescriptorProto): string
  {
    v.name + " = " + IntToString(v.number)
  }

  /** The value declarations of an enum, one line per value, in order. */
  function ValueLines(vs: seq<EnumValueDescriptorProto>, d: nat): (r: seq<string>)
    ensures |r| == |vs|
  {
    if vs == [] then [] else ValueLines(vs[..|vs| - 1], d) + [Line(d, ValueDecl(vs[|vs| - 1]))]
  }

  /** The `i`-th value line declares the `i`-th value. */
  lemma {:induction false} ValueLinesAt(vs: seq<EnumValueDescriptorProto>, d: nat, i: nat)
    requires i < |vs|
    ensures ValueLines(vs, d)[i] == Line(d, ValueDecl(vs[i]))
    decreases |vs|
  {
    if i < |vs| - 1 {
      assert vs[..|vs| - 1][i] == vs[i];
      ValueLinesAt(vs[..|vs| - 1], d, i);
    }
  }

  /** enum!: a blank line, `module Name`, the values one level deeper, `end`. */
  function EnumLines(et: EnumDescriptorProto, d: nat): seq<string>
  {
    ["", Line(d, "module " + et.name)] + ValueLines(et.value, d + 1) + [Line(d, "end")]
  }

  /** enum! for each enum of a list, in order. */
  function EnumsLines(ets: seq<EnumDescriptorProto>, d: nat): seq<string>
  {
    if ets == [] then [] else EnumsLines(ets[..|ets| - 1], d) + EnumLines(ets[|ets| - 1], d)
  }

  /** The line define! writes first inside a class. */
  const IncludeLine: string := "include Beefcake::Message"

  /** What define! writes inside `class Name ... end`: the include, the enums, then the nested classes. */
  function ShellInner(mt: DescriptorProto, d: nat): seq<string>
    decreases mt, 0
  {
    [Line(d, IncludeLine)] + EnumsLines(mt.enumType, d) + ShellsLines(mt.nestedType, d)
  }

  /** define!: a blank line, `class Name`, its inner part one level deeper, `end`. */
  function ShellLines(mt: DescriptorProto, d: nat): seq<string>
    decreases mt, 1
  {
    ["", Line(d, "class " + mt.name)] + ShellInner(mt, d + 1) + [Line(d, "end")]
  }

  /** define! for each message of a list, in order. */
  function ShellsLines(mts: seq<DescriptorProto>, d: nat): seq<string>
    decreases mts
  {
    if mts == [] then [] else ShellsLines(mts[..|mts| - 1], d) + ShellLines(mts[|mts| - 1], d)
  }

  /** field! for each field of a list, in order. */
  function FieldsLines(fs: seq<Field>, d: nat): (r: seq<string>)
    ensures |r| == |fs|
  {
    if fs == [] then [] else FieldsLines(fs[..|fs| - 1], d) + [Line(d, FieldDecl(fs[|fs| - 1]))]
  }

  /** The `i`-th field line declares the `i`-th field. */
  lemma {:induction false} FieldsLinesAt(fs: seq<Field>, d: nat, i: nat)
    requires i < |fs|
    ensures FieldsLines(fs, d)[i] == Line(d, FieldDecl(fs[i]))
    decreases |fs|
  {
    if i < |fs| - 1 {
      assert fs[..|fs| - 1][i] == fs[i];
      FieldsLinesAt(fs[..|fs| - 1], d, i);
    }
  }

  /** What message! writes inside `class Name ... end`: the nested classes, then the fields. */
  function BodyInner(mt: DescriptorProto, d: nat): seq<string>
    decreases mt, 0
  {
    BodiesLines(mt.nestedType, d) + FieldsLines(mt.field, d)
  }

  /** message!: a blank line, `class Name`, its inner part one level deeper, `end`. */
  function BodyLines(mt: DescriptorProto, d: nat): seq<string>
    decreases mt, 1
  {
    ["", Line(d, "class " + mt.name)] + BodyInner(mt, d + 1) + [Line(d, "end")]
  }

  /** message! for each message of a list, in order. */
  function BodiesLines(mts: seq<DescriptorProto>, d: nat): seq<string>
    decreases mts
  {
    if mts == [] then [] else BodiesLines(mts[..|mts| - 1], d) + BodyLines(mts[|mts| - 1], d)
  }

  /** The block compile hands to ns!: the file's enums, every message's shell, then every message's body. */
  function FileBodyLines(file: FileDescriptorProto, d: nat): seq<string>
  {
    EnumsLines(file.enumType, d) + ShellsLines(file.messageType, d) + BodiesLines(file.messageType, d)
  }

  /** The module names for a package: its dot-separated parts, camelized. */
  function PackageModules(package: string): seq<string>
  {
    CamelizeAll(Split(package, '.'))
  }

  /**
   * The first line compile writes. The package is always present here, so
   * the `for` part is always there, even for an empty package; `strip` can
   * only remove characters from the end, since the text starts with `#`.
   */
  function Header(file: FileDescriptorProto): string
  {
    StripTrailing("## Generated from " + file.name + " " + "for " + file.package)
  }

  /** The line that loads the runtime library. */
  const RequireLine: string := "require \"beefcake\""

  // ---------------------------------------------------------------- helpers about indentation

  /** A line is blank or starts with the indentation for depth `d`. */
  predicate Indented(line: string, d: nat)
  {
    line == "" || Indentation(d) <= line
  }

  /** Every line is blank or starts with the indentation for depth `d`. */
  predicate IndentedBy(lines: seq<string>, d: nat)
    decreases |lines|
  {
    lines == [] || (IndentedBy(lines[..|lines| - 1], d) && Indented(lines[|lines| - 1], d))
  }

  /** What IndentedBy says of each line. */
  lemma {:induction false} IndentedByAt(lines: seq<string>, d: nat, i: nat)
    requires IndentedBy(lines, d) && i < |lines|
    ensures Indented(lines[i], d)
    decreases |lines|
  {
    if i < |lines| - 1 {
      assert lines[..|lines| - 1][i] == lines[i];
      IndentedByAt(lines[..|lines| - 1], d, i);
    }
  }

  lemma {:induction false} IndentedByConcat(a: seq<string>, b: seq<string>, d: nat)
    requires IndentedBy(a, d) && IndentedBy(b, d)
    ensures IndentedBy(a + b, d)
    decreases |b|
  {
    if b == [] {
      assert a + b == a;
    } else {
      var init := b[..|b| - 1];
      assert (a + b)[..|a + b| - 1] == a + init;
      assert (a + b)[|a + b| - 1] == b[|b| - 1];
      IndentedByConcat(a, init, d);
    }
  }

  lemma IndentedSingle(x: string, d: nat)
    requires Indented(x, d)
    ensures IndentedBy([x], d)
  {
    assert [x][..0] == [];
  }

  /** The blank line and the opening line an emitter starts with. */
  lemma IndentedOpening(x: string, d: nat)
    requires Indented(x, d)
    ensures IndentedBy(["", x], d)
  {
    IndentedSingle("", d);
    assert ["", x][..1] == [""];
  }

  lemma LineIndented(d: nat, e: nat, msg: string)
    requires d <= e
    ensures Indentation(d) <= Line(e, msg)
    ensures Indented(Line(e, msg), d)
  {
    IndentationGrows(d, e);
    assert Line(e, msg) == Indentation(d) + (Indentation(e - d) + msg);
  }

  lemma {:induction false} ValueLinesIndented(vs: seq<EnumValueDescriptorProto>, d: nat, e: nat)
    requires d <= e
    ensures IndentedBy(ValueLines(vs, e), d)
    decreases |vs|
  {
    if vs != [] {
      var last := vs[|vs| - 1];
      ValueLinesIndented(vs[..|vs| - 1], d, e);
      LineIndented(d, e, ValueDecl(last));
      IndentedSingle(Line(e, ValueDecl(last)), d);
      IndentedByConcat(ValueLines(vs[..|vs| - 1], e), [Line(e, ValueDecl(last))], d);
    }
  }

  lemma {:induction false} FieldsLinesIndented(fs: seq<Field>, d: nat, e: nat)
    requires d <= e
    ensures IndentedBy(FieldsLines(fs, e), d)
    decreases |fs|
  {
    if fs != [] {
      var last := fs[|fs| - 1];
      FieldsLinesIndented(fs[..|fs| - 1], d, e);
      LineIndented(d, e, FieldDecl(last));
      IndentedSingle(Line(e, FieldDecl(last)), d);
      IndentedByConcat(FieldsLines(fs[..|fs| - 1], e), [Line(e, FieldDecl(last))], d);
    }
  }

  lemma EnumLinesIndented(et: EnumDescriptorProto, d: nat, e: nat)
    requires d <= e
    ensures IndentedBy(EnumLines(et, e), d)
  {
    LineIndented(d, e, "module " + et.name);
    LineIndented(d, e, "end");
    IndentedOpening(Line(e, "module " + et.name), d);
    IndentedSingle(Line(e, "end"), d);
    ValueLinesIndented(et.value, d, e + 1);
    IndentedByConcat(["", Line(e, "module " + et.name)], ValueLines(et.value, e + 1), d);
    IndentedByConcat(["", Line(e, "module " + et.name)] + ValueLines(et.value, e + 1), [Line(e, "end")], d);
  }

  lemma {:induction false} EnumsLinesIndented(ets: seq<EnumDescriptorProto>, d: nat, e: nat)
    requires d <= e
    ensures IndentedBy(EnumsLines(ets, e), d)
  {
    if ets != [] {
      EnumsLinesIndented(ets[..|ets| - 1], d, e);
      EnumLinesIndented(ets[|ets| - 1], d, e);
      IndentedByConcat(EnumsLines(ets[..|ets| - 1], e), EnumLines(ets[|ets| - 1], e), d);
    }
  }

  lemma {:induction false} ShellInnerIndented(mt: DescriptorProto, d: nat, e: nat)
    requires d <= e
    ensures IndentedBy(ShellInner(mt, e), d)
    decreases mt, 0
  {
    LineIndented(d, e, IncludeLine);
    IndentedSingle(Line(e, IncludeLine), d);
    EnumsLinesIndented(mt.enumType, d, e);
    ShellsLinesIndented(mt.nestedType, d, e);
    IndentedByConcat([Line(e, IncludeLine)], EnumsLines(mt.enumType, e), d);
    IndentedByConcat([Line(e, IncludeLine)] + EnumsLines(mt.enumType, e), ShellsLines(mt.nestedType, e), d);
  }

  /** Everything define! writes at depth `e` is blank or indented at least `d <= e` levels. */
  lemma {:induction false} ShellLinesIndented(mt: DescriptorProto, d: nat, e: nat)
    requires d <= e
    ensures IndentedBy(ShellLines(mt, e), d)
    decreases mt, 1
  {
    LineIndented(d, e, "class " + mt.name);
    LineIndented(d, e, "end");
    IndentedOpening(Line(e, "class " + mt.name), d);
    IndentedSingle(Line(e, "end"), d);
    ShellInnerIndented(mt, d, e + 1);
    IndentedByConcat(["", Line(e, "class " + mt.name)], ShellInner(mt, e + 1), d);
    IndentedByConcat(["", Line(e, "class " + mt.name)] + ShellInner(mt, e + 1), [Line(e, "end")], d);
  }

  lemma {:induction false} ShellsLinesIndented(mts: seq<DescriptorProto>, d: nat, e: nat)
    requires d <= e
    ensures IndentedBy(ShellsLines(mts, e), d)
    decreases mts
  {
    if mts != [] {
      ShellsLinesIndented(mts[..|mts| - 1], d, e);
      ShellLinesIndented(mts[|mts| - 1], d, e);
      IndentedByConcat(ShellsLines(mts[..|mts| - 1], e), ShellLines(mts[|mts| - 1], e), d);
    }
  }

  lemma {:induction false} BodyInnerIndented(mt: DescriptorProto, d: nat, e: nat)
    requires d <= e
    ensures IndentedBy(BodyInner(mt, e), d)
    decreases mt, 0
  {
    BodiesLinesIndented(mt.nestedType, d, e);
    FieldsLinesIndented(mt.field, d, e);
    IndentedByConcat(BodiesLines(mt.nestedType, e), FieldsLines(mt.field, e), d);
  }

  /** Everything message! writes at depth `e` is blank or indented at least `d <= e` levels. */
  lemma {:induction false} BodyLinesIndented(mt: DescriptorProto, d: nat, e: nat)
    requires d <= e
    ensures IndentedBy(BodyLines(mt, e), d)
    decreases mt, 1
  {
    LineIndented(d, e, "class " + mt.name);
    LineIndented(d, e, "end");
    IndentedOpening(Line(e, "class " + mt.name), d);
    IndentedSingle(Line(e, "end"), d);
    BodyInnerIndented(mt, d, e + 1);
    IndentedByConcat(["", Line(e, "class " + mt.name)], BodyInner(mt, e + 1), d);
    IndentedByConcat(["", Line(e, "class " + mt.name)] + BodyInner(mt, e + 1), [Line(e, "end")], d);
  }

  lemma {:induction false} BodiesLinesIndented(mts: seq<DescriptorProto>, d: nat, e: nat)
    requires d <= e
    ensures IndentedBy(BodiesLines(mts, e), d)
    decreases mts
  {
    if mts != [] {
      BodiesLinesIndented(mts[..|mts| - 1], d, e);
      BodyLinesIndented(mts[|mts| - 1], d, e);
      IndentedByConcat(BodiesLines(mts[..|mts| - 1], e), BodyLines(mts[|mts| - 1], e), d);
    }
  }

  lemma FileBodyIndented(file: FileDescriptorProto, d: nat, e: nat)
    requires d <= e
    ensures IndentedBy(FileBodyLines(file, e), d)
  {
    EnumsLinesIndented(file.enumType, d, e);
    ShellsLinesIndented(file.messageType, d, e);
    BodiesLinesIndented(file.messageType, d, e);
    IndentedByConcat(EnumsLines(file.enumType, e), ShellsLines(file.messageType, e), d);
    IndentedByConcat(EnumsLines(file.enumType, e) + ShellsLines(file.messageType, e), BodiesLines(file.messageType, e), d);
  }

  // ---------------------------------------------------------------- the two passes

  /** A message with its fields removed, and those of every nested message. */
  function WithoutFields(mt: DescriptorProto): (r: DescriptorProto)
    ensures r.name == mt.name && r.field == [] && r.enumType == mt.enumType
    ensures |r.nestedType| == |mt.nestedType|
    decreases mt, 1
  {
    DescriptorProto(mt.name, [], AllWithoutFields(mt.nestedType), mt.enumType)
  }

  function AllWithoutFields(mts: seq<DescriptorProto>): (r: seq<DescriptorProto>)
    ensures |r| == |mts|
    ensures forall i :: 0 <= i < |mts| ==> r[i] == WithoutFields(mts[i])
    decreases mts, 0
  {
    seq(|mts|, i requires 0 <= i < |mts| => WithoutFields(mts[i]))
  }

  /** A message with its enums removed, and those of every nested message. */
  function WithoutEnums(mt: DescriptorProto): (r: DescriptorProto)
    ensures r.name == mt.name && r.field == mt.field && r.enumType == []
    ensures |r.nestedType| == |mt.nestedType|
    decreases mt, 1
  {
    DescriptorProto(mt.name, mt.field, AllWithoutEnums(mt.nestedType), [])
  }

  function AllWithoutEnums(mts: seq<DescriptorProto>): (r: seq<DescriptorProto>)
    ensures |r| == |mts|
    ensures forall i :: 0 <= i < |mts| ==> r[i] == WithoutEnums(mts[i])
    decreases mts, 0
  {
    seq(|mts|, i requires 0 <= i < |mts| => WithoutEnums(mts[i]))
  }

  /** define! writes the same lines whatever fields the messages have: it declares, it does not fill. */
  lemma {:induction false} ShellIgnoresFields(mt: DescriptorProto, d: nat)
    ensures ShellLines(WithoutFields(mt), d) == ShellLines(mt, d)
    decreases mt
  {
    ShellsIgnoreFields(mt.nestedType, d + 1);
  }

  lemma {:induction false} ShellsIgnoreFields(mts: seq<DescriptorProto>, d: nat)
    ensures ShellsLines(AllWithoutFields(mts), d) == ShellsLines(mts, d)
    decreases mts
  {
    if mts != [] {
      var k := |mts| - 1;
      assert AllWithoutFields(mts)[..k] == AllWithoutFields(mts[..k]);
      ShellsIgnoreFields(mts[..k], d);
      ShellIgnoresFields(mts[k], d);
    }
  }

  /** message! writes the same lines whatever enums the messages have: enums belong to the first pass. */
  lemma {:induction false} BodyIgnoresEnums(mt: DescriptorProto, d: nat)
    ensures BodyLines(WithoutEnums(mt), d) == BodyLines(mt, d)
    decreases mt
  {
    BodiesIgnoreEnums(mt.nestedType, d + 1);
  }

  lemma {:induction false} BodiesIgnoreEnums(mts: seq<DescriptorProto>, d: nat)
    ensures BodiesLines(AllWithoutEnums(mts), d) == BodiesLines(mts, d)
    decreases mts
  {
    if mts != [] {
      var k := |mts| - 1;
      assert AllWithoutEnums(mts)[..k] == AllWithoutEnums(mts[..k]);
      BodiesIgnoreEnums(mts[..k], d);
      BodyIgnoresEnums(mts[k], d);
    }
  }

  // ---------------------------------------------------------------- blocks and namespaces

  /**
   * The blocks the emitters hand to `indent` and to ns!, each named by what
   * it writes: the values of an enum (enum!), the inside of a class for
   * define! or for message!, one more level of ns!, and the file body
   * compile passes to ns!.
   */
  datatype Block =
    | EnumValues(et: EnumDescriptorProto)
    | ShellBody(mt: DescriptorProto)
    | MessageBody(pkg: string, mt: DescriptorProto)
    | NsBody(modules: seq<string>, inner: Block)
    | FileBody(file: FileDescriptorProto)

  /** What running a block at depth `d` writes. */
  function BlockLines(blk: Block, d: nat): seq<string>
    decreases blk, 0
  {
    match blk
    case EnumValues(et) => ValueLines(et.value, d)
    case ShellBody(mt) => ShellInner(mt, d)
    case MessageBody(_, mt) => BodyInner(mt, d)
    case NsBody(modules, inner) => NsLines(modules, inner, d)
    case FileBody(file) => FileBodyLines(file, d)
  }

  /** ns!: the block, run inside one `module M ... end` per name, nested. */
  function NsLines(modules: seq<string>, blk: Block, d: nat): seq<string>
    decreases blk, 1
  {
    Nest(modules, d, BlockLines(blk, d + |modules|))
  }

  /** `module M` for the first name, the rest nested one level deeper around `body`, then `end`. */
  function Nest(modules: seq<string>, d: nat, body: seq<string>): seq<string>
  {
    if modules == [] then body
    else [Line(d, "module " + modules[0])] + Nest(modules[1..], d + 1, body) + [Line(d, "end")]
  }

  /** The module openers of ns!, one level deeper each. */
  function ModuleOpeners(modules: seq<string>, d: nat): (r: seq<string>)
    ensures |r| == |modules|
  {
    if modules == [] then [] else [Line(d, "module " + modules[0])] + ModuleOpeners(modules[1..], d + 1)
  }

  /** The `end`s that close `k` modules opened at depth `d`, innermost first. */
  function ModuleClosers(k: nat, d: nat): (r: seq<string>)
    ensures |r| == k
  {
    if k == 0 then [] else ModuleClosers(k - 1, d + 1) + [Line(d, "end")]
  }

  /** The `i`-th opener opens the `i`-th module, `i` levels deeper. */
  lemma {:induction false} OpenersAt(modules: seq<string>, d: nat, i: nat)
    requires i < |modules|
    ensures ModuleOpeners(modules, d)[i] == Line(d + i, "module " + modules[i])
    decreases |modules|
  {
    if i > 0 {
      assert modules[1..][i - 1] == modules[i];
      OpenersAt(modules[1..], d + 1, i - 1);
    }
  }

  /** The `i`-th closer is at the depth of the module opened `k - 1 - i` levels in. */
  lemma {:induction false} ClosersAt(k: nat, d: nat, i: nat)
    requires i < k
    ensures ModuleClosers(k, d)[i] == Line(d + k - 1 - i, "end")
    decreases k
  {
    if i < k - 1 {
      ClosersAt(k - 1, d + 1, i);
    }
  }

  /**
   * ns! nests the block inside every module: one opener per module, each a
   * level deeper than the one before, the body at the innermost depth, and
   * the closers in the reverse order at the matching depths.
   */
  lemma {:induction false} NestShape(modules: seq<string>, d: nat, body: seq<string>)
    ensures Nest(modules, d, body) == ModuleOpeners(modules, d) + body + ModuleClosers(|modules|, d)
    decreases |modules|
  {
    var k := |modules|;
    if k == 0 {
      EmptyAround(ModuleOpeners(modules, d), body, ModuleClosers(|modules|, d));
    } else {
      var o := Line(d, "module " + modules[0]);
      var ops := ModuleOpeners(modules[1..], d + 1);
      var cls := ModuleClosers(|modules[1..]|, d + 1);
      NestShape(modules[1..], d + 1, body);
      assert |modules[1..]| == k - 1;
      Regroup([o], ops, body, cls, [Line(d, "end")]);
    }
  }

  lemma EmptyAround<T>(a: seq<T>, b: seq<T>, c: seq<T>)
    requires |a| == 0 && |c| == 0
    ensures a + b + c == b
  {
  }

  lemma Regroup<T>(a: seq<T>, b: seq<T>, c: seq<T>, d: seq<T>, e: seq<T>)
    ensures a + (b + c + d) + e == (a + b) + c + (d + e)
  {
  }

  lemma {:induction false} BlockLinesIndented(blk: Block, d: nat, e: nat)
    requires d <= e
    ensures IndentedBy(BlockLines(blk, e), d)
    decreases blk, 0
  {
    match blk
    case EnumValues(et) => ValueLinesIndented(et.value, d, e);
    case ShellBody(mt) => ShellInnerIndented(mt, d, e);
    case MessageBody(_, mt) => BodyInnerIndented(mt, d, e);
    case NsBody(modules, inner) => NsLinesIndented(modules, inner, d, e);
    case FileBody(file) => FileBodyIndented(file, d, e);
  }

  lemma {:induction false} NsLinesIndented(modules: seq<string>, blk: Block, d: nat, e: nat)
    requires d <= e
    ensures IndentedBy(NsLines(modules, blk, e), d)
    decreases blk, 1
  {
    BlockLinesIndented(blk, d, e + |modules|);
    NestIndented(modules, d, e, BlockLines(blk, e + |modules|));
  }

  lemma {:induction false} NestIndented(modules: seq<string>, d: nat, e: nat, body: seq<string>)
    requires d <= e && IndentedBy(body, d)
    ensures IndentedBy(Nest(modules, e, body), d)
    decreases |modules|
  {
    if modules != [] {
      LineIndented(d, e, "module " + modules[0]);
      LineIndented(d, e, "end");
      NestIndented(modules[1..], d, e + 1, body);
      WrapIndented(Line(e, "module " + modules[0]), Nest(modules[1..], e + 1, body), Line(e, "end"), d);
      NestCons(modules, e, body);
    }
  }

  lemma NestCons(modules: seq<string>, e: nat, body: seq<string>)
    requires modules != []
    ensures Nest(modules, e, body) == [Line(e, "module " + modules[0])] + Nest(modules[1..], e + 1, body) + [Line(e, "end")]
  {
  }

  /** An indented line, indented lines and one more indented line. */
  lemma WrapIndented(x: string, mid: seq<string>, z: string, d: nat)
    requires Indented(x, d) && IndentedBy(mid, d) && Indented(z, d)
    ensures IndentedBy([x] + mid + [z], d)
  {
    IndentedSingle(x, d);
    IndentedSingle(z, d);
    IndentedByConcat([x], mid, d);
    IndentedByConcat([x] + mid, [z], d);
  }

  // ---------------------------------------------------------------- a whole file

  /** Generator#compile at depth `d`: the header, the require line, a blank line, then the namespaced body. */
  function FileLines(file: FileDescriptorProto, d: nat): seq<string>
  {
    [Line(d, Header(file)), Line(d, RequireLine), ""] + NsLines(PackageModules(file.package), FileBody(file), d)
  }

  /**
   * A compiled file, from depth 0: the header line, the require line, a
   * blank line, one `module` line per package part, the file body at the
   * depth of the innermost module, and the `end`s.
   */
  lemma FileLayout(file: FileDescriptorProto)
    ensures var mods := PackageModules(file.package);
            FileLines(file, 0)
            == [Header(file), RequireLine, ""] + ModuleOpeners(mods, 0) + FileBodyLines(file, |mods|) + ModuleClosers(|mods|, 0)
  {
    var mods := PackageModules(file.package);
    var body := FileBodyLines(file, |mods|);
    var ns := NsLines(mods, FileBody(file), 0);
    FileBodyNest(file, mods, 0, body);
    NestShape(mods, 0, body);
    FileLinesUnfold(file, 0, ns);
    HeadedAtTop(FileLines(file, 0), Header(file), RequireLine, ns, ModuleOpeners(mods, 0), body, ModuleClosers(|mods|, 0));
  }

  lemma HeadedAtTop(lines: seq<string>, h: string, r: string, ns: seq<string>,
                    ops: seq<string>, body: seq<string>, cls: seq<string>)
    requires lines == [Line(0, h), Line(0, r), ""] + ns
    requires ns == ops + body + cls
    ensures lines == [h, r, ""] + ops + body + cls
  {
    LineAtTop(h);
    LineAtTop(r);
    Prepend3(h, r, "", ops, body, cls);
  }

  lemma FileLinesUnfold(file: FileDescriptorProto, d: nat, ns: seq<string>)
    requires ns == NsLines(PackageModules(file.package), FileBody(file), d)
    ensures FileLines(file, d) == [Line(d, Header(file)), Line(d, RequireLine), ""] + ns
  {
  }

  /** ns! around the file body, as the generic nesting. */
  lemma FileBodyNest(file: FileDescriptorProto, mods: seq<string>, d: nat, body: seq<string>)
    requires body == FileBodyLines(file, d + |mods|)
    ensures NsLines(mods, FileBody(file), d) == Nest(mods, d, body)
  {
    assert BlockLines(FileBody(file), d + |mods|) == FileBodyLines(file, d + |mods|);
  }

  /** At depth 0 a line is its message. */
  lemma LineAtTop(msg: string)
    ensures Line(0, msg) == msg
  {
    assert Indentation(0) == [];
  }

  lemma Prepend3<T>(x: T, y: T, z: T, a: seq<T>, b: seq<T>, c: seq<T>)
    ensures [x, y, z] + (a + b + c) == [x, y, z] + a + b + c
  {
  }


  // ---------------------------------------------------------------- one more element

  lemma ValueLinesSnoc(vs: seq<EnumValueDescriptorProto>, i: nat, d: nat)
    requires i < |vs|
    ensures ValueLines(vs[..i + 1], d) == ValueLines(vs[..i], d) + [Line(d, ValueDecl(vs[i]))]
  {
    assert vs[..i + 1][..i] == vs[..i];
  }

  lemma FieldsLinesSnoc(fs: seq<Field>, i: nat, d: nat)
    requires i < |fs|
    ensures FieldsLines(fs[..i + 1], d) == FieldsLines(fs[..i], d) + [Line(d, FieldDecl(fs[i]))]
  {
    assert fs[..i + 1][..i] == fs[..i];
  }

  lemma EnumsLinesSnoc(ets: seq<EnumDescriptorProto>, i: nat, d: nat)
    requires i < |ets|
    ensures EnumsLines(ets[..i + 1], d) == EnumsLines(ets[..i], d) + EnumLines(ets[i], d)
  {
    assert ets[..i + 1][..i] == ets[..i];
  }

  lemma ShellsLinesSnoc(mts: seq<DescriptorProto>, i: nat, d: nat)
    requires i < |mts|
    ensures ShellsLines(mts[..i + 1], d) == ShellsLines(mts[..i], d) + ShellLines(mts[i], d)
  {
    assert mts[..i + 1][..i] == mts[..i];
  }

  lemma BodiesLinesSnoc(mts: seq<DescriptorProto>, i: nat, d: nat)
    requires i < |mts|
    ensures BodiesLines(mts[..i + 1], d) == BodiesLines(mts[..i], d) + BodyLines(mts[i], d)
  {
    assert mts[..i + 1][..i] == mts[..i];
  }
}
