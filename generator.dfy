/**
 * Beefcake::Generator: the writer (an indentation depth and the lines
 * written so far), the emitters that write the Ruby classes and modules for
 * enums, messages and fields, and the plugin entry point that compiles every
 * proto file of a request into one response file.
 *
 * Each emitter is proved to append exactly the lines Layout describes and to
 * leave the depth as it found it.
 */
module Generator {
  import opened Wrappers
  import opened Descriptors
  import opened Fields
  import opened Layout
  import opened Output

  // ---------------------------------------------------------------- termination measures

  /** The number of messages in a message tree. */
  function MessageCount(mt: DescriptorProto): (r: nat)
    ensures r >= 1
    decreases mt, 1
  {
    1 + MessagesCount(mt.nestedType)
  }

  function MessagesCount(mts: seq<DescriptorProto>): nat
    decreases mts, 0
  {
    if mts == [] then 0 else MessagesCount(mts[..|mts| - 1]) + MessageCount(mts[|mts| - 1])
  }

  lemma {:induction false} MessagesCountBound(mts: seq<DescriptorProto>, i: nat)
    requires i < |mts|
    ensures MessageCount(mts[i]) <= MessagesCount(mts)
    decreases |mts|
  {
    if i < |mts| - 1 {
      assert mts[..|mts| - 1][i] == mts[i];
      MessagesCountBound(mts[..|mts| - 1], i);
    }
  }

  /** A bound on the emitter calls a block makes. */
  function BlockWeight(blk: Block): nat
  {
    match blk
    case EnumValues(_) => 0
    case ShellBody(mt) => MessageCount(mt)
    case MessageBody(_, mt) => MessageCount(mt)
    case NsBody(modules, inner) => BlockWeight(inner) + 2 * |modules| + 2
    case FileBody(file) => MessagesCount(file.messageType) + 1
  }

  // ---------------------------------------------------------------- the writer

  /** The line `puts(msg)` writes at depth `d`: the indented text, or a blank line without one. */
  function PutsLine(d: nat, msg: Option<string>): string
  {
    match msg
    case None => ""
    case Some(m) => Line(d, m)
  }

  /** The response file compile produces for one proto file. */
  function ResponseFor(file: FileDescriptorProto): ResponseFile
  {
    ResponseFile(OutputName(file.name), Content(FileLines(file, 0)))
  }

  /** The response files compile produces for a sequence of proto files. */
  function ResponsesFor(files: seq<FileDescriptorProto>): (r: seq<ResponseFile>)
    ensures |r| == |files|
  {
    if files == [] then [] else ResponsesFor(files[..|files| - 1]) + [ResponseFor(files[|files| - 1])]
  }

  /** One response per proto file, in order, each compiled on its own and named after its proto file. */
  lemma {:induction false} ResponsesForAt(files: seq<FileDescriptorProto>, i: nat)
    requires i < |files|
    ensures ResponsesFor(files)[i] == ResponseFor(files[i])
    decreases |files|
  {
    var init := files[..|files| - 1];
    var last := ResponseFor(files[|files| - 1]);
    SnocAt(ResponsesFor(init), last, i);
    if i < |files| - 1 {
      assert init[i] == files[i];
      ResponsesForAt(init, i);
    }
  }

  lemma SnocAt<T>(a: seq<T>, x: T, i: nat)
    requires i <= |a|
    ensures (a + [x])[i] == if i < |a| then a[i] else x
  {
  }

  lemma ResponsesForSnoc(files: seq<FileDescriptorProto>, i: nat)
    requires i < |files|
    ensures ResponsesFor(files[..i + 1]) == ResponsesFor(files[..i]) + [ResponseFor(files[i])]
  {
    assert files[..i + 1][..i] == files[..i];
  }

  // ---------------------------------------------------------------- sequence bookkeeping

  lemma AppendAssoc<T>(a: seq<T>, b: seq<T>, c: seq<T>)
    ensures a + b + c == a + (b + c)
  {
  }

  lemma AppendAssoc3<T>(a: seq<T>, b: seq<T>, c: seq<T>, d: seq<T>)
    ensures a + b + c + d == a + (b + c + d)
  {
  }

  /** Two lines, a block of lines and one more line, appended one after the other. */
  lemma Enclosed<T>(c0: seq<T>, x: T, y: T, b: seq<T>, z: T)
    ensures c0 + [x] + [y] + b + [z] == c0 + ([x, y] + b + [z])
  {
  }

  lemma Headed<T>(c0: seq<T>, x: T, y: T, z: T, b: seq<T>)
    ensures c0 + [x] + [y] + [z] + b == c0 + ([x, y, z] + b)
  {
  }

  lemma TakeAll<T>(s: seq<T>)
    ensures s[..|s|] == s
  {
  }

  lemma EmptyPrefix<T>(b: seq<T>)
    ensures [] + b == b
  {
  }

  /** What ns! wrote with no module names: the block's lines. */
  lemma NsWroteBlock(c0: seq<string>, c1: seq<string>, modules: seq<string>, blk: Block, d: nat)
    requires modules == [] && c1 == c0 + BlockLines(blk, d)
    ensures c1 == c0 + NsLines(modules, blk, d)
  {
  }

  /** What ns! wrote for the first module name around the rest. */
  lemma NsWroteModule(c0: seq<string>, c1: seq<string>, modules: seq<string>, blk: Block, d: nat)
    requires modules != []
    requires c1 == c0 + [Line(d, "module " + modules[0])] + NsLines(modules[1..], blk, d + 1) + [Line(d, "end")]
    ensures c1 == c0 + NsLines(modules, blk, d)
  {
    NsLinesCons(modules, blk, d);
    AppendAssoc3(c0, [Line(d, "module " + modules[0])], NsLines(modules[1..], blk, d + 1), [Line(d, "end")]);
  }

  lemma NsLinesCons(modules: seq<string>, blk: Block, d: nat)
    requires modules != []
    ensures NsLines(modules, blk, d)
            == [Line(d, "module " + modules[0])] + NsLines(modules[1..], blk, d + 1) + [Line(d, "end")]
  {
    assert d + 1 + |modules[1..]| == d + |modules|;
  }

  class Generator {
    /** The indentation depth `@n`. */
    var n: nat
    /** The lines written to the output stream `@c`, in order. */
    var c: seq<string>

    constructor(initial: seq<string>)
      ensures n == 0 && c == initial
    {
      n := 0;
      c := initial;
    }

    /** Generator#puts: the message at the current depth, or a blank line when there is none. */
    method Puts(msg: Option<string>)
      modifies this
      ensures n == old(n)
      ensures c == old(c) + [PutsLine(old(n), msg)]
    {
      c := c + [PutsLine(n, msg)];
    }

    /** Generator#indent!: sets the depth. */
    method IndentTo(k: nat)
      modifies this
      ensures n == k && c == old(c)
    {
      n := k;
    }

    /** Generator#indent: runs the block one level deeper, then restores the depth. */
    method Indent(blk: Block)
      modifies this
      ensures n == old(n)
      ensures c == old(c) + BlockLines(blk, old(n) + 1)
      decreases BlockWeight(blk), 3
    {
      n := n + 1;
      RunBlock(blk);
      n := n - 1;
    }

    /** `blk.call`: runs the block at the current depth. */
    method RunBlock(blk: Block)
      modifies this
      ensures n == old(n)
      ensures c == old(c) + BlockLines(blk, old(n))
      decreases BlockWeight(blk), 2
    {
      match blk
      case EnumValues(et) => ValuesBlock(et);
      case ShellBody(mt) => ShellBlock(mt);
      case MessageBody(pkg, mt) => MessageBlock(pkg, mt);
      case NsBody(modules, inner) => Ns(modules, inner);
      case FileBody(file) => FileBlock(file);
    }

    /** The block of enum!: one `Name = number` line per value. */
    method ValuesBlock(et: EnumDescriptorProto)
      modifies this
      ensures n == old(n)
      ensures c == old(c) + ValueLines(et.value, old(n))
      decreases 0, 1
    {
      ghost var c0 := c;
      for i := 0 to |et.value|
        invariant n == old(n)
        invariant c == c0 + ValueLines(et.value[..i], n)
      {
        Puts(Some(ValueDecl(et.value[i])));
        ValueLinesSnoc(et.value, i, n);
        AppendAssoc(c0, ValueLines(et.value[..i], n), [Line(n, ValueDecl(et.value[i]))]);
      }
      TakeAll(et.value);
    }

    /** The block of define!: the include line, the nested enums, then the nested classes. */
    method ShellBlock(mt: DescriptorProto)
      modifies this
      ensures n == old(n)
      ensures c == old(c) + ShellInner(mt, old(n))
      decreases MessageCount(mt), 1
    {
      ghost var c0 := c;
      Puts(Some(IncludeLine));
      Enums(mt.enumType);
      Defines(mt.nestedType);
      AppendAssoc3(c0, [Line(n, IncludeLine)], EnumsLines(mt.enumType, n), ShellsLines(mt.nestedType, n));
    }

    /** The block of message!: the nested classes, then one declaration per field. */
    method MessageBlock(pkg: string, mt: DescriptorProto)
      modifies this
      ensures n == old(n)
      ensures c == old(c) + BodyInner(mt, old(n))
      decreases MessageCount(mt), 1
    {
      ghost var c0 := c;
      Messages(pkg, mt.nestedType);
      ghost var c1 := c;
      for i := 0 to |mt.field|
        invariant n == old(n)
        invariant c == c1 + FieldsLines(mt.field[..i], n)
      {
        Field(pkg, mt.field[i]);
        FieldsLinesSnoc(mt.field, i, n);
        AppendAssoc(c1, FieldsLines(mt.field[..i], n), [Line(n, FieldDecl(mt.field[i]))]);
      }
      TakeAll(mt.field);
      AppendAssoc(c0, BodiesLines(mt.nestedType, n), FieldsLines(mt.field, n));
    }

    /** The block compile passes to ns!: the file's enums, every message's shell, then every message's body. */
    method FileBlock(file: FileDescriptorProto)
      modifies this
      ensures n == old(n)
      ensures c == old(c) + FileBodyLines(file, old(n))
      decreases MessagesCount(file.messageType) + 1, 1
    {
      ghost var c0 := c;
      Enums(file.enumType);
      Defines(file.messageType);
      Messages(file.package, file.messageType);
      AppendAssoc3(c0, EnumsLines(file.enumType, n), ShellsLines(file.messageType, n), BodiesLines(file.messageType, n));
    }

    /** enum! for each enum, in order. */
    method Enums(ets: seq<EnumDescriptorProto>)
      modifies this
      ensures n == old(n)
      ensures c == old(c) + EnumsLines(ets, old(n))
      decreases 0, 5
    {
      ghost var c0 := c;
      for i := 0 to |ets|
        invariant n == old(n)
        invariant c == c0 + EnumsLines(ets[..i], n)
      {
        Enum(ets[i]);
        EnumsLinesSnoc(ets, i, n);
        AppendAssoc(c0, EnumsLines(ets[..i], n), EnumLines(ets[i], n));
      }
      TakeAll(ets);
    }

    /** define! for each message, in order. */
    method Defines(mts: seq<DescriptorProto>)
      modifies this
      ensures n == old(n)
      ensures c == old(c) + ShellsLines(mts, old(n))
      decreases MessagesCount(mts), 5
    {
      ghost var c0 := c;
      for i := 0 to |mts|
        invariant n == old(n)
        invariant c == c0 + ShellsLines(mts[..i], n)
      {
        MessagesCountBound(mts, i);
        Define(mts[i]);
        ShellsLinesSnoc(mts, i, n);
        AppendAssoc(c0, ShellsLines(mts[..i], n), ShellLines(mts[i], n));
      }
      TakeAll(mts);
    }

    /** message! for each message, in order. */
    method Messages(pkg: string, mts: seq<DescriptorProto>)
      modifies this
      ensures n == old(n)
      ensures c == old(c) + BodiesLines(mts, old(n))
      decreases MessagesCount(mts), 5
    {
      ghost var c0 := c;
      for i := 0 to |mts|
        invariant n == old(n)
        invariant c == c0 + BodiesLines(mts[..i], n)
      {
        MessagesCountBound(mts, i);
        Message(pkg, mts[i]);
        BodiesLinesSnoc(mts, i, n);
        AppendAssoc(c0, BodiesLines(mts[..i], n), BodyLines(mts[i], n));
      }
      TakeAll(mts);
    }

    /** Generator#define!: declares a class for the message and, inside it, its enums and nested classes. */
    method Define(mt: DescriptorProto)
      modifies this
      ensures n == old(n)
      ensures c == old(c) + ShellLines(mt, old(n))
      decreases MessageCount(mt), 4
    {
      ghost var c0 := c;
      Puts(None);
      Puts(Some("class " + mt.name));
      Indent(ShellBody(mt));
      Puts(Some("end"));
      Enclosed(c0, "", Line(n, "class " + mt.name), BlockLines(ShellBody(mt), n + 1), Line(n, "end"));
    }

    /** Generator#message!: reopens the message's class and writes its nested classes and its fields. */
    method Message(pkg: string, mt: DescriptorProto)
      modifies this
      ensures n == old(n)
      ensures c == old(c) + BodyLines(mt, old(n))
      decreases MessageCount(mt), 4
    {
      ghost var c0 := c;
      Puts(None);
      Puts(Some("class " + mt.name));
      Indent(MessageBody(pkg, mt));
      Puts(Some("end"));
      Enclosed(c0, "", Line(n, "class " + mt.name), BlockLines(MessageBody(pkg, mt), n + 1), Line(n, "end"));
    }

    /** Generator#enum!: a module for the enum with one constant per value. */
    method Enum(et: EnumDescriptorProto)
      modifies this
      ensures n == old(n)
      ensures c == old(c) + EnumLines(et, old(n))
      decreases 0, 4
    {
      ghost var c0 := c;
      Puts(None);
      Puts(Some("module " + et.name));
      Indent(EnumValues(et));
      Puts(Some("end"));
      Enclosed(c0, "", Line(n, "module " + et.name), BlockLines(EnumValues(et), n + 1), Line(n, "end"));
    }

    /** Generator#field!: the field's declaration line. The package is passed along but not used. */
    method Field(pkg: string, f: Field)
      modifies this
      ensures n == old(n)
      ensures c == old(c) + [Line(old(n), FieldDecl(f))]
    {
      Puts(Some(FieldDecl(f)));
    }

    /** Generator#ns!: runs the block inside one nested module per name. */
    method Ns(modules: seq<string>, blk: Block)
      modifies this
      ensures n == old(n)
      ensures c == old(c) + NsLines(modules, blk, old(n))
      decreases BlockWeight(blk) + 2 * |modules| + 1, 4
    {
      if modules == [] {
        ghost var c0 := c;
        RunBlock(blk);
        NsWroteBlock(c0, c, modules, blk, n);
      } else {
        ghost var c0 := c;
        Module(modules[0], modules[1..], blk);
        NsWroteModule(c0, c, modules, blk, n);
      }
    }

    /** The else branch of ns!: `module` and the first name, the other names one level deeper, then `end`. */
    method Module(name: string, rest: seq<string>, blk: Block)
      modifies this
      ensures n == old(n)
      ensures c == old(c) + [Line(old(n), "module " + name)] + NsLines(rest, blk, old(n) + 1) + [Line(old(n), "end")]
      decreases BlockWeight(blk) + 2 * |rest| + 2, 5
    {
      Puts(Some("module " + name));
      Indent(NsBody(rest, blk));
      Puts(Some("end"));
    }

    /** Generator#compile: the header, the require line, a blank line, then the file body inside the package modules. */
    method CompileFile(file: FileDescriptorProto)
      modifies this
      ensures n == old(n)
      ensures c == old(c) + FileLines(file, old(n))
    {
      ghost var c0 := c;
      Puts(Some(Header(file)));
      Puts(Some(RequireLine));
      Puts(None);
      Ns(PackageModules(file.package), FileBody(file));
      Headed(c0, Line(n, Header(file)), Line(n, RequireLine), "", NsLines(PackageModules(file.package), FileBody(file), n));
    }

    /**
     * Generator.compile: one response file per proto file of the request, in
     * order, each compiled by a fresh generator from depth 0 and named after
     * the proto file.
     */
    static method Compile(req: CodeGeneratorRequest) returns (resp: CodeGeneratorResponse)
      ensures resp.file == ResponsesFor(req.protoFile)
    {
      var files: seq<ResponseFile> := [];
      for i := 0 to |req.protoFile|
        invariant files == ResponsesFor(req.protoFile[..i])
      {
        var out := CompileProto(req.protoFile[i]);
        ResponsesForSnoc(req.protoFile, i);
        files := files + [out];
      }
      TakeAll(req.protoFile);
      resp := CodeGeneratorResponse(files);
    }

    /** The body of compile's loop: a fresh generator writes one file. */
    static method CompileProto(file: FileDescriptorProto) returns (out: ResponseFile)
      ensures out == ResponseFor(file)
    {
      var g := new Generator([]);
      g.CompileFile(file);
      EmptyPrefix(FileLines(file, 0));
      out := ResponseFile(OutputName(file.name), Content(g.c));
    }
  }
}
