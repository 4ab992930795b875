/**
 * What the plugin returns for one proto file: the name of the generated
 * Ruby file (File.basename with the `.proto` suffix dropped, plus `.pb.rb`)
 * and its content, the lines the generator wrote through IO#puts.
 */
module Output {
  import opened Text

  // ---------------------------------------------------------------- file content

  /** IO#puts of one line: a newline is added unless the text already ends with one. */
  function Terminated(line: string): (r: string)
    ensures |r| > 0 && r[|r| - 1] == '\n'
    ensures r == line || r == line + "\n"
    ensures line != [] && line[|line| - 1] == '\n' ==> r == line
    ensures (line == [] || line[|line| - 1] != '\n') ==> r == line + "\n"
  {
    if line != [] && line[|line| - 1] == '\n' then line else line + "\n"
  }

  /** Everything written to the StringIO, as `read` after `rewind` returns it. */
  function Content(lines: seq<string>): string
  {
    if lines == [] then "" else Terminated(lines[0]) + Content(lines[1..])
  }

  lemma {:induction false} ContentIsJoin(lines: seq<string>)
    requires forall i :: 0 <= i < |lines| ==> '\n' !in lines[i]
    ensures Content(lines) == JoinWith(lines + [""], "\n")
  {
    if lines != [] {
      var rest := lines[1..];
      ContentIsJoin(rest);
      assert lines[0] == [] || lines[0][|lines[0]| - 1] in lines[0];
      assert Terminated(lines[0]) == lines[0] + "\n";
      assert (lines + [""])[1..] == rest + [""];
    }
  }

  /**
   * The content loses nothing when no line holds a newline: splitting it at
   * the newlines gives the lines back, followed by the empty text after the
   * last newline.
   */
  lemma ContentSplitsBack(lines: seq<string>)
    requires forall i :: 0 <= i < |lines| ==> '\n' !in lines[i]
    ensures SplitAll(Content(lines), '\n') == lines + [""]
  {
    ContentIsJoin(lines);
    assert "\n" == ['\n'];
    SplitAllJoin(lines + [""], '\n');
  }

  lemma {:induction false} ContentConcat(a: seq<string>, b: seq<string>)
    ensures Content(a + b) == Content(a) + Content(b)
  {
    if a == [] {
      assert a + b == b;
    } else {
      assert (a + b)[0] == a[0];
      assert (a + b)[1..] == a[1..] + b;
      ContentConcat(a[1..], b);
    }
  }

  // ---------------------------------------------------------------- file names

  /** The path without its trailing slashes. */
  function DropTrailingSlashes(s: string): (r: string)
    ensures |r| <= |s| && r == s[..|r|]
    ensures r == [] || r[|r| - 1] != '/'
    ensures forall i :: |r| <= i < |s| ==> s[i] == '/'
  {
    if s != [] && s[|s| - 1] == '/' then DropTrailingSlashes(s[..|s| - 1]) else s
  }

  /** No character of `s` is a slash. */
  predicate NoSlash(s: string)
  {
    forall i :: 0 <= i < |s| ==> s[i] != '/'
  }

  /** The part after the last slash. */
  function AfterLastSlash(s: string): (r: string)
    ensures NoSlash(r)
    ensures |r| <= |s| && r == s[|s| - |r|..]
    ensures |r| < |s| ==> s[|s| - |r| - 1] == '/'
  {
    if s == [] then []
    else if s[|s| - 1] == '/' then []
    else AfterLastSlash(s[..|s| - 1]) + [s[|s| - 1]]
  }

  predicate EndsWith(s: string, suffix: string)
  {
    |suffix| <= |s| && s[|s| - |suffix|..] == suffix
  }

  /**
   * File.basename(path, suffix) on a POSIX path: the last component, with
   * trailing slashes ignored, and with `suffix` removed from its end when it
   * is there and is not the whole component. A path of slashes only is `/`.
   */
  function BaseName(path: string, suffix: string): (r: string)
    ensures r == "/" || NoSlash(r)
  {
    var t := DropTrailingSlashes(path);
    if path == [] then ""
    else if t == [] then "/"
    else
      var base := AfterLastSlash(t);
      if |base| > |suffix| && EndsWith(base, suffix) then base[..|base| - |suffix|]
      else base
  }

  /** `File.basename(name, ".proto") + ".pb.rb"`: the name of the generated file. */
  function OutputName(protoName: string): (r: string)
    ensures EndsWith(r, ".pb.rb")
  {
    BaseName(protoName, ".proto") + ".pb.rb"
  }

  /**
   * For `dir/stem.proto`, or `stem.proto` without a directory, the generated
   * file is `stem.pb.rb`, in no directory.
   */
  lemma OutputNameOfPath(dir: string, stem: string)
    requires dir == [] || dir[|dir| - 1] == '/'
    requires stem != [] && NoSlash(stem)
    ensures OutputName(dir + stem + ".proto") == stem + ".pb.rb"
  {
    var suffix := ".proto";
    assert NoSlash(suffix) && suffix[|suffix| - 1] == 'o';
    NoSlashConcat(stem, suffix);
    BaseNameOf(dir, stem, suffix);
  }

  lemma NoSlashConcat(a: string, b: string)
    requires NoSlash(a) && NoSlash(b)
    ensures NoSlash(a + b)
  {
    forall i | 0 <= i < |a + b| ensures (a + b)[i] != '/' {
      if i < |a| { assert (a + b)[i] == a[i]; } else { assert (a + b)[i] == b[i - |a|]; }
    }
  }

  /** The base name of `dir/stem + suffix` with the suffix removed is the stem. */
  lemma BaseNameOf(dir: string, stem: string, suffix: string)
    requires dir == [] || dir[|dir| - 1] == '/'
    requires stem != [] && suffix != [] && suffix[|suffix| - 1] != '/'
    requires NoSlash(stem + suffix)
    ensures BaseName(dir + stem + suffix, suffix) == stem
  {
    var base := stem + suffix;
    assert dir + stem + suffix == dir + base;
    LastComponentOf(dir, base);
    assert base[|base| - |suffix|..] == suffix;
    assert base[..|base| - |suffix|] == stem;
    BaseNameWhen(dir + base, suffix, base);
  }

  lemma BaseNameWhen(path: string, suffix: string, base: string)
    requires path != [] && DropTrailingSlashes(path) == path && AfterLastSlash(path) == base
    requires |base| > |suffix| && EndsWith(base, suffix)
    ensures BaseName(path, suffix) == base[..|base| - |suffix|]
  {
  }

  lemma LastComponentOf(dir: string, base: string)
    requires dir == [] || dir[|dir| - 1] == '/'
    requires base != [] && base[|base| - 1] != '/' && NoSlash(base)
    ensures DropTrailingSlashes(dir + base) == dir + base
    ensures AfterLastSlash(dir + base) == base
  {
    assert (dir + base)[|dir + base| - 1] == base[|base| - 1];
    AfterLastSlashOf(dir, base);
  }

  lemma {:induction false} AfterLastSlashOf(dir: string, base: string)
    requires dir == [] || dir[|dir| - 1] == '/'
    requires NoSlash(base)
    ensures AfterLastSlash(dir + base) == base
    decreases |base|
  {
    if base == [] {
      assert dir + base == dir;
    } else {
      var s := dir + base;
      var init := base[..|base| - 1];
      assert s[|s| - 1] == base[|base| - 1];
      assert s[..|s| - 1] == dir + init;
      assert NoSlash(init) by {
        forall i | 0 <= i < |init| ensures init[i] != '/' { assert init[i] == base[i]; }
      }
      assert s != [] && s[|s| - 1] != '/';
      assert AfterLastSlash(s) == AfterLastSlash(s[..|s| - 1]) + [s[|s| - 1]];
      AfterLastSlashOf(dir, init);
      assert AfterLastSlash(s) == init + [base[|base| - 1]];
      assert init + [base[|base| - 1]] == base;
    }
  }
}
