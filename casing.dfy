/**
 * Generator#camelize: turns snake_case and slash-separated identifiers into
 * CamelCase scope tokens and passes SCREAMING_SNAKE constants through.
 *
 * The three regular-expression steps of the Ruby method are modelled one
 * function each. `^` and `$` are read as string anchors, which is exact for
 * input without a newline; letters are ASCII.
 */
module Casing {
  import opened Text

  // ---------------------------------------------------------------- character classes

  /** `[a-z\d]` */
  predicate IsLowerOrDigit(c: char) { IsLower(c) || IsDigit(c) }

  /** `[A-Z\d]` */
  predicate IsUpperOrDigit(c: char) { IsUpper(c) || IsDigit(c) }

  /** `[a-z\d]` under the case-insensitive flag, i.e. `[a-zA-Z\d]` */
  predicate IsWordChar(c: char) { IsLower(c) || IsUpper(c) || IsDigit(c) }

  predicate IsSeparator(c: char) { c == '_' || c == '/' }

  predicate IsWord(w: string) { forall i :: 0 <= i < |w| ==> IsWordChar(w[i]) }

  predicate NoSeparator(s: string) { forall i :: 0 <= i < |s| ==> !IsSeparator(s[i]) }

  /** `[A-Z\d]+` */
  predicate IsUpperRun(p: string) { p != [] && forall j :: 0 <= j < |p| ==> IsUpperOrDigit(p[j]) }

  /** `[A-Z\d]+(?:_[A-Z\d]+)*`: runs of capitals and digits joined by single underscores. */
  predicate IsUnderscoreRuns(s: string)
  {
    && |s| > 0 && s[0] != '_' && s[|s| - 1] != '_'
    && (forall i :: 0 <= i < |s| ==> IsUpperOrDigit(s[i]) || s[i] == '_')
    && (forall i :: 0 <= i < |s| - 1 ==> s[i] == '_' ==> s[i + 1] != '_')
  }

  /** `/^[A-Z\d]+(?:_[A-Z\d]+)+$/`: a SCREAMING_SNAKE constant, which has at least one underscore. */
  predicate IsScreamingSnake(s: string)
  {
    IsUnderscoreRuns(s) && '_' in s
  }

  // ---------------------------------------------------------------- the steps of camelize

  /** String#capitalize: the first character upcased and the rest downcased. */
  function Capitalize(w: string): (r: string)
    ensures |r| == |w|
    ensures IsWord(w) ==> IsWord(r)
    ensures DowncaseAll(r) == DowncaseAll(w)
    ensures r == [] || !IsLower(r[0])
    ensures w != [] ==> r[0] == Upcase(w[0])
    ensures forall i :: 1 <= i < |r| ==> !IsUpper(r[i])
  {
    if w == [] then [] else [Upcase(w[0])] + DowncaseAll(w[1..])
  }

  /** Length of the longest prefix matching `[a-z\d]*`. */
  function LowerRunLength(s: string): (k: nat)
    ensures k <= |s|
    ensures forall i :: 0 <= i < k ==> IsLowerOrDigit(s[i])
    ensures k == |s| || !IsLowerOrDigit(s[k])
  {
    if s == [] || !IsLowerOrDigit(s[0]) then 0 else 1 + LowerRunLength(s[1..])
  }

  /** Length of the longest prefix matching `[a-z\d]*` case-insensitively. */
  function WordRunLength(s: string): (k: nat)
    ensures k <= |s|
    ensures forall i :: 0 <= i < k ==> IsWordChar(s[i])
    ensures k == |s| || !IsWordChar(s[k])
  {
    if s == [] || !IsWordChar(s[0]) then 0 else 1 + WordRunLength(s[1..])
  }

  /** `sub` of the leading `[a-z\d]*` run by its capitalization. */
  function CapitalizeLeading(s: string): string
  {
    var k := LowerRunLength(s);
    Capitalize(s[..k]) + s[k..]
  }

  /**
   * `gsub!(/(?:_|(\/))([a-z\d]*)/i) { "#{$1}#{$2.capitalize}" }`: each `_` or
   * `/` together with the word after it is replaced by the capitalized word,
   * preceded by the `/` when the separator was one.
   */
  function CapitalizeSegments(s: string): string
    decreases |s|
  {
    if s == [] then []
    else if IsSeparator(s[0]) then
      var k := WordRunLength(s[1..]);
      (if s[0] == '/' then "/" else "") + Capitalize(s[1..1 + k]) + CapitalizeSegments(s[1 + k..])
    else [s[0]] + CapitalizeSegments(s[1..])
  }

  /** `gsub!('/', '::')` */
  function SlashesToScopes(s: string): string
  {
    if s == [] then [] else (if s[0] == '/' then "::" else [s[0]]) + SlashesToScopes(s[1..])
  }

  /** Generator#camelize. */
  function Camelize(term: string): string
  {
    if IsScreamingSnake(term) then term
    else SlashesToScopes(CapitalizeSegments(CapitalizeLeading(term)))
  }

  // ---------------------------------------------------------------- reference description

  /** The string with its first character upcased. */
  function UpcaseFirst(s: string): string
  {
    if s == [] then [] else [Upcase(s[0])] + s[1..]
  }

  /** A separator, `_` or `/`, and the word that follows it. */
  datatype Segment = Segment(sep: char, word: string)

  predicate WellFormedSegments(segs: seq<Segment>)
  {
    forall i :: 0 <= i < |segs| ==> IsSeparator(segs[i].sep) && IsWord(segs[i].word)
  }

  function SegmentsText(segs: seq<Segment>): string
  {
    if segs == [] then [] else [segs[0].sep] + segs[0].word + SegmentsText(segs[1..])
  }

  /** What a separator becomes in a CamelCase token: nothing for `_`, the scope operator for `/`. */
  function ScopeToken(sep: char): string
  {
    if sep == '/' then "::" else ""
  }

  function CamelSegments(segs: seq<Segment>): string
  {
    if segs == [] then [] else ScopeToken(segs[0].sep) + Capitalize(segs[0].word) + CamelSegments(segs[1..])
  }

  /** Removes every underscore. */
  function DropUnderscores(s: string): string
  {
    if s == [] then [] else (if s[0] == '_' then [] else [s[0]]) + DropUnderscores(s[1..])
  }

  // ---------------------------------------------------------------- helper facts

  /** The leading `[a-z\d]*` run capitalized is the string with its first letter upcased. */
  lemma {:induction false} CapitalizeLeadingIsUpcaseFirst(s: string)
    ensures CapitalizeLeading(s) == UpcaseFirst(s)
  {
    var k := LowerRunLength(s);
    if k > 0 {
      assert DowncaseAll(s[1..k]) == s[1..k];
      assert Capitalize(s[..k]) == [Upcase(s[0])] + s[1..k];
      assert s[1..k] + s[k..] == s[1..];
    } else if s != [] {
      assert Upcase(s[0]) == s[0];
    }
  }

  lemma {:induction false} WordRun(w: string, t: string)
    requires IsWord(w)
    requires t == [] || !IsWordChar(t[0])
    ensures WordRunLength(w + t) == |w|
    decreases |w|
  {
    if w == [] {
      assert w + t == t;
    } else {
      assert (w + t)[0] == w[0];
      assert (w + t)[1..] == w[1..] + t;
      WordRun(w[1..], t);
    }
  }

  lemma {:induction false} CapitalizeSegmentsSkipsPlain(a: string, b: string)
    requires NoSeparator(a)
    ensures CapitalizeSegments(a + b) == a + CapitalizeSegments(b)
    decreases |a|
  {
    if a == [] {
      assert a + b == b;
    } else {
      var t := a[1..];
      assert (a + b)[0] == a[0];
      assert (a + b)[1..] == t + b;
      assert NoSeparator(t) by {
        forall i | 0 <= i < |t| ensures !IsSeparator(t[i]) { assert t[i] == a[i + 1]; }
      }
      assert CapitalizeSegments(a + b) == [a[0]] + CapitalizeSegments(t + b);
      CapitalizeSegmentsSkipsPlain(t, b);
      ConsAppend(a, CapitalizeSegments(b));
    }
  }

  /** `[a[0]] + (a[1..] + b)` is `a + b`. */
  lemma ConsAppend<T>(a: seq<T>, b: seq<T>)
    requires a != []
    ensures [a[0]] + (a[1..] + b) == a + b
  {
    assert [a[0]] + a[1..] == a;
  }

  lemma {:induction false} SlashesToScopesConcat(a: string, b: string)
    ensures SlashesToScopes(a + b) == SlashesToScopes(a) + SlashesToScopes(b)
    decreases |a|
  {
    if a == [] {
      assert a + b == b;
    } else {
      assert (a + b)[0] == a[0];
      assert (a + b)[1..] == a[1..] + b;
      SlashesToScopesConcat(a[1..], b);
      var h := if a[0] == '/' then "::" else [a[0]];
      assert SlashesToScopes(a + b) == h + SlashesToScopes(a[1..] + b);
    }
  }

  lemma {:induction false} SlashesToScopesKeepsPlain(s: string)
    requires '/' !in s
    ensures SlashesToScopes(s) == s
  {
    if s != [] {
      assert s[0] in s;
      assert forall c :: c in s[1..] ==> c in s;
      SlashesToScopesKeepsPlain(s[1..]);
    }
  }

  lemma {:induction false} SlashesToScopesRemovesSlashes(s: string)
    ensures '/' !in SlashesToScopes(s)
    ensures '_' !in s ==> '_' !in SlashesToScopes(s)
  {
    if s != [] {
      assert s[0] in s;
      assert forall c :: c in s[1..] ==> c in s;
      SlashesToScopesRemovesSlashes(s[1..]);
    }
  }

  lemma {:induction false} SlashesToScopesDowncase(s: string)
    ensures SlashesToScopes(DowncaseAll(s)) == DowncaseAll(SlashesToScopes(s))
  {
    if s != [] {
      assert DowncaseAll(s)[1..] == DowncaseAll(s[1..]);
      SlashesToScopesDowncase(s[1..]);
      DowncaseAllConcat(if s[0] == '/' then "::" else [s[0]], SlashesToScopes(s[1..]));
    }
  }

  lemma {:induction false} CapitalizeSegmentsHasNoUnderscore(s: string)
    ensures '_' !in CapitalizeSegments(s)
    decreases |s|
  {
    if s != [] {
      if IsSeparator(s[0]) {
        var k := WordRunLength(s[1..]);
        var pre := if s[0] == '/' then "/" else "";
        CapitalizeSegmentsAtSeparator(s, k, pre);
        SeparatorWord(s, k);
        var c := Capitalize(s[1..1 + k]);
        CapitalizedWordHasNoSeparator(s[1..1 + k]);
        CapitalizeSegmentsHasNoUnderscore(s[1 + k..]);
        NotInConcat3('_', pre, c, CapitalizeSegments(s[1 + k..]));
      } else {
        CapitalizeSegmentsHasNoUnderscore(s[1..]);
      }
    }
  }

  /** What CapitalizeSegments does at a separator. */
  lemma CapitalizeSegmentsAtSeparator(s: string, k: nat, pre: string)
    requires s != [] && IsSeparator(s[0])
    requires k == WordRunLength(s[1..])
    requires pre == if s[0] == '/' then "/" else ""
    ensures CapitalizeSegments(s) == pre + Capitalize(s[1..1 + k]) + CapitalizeSegments(s[1 + k..])
  {
    var w, rest := s[1..1 + k], s[1 + k..];
    assert CapitalizeSegments(s) == (if s[0] == '/' then "/" else "") + Capitalize(w) + CapitalizeSegments(rest);
  }

  lemma HeadSplit<T>(x: T, w: seq<T>, rest: seq<T>)
    ensures ([x] + w + rest)[0] == x
    ensures ([x] + w + rest)[1..] == w + rest
    ensures ([x] + w + rest)[1..1 + |w|] == w
    ensures ([x] + w + rest)[1 + |w|..] == rest
  {
  }

  /** The word after a separator is a word. */
  lemma SeparatorWord(s: string, k: nat)
    requires s != [] && k == WordRunLength(s[1..])
    ensures IsWord(s[1..1 + k])
  {
    var t, w := s[1..], s[1..1 + k];
    forall i | 0 <= i < |w| ensures IsWordChar(w[i]) { assert w[i] == t[i]; }
  }

  lemma CapitalizedWordHasNoSeparator(w: string)
    requires IsWord(w)
    ensures '_' !in Capitalize(w) && '/' !in Capitalize(w)
  {
    var c := Capitalize(w);
    forall i | 0 <= i < |c| ensures c[i] != '_' && c[i] != '/' { assert IsWordChar(c[i]); }
  }

  /** A separator kept by the segment step becomes its scope token. */
  lemma SeparatorScope(sep: char, pre: string)
    requires IsSeparator(sep) && pre == if sep == '/' then "/" else ""
    ensures SlashesToScopes(pre) == ScopeToken(sep)
  {
    if sep == '/' {
      assert pre[1..] == [];
      assert SlashesToScopes(pre) == "::" + SlashesToScopes([]);
    }
  }

  lemma NotInConcat3(c: char, a: string, b: string, d: string)
    requires c !in a && c !in b && c !in d
    ensures c !in a + b + d
  {
  }

  lemma {:induction false} DropUnderscoresSkipsPlain(a: string, b: string)
    requires '_' !in a
    ensures DropUnderscores(a + b) == a + DropUnderscores(b)
    decreases |a|
  {
    if a == [] {
      assert a + b == b;
    } else {
      assert a[0] in a;
      assert forall c :: c in a[1..] ==> c in a;
      assert (a + b)[1..] == a[1..] + b;
      DropUnderscoresSkipsPlain(a[1..], b);
      assert DropUnderscores(a + b) == [a[0]] + DropUnderscores(a[1..] + b);
      assert [a[0]] + a[1..] == a;
    }
  }

  /** Up to case, replacing the segments only drops the underscores. */
  lemma {:induction false} CapitalizeSegmentsUpToCase(s: string)
    ensures DowncaseAll(CapitalizeSegments(s)) == DowncaseAll(DropUnderscores(s))
    decreases |s|
  {
    if s != [] {
      if IsSeparator(s[0]) {
        var k := WordRunLength(s[1..]);
        var w, rest := s[1..1 + k], s[1 + k..];
        var pre := if s[0] == '/' then "/" else "";
        DropUnderscoresAtSeparator(s, k, pre);
        CapitalizeSegmentsAtSeparator(s, k, pre);
        CapitalizeSegmentsUpToCase(rest);
        SegmentUpToCase(pre, w, CapitalizeSegments(rest), DropUnderscores(rest));
      } else {
        assert CapitalizeSegments(s) == [s[0]] + CapitalizeSegments(s[1..]);
        assert DropUnderscores(s) == [s[0]] + DropUnderscores(s[1..]);
        CapitalizeSegmentsUpToCase(s[1..]);
        DowncaseAllConcat([s[0]], CapitalizeSegments(s[1..]));
        DowncaseAllConcat([s[0]], DropUnderscores(s[1..]));
      }
    }
  }

  lemma DropUnderscoresAtSeparator(s: string, k: nat, pre: string)
    requires s != [] && IsSeparator(s[0])
    requires k == WordRunLength(s[1..])
    requires pre == if s[0] == '/' then "/" else ""
    ensures DropUnderscores(s) == pre + s[1..1 + k] + DropUnderscores(s[1 + k..])
  {
    var w, rest := s[1..1 + k], s[1 + k..];
    assert '_' !in w by {
      forall i | 0 <= i < |w| ensures w[i] != '_' { assert IsWordChar(w[i]); }
    }
    var head := if s[0] == '_' then [] else [s[0]];
    assert head == pre;
    assert DropUnderscores(s) == head + DropUnderscores(s[1..]);
    SplitAfterHead(s, k);
    DropUnderscoresSkipsPlain(w, rest);
    Reassociate(pre, w, DropUnderscores(rest));
  }

  lemma SplitAfterHead<T>(s: seq<T>, k: nat)
    requires 1 + k <= |s|
    ensures s[1..] == s[1..1 + k] + s[1 + k..]
  {
  }

  lemma Reassociate<T>(a: seq<T>, b: seq<T>, c: seq<T>)
    ensures a + (b + c) == a + b + c
  {
  }

  /** One replaced segment followed by text that agrees up to case agrees up to case. */
  lemma SegmentUpToCase(pre: string, w: string, x: string, y: string)
    requires DowncaseAll(x) == DowncaseAll(y)
    ensures DowncaseAll(pre + Capitalize(w) + x) == DowncaseAll(pre + w + y)
  {
    DowncaseAllConcat(pre + Capitalize(w), x);
    DowncaseAllConcat(pre, Capitalize(w));
    DowncaseAllConcat(pre + w, y);
    DowncaseAllConcat(pre, w);
  }

  lemma {:induction false} UpcaseFirstUpToCase(s: string)
    ensures DowncaseAll(DropUnderscores(UpcaseFirst(s))) == DowncaseAll(DropUnderscores(s))
  {
    if s != [] && s[0] != '_' {
      assert UpcaseFirst(s) == [Upcase(s[0])] + s[1..];
      assert DropUnderscores(UpcaseFirst(s)) == [Upcase(s[0])] + DropUnderscores(s[1..]);
      DowncaseAllConcat([Upcase(s[0])], DropUnderscores(s[1..]));
      DowncaseAllConcat([s[0]], DropUnderscores(s[1..]));
    }
  }

  /** If a string does not start with a lower-case letter, neither does its segment replacement. */
  lemma {:induction false} CapitalizeSegmentsFirst(s: string)
    requires s == [] || !IsLower(s[0])
    ensures var r := CapitalizeSegments(s); r == [] || !IsLower(r[0])
    decreases |s|
  {
    if s != [] && IsSeparator(s[0]) {
      var k := WordRunLength(s[1..]);
      if s[0] == '_' && k == 0 {
        assert s[1..] == [] || !IsWordChar(s[1]);
        CapitalizeSegmentsFirst(s[1..]);
      }
    }
  }

  lemma {:induction false} CamelizedFirst(s: string)
    requires !IsScreamingSnake(s)
    ensures var r := Camelize(s); r == [] || !IsLower(r[0])
  {
    CapitalizeLeadingIsUpcaseFirst(s);
    CapitalizeSegmentsFirst(UpcaseFirst(s));
  }

  // ---------------------------------------------------------------- properties of camelize

  /** Runs of capitals and digits joined by underscores match the passthrough pattern. */
  lemma {:induction false} UnderscoreRunsOfParts(parts: seq<string>)
    requires |parts| >= 1
    requires forall i :: 0 <= i < |parts| ==> IsUpperRun(parts[i])
    ensures IsUnderscoreRuns(JoinWith(parts, "_"))
    ensures |parts| >= 2 ==> '_' in JoinWith(parts, "_")
  {
    var a := parts[0];
    assert forall j :: 0 <= j < |a| ==> a[j] != '_' by {
      forall j | 0 <= j < |a| ensures a[j] != '_' { assert IsUpperOrDigit(a[j]); }
    }
    if |parts| >= 2 {
      var b := JoinWith(parts[1..], "_");
      UnderscoreRunsOfParts(parts[1..]);
      var s := a + "_" + b;
      assert JoinWith(parts, "_") == s;
      assert s[|a|] == '_';
      assert s[|s| - 1] == b[|b| - 1];
      forall i | 0 <= i < |s| ensures IsUpperOrDigit(s[i]) || s[i] == '_' {
        if i > |a| { assert s[i] == b[i - |a| - 1]; }
      }
      forall i | 0 <= i < |s| - 1 && s[i] == '_' ensures s[i + 1] != '_' {
        if i == |a| {
          assert s[i + 1] == b[0];
        } else if i > |a| {
          assert s[i] == b[i - |a| - 1];
          assert s[i + 1] == b[i - |a|];
        }
      }
    }
  }

  /** The fields between underscores of a tail of a run string are runs, the first one possibly empty. */
  lemma {:induction false} SplitRunsTail(t: string)
    requires forall i :: 0 <= i < |t| ==> IsUpperOrDigit(t[i]) || t[i] == '_'
    requires forall i :: 0 <= i < |t| - 1 ==> t[i] == '_' ==> t[i + 1] != '_'
    requires t == [] || t[|t| - 1] != '_'
    ensures var parts := SplitAll(t, '_');
            && (forall j :: 0 <= j < |parts[0]| ==> IsUpperOrDigit(parts[0][j]))
            && (parts[0] == [] ==> t == [] || t[0] == '_')
            && (forall i :: 1 <= i < |parts| ==> IsUpperRun(parts[i]))
    decreases |t|
  {
    if t != [] {
      var t' := t[1..];
      assert forall i :: 0 <= i < |t'| ==> t'[i] == t[i + 1];
      SplitRunsTail(t');
      var rest := SplitAll(t', '_');
      if t[0] == '_' {
        assert t' != [];
        assert t'[0] != '_';
        assert rest[0] != [];
        assert SplitAll(t, '_') == [""] + rest;
      } else {
        assert SplitAll(t, '_') == [[t[0]] + rest[0]] + rest[1..];
      }
    }
  }

  /** A SCREAMING_SNAKE constant is two or more runs of capitals and digits joined by underscores. */
  lemma {:induction false} ScreamingSnakeSplits(s: string)
    requires IsScreamingSnake(s)
    ensures var parts := SplitAll(s, '_');
            && |parts| >= 2
            && (forall i :: 0 <= i < |parts| ==> IsUpperRun(parts[i]))
            && JoinWith(parts, "_") == s
  {
    SplitRunsTail(s);
    SplitAllAtSeparator(s, '_');
    JoinSplitAll(s, '_');
  }

  /** camelize returns unchanged any string made of two or more `[A-Z\d]+` runs joined by `_`. */
  lemma {:induction false} CamelizeKeepsScreamingSnake(parts: seq<string>)
    requires |parts| >= 2
    requires forall i :: 0 <= i < |parts| ==> IsUpperRun(parts[i])
    ensures Camelize(JoinWith(parts, "_")) == JoinWith(parts, "_")
  {
    UnderscoreRunsOfParts(parts);
  }

  /**
   * On an identifier made of word characters, `_` and `/` that is not a
   * constant, camelize upcases the first character, drops every `_` and
   * capitalizes the word after it, and turns every `/` into `::` before the
   * capitalized word after it.
   */
  lemma {:induction false} CamelizeIdentifier(w0: string, segs: seq<Segment>)
    requires IsWord(w0) && WellFormedSegments(segs)
    requires !IsScreamingSnake(w0 + SegmentsText(segs))
    ensures Camelize(w0 + SegmentsText(segs)) == UpcaseFirst(w0) + CamelSegments(segs)
  {
    var t := SegmentsText(segs);
    var u := UpcaseFirst(w0);
    CapitalizeLeadingIsUpcaseFirst(w0 + t);
    UpcaseFirstOfIdentifier(w0, segs);
    CapitalizeSegmentsSkipsPlain(u, t);
    SlashesToScopesConcat(u, CapitalizeSegments(t));
    SlashesToScopesKeepsPlain(u);
    SegmentsCamelized(segs);
  }

  lemma {:induction false} UpcaseFirstOfIdentifier(w0: string, segs: seq<Segment>)
    requires IsWord(w0) && WellFormedSegments(segs)
    ensures UpcaseFirst(w0 + SegmentsText(segs)) == UpcaseFirst(w0) + SegmentsText(segs)
    ensures NoSeparator(UpcaseFirst(w0)) && '/' !in UpcaseFirst(w0)
  {
    var t := SegmentsText(segs);
    if w0 == [] {
      assert w0 + t == t;
      if t != [] {
        assert t[0] == segs[0].sep;
        assert Upcase(t[0]) == t[0];
      }
    } else {
      UpcaseFirstConcat(w0, t);
      UpcaseFirstOfWord(w0);
    }
  }

  lemma UpcaseFirstConcat(a: string, b: string)
    requires a != []
    ensures UpcaseFirst(a + b) == UpcaseFirst(a) + b
  {
    assert (a + b)[0] == a[0];
    assert (a + b)[1..] == a[1..] + b;
  }

  lemma UpcaseFirstOfWord(w: string)
    requires IsWord(w) && w != []
    ensures IsWord(UpcaseFirst(w))
    ensures NoSeparator(UpcaseFirst(w)) && '/' !in UpcaseFirst(w)
  {
    var u := UpcaseFirst(w);
    assert IsWordChar(u[0]) by { assert IsWordChar(w[0]); }
    forall i | 1 <= i < |u| ensures IsWordChar(u[i]) {
      assert u[i] == w[i];
    }
  }

  lemma {:induction false} SegmentsCamelized(segs: seq<Segment>)
    requires WellFormedSegments(segs)
    ensures SlashesToScopes(CapitalizeSegments(SegmentsText(segs))) == CamelSegments(segs)
  {
    if segs != [] {
      SegmentStep(segs);
      assert WellFormedSegments(segs[1..]) by {
        forall i | 0 <= i < |segs[1..]| ensures IsSeparator(segs[1..][i].sep) && IsWord(segs[1..][i].word) {
          assert segs[1..][i] == segs[i + 1];
        }
      }
      SegmentsCamelized(segs[1..]);
    }
  }

  /** The first segment of a well-formed list is camelized on its own. */
  lemma SegmentStep(segs: seq<Segment>)
    requires WellFormedSegments(segs) && segs != []
    ensures SlashesToScopes(CapitalizeSegments(SegmentsText(segs)))
            == ScopeToken(segs[0].sep) + Capitalize(segs[0].word)
               + SlashesToScopes(CapitalizeSegments(SegmentsText(segs[1..])))
  {
    var sep, w := segs[0].sep, segs[0].word;
    var rest := SegmentsText(segs[1..]);
    assert SegmentsText(segs) == [sep] + w + rest;
    if segs[1..] != [] {
      assert rest[0] == segs[1].sep;
    }
    CapitalizeSegmentsOfSegment(sep, w, rest);
    ScopesOfSegment(sep, w, CapitalizeSegments(rest));
  }

  /** A separator, a word and text that does not continue the word. */
  lemma CapitalizeSegmentsOfSegment(sep: char, w: string, rest: string)
    requires IsSeparator(sep) && IsWord(w)
    requires rest == [] || !IsWordChar(rest[0])
    ensures CapitalizeSegments([sep] + w + rest)
            == (if sep == '/' then "/" else "") + Capitalize(w) + CapitalizeSegments(rest)
  {
    var s := [sep] + w + rest;
    HeadSplit(sep, w, rest);
    WordRun(w, rest);
    CapitalizeSegmentsAtSeparator(s, |w|, if sep == '/' then "/" else "");
  }

  lemma ScopesOfSegment(sep: char, w: string, x: string)
    requires IsSeparator(sep) && IsWord(w)
    ensures SlashesToScopes((if sep == '/' then "/" else "") + Capitalize(w) + x)
            == ScopeToken(sep) + Capitalize(w) + SlashesToScopes(x)
  {
    var pre := if sep == '/' then "/" else "";
    SlashesToScopesConcat(pre + Capitalize(w), x);
    SlashesToScopesConcat(pre, Capitalize(w));
    CapitalizedWordHasNoSeparator(w);
    SlashesToScopesKeepsPlain(Capitalize(w));
    SeparatorScope(sep, pre);
  }

  /** Apart from a constant, the result of camelize has neither `_` nor `/`. */
  lemma {:induction false} CamelizeRemovesSeparators(s: string)
    requires !IsScreamingSnake(s)
    ensures '_' !in Camelize(s) && '/' !in Camelize(s)
  {
    CapitalizeSegmentsHasNoUnderscore(CapitalizeLeading(s));
    SlashesToScopesRemovesSlashes(CapitalizeSegments(CapitalizeLeading(s)));
  }

  /**
   * Apart from a constant, camelize changes nothing but letter case, the
   * underscores it drops and the slashes it turns into `::`.
   */
  lemma {:induction false} CamelizeChangesOnlyCase(s: string)
    requires !IsScreamingSnake(s)
    ensures DowncaseAll(Camelize(s)) == DowncaseAll(SlashesToScopes(DropUnderscores(s)))
  {
    CapitalizeLeadingIsUpcaseFirst(s);
    var x := CapitalizeSegments(UpcaseFirst(s));
    CapitalizeSegmentsUpToCase(UpcaseFirst(s));
    UpcaseFirstUpToCase(s);
    assert DowncaseAll(x) == DowncaseAll(DropUnderscores(s));
    SlashesToScopesDowncase(x);
    SlashesToScopesDowncase(DropUnderscores(s));
  }

  /** camelize is idempotent. */
  lemma {:induction false} CamelizeIdempotent(s: string)
    ensures Camelize(Camelize(s)) == Camelize(s)
  {
    if !IsScreamingSnake(s) {
      CamelizedIsFixed(s);
    }
  }

  /** Each step of camelize leaves a camelized identifier unchanged. */
  lemma CamelizedIsFixed(s: string)
    requires !IsScreamingSnake(s)
    ensures !IsScreamingSnake(Camelize(s))
    ensures CapitalizeLeading(Camelize(s)) == Camelize(s)
    ensures CapitalizeSegments(Camelize(s)) == Camelize(s)
    ensures SlashesToScopes(Camelize(s)) == Camelize(s)
  {
    var y := Camelize(s);
    CamelizeRemovesSeparators(s);
    CamelizedFirst(s);
    assert !IsScreamingSnake(y);
    CapitalizeLeadingIsUpcaseFirst(y);
    if y != [] {
      assert Upcase(y[0]) == y[0];
    }
    assert NoSeparator(y) by {
      forall i | 0 <= i < |y| ensures !IsSeparator(y[i]) { assert y[i] in y; }
    }
    CapitalizeSegmentsSkipsPlain(y, []);
    AppendNothing(y);
    SlashesToScopesKeepsPlain(y);
  }

  lemma AppendNothing<T>(y: seq<T>)
    ensures y + [] == y
  {
  }


}
