/**
 * Generator#field! and Generator#name_for: the label, name, type and default
 * tokens of one field, and the declaration line that joins them.
 */
module Fields {
  import opened Wrappers
  import opened Text
  import opened Casing
  import opened Descriptors

  // ---------------------------------------------------------------- name_for

  /** `gsub(/.*_/, "")`: everything up to and including the last underscore removed. */
  function AfterLastUnderscore(s: string): (r: string)
    ensures '_' !in r
    ensures |r| <= |s| && r == s[|s| - |r|..]
    ensures |r| < |s| ==> s[|s| - |r| - 1] == '_'
  {
    if s == [] then []
    else if s[|s| - 1] == '_' then []
    else AfterLastUnderscore(s[..|s| - 1]) + [s[|s| - 1]]
  }

  lemma {:induction false} AfterLastUnderscoreOf(p: string, w: string)
    requires '_' !in w
    ensures AfterLastUnderscore(p + "_" + w) == w
  {
    if w != [] {
      var s := p + "_" + w;
      assert s[..|s| - 1] == p + "_" + w[..|w| - 1];
      assert w[|w| - 1] in w;
      assert forall c :: c in w[..|w| - 1] ==> c in w;
      AfterLastUnderscoreOf(p, w[..|w| - 1]);
    }
  }

  /** Generator#name_for, given the constant's name: its part after the last underscore, downcased. */
  function NameFor(constName: string): string
  {
    DowncaseAll(AfterLastUnderscore(constName))
  }

  /** The label keyword of a field. */
  function LabelToken(l: Label): string
  {
    NameFor(LabelConstName(l))
  }

  lemma NameForOf(p: string, w: string)
    requires '_' !in w
    ensures NameFor(p + "_" + w) == DowncaseAll(w)
  {
    AfterLastUnderscoreOf(p, w);
  }

  /** The keyword for each label: `optional`, `required` or `repeated`. */
  function LabelKeyword(l: Label): string
  {
    match l
    case LabelOptional => "optional"
    case LabelRequired => "required"
    case LabelRepeated => "repeated"
  }

  /** name_for turns each Label constant into its keyword. */
  lemma LabelTokens(l: Label)
    ensures LabelToken(l) == LabelKeyword(l)
  {
    LabelSuffixPlain(l);
    assert "LABEL_" + LabelSuffix(l) == "LABEL" + "_" + LabelSuffix(l);
    NameForOf("LABEL", LabelSuffix(l));
    LabelSuffixDowncased(l);
  }

  lemma LabelSuffixPlain(l: Label)
    ensures '_' !in LabelSuffix(l)
  {
  }

  lemma LabelSuffixDowncased(l: Label)
    ensures DowncaseAll(LabelSuffix(l)) == LabelKeyword(l)
  {
  }


  /** The type token of a field without a `type_name`: `:` and the Type constant's lowercased suffix. */
  function ScalarTypeToken(t: FieldType): string
  {
    ":" + NameFor(TypeConstName(t))
  }

  /** The scalar keyword for each Type constant, as the protocol-buffer language spells it. */
  function ScalarKeyword(t: FieldType): string
  {
    match t
    case TypeDouble => "double"
    case TypeFloat => "float"
    case TypeInt64 => "int64"
    case TypeUint64 => "uint64"
    case TypeInt32 => "int32"
    case TypeFixed64 => "fixed64"
    case TypeFixed32 => "fixed32"
    case TypeBool => "bool"
    case TypeString => "string"
    case TypeGroup => "group"
    case TypeMessage => "message"
    case TypeBytes => "bytes"
    case TypeUint32 => "uint32"
    case TypeEnum => "enum"
    case TypeSfixed32 => "sfixed32"
    case TypeSfixed64 => "sfixed64"
    case TypeSint32 => "sint32"
    case TypeSint64 => "sint64"
  }

  /** name_for turns TYPE_SFIXED32 into `sfixed32`, and likewise for every other Type constant. */
  lemma ScalarTypeTokens(t: FieldType)
    ensures ScalarTypeToken(t) == ":" + ScalarKeyword(t)
  {
    TypeSuffixPlain(t);
    assert "TYPE_" + TypeSuffix(t) == "TYPE" + "_" + TypeSuffix(t);
    NameForOf("TYPE", TypeSuffix(t));
    TypeSuffixDowncased(t);
  }

  lemma TypeSuffixPlain(t: FieldType)
    ensures '_' !in TypeSuffix(t)
  {
  }

  lemma TypeSuffixDowncased(t: FieldType)
    ensures DowncaseAll(TypeSuffix(t)) == ScalarKeyword(t)
  {
    if t.TypeDouble? || t.TypeFloat? || t.TypeInt64? || t.TypeUint64? || t.TypeInt32? || t.TypeFixed64? {
      FloatAndWideSuffixes(t);
    } else if t.TypeFixed32? || t.TypeBool? || t.TypeString? || t.TypeGroup? || t.TypeMessage? || t.TypeBytes? {
      MiddleSuffixes(t);
    } else {
      LastSuffixes(t);
    }
  }

  lemma FloatAndWideSuffixes(t: FieldType)
    requires t.TypeDouble? || t.TypeFloat? || t.TypeInt64? || t.TypeUint64? || t.TypeInt32? || t.TypeFixed64?
    ensures DowncaseAll(TypeSuffix(t)) == ScalarKeyword(t)
  {
  }

  lemma MiddleSuffixes(t: FieldType)
    requires t.TypeFixed32? || t.TypeBool? || t.TypeString? || t.TypeGroup? || t.TypeMessage? || t.TypeBytes?
    ensures DowncaseAll(TypeSuffix(t)) == ScalarKeyword(t)
  {
  }

  lemma LastSuffixes(t: FieldType)
    requires t.TypeUint32? || t.TypeEnum? || t.TypeSfixed32? || t.TypeSfixed64? || t.TypeSint32? || t.TypeSint64?
    ensures DowncaseAll(TypeSuffix(t)) == ScalarKeyword(t)
  {
  }


  // ---------------------------------------------------------------- type references

  /** `gsub` of the leading `\.*` run by nothing, on a name without a newline: the leading dots removed. */
  function StripLeadingDots(s: string): (r: string)
    ensures |r| <= |s| && r == s[|s| - |r|..]
    ensures r == [] || r[0] != '.'
    ensures forall i :: 0 <= i < |s| - |r| ==> s[i] == '.'
  {
    if s != [] && s[0] == '.' then StripLeadingDots(s[1..]) else s
  }

  /** Each element camelized. */
  function CamelizeAll(parts: seq<string>): (r: seq<string>)
    ensures |r| == |parts|
    ensures forall i :: 0 <= i < |parts| ==> r[i] == Camelize(parts[i])
  {
    seq(|parts|, i requires 0 <= i < |parts| => Camelize(parts[i]))
  }

  /** The type token for a `type_name`: its dot-separated segments camelized and joined with `::`. */
  function TypeReference(typeName: string): string
  {
    JoinWith(CamelizeAll(Split(StripLeadingDots(typeName), '.')), "::")
  }

  /**
   * Leading dots make no difference: the fully-qualified `.a.b` and the
   * relative `a.b` give the same token.
   */
  lemma {:induction false} TypeReferenceIgnoresLeadingDots(dots: string, typeName: string)
    requires forall i :: 0 <= i < |dots| ==> dots[i] == '.'
    ensures TypeReference(dots + typeName) == TypeReference(typeName)
  {
    if dots != [] {
      assert (dots + typeName)[0] == '.';
      assert (dots + typeName)[1..] == dots[1..] + typeName;
      TypeReferenceIgnoresLeadingDots(dots[1..], typeName);
    } else {
      assert dots + typeName == typeName;
    }
  }

  /** A dotted path of non-empty, dot-free segments becomes its camelized segments joined with `::`. */
  lemma TypeReferenceOfPath(parts: seq<string>)
    requires |parts| >= 1
    requires forall i :: 0 <= i < |parts| ==> parts[i] != [] && '.' !in parts[i]
    ensures TypeReference(JoinWith(parts, ".")) == JoinWith(CamelizeAll(parts), "::")
  {
    var s := JoinWith(parts, ".");
    SplitAllJoin(parts, '.');
    assert JoinWith(parts, ".") == JoinWith(parts, ['.']);
    JoinHead(parts, ".");
    assert s[0] == parts[0][0];
    assert parts[0][0] in parts[0];
    assert StripLeadingDots(s) == s;
    assert DropTrailingEmpty(parts) == parts;
  }

  lemma JoinHead(parts: seq<string>, sep: string)
    requires |parts| >= 1
    ensures JoinWith(parts, sep) == parts[0] + (if |parts| == 1 then "" else sep + JoinWith(parts[1..], sep))
  {
  }

  /** The type token of a field: its type reference, or its scalar keyword. */
  function TypeToken(f: Field): string
  {
    match f.typeName
    case Some(tn) => TypeReference(tn)
    case None => ScalarTypeToken(f.fieldType.value)
  }

  // ---------------------------------------------------------------- defaults

  /** `gsub('"', '\"')`: a backslash before every double quote and nothing else escaped. */
  function EscapeQuotes(s: string): (r: string)
    ensures r == [] || r[0] != '"'
  {
    if s == [] then [] else (if s[0] == '"' then "\\\"" else [s[0]]) + EscapeQuotes(s[1..])
  }

  /** Reads an escaped text back: a backslash followed by a double quote stands for the quote. */
  function UnescapeQuotes(s: string): string
    decreases |s|
  {
    if s == [] then []
    else if |s| >= 2 && s[0] == '\\' && s[1] == '"' then "\"" + UnescapeQuotes(s[2..])
    else [s[0]] + UnescapeQuotes(s[1..])
  }

  /** Escaping loses nothing: the text comes back from the escaped form. */
  lemma {:induction false} EscapeQuotesRoundTrip(s: string)
    ensures UnescapeQuotes(EscapeQuotes(s)) == s
  {
    if s != [] {
      var e := EscapeQuotes(s);
      var rest := EscapeQuotes(s[1..]);
      EscapeQuotesRoundTrip(s[1..]);
      if s[0] == '"' {
        assert e == "\\\"" + rest;
        assert e[2..] == rest;
      } else {
        assert e == [s[0]] + rest;
        assert e[1..] == rest;
      }
    }
  }

  /** Every double quote of `r` has a backslash just before it. */
  predicate QuotesPreceded(r: string)
  {
    forall i :: 0 <= i < |r| && r[i] == '"' ==> i > 0 && r[i - 1] == '\\'
  }

  /** In escaped text every double quote has a backslash before it. */
  lemma {:induction false} EscapedQuotesArePreceded(s: string)
    ensures QuotesPreceded(EscapeQuotes(s))
  {
    if s != [] {
      var r := EscapeQuotes(s);
      var rest := EscapeQuotes(s[1..]);
      EscapedQuotesArePreceded(s[1..]);
      assert QuotesPreceded(rest);
      var h := if s[0] == '"' then "\\\"" else [s[0]];
      assert r == h + rest;
      forall i | 0 <= i < |r| && r[i] == '"' ensures i > 0 && r[i - 1] == '\\' {
        if i < |h| {
          assert r[i] == h[i];
          assert s[0] == '"' && i == 1;
          assert r[0] == '\\';
        } else {
          var j := i - |h|;
          assert r[i] == rest[j];
          assert 0 <= j < |rest| && rest[j] == '"';
          assert j > 0 && rest[j - 1] == '\\';
          assert r[i - 1] == rest[j - 1];
        }
      }
    }
  }

  /**
   * The `v` of `, :default => v`, present exactly when the field has a
   * default value: the enum member qualified by the type token for an enum,
   * the escaped text in double quotes for a string or bytes field, and the
   * text verbatim for every other type.
   */
  function DefaultExpr(f: Field, typeToken: string): Option<string>
  {
    match f.defaultValue
    case None => None
    case Some(v) =>
      if f.fieldType == Some(TypeEnum) then Some(typeToken + "::" + v)
      else if f.fieldType == Some(TypeString) || f.fieldType == Some(TypeBytes) then Some("\"" + EscapeQuotes(v) + "\"")
      else Some(v)
  }

  /** Reads a default expression back into the field's default value, or None when it has the wrong shape. */
  function ReadDefault(fieldType: Option<FieldType>, typeToken: string, expr: string): Option<string>
  {
    var qualifier := typeToken + "::";
    if fieldType == Some(TypeEnum) then
      if |qualifier| <= |expr| && expr[..|qualifier|] == qualifier then Some(expr[|qualifier|..]) else None
    else if fieldType == Some(TypeString) || fieldType == Some(TypeBytes) then
      if |expr| >= 2 && expr[0] == '"' && expr[|expr| - 1] == '"' then Some(UnescapeQuotes(expr[1..|expr| - 1])) else None
    else Some(expr)
  }

  /** A default expression is written exactly when there is a default, and the default can be read back from it. */
  lemma DefaultExprRoundTrip(f: Field, typeToken: string)
    ensures DefaultExpr(f, typeToken).Some? <==> f.defaultValue.Some?
    ensures f.defaultValue.Some? ==> ReadDefault(f.fieldType, typeToken, DefaultExpr(f, typeToken).value) == f.defaultValue
  {
    if f.defaultValue.Some? {
      var v := f.defaultValue.value;
      var e := DefaultExpr(f, typeToken).value;
      if f.fieldType == Some(TypeEnum) {
        assert e[..|typeToken + "::"|] == typeToken + "::";
        assert e[|typeToken + "::"|..] == v;
      } else if f.fieldType == Some(TypeString) || f.fieldType == Some(TypeBytes) {
        assert e[1..|e| - 1] == EscapeQuotes(v);
        EscapeQuotesRoundTrip(v);
      }
    }
  }

  /** The line field! writes: `label :name, type, number`, then `, :default => v` when there is a default. */
  function FieldDecl(f: Field): string
  {
    var typeToken := TypeToken(f);
    DeclLine(LabelToken(f.fieldLabel), f.name, typeToken, f.number, DefaultExpr(f, typeToken))
  }

  /** `"%s %s, %s, %d" % [label, ":" + name, type, number]`, followed by the default part. */
  function DeclLine(labelTok: string, name: string, typeTok: string, number: int, dflt: Option<string>): string
  {
    labelTok + " " + ":" + name + ", " + typeTok + ", " + IntToString(number) + DefaultSuffix(dflt)
  }

  /** The text after the number: `, :default => v` when there is a default, nothing otherwise. */
  function DefaultSuffix(dflt: Option<string>): string
  {
    match dflt
    case None => ""
    case Some(v) => "," + DefaultMarker + v
  }

  // ---------------------------------------------------------------- reading a declaration back

  /** What a declaration line says about its field. */
  datatype Declaration = Declaration(fieldLabel: Label, name: string, typeToken: string, number: int, defaultExpr: Option<string>)

  /** The label a keyword stands for. */
  function LabelOfToken(tok: string): (r: Option<Label>)
    ensures r.Some? ==> LabelKeyword(r.value) == tok
  {
    if tok == "optional" then Some(LabelOptional)
    else if tok == "required" then Some(LabelRequired)
    else if tok == "repeated" then Some(LabelRepeated)
    else None
  }

  lemma LabelOfKeyword(l: Label)
    ensures LabelOfToken(LabelKeyword(l)) == Some(l)
  {
  }

  /** What follows the number's comma when a field has a default. */
  const DefaultMarker: string := " :default => "

  /** A decimal integer as IntToString writes it. */
  predicate IsIntText(s: string)
  {
    |s| >= 1 && AllDigits(if s[0] == '-' then s[1..] else s)
  }

  /** The number and the optional default that end a declaration line. */
  function ParseNumberAndDefault(s: string): Option<(int, Option<string>)>
  {
    match SplitAtFirst(s, ',')
    case None => if IsIntText(s) then Some((ParseInt(s), None)) else None
    case Some((numText, tail)) =>
      if IsIntText(numText) && |tail| >= |DefaultMarker| && tail[..|DefaultMarker|] == DefaultMarker
      then Some((ParseInt(numText), Some(tail[|DefaultMarker|..])))
      else None
  }

  /**
   * Reads a line `label :name, type, number[, :default => v]` back into its
   * parts, or None when the line does not have that shape.
   */
  function ParseDecl(line: string): Option<Declaration>
  {
    match SplitAtFirst(line, ' ')
    case None => None
    case Some((labelTok, rest)) =>
      match LabelOfToken(labelTok)
      case None => None
      case Some(l) => ParseFieldName(l, rest)
  }

  function ParseFieldName(l: Label, s: string): Option<Declaration>
  {
    if s == [] || s[0] != ':' then None
    else match SplitAtFirst(s[1..], ',')
    case None => None
    case Some((name, rest)) => ParseTypeToken(l, name, rest)
  }

  function ParseTypeToken(l: Label, name: string, s: string): Option<Declaration>
  {
    if s == [] || s[0] != ' ' then None
    else match SplitAtFirst(s[1..], ',')
    case None => None
    case Some((typeTok, rest)) => ParseNumber(l, name, typeTok, rest)
  }

  function ParseNumber(l: Label, name: string, typeTok: string, s: string): Option<Declaration>
  {
    if s == [] || s[0] != ' ' then None
    else match ParseNumberAndDefault(s[1..])
    case None => None
    case Some((number, dflt)) => Some(Declaration(l, name, typeTok, number, dflt))
  }

  lemma IntTextOf(x: int)
    ensures IsIntText(IntToString(x)) && ParseInt(IntToString(x)) == x
    ensures ',' !in IntToString(x)
  {
    IntToStringRoundTrip(x);
    var r := IntToString(x);
    if r[0] == '-' {
      assert r == [r[0]] + r[1..];
      assert forall i :: 0 <= i < |r[1..]| ==> r[1..][i] != ',';
    } else {
      assert forall i :: 0 <= i < |r| ==> r[i] != ',';
    }
  }

  lemma NumberOnlyOf(x: int)
    ensures ParseNumberAndDefault(IntToString(x)) == Some((x, None))
  {
    IntTextOf(x);
  }

  lemma NumberWithDefaultOf(x: int, v: string)
    ensures ParseNumberAndDefault(IntToString(x) + "," + DefaultMarker + v) == Some((x, Some(v)))
  {
    IntTextOf(x);
    var n := IntToString(x);
    var tail := DefaultMarker + v;
    assert n + "," + DefaultMarker + v == n + [','] + tail;
    SplitAtFirstOf(n, tail, ',');
    assert tail[..|DefaultMarker|] == DefaultMarker;
    assert tail[|DefaultMarker|..] == v;
  }

  lemma NumberAndDefaultOf(x: int, dflt: Option<string>)
    ensures ParseNumberAndDefault(IntToString(x) + DefaultSuffix(dflt)) == Some((x, dflt))
  {
    match dflt
    case None =>
      assert IntToString(x) + DefaultSuffix(dflt) == IntToString(x);
      NumberOnlyOf(x);
    case Some(v) =>
      assert IntToString(x) + DefaultSuffix(dflt) == IntToString(x) + "," + DefaultMarker + v;
      NumberWithDefaultOf(x, v);
  }

  lemma LabelKeywordPlain(l: Label)
    ensures ' ' !in LabelKeyword(l)
  {
  }

  lemma ParseNumberOf(l: Label, name: string, tt: string, tail: string)
    ensures ParseNumber(l, name, tt, " " + tail) == match ParseNumberAndDefault(tail)
                                                   case None => None
                                                   case Some((number, dflt)) => Some(Declaration(l, name, tt, number, dflt))
  {
    assert (" " + tail)[1..] == tail;
  }

  lemma ParseTypeTokenOf(l: Label, name: string, tt: string, rest: string)
    requires ',' !in tt
    ensures ParseTypeToken(l, name, " " + tt + "," + rest) == ParseNumber(l, name, tt, rest)
  {
    assert (" " + tt + "," + rest)[1..] == tt + [','] + rest;
    SplitAtFirstOf(tt, rest, ',');
  }

  lemma ParseFieldNameOf(l: Label, name: string, rest: string)
    requires ',' !in name
    ensures ParseFieldName(l, ":" + name + "," + rest) == ParseTypeToken(l, name, rest)
  {
    assert (":" + name + "," + rest)[1..] == name + [','] + rest;
    SplitAtFirstOf(name, rest, ',');
  }

  lemma ParseDeclOf(l: Label, rest: string)
    ensures ParseDecl(LabelKeyword(l) + " " + rest) == ParseFieldName(l, rest)
  {
    LabelKeywordPlain(l);
    assert LabelKeyword(l) + " " + rest == LabelKeyword(l) + [' '] + rest;
    SplitAtFirstOf(LabelKeyword(l), rest, ' ');
    LabelOfKeyword(l);
  }

  /**
   * A declaration line loses nothing: its label, name, type token, number
   * and default expression can all be read back, as long as the name and the
   * type token hold no comma.
   */
  lemma DeclLineRoundTrip(l: Label, name: string, tt: string, number: int, dflt: Option<string>)
    requires ',' !in name && ',' !in tt
    ensures ParseDecl(DeclLine(LabelKeyword(l), name, tt, number, dflt)) == Some(Declaration(l, name, tt, number, dflt))
  {
    var tail := IntToString(number) + DefaultSuffix(dflt);
    var line := DeclLine(LabelKeyword(l), name, tt, number, dflt);
    DeclTextOf(l, name, tt, tail, line);
    NumberAndDefaultOf(number, dflt);
  }

  lemma DeclTextOf(l: Label, name: string, tt: string, tail: string, line: string)
    requires ',' !in name && ',' !in tt
    requires line == LabelKeyword(l) + " " + ":" + name + ", " + tt + ", " + tail
    ensures ParseDecl(line) == ParseNumber(l, name, tt, " " + tail)
  {
    var afterName := " " + tt + "," + (" " + tail);
    var afterLabel := ":" + name + "," + afterName;
    assert line == LabelKeyword(l) + " " + afterLabel;
    ParseDeclOf(l, afterLabel);
    ParseFieldNameOf(l, name, afterName);
    ParseTypeTokenOf(l, name, tt, " " + tail);
  }

  /** field!'s line read back gives the field's label, name, number, and its type and default tokens. */
  lemma FieldDeclRoundTrip(f: Field)
    requires ',' !in f.name && ',' !in TypeToken(f)
    ensures ParseDecl(FieldDecl(f)) == Some(Declaration(f.fieldLabel, f.name, TypeToken(f), f.number, DefaultExpr(f, TypeToken(f))))
  {
    LabelTokens(f.fieldLabel);
    DeclLineRoundTrip(f.fieldLabel, f.name, TypeToken(f), f.number, DefaultExpr(f, TypeToken(f)));
  }
}
