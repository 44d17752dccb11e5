/**
  The text helpers of the TypeScript generator: enum constant names, comments
  derived from camelCase names, descriptions, indentation and import lines.
  Letters are ASCII; `isupper`, `upper` and `lower` act on 'A'..'Z' and 'a'..'z'.
 */
module HelperStrings {
  import opened Wrappers
  import opened SchemaModel

  predicate IsUpper(c: char) { 'A' <= c <= 'Z' }
  predicate IsLower(c: char) { 'a' <= c <= 'z' }

  function ToUpper(c: char): (r: char)
    ensures !IsLower(r)
  {
    if IsLower(c) then (c as int - 32) as char else c
  }

  function ToLower(c: char): (r: char)
    ensures !IsUpper(r)
  {
    if IsUpper(c) then (c as int + 32) as char else c
  }

  function UpperStr(s: string): (r: string)
    ensures |r| == |s|
    ensures forall i :: 0 <= i < |s| ==> r[i] == ToUpper(s[i])
  {
    seq(|s|, i requires 0 <= i < |s| => ToUpper(s[i]))
  }

  function LowerStr(s: string): (r: string)
    ensures |r| == |s|
    ensures forall i :: 0 <= i < |s| ==> r[i] == ToLower(s[i])
  {
    seq(|s|, i requires 0 <= i < |s| => ToLower(s[i]))
  }

  function CountUpper(s: string): nat {
    if s == [] then 0 else (if IsUpper(s[0]) then 1 else 0) + CountUpper(s[1..])
  }

  /** `s` with every occurrence of `c` removed. */
  function Erase(s: string, c: char): string {
    if s == [] then [] else (if s[0] == c then [] else [s[0]]) + Erase(s[1..], c)
  }

  lemma {:induction false} EraseAppend(s: string, t: string, c: char)
    ensures Erase(s + t, c) == Erase(s, c) + Erase(t, c)
  {
    if s == [] {
      assert s + t == t;
    } else {
      assert (s + t)[0] == s[0];
      assert (s + t)[1..] == s[1..] + t;
      EraseAppend(s[1..], t, c);
    }
  }

  /** `''.join('_' + x if x.isupper() else x for x in s)` */
  function Underscored(s: string): (r: string)
    ensures |r| == |s| + CountUpper(s)
    ensures forall i :: 0 <= i < |r| ==> r[i] == '_' || r[i] in s
  {
    if s == [] then []
    else (if IsUpper(s[0]) then ['_', s[0]] else [s[0]]) + Underscored(s[1..])
  }

  /** `''.join(' ' + x.lower() if x.isupper() else x for x in s)` */
  function Spaced(s: string): (r: string)
    ensures |r| == |s| + CountUpper(s)
    ensures forall i :: 0 <= i < |r| ==> !IsUpper(r[i])
  {
    if s == [] then []
    else (if IsUpper(s[0]) then [' ', ToLower(s[0])] else [s[0]]) + Spaced(s[1..])
  }

  /**
    Where `s[i]` lands once a mark is inserted before every upper-case letter
    of `s`: after the `i` characters before it and one mark per upper-case
    letter up to and including it.
   */
  function Slot(s: string, i: nat): nat
    requires i < |s|
  {
    i + CountUpper(s[..i + 1])
  }

  /** Counting the upper-case letters of a prefix one letter at a time from the front. */
  lemma CountUpperStep(s: string, i: int)
    requires 0 <= i < |s|
    ensures CountUpper(s[..i + 1]) == (if IsUpper(s[0]) then 1 else 0) + CountUpper(s[1..][..i])
  {
    assert s[..i + 1][0] == s[0];
    assert s[..i + 1][1..] == s[1..][..i];
  }

  /** `Underscored` puts `s[i]` at its slot, and an underscore right before each upper-case letter. */
  lemma {:induction false} UnderscoredAt(s: string, i: nat)
    requires i < |s|
    ensures Slot(s, i) < |Underscored(s)| && Underscored(s)[Slot(s, i)] == s[i]
    ensures IsUpper(s[i]) ==> Underscored(s)[Slot(s, i) - 1] == '_'
  {
    var head := if IsUpper(s[0]) then ['_', s[0]] else [s[0]];
    assert Underscored(s) == head + Underscored(s[1..]);
    CountUpperStep(s, i);
    if i > 0 {
      UnderscoredAt(s[1..], i - 1);
    }
  }

  lemma UnderscoredPlacement(s: string)
    ensures forall i {:trigger Slot(s, i)} :: 0 <= i < |s| ==>
              Slot(s, i) < |Underscored(s)| && Underscored(s)[Slot(s, i)] == s[i] &&
              (IsUpper(s[i]) ==> Underscored(s)[Slot(s, i) - 1] == '_')
  {
    forall i | 0 <= i < |s| {
      UnderscoredAt(s, i);
    }
  }

  /** `Spaced` puts `s[i]`, lower-cased, at its slot, and a space right before each upper-case letter. */
  lemma {:induction false} SpacedAt(s: string, i: nat)
    requires i < |s|
    ensures Slot(s, i) < |Spaced(s)| && Spaced(s)[Slot(s, i)] == ToLower(s[i])
    ensures IsUpper(s[i]) ==> Spaced(s)[Slot(s, i) - 1] == ' '
  {
    var head := if IsUpper(s[0]) then [' ', ToLower(s[0])] else [s[0]];
    assert Spaced(s) == head + Spaced(s[1..]);
    CountUpperStep(s, i);
    if i > 0 {
      SpacedAt(s[1..], i - 1);
    }
  }

  lemma SpacedPlacement(s: string)
    ensures forall i {:trigger Slot(s, i)} :: 0 <= i < |s| ==>
              Slot(s, i) < |Spaced(s)| && Spaced(s)[Slot(s, i)] == ToLower(s[i]) &&
              (IsUpper(s[i]) ==> Spaced(s)[Slot(s, i) - 1] == ' ')
  {
    forall i | 0 <= i < |s| {
      SpacedAt(s, i);
    }
  }

  /**
    Enum constant name: the name upper-cased, with an underscore before every
    upper-case letter after the first (`TransferFlags` gives `TRANSFER_FLAGS`).
    An empty name raises an IndexError.
   */
  function CreateEnumName(name: string): (r: Result<string, Failure>)
    ensures r.Failure? <==> name == ""
    ensures r.Failure? ==> r.error == IndexError
    ensures r.Success? ==>
              |r.value| == |name| + CountUpper(name[1..]) &&
              r.value[0] == ToUpper(name[0]) &&
              forall i :: 0 <= i < |r.value| ==> !IsLower(r.value[i])
    ensures r.Success? ==>
              var tail := name[1..];
              forall i {:trigger Slot(tail, i)} :: 0 <= i < |tail| ==>
                1 + Slot(tail, i) < |r.value| && r.value[1 + Slot(tail, i)] == ToUpper(tail[i]) &&
                (IsUpper(tail[i]) ==> r.value[Slot(tail, i)] == '_')
  {
    if name == [] then Failure(IndexError)
    else
      UnderscoredPlacement(name[1..]);
      Success(UpperStr([name[0]] + Underscored(name[1..])))
  }

  lemma {:induction false} UnderscoredErasure(s: string)
    ensures Erase(Underscored(s), '_') == Erase(s, '_')
  {
    if s != [] {
      var head := if IsUpper(s[0]) then ['_', s[0]] else [s[0]];
      EraseAppend(head, Underscored(s[1..]), '_');
      UnderscoredErasure(s[1..]);
      if IsUpper(s[0]) {
        assert Erase(head, '_') == Erase([s[0]], '_') by {
          assert head[1..] == [s[0]];
        }
      }
      assert s == [s[0]] + s[1..];
      EraseAppend([s[0]], s[1..], '_');
    }
  }

  lemma {:induction false} EraseUpper(s: string)
    ensures Erase(UpperStr(s), '_') == UpperStr(Erase(s, '_'))
  {
    if s != [] {
      assert UpperStr(s) == [ToUpper(s[0])] + UpperStr(s[1..]);
      EraseAppend([ToUpper(s[0])], UpperStr(s[1..]), '_');
      EraseUpper(s[1..]);
      assert s == [s[0]] + s[1..];
      EraseAppend([s[0]], s[1..], '_');
      var e := Erase(s[1..], '_');
      if s[0] != '_' {
        assert UpperStr([s[0]] + e) == [ToUpper(s[0])] + UpperStr(e);
      }
    }
  }

  /**
    Apart from the underscores it inserts, the enum name is the original name
    upper-cased, letter for letter and in order.
   */
  lemma EnumNameKeepsLetters(name: string)
    requires name != ""
    ensures Erase(CreateEnumName(name).value, '_') == Erase(UpperStr(name), '_')
  {
    var body := [name[0]] + Underscored(name[1..]);
    EraseUpper(body);
    EraseUpper(name);
    EraseAppend([name[0]], Underscored(name[1..]), '_');
    UnderscoredErasure(name[1..]);
    assert name == [name[0]] + name[1..];
    EraseAppend([name[0]], name[1..], '_');
  }

  /**
    Comment text from a camelCase name: the first letter capitalised and a
    space before every later upper-case letter, which is lower-cased
    (`maxFee` gives `Max fee`). An empty name raises an IndexError.
   */
  function GetCommentFromName(name: string): (r: Result<string, Failure>)
    ensures r.Failure? <==> name == ""
    ensures r.Failure? ==> r.error == IndexError
    ensures r.Success? ==>
              |r.value| == |name| + CountUpper(name[1..]) &&
              r.value[0] == ToUpper(name[0]) &&
              forall i :: 1 <= i < |r.value| ==> !IsUpper(r.value[i])
    ensures r.Success? ==>
              var tail := name[1..];
              forall i {:trigger Slot(tail, i)} :: 0 <= i < |tail| ==>
                1 + Slot(tail, i) < |r.value| && r.value[1 + Slot(tail, i)] == ToLower(tail[i]) &&
                (IsUpper(tail[i]) ==> r.value[Slot(tail, i)] == ' ')
  {
    if name == [] then Failure(IndexError)
    else
      SpacedPlacement(name[1..]);
      Success([ToUpper(name[0])] + Spaced(name[1..]))
  }

  lemma {:induction false} SpacedErasure(s: string)
    ensures Erase(Spaced(s), ' ') == Erase(LowerStr(s), ' ')
  {
    if s != [] {
      var head := if IsUpper(s[0]) then [' ', ToLower(s[0])] else [s[0]];
      EraseAppend(head, Spaced(s[1..]), ' ');
      SpacedErasure(s[1..]);
      if IsUpper(s[0]) {
        assert Erase(head, ' ') == Erase([ToLower(s[0])], ' ') by {
          assert head[1..] == [ToLower(s[0])];
        }
      }
      assert LowerStr(s) == [ToLower(s[0])] + LowerStr(s[1..]);
      EraseAppend([ToLower(s[0])], LowerStr(s[1..]), ' ');
    }
  }

  /** Apart from the spaces it inserts, the comment spells the name's tail in lower case. */
  lemma CommentKeepsLetters(name: string)
    requires name != ""
    ensures Erase(GetCommentFromName(name).value[1..], ' ') == Erase(LowerStr(name[1..]), ' ')
  {
    assert GetCommentFromName(name).value[1..] == Spaced(name[1..]);
    SpacedErasure(name[1..]);
  }

  predicate EndsWithChar(s: string, c: char) { |s| > 0 && s[|s| - 1] == c }

  function AppendPeriodIfNeeded(line: string): (r: string)
    ensures EndsWithChar(r, '.')
    ensures r == line <==> EndsWithChar(line, '.')
    ensures r == line || r == line + "."
  {
    if EndsWithChar(line, '.') then line else line + "."
  }

  lemma AppendPeriodIdempotent(line: string)
    ensures AppendPeriodIfNeeded(AppendPeriodIfNeeded(line)) == AppendPeriodIfNeeded(line)
  {
  }

  /** A description with its first letter capitalised and a closing period. */
  function FormatDescription(description: string): (r: Result<string, Failure>)
    ensures r.Failure? <==> description == ""
    ensures r.Failure? ==> r.error == IndexError
    ensures r.Success? ==>
              |r.value| == |description| + (if EndsWithChar(description, '.') then 0 else 1) &&
              r.value[0] == ToUpper(description[0]) &&
              r.value[1..|description|] == description[1..] && EndsWithChar(r.value, '.')
  {
    if description == [] then Failure(IndexError)
    else Success(AppendPeriodIfNeeded([ToUpper(description[0])] + description[1..]))
  }

  /** A doc comment for a non-empty comment, nothing for an empty one. */
  function GetCommentsIfPresent(comment: string): (r: Option<string>)
    ensures r.None? <==> comment == ""
    ensures r.Some? ==> |r.value| > 7 && r.value[..4] == "/** " && r.value[|r.value| - 4..] == ". */"
    ensures r.Some? ==> r.value[4..|r.value| - 3] == FormatDescription(comment).value
  {
    if comment != [] then Some("/** " + FormatDescription(comment).value + " */") else None
  }

  /** Characters `str.strip()` removes. */
  predicate IsSpace(c: char) {
    c == ' ' || '\t' <= c <= '\r' || '\U{1c}' <= c <= '\U{1f}'
  }

  function LeadingSpaces(s: string): (k: nat)
    ensures k <= |s|
    ensures forall i :: 0 <= i < k ==> IsSpace(s[i])
    ensures k < |s| ==> !IsSpace(s[k])
  {
    if s != [] && IsSpace(s[0]) then 1 + LeadingSpaces(s[1..]) else 0
  }

  function TrailingSpaces(s: string): (k: nat)
    ensures k <= |s|
    ensures forall i :: |s| - k <= i < |s| ==> IsSpace(s[i])
    ensures k < |s| ==> !IsSpace(s[|s| - 1 - k])
  {
    if s != [] && IsSpace(s[|s| - 1]) then 1 + TrailingSpaces(s[..|s| - 1]) else 0
  }

  /** `s.strip()`: the longest slice of `s` that neither starts nor ends with white space. */
  function Strip(s: string): (r: string)
    ensures r == "" || (!IsSpace(r[0]) && !IsSpace(r[|r| - 1]))
    ensures exists i, j :: 0 <= i <= j <= |s| && r == s[i..j] &&
              (forall k :: 0 <= k < i ==> IsSpace(s[k])) && (forall k :: j <= k < |s| ==> IsSpace(s[k]))
  {
    var lead := LeadingSpaces(s);
    if lead == |s| then
      assert s[|s|..|s|] == "";
      ""
    else
      var trail := TrailingSpaces(s);
      assert !IsSpace(s[lead]);
      s[lead..|s| - trail]
  }

  /**
    The comment of an attribute: its stripped `comments`, or, when that is
    empty, the text derived from its `name`; formatted as a doc comment when
    asked. A nameless attribute without comments has none; an empty name
    raises an IndexError.
   */
  function GetCommentsFromAttribute(a: Attribute, formatted: bool := true): (r: Result<Option<string>, Failure>)
    ensures var stripped := if a.comments.Some? then Strip(a.comments.value) else "";
            (r.Failure? <==> stripped == "" && a.name == Some("")) &&
            (stripped != "" && formatted ==> r == Success(GetCommentsIfPresent(stripped))) &&
            (r.Failure? ==> r.error == IndexError) &&
            (stripped != "" && !formatted ==> r == Success(Some(stripped))) &&
            (stripped == "" && a.name.Some? && a.name.value != "" ==>
               r == Success(if formatted then GetCommentsIfPresent(GetCommentFromName(a.name.value).value)
                            else Some(GetCommentFromName(a.name.value).value))) &&
            (stripped == "" && a.name.None? ==> r == Success(if formatted then None else Some(""))) &&
            (!formatted && r.Success? ==> r.value.Some?) &&
            (formatted && r.Success? ==> (r.value.None? <==> stripped == "" && a.name.None?))
  {
    var comment := if a.comments.Some? then Strip(a.comments.value) else "";
    var derived :=
      if comment == "" && a.name.Some? then GetCommentFromName(a.name.value) else Success(comment);
    match derived
    case Failure(e) => Failure(e)
    case Success(c) => if formatted then Success(GetCommentsIfPresent(c)) else Success(Some(c))
  }

  function Spaces(n: nat): (r: string)
    ensures |r| == n && forall i :: 0 <= i < n ==> r[i] == ' '
  {
    seq(n, i => ' ')
  }

  /** `' ' * 4 * n + code`; a count of zero or less adds nothing. */
  function Indent(code: string, n: int := 1): (r: string)
    ensures |r| == 4 * (if n > 0 then n else 0) + |code|
    ensures r[|r| - |code|..] == code
    ensures forall i :: 0 <= i < |r| - |code| ==> r[i] == ' '
  {
    Spaces(4 * (if n > 0 then n else 0)) + code
  }

  /** The part of a type before its first `<`. */
  function BaseType(t: string): (r: string)
    ensures |r| <= |t| && r == t[..|r|]
    ensures '<' !in r
    ensures |r| < |t| ==> t[|r|] == '<'
  {
    if t == [] || t[0] == '<' then [] else [t[0]] + BaseType(t[1..])
  }

  /** The Java import a collection type needs, if any. */
  function GetImportForType(dataType: string): (r: Option<string>)
    ensures r.Some? <==> BaseType(dataType) in {"ArrayList", "EnumSet"}
    ensures r.Some? ==> r.value == "java.util." + BaseType(dataType)
  {
    var actualType := BaseType(dataType);
    if actualType == "ArrayList" then Some("java.util.ArrayList")
    else if actualType == "EnumSet" then Some("java.util.EnumSet")
    else None
  }

  /** File name of a generated class. */
  function GetClassTypeFromName(typeName: string): (r: string)
    ensures |r| == |typeName| + 3 && r[..|typeName|] == typeName && r[|typeName|..] == ".ts"
  {
    typeName + ".ts"
  }

  /** `s.replace('[]', '')`: every `[]` removed in one left-to-right pass. */
  function RemoveBrackets(s: string): string {
    if |s| < 2 then s
    else if s[0] == '[' && s[1] == ']' then RemoveBrackets(s[2..])
    else [s[0]] + RemoveBrackets(s[1..])
  }

  lemma {:induction false} RemoveBracketsKeepsPlain(p: string, s: string)
    requires '[' !in p
    ensures RemoveBrackets(p + s) == p + RemoveBrackets(s)
  {
    if p != [] {
      assert (p + s)[0] == p[0] && (p + s)[1..] == p[1..] + s;
      RemoveBracketsKeepsPlain(p[1..], s);
    } else {
      assert p + s == s;
    }
  }

  lemma RemoveBracketsPlain(p: string)
    requires '[' !in p
    ensures RemoveBrackets(p) == p
  {
    RemoveBracketsKeepsPlain(p, "");
    assert p + "" == p;
  }

  /** The `{ T } from './T'` clause of an import, with every `[]` dropped. */
  function FormatImport(attributeType: string): (r: string)
  {
    RemoveBrackets("{ " + attributeType + " } from './" + attributeType + "'")
  }

  /** A plain type name is imported as itself. */
  lemma FormatImportPlain(t: string)
    requires '[' !in t
    ensures FormatImport(t) == "{ " + t + " } from './" + t + "'"
  {
    RemoveBracketsPlain("{ " + t + " } from './" + t + "'");
  }

  /** An array type `T[]` is imported as its element type `T`. */
  lemma FormatImportArray(t: string)
    requires '[' !in t
    ensures FormatImport(t + "[]") == "{ " + t + " } from './" + t + "'"
  {
    var head := "{ " + t;
    var mid := " } from './" + t;
    assert "{ " + (t + "[]") + " } from './" + (t + "[]") + "'" == head + ("[]" + (mid + ("[]" + "'")));
    RemoveBracketsKeepsPlain(head, "[]" + (mid + ("[]" + "'")));
    RemoveBracketsKeepsPlain(mid, "[]" + "'");
    assert RemoveBrackets("[]" + "'") == "'";
    assert head + (mid + "'") == "{ " + t + " } from './" + t + "'";
  }
}
