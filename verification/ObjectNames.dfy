// Object paths as they are typed: bare and quoted parts mixed, white space around them.
module ObjectNames {
  import opened Prelude
  import opened SqlText
  import opened IdentifierPath

  datatype Name = Bare(text: string) | Quoted(text: string)

  /** A bare part holds no dot and no quote. */
  predicate Typed(n: Name) {
    n.Bare? ==> '.' !in n.text && '"' !in n.text
  }

  function Spelled(n: Name): string {
    match n
    case Bare(text) => text
    case Quoted(text) => QuoteIdentifier(text)
  }

  function Path(names: seq<Name>): string
    requires names != []
  {
    if |names| == 1 then Spelled(names[0]) else Spelled(names[0]) + "." + Path(names[1..])
  }

  /** `part` is what the name stands for: a bare one in upper case, a quoted one as it is. */
  predicate StandsFor(n: Name, part: string) {
    match n
    case Quoted(text) => part == text
    case Bare(text) =>
      |part| == |text|
      && forall i :: 0 <= i < |text| ==>
           part[i] as int == if 'a' <= text[i] <= 'z' then text[i] as int - 32 else text[i] as int
  }

  predicate StandFor(names: seq<Name>, parts: seq<string>) {
    |parts| == |names| && forall i :: 0 <= i < |names| ==> StandsFor(names[i], parts[i])
  }

  lemma {:induction false} ReadsBare(text: string, rest: string) returns (part: string)
    requires Typed(Bare(text)) && (rest == [] || rest[0] == '.')
    ensures ReadBare(text + rest) == Some(Part(part, rest)) && StandsFor(Bare(text), part)
    decreases |text|
  {
    if text == [] {
      part := "";
      assert text + rest == rest;
    } else {
      assert text[0] in text;
      assert forall c :: c in text[1..] ==> c in text;
      var more := ReadsBare(text[1..], rest);
      assert (text + rest)[1..] == text[1..] + rest;
      part := [AsciiUpperChar(text[0])] + more;
      hide ReadBare;
      UpperNext(text, more);
    }
  }

  lemma UpperNext(text: string, more: string)
    requires text != [] && StandsFor(Bare(text[1..]), more)
    ensures StandsFor(Bare(text), [AsciiUpperChar(text[0])] + more)
  {
    var part := [AsciiUpperChar(text[0])] + more;
    forall i | 0 < i < |text|
      ensures part[i] == more[i - 1] && text[i] == text[1..][i - 1]
    {
    }
  }

  lemma ReadsName(n: Name, rest: string) returns (part: string)
    requires Typed(n) && (rest == [] || rest[0] == '.')
    ensures ReadPart(Spelled(n) + rest) == Some(Part(part, rest)) && StandsFor(n, part)
  {
    match n {
      case Bare(text) =>
        part := ReadsBare(text, rest);
        assert text != [] ==> text[0] in text;
        assert text + rest != [] ==> (text + rest)[0] != '"';
      case Quoted(text) =>
        part := text;
        ReadQuoted(text, rest);
    }
  }

  /** A path of any number of parts splits into what they stand for, if and only if none
      is empty. */
  lemma {:induction false} PathSplits(names: seq<Name>) returns (parts: seq<string>)
    requires names != [] && forall i :: 0 <= i < |names| ==> Typed(names[i])
    ensures StandFor(names, parts)
    ensures Split(Path(names)) == if exists i :: 0 <= i < |names| && names[i].text == "" then None else Some(parts)
    decreases |names|
  {
    hide ReadPart, Spelled, Typed;
    if |names| == 1 {
      var part := ReadsName(names[0], "");
      parts := [part];
      assert Spelled(names[0]) + "" == Spelled(names[0]);
    } else {
      var rest := Path(names[1..]);
      var part := ReadsName(names[0], "." + rest);
      var more := PathSplits(names[1..]);
      AppendAssociates(Spelled(names[0]), ".", rest);
      AppendSplits(".", rest);
      assert ("." + rest)[0] == '.';
      parts := [part] + more;
      assert forall i :: 0 < i < |names| ==> names[i] == names[1..][i - 1] && parts[i] == more[i - 1];
      assert forall i :: 0 <= i < |names[1..]| ==> names[1..][i] == names[i + 1];
    }
  }

  // ----- white space around a path -----

  predicate Blank(uni: Unicode, s: string) {
    forall i :: 0 <= i < |s| ==> uni.isWhitespace(s[i])
  }

  lemma {:induction false} TrimsStart(uni: Unicode, before: string, s: string)
    requires Blank(uni, before) && s != [] && !uni.isWhitespace(s[0])
    ensures TrimStart(uni, before + s) == s
  {
    if before == [] {
      assert before + s == s;
    } else {
      assert (before + s)[1..] == before[1..] + s;
      TrimsStart(uni, before[1..], s);
    }
  }

  lemma {:induction false} TrimsEnd(uni: Unicode, s: string, after: string)
    requires Blank(uni, after) && s != [] && !uni.isWhitespace(s[|s| - 1])
    ensures TrimEnd(uni, s + after) == s
    decreases |after|
  {
    if after == [] {
      assert s + after == s;
    } else {
      var n := |after| - 1;
      assert (s + after)[..|s + after| - 1] == s + after[..n] && (s + after)[|s + after| - 1] == after[n];
      TrimsEnd(uni, s, after[..n]);
    }
  }

  /** White space around a path is dropped. */
  lemma Trims(uni: Unicode, before: string, s: string, after: string)
    requires Blank(uni, before) && Blank(uni, after)
    requires s != [] && !uni.isWhitespace(s[0]) && !uni.isWhitespace(s[|s| - 1])
    ensures Trim(uni, before + s + after) == s
  {
    AppendAssociates(before, s, after);
    TrimsStart(uni, before, s + after);
    TrimsEnd(uni, s, after);
  }

  /** What a typed path names: one part an object of the given schema, two an object of the
      given database, three a full name; any other number of parts, or an empty part, is
      refused. */
  lemma TypedPath(uni: Unicode, names: seq<Name>, before: string, after: string, database: string, schema: string)
    returns (parts: seq<string>)
    requires names != [] && forall i :: 0 <= i < |names| ==> Typed(names[i])
    requires Blank(uni, before) && Blank(uni, after)
    requires Path(names) != [] && !uni.isWhitespace(Path(names)[0]) && !uni.isWhitespace(Path(names)[|Path(names)| - 1])
    ensures StandFor(names, parts)
    ensures ParseObjectPath(uni, before + Path(names) + after, database, schema)
         == if exists i :: 0 <= i < |names| && names[i].text == "" then None
            else if |names| == 1 then Some(ObjectRef(database, schema, parts[0]))
            else if |names| == 2 then Some(ObjectRef(database, parts[0], parts[1]))
            else if |names| == 3 then Some(ObjectRef(parts[0], parts[1], parts[2]))
            else None
  {
    parts := PathSplits(names);
    Trims(uni, before, Path(names), after);
    hide Path, StandsFor, Typed, Split, Trim;
  }
}
