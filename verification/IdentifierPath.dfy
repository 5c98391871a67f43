// Splitting `a."b.c".d` into identifiers, the inverse of the planner's quoting.
module IdentifierPath {
  import opened Prelude
  import opened SqlText

  datatype ObjectRef = ObjectRef(database: string, schema: string, name: string)

  function TrimStart(uni: Unicode, s: string): string {
    if s != [] && uni.isWhitespace(s[0]) then TrimStart(uni, s[1..]) else s
  }

  function TrimEnd(uni: Unicode, s: string): string {
    if s != [] && uni.isWhitespace(s[|s| - 1]) then TrimEnd(uni, s[..|s| - 1]) else s
  }

  function Trim(uni: Unicode, s: string): string {
    TrimEnd(uni, TrimStart(uni, s))
  }

  /** A part and the text after it. */
  datatype Part = Part(text: string, rest: string)

  function ReadBare(s: string): (r: Option<Part>)
    ensures r.Some? ==> |r.value.rest| <= |s| && (r.value.rest != [] ==> r.value.rest[0] == '.')
    ensures r.Some? ==> |r.value.text| + |r.value.rest| == |s|
  {
    if s == [] || s[0] == '.' then Some(Part("", s))
    else if s[0] == '"' then None
    else
      match ReadBare(s[1..])
      case None => None
      case Some(p) => Some(Part([AsciiUpperChar(s[0])] + p.text, p.rest))
  }

  function ReadPart(s: string): (r: Option<Part>)
    ensures r.Some? ==> |r.value.rest| <= |s|
  {
    if s != [] && s[0] == '"' then
      match ReadIdent(s[1..])
      case None => None
      case Some(b) => Some(Part(b.value, s[1 + b.length..]))
    else ReadBare(s)
  }

  function Split(s: string): Option<seq<string>>
    decreases |s|
  {
    match ReadPart(s)
    case None => None
    case Some(p) =>
      if p.text == "" then None
      else if p.rest == [] then Some([p.text])
      else if p.rest[0] == '.' then
        match Split(p.rest[1..])
        case None => None
        case Some(parts) => Some([p.text] + parts)
      else None
  }

  function SplitIdentifierPath(uni: Unicode, path: string): Option<seq<string>> {
    Split(Trim(uni, path))
  }

  function ParseObjectPath(uni: Unicode, path: string, database: string, schema: string): Option<ObjectRef> {
    match SplitIdentifierPath(uni, path)
    case None => None
    case Some(parts) =>
      if |parts| == 1 then Some(ObjectRef(database, schema, parts[0]))
      else if |parts| == 2 then Some(ObjectRef(database, parts[0], parts[1]))
      else if |parts| == 3 then Some(ObjectRef(parts[0], parts[1], parts[2]))
      else None
  }

  // ----- the cursor loops -----

  /** A quoted body read from its rest, after `read` characters standing for `text`. */
  function Continued(text: string, read: nat, rest: Option<Body>): Option<Body> {
    match rest case None => None case Some(b) => Some(Body(text + b.value, read + b.length))
  }

  /** One turn of the quoted loop: an ordinary character, or a doubled quote. */
  lemma QuotedStep(s: string, i: nat, text: string, read: nat)
    requires i < |s|
    ensures s[i] != '"' ==>
              Continued(text, read, ReadIdent(s[i..])) == Continued(text + [s[i]], read + 1, ReadIdent(s[i + 1..]))
    ensures s[i] == '"' && i + 1 < |s| && s[i + 1] == '"' ==>
              Continued(text, read, ReadIdent(s[i..])) == Continued(text + ['"'], read + 2, ReadIdent(s[i + 2..]))
    ensures s[i] == '"' && !(i + 1 < |s| && s[i + 1] == '"') ==>
              Continued(text, read, ReadIdent(s[i..])) == Some(Body(text, read + 1))
  {
    var n := if s[i] == '"' && i + 1 < |s| && s[i + 1] == '"' then 2 else 1;
    assert s[i..][n..] == s[i + n..];
    var rest := ReadIdent(s[i + n..]);
    assert text + "" == text;
    ReadIdentAt(s, i, n);
    hide ReadIdent;
    if rest.Some? {
      AppendAssociates(text, [s[i]], rest.value.value);
    }
  }

  lemma ReadIdentAt(s: string, i: nat, n: nat)
    requires i < |s| && n == (if s[i] == '"' && i + 1 < |s| && s[i + 1] == '"' then 2 else 1)
    ensures ReadIdent(s[i..])
         == if s[i] == '"' && n == 1 then Some(Body("", 1))
            else match ReadIdent(s[i + n..]) case None => None case Some(b) => Some(Body([s[i]] + b.value, b.length + n))
  {
    assert s[i..][n..] == s[i + n..];
  }

  method ReadQuotedPart(s: string, start: nat) returns (part: Option<string>, end: nat)
    requires start <= |s|
    ensures match ReadIdent(s[start..])
            case None => part == None
            case Some(b) => part == Some(b.value) && end == start + b.length
    ensures end <= |s|
  {
    hide ReadIdent;
    var text := "";
    var i := start;
    QuotedStart(s, start);
    while i < |s|
      invariant start <= i <= |s|
      invariant ReadIdent(s[start..]) == Continued(text, i - start, ReadIdent(s[i..]))
    {
      var c := s[i];
      QuotedStep(s, i, text, i - start);
      if c == '"' {
        if i + 1 < |s| && s[i + 1] == '"' {
          text := text + ['"'];
          i := i + 2;
        } else {
          part, end := Some(text), i + 1;
          return;
        }
      } else {
        text := text + [c];
        i := i + 1;
      }
    }
    part, end := None, i;
    assert s[i..] == [];
    QuotedEnd();
  }

  lemma QuotedStart(s: string, start: nat)
    requires start <= |s|
    ensures ReadIdent(s[start..]) == Continued("", 0, ReadIdent(s[start..]))
  {
    hide ReadIdent;
    var r := ReadIdent(s[start..]);
    if r.Some? {
      assert "" + r.value.value == r.value.value;
    }
  }

  lemma QuotedEnd()
    ensures ReadIdent([]) == None
  {
  }

  /** The inner loop of an unquoted part. */
  method ReadBarePart(s: string, start: nat) returns (part: Option<string>, end: nat)
    requires start <= |s|
    ensures match ReadBare(s[start..])
            case None => part == None
            case Some(p) => part == Some(p.text) && end == start + |p.text| && p.rest == s[end..]
    ensures end <= |s|
  {
    var text := "";
    var i := start;
    assert forall v: string :: "" + v == v;
    while i < |s| && s[i] != '.'
      invariant start <= i <= |s| && |text| == i - start
      invariant match ReadBare(s[i..])
                case None => ReadBare(s[start..]) == None
                case Some(p) => ReadBare(s[start..]) == Some(Part(text + p.text, p.rest))
    {
      if s[i] == '"' {
        part, end := None, i;
        return;
      }
      assert s[i..][1..] == s[i + 1..];
      assert forall v: string :: (text + [AsciiUpperChar(s[i])]) + v == text + ([AsciiUpperChar(s[i])] + v);
      text := text + [AsciiUpperChar(s[i])];
      i := i + 1;
    }
    assert ReadBare(s[i..]) == Some(Part("", s[i..]));
    assert text + "" == text;
    part, end := Some(text), i;
  }

  function Prepend(parts: seq<string>, r: Option<seq<string>>): Option<seq<string>> {
    match r
    case None => None
    case Some(more) => Some(parts + more)
  }

  /** One part read at `i`, by the cursor loop of its kind. */
  method ReadPartAt(s: string, i: nat) returns (part: Option<string>, end: nat)
    requires i <= |s|
    ensures part.None? ==> ReadPart(s[i..]).None?
    ensures part.Some? ==> i <= end <= |s| && ReadPart(s[i..]) == Some(Part(part.value, s[end..]))
  {
    if i < |s| && s[i] == '"' {
      part, end := ReadQuotedPart(s, i + 1);
      assert s[i..][1..] == s[i + 1..];
    } else {
      part, end := ReadBarePart(s, i);
    }
  }

  /** What splitting the rest amounts to, after one part. */
  lemma SplitStep(s: string, i: nat, part: string, end: nat, parts: seq<string>)
    requires i <= end <= |s| && ReadPart(s[i..]) == Some(Part(part, s[end..]))
    ensures Prepend(parts, Split(s[i..]))
         == if part == "" then None
            else if end == |s| then Some(parts + [part])
            else if s[end] != '.' then None
            else Prepend(parts + [part], Split(s[end + 1..]))
  {
    hide ReadPart;
    if part != "" && end < |s| && s[end] == '.' {
      assert s[end..][1..] == s[end + 1..];
      if Split(s[end + 1..]).Some? {
        AppendAssociates(parts, [part], Split(s[end + 1..]).value);
      }
    }
  }

  method SplitPath(uni: Unicode, path: string) returns (r: Option<seq<string>>)
    ensures r == SplitIdentifierPath(uni, path)
  {
    var s := Trim(uni, path);
    var parts: seq<string> := [];
    var i := 0;
    assert s[0..] == s;
    assert Prepend([], Split(s)) == Split(s) by {
      if Split(s).Some? {
        assert [] + Split(s).value == Split(s).value;
      }
    }
    assert SplitIdentifierPath(uni, path) == Split(s);
    assert Split(s[i..]).None? ==> Prepend(parts, Split(s[i..])).None?;
    hide *;
    while true
      invariant 0 <= i <= |s|
      invariant Split(s) == Prepend(parts, Split(s[i..]))
      decreases |s| - i
    {
      var part, end := ReadPartAt(s, i);
      if part.None? {
        UnreadPart(s, i, parts);
        return None;
      }
      SplitStep(s, i, part.value, end, parts);
      if part.value == "" {
        return None;
      }
      if end == |s| {
        return Some(parts + [part.value]);
      }
      if s[end] != '.' {
        return None;
      }
      parts := parts + [part.value];
      i := end + 1;
    }
  }

  lemma UnreadPart(s: string, i: nat, parts: seq<string>)
    requires i <= |s| && ReadPart(s[i..]).None?
    ensures Prepend(parts, Split(s[i..])).None?
  {
  }

  // ----- splitting undoes quoting -----

  function QuotePath(parts: seq<string>): string
    requires parts != []
  {
    if |parts| == 1 then QuoteIdentifier(parts[0])
    else QuoteIdentifier(parts[0]) + "." + QuotePath(parts[1..])
  }

  lemma ReadQuoted(name: string, rest: string)
    requires rest == [] || rest[0] != '"'
    ensures ReadPart(QuoteIdentifier(name) + rest) == Some(Part(name, rest))
  {
    var s := QuoteIdentifier(name) + rest;
    QuotedIdentifierReadsBack(name, rest);
    assert s[1..] == DoubleQuotes(name) + "\"" + rest;
    assert s[1 + (|DoubleQuotes(name)| + 1)..] == rest;
  }

  lemma SplitLast(name: string)
    ensures Split(QuoteIdentifier(name)) == if name == "" then None else Some([name])
  {
    ReadQuoted(name, "");
    hide ReadPart, QuoteIdentifier;
    assert QuoteIdentifier(name) + "" == QuoteIdentifier(name);
  }

  lemma SplitFirst(name: string, path: string)
    ensures Split(QuoteIdentifier(name) + ("." + path))
         == if name == "" || Split(path).None? then None else Some([name] + Split(path).value)
  {
    ReadQuoted(name, "." + path);
    AppendSplits(".", path);
    hide ReadPart, QuoteIdentifier;
    assert ("." + path)[0] == '.';
  }

  lemma QuotePathParts(parts: seq<string>)
    requires parts != []
    ensures parts == [parts[0]] + parts[1..]
    ensures "" in parts <==> parts[0] == "" || "" in parts[1..]
    ensures QuotePath(parts)
         == if |parts| == 1 then QuoteIdentifier(parts[0])
            else QuoteIdentifier(parts[0]) + ("." + QuotePath(parts[1..]))
  {
    hide QuoteIdentifier;
    assert parts == [parts[0]] + parts[1..];
    if |parts| > 1 {
      AppendAssociates(QuoteIdentifier(parts[0]), ".", QuotePath(parts[1..]));
    }
  }

  /** Splitting a quoted path gives the parts back if and only if none is empty. */
  lemma {:induction false} SplitUndoesQuoting(parts: seq<string>)
    requires parts != []
    ensures Split(QuotePath(parts)) == if "" in parts then None else Some(parts)
  {
    hide *;
    QuotePathParts(parts);
    if |parts| == 1 {
      assert parts == [parts[0]];
      SplitLast(parts[0]);
    } else {
      SplitUndoesQuoting(parts[1..]);
      SplitFirst(parts[0], QuotePath(parts[1..]));
    }
  }

  lemma {:induction false} SplitParts(s: string)
    requires Split(s).Some?
    ensures Split(s).value != [] && "" !in Split(s).value
    decreases |s|
  {
    var p := ReadPart(s).value;
    if p.rest != [] {
      SplitParts(p.rest[1..]);
    }
  }

  /** Quoting what was split and splitting again changes nothing, for every accepted
      path, quoted or not. */
  lemma QuotingIsCanonical(uni: Unicode, path: string)
    requires SplitIdentifierPath(uni, path).Some?
    ensures SplitIdentifierPath(uni, path).value != []
    ensures Split(QuotePath(SplitIdentifierPath(uni, path).value)) == SplitIdentifierPath(uni, path)
  {
    SplitParts(Trim(uni, path));
    SplitUndoesQuoting(SplitIdentifierPath(uni, path).value);
  }

  lemma TrimQuoted(uni: Unicode, s: string)
    requires !uni.isWhitespace('"') && |s| > 0 && s[0] == '"' && s[|s| - 1] == '"'
    ensures Trim(uni, s) == s
  {
  }

  /** The planner's three-part name, read as an object path, is the same object if
      and only if no part is empty; otherwise it is refused. */
  lemma ObjectPathRoundTrip(uni: Unicode, database: string, schema: string, name: string, inDatabase: string, inSchema: string)
    requires !uni.isWhitespace('"')
    ensures ParseObjectPath(uni, QuoteQualifiedObject(database, schema, name), inDatabase, inSchema)
         == if database == "" || schema == "" || name == "" then None else Some(ObjectRef(database, schema, name))
  {
    var parts := [database, schema, name];
    var path := QuoteQualifiedObject(database, schema, name);
    assert parts[1..] == [schema, name] && parts[1..][1..] == [name];
    assert QuotePath([schema, name]) == QuoteIdentifier(schema) + "." + QuotePath([schema, name][1..]);
    assert path == QuotePath(parts) by {
      AppendAssociates(QuoteIdentifier(database) + ".", QuoteIdentifier(schema) + ".", QuoteIdentifier(name));
      AppendAssociates(QuoteIdentifier(database) + ".", QuoteIdentifier(schema), ".");
    }
    TrimQuoted(uni, path);
    SplitUndoesQuoting(parts);
    assert "" in parts <==> database == "" || schema == "" || name == "" by {
      assert parts[0] == database && parts[1] == schema && parts[2] == name;
    }
  }
}
