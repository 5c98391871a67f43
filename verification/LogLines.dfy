// What a log holds, from its lines: which are records, which are counted as skipped, and
// which record of a key a reopening finds.
module LogLines {
  import opened Prelude
  import opened Records
  import opened LogText

  // ----- a text as its lines -----

  function Terminated(lines: seq<seq<byte>>): seq<byte> {
    if lines == [] then [] else lines[0] + [NEWLINE] + Terminated(lines[1..])
  }

  /** The line without one carriage return at its end. */
  function Chopped(line: seq<byte>): seq<byte> {
    if line != [] && line[|line| - 1] == 13 then line[..|line| - 1] else line
  }

  ghost predicate OneLineEach(lines: seq<seq<byte>>) {
    forall i :: 0 <= i < |lines| ==> 10 !in lines[i]
  }

  /** Every text is terminated lines and a tail without a newline. */
  lemma {:induction false} EveryText(text: seq<byte>) returns (lines: seq<seq<byte>>, tail: seq<byte>)
    ensures OneLineEach(lines) && 10 !in tail && text == Terminated(lines) + tail
    decreases |text|
  {
    var n := LineEnd(text);
    if n == |text| {
      lines, tail := [], text;
      assert [] + text == text;
    } else {
      var more;
      more, tail := EveryText(text[n + 1..]);
      lines := [text[..n]] + more;
      assert lines[1..] == more;
      assert text == text[..n] + [NEWLINE] + text[n + 1..];
      AppendAssociates(text[..n] + [NEWLINE], Terminated(more), tail);
    }
  }

  lemma {:induction false} TerminatedReads(lines: seq<seq<byte>>)
    requires OneLineEach(lines)
    ensures Whole(Terminated(lines))
    ensures |Lines(Terminated(lines))| == |lines|
    ensures forall i :: 0 <= i < |lines| ==> Lines(Terminated(lines))[i] == Chopped(lines[i])
  {
    hide Lines;
    if lines == [] {
      NoLines();
    } else {
      var rest := Terminated(lines[1..]);
      TerminatedReads(lines[1..]);
      AppendAssociates(lines[0], [NEWLINE], rest);
      LinesStep(lines[0], rest);
      assert ([NEWLINE] + rest)[|rest|] == if rest == [] then NEWLINE else rest[|rest| - 1];
    }
  }

  lemma NoLines()
    ensures Lines([]) == []
  {
  }

  // ----- records and skipped lines -----

  /** A line that a load takes: not blank, read as a record, and accepted. */
  predicate Taken(c: Codec, t: Table, line: seq<byte>) {
    !c.isBlank(Chopped(line)) && c.decode(t, Chopped(line)).Some? && c.accepts(c.decode(t, Chopped(line)).value)
  }

  /** A line that a load counts as skipped: not blank, and not read or not accepted. */
  predicate Lost(c: Codec, t: Table, line: seq<byte>) {
    !c.isBlank(Chopped(line)) && (c.decode(t, Chopped(line)).Some? ==> !c.accepts(c.decode(t, Chopped(line)).value))
  }

  function TakenLines(c: Codec, t: Table, lines: seq<seq<byte>>, n: nat): set<nat>
    requires n <= |lines|
  {
    set i: nat | i < n && Taken(c, t, lines[i])
  }

  function LostLines(c: Codec, t: Table, lines: seq<seq<byte>>, n: nat): set<nat>
    requires n <= |lines|
  {
    set i: nat | i < n && Lost(c, t, lines[i])
  }

  /** `at` lists the members of `s`, in ascending order. */
  ghost predicate InOrder(at: seq<nat>, s: set<nat>) {
    (forall i :: i in at <==> i in s) && forall k, l :: 0 <= k < l < |at| ==> at[k] < at[l]
  }

  lemma ParseLast(c: Codec, t: Table, lines: seq<seq<byte>>)
    requires lines != []
    ensures var init, last := lines[..|lines| - 1], lines[|lines| - 1];
      && ParseLines(c, t, lines) == ParseLines(c, t, init) + (match Classify(c, t, last) case Valid(r) => [r] case _ => [])
      && CountSkipped(c, t, lines) == CountSkipped(c, t, init) + (if Classify(c, t, last).Skipped? then 1 else 0)
  {
    var n := |lines| - 1;
    hide *;
    ParseLinesConcat(c, t, lines[..n], [lines[n]]);
    CountConcat(c, t, lines[..n], [lines[n]]);
    assert lines == lines[..n] + [lines[n]];
    ParseOne(c, t, lines[n]);
  }

  lemma ParseOne(c: Codec, t: Table, line: seq<byte>)
    ensures ParseLines(c, t, [line]) == match Classify(c, t, line) case Valid(r) => [r] case _ => []
    ensures CountSkipped(c, t, [line]) == if Classify(c, t, line).Skipped? then 1 else 0
  {
    hide Classify;
    assert [line][1..] == [];
  }

  lemma {:induction false} CountConcat(c: Codec, t: Table, a: seq<seq<byte>>, b: seq<seq<byte>>)
    ensures CountSkipped(c, t, a + b) == CountSkipped(c, t, a) + CountSkipped(c, t, b)
  {
    hide Classify;
    if a == [] {
      assert a + b == b;
    } else {
      assert (a + b)[1..] == a[1..] + b;
      CountConcat(c, t, a[1..], b);
    }
  }

  lemma ClassOf(c: Codec, t: Table, line: seq<byte>)
    ensures Taken(c, t, line) <==> Classify(c, t, Chopped(line)).Valid?
    ensures Taken(c, t, line) ==> c.decode(t, Chopped(line)) == Some(Classify(c, t, Chopped(line)).record)
    ensures Lost(c, t, line) <==> Classify(c, t, Chopped(line)).Skipped?
  {
  }

  lemma LinesIn(c: Codec, t: Table, lines: seq<seq<byte>>, n: nat, i: nat)
    requires n <= |lines|
    ensures i in TakenLines(c, t, lines, n) <==> i < n && Taken(c, t, lines[i])
    ensures i in LostLines(c, t, lines, n) <==> i < n && Lost(c, t, lines[i])
  {
    hide Taken, Lost;
  }

  lemma NextLine(c: Codec, t: Table, lines: seq<seq<byte>>, n: nat)
    requires n < |lines|
    ensures TakenLines(c, t, lines, n + 1) == TakenLines(c, t, lines, n) + if Taken(c, t, lines[n]) then {n} else {}
    ensures LostLines(c, t, lines, n + 1) == LostLines(c, t, lines, n) + if Lost(c, t, lines[n]) then {n} else {}
    ensures n !in LostLines(c, t, lines, n) && forall i :: i in TakenLines(c, t, lines, n) ==> i < n
  {
    hide *;
    forall i: nat
      ensures i in TakenLines(c, t, lines, n + 1) <==> i in TakenLines(c, t, lines, n) || (i == n && Taken(c, t, lines[n]))
      ensures i in LostLines(c, t, lines, n + 1) <==> i in LostLines(c, t, lines, n) || (i == n && Lost(c, t, lines[n]))
      ensures i in TakenLines(c, t, lines, n) ==> i < n
    {
      LinesIn(c, t, lines, n, i);
      LinesIn(c, t, lines, n + 1, i);
    }
    LinesIn(c, t, lines, n, n);
  }

  lemma InOrderNext(at: seq<nat>, s: set<nat>, n: nat)
    requires InOrder(at, s) && forall i :: i in s ==> i < n
    ensures InOrder(at + [n], s + {n})
  {
    forall k | 0 <= k < |at|
      ensures at[k] < n
    {
      assert at[k] in s;
    }
  }

  /** The records are those of the lines at these positions. */
  ghost predicate ReadAt(c: Codec, t: Table, lines: seq<seq<byte>>, at: seq<nat>, records: seq<Record>) {
    && |records| == |at|
    && forall k :: 0 <= k < |at| ==> at[k] < |lines| && c.decode(t, Chopped(lines[at[k]])) == Some(records[k])
  }

  lemma ReadNext(c: Codec, t: Table, lines: seq<seq<byte>>, at: seq<nat>, records: seq<Record>, n: nat, r: Record)
    requires ReadAt(c, t, lines, at, records) && n < |lines| && c.decode(t, Chopped(lines[n])) == Some(r)
    ensures ReadAt(c, t, lines, at + [n], records + [r])
  {
    hide Chopped;
  }

  /** What the first lines hold. */
  ghost predicate Holds(c: Codec, t: Table, lines: seq<seq<byte>>, n: nat, at: seq<nat>, records: seq<Record>, skipped: nat)
    requires n <= |lines|
  {
    InOrder(at, TakenLines(c, t, lines, n)) && ReadAt(c, t, lines, at, records) && skipped == |LostLines(c, t, lines, n)|
  }

  lemma HoldsIs(c: Codec, t: Table, lines: seq<seq<byte>>, n: nat, at: seq<nat>, records: seq<Record>, skipped: nat)
    requires n <= |lines|
    ensures Holds(c, t, lines, n, at, records, skipped)
       <==> InOrder(at, TakenLines(c, t, lines, n)) && ReadAt(c, t, lines, at, records)
            && skipped == |LostLines(c, t, lines, n)|
  {
    hide InOrder, ReadAt, TakenLines, LostLines;
  }

  lemma HoldsNext(c: Codec, t: Table, lines: seq<seq<byte>>, n: nat, at: seq<nat>, records: seq<Record>, skipped: nat)
    requires n < |lines| && Holds(c, t, lines, n, at, records, skipped)
    ensures var kind := Classify(c, t, Chopped(lines[n]));
      Holds(c, t, lines, n + 1, if kind.Valid? then at + [n] else at, if kind.Valid? then records + [kind.record] else records,
            if kind.Skipped? then skipped + 1 else skipped)
  {
    hide *;
    var kind := Classify(c, t, Chopped(lines[n]));
    HoldsIs(c, t, lines, n, at, records, skipped);
    NextLine(c, t, lines, n);
    ClassOf(c, t, lines[n]);
    if kind.Valid? {
      InOrderNext(at, TakenLines(c, t, lines, n), n);
      ReadNext(c, t, lines, at, records, n, kind.record);
      HoldsIs(c, t, lines, n + 1, at + [n], records + [kind.record], skipped);
    } else {
      assert TakenLines(c, t, lines, n + 1) == TakenLines(c, t, lines, n);
      HoldsIs(c, t, lines, n + 1, at, records, if kind.Skipped? then skipped + 1 else skipped);
    }
  }

  lemma HoldsNothing(c: Codec, t: Table, lines: seq<seq<byte>>)
    ensures Holds(c, t, lines, 0, [], ParseLines(c, t, []), CountSkipped(c, t, []))
  {
    hide Taken, Lost;
    assert LostLines(c, t, lines, 0) == {} && TakenLines(c, t, lines, 0) == {};
  }

  lemma {:induction false} FirstHold(c: Codec, t: Table, lines: seq<seq<byte>>, chopped: seq<seq<byte>>, n: nat)
    returns (at: seq<nat>)
    requires |chopped| == |lines| && n <= |lines| && forall i :: 0 <= i < |lines| ==> chopped[i] == Chopped(lines[i])
    ensures Holds(c, t, lines, n, at, ParseLines(c, t, chopped[..n]), CountSkipped(c, t, chopped[..n]))
    decreases n
  {
    hide *;
    at := [];
    if n > 0 {
      var before := FirstHold(c, t, lines, chopped, n - 1);
      var kind := Classify(c, t, chopped[n - 1]);
      assert chopped[..n][..n - 1] == chopped[..n - 1] && chopped[..n][n - 1] == chopped[n - 1];
      ParseLast(c, t, chopped[..n]);
      HoldsNext(c, t, lines, n - 1, before, ParseLines(c, t, chopped[..n - 1]), CountSkipped(c, t, chopped[..n - 1]));
      at := if kind.Valid? then before + [n - 1] else before;
      assert ParseLines(c, t, chopped[..n - 1]) + [] == ParseLines(c, t, chopped[..n - 1]);
    } else {
      assert chopped[..0] == [];
      HoldsNothing(c, t, lines);
    }
  }

  /** A load reads, of a log, its taken lines, each as the record that it holds, in order;
      it counts the lost ones, and passes over blank lines and the tail. */
  lemma LogHolds(c: Codec, t: Table, lines: seq<seq<byte>>, tail: seq<byte>) returns (at: seq<nat>)
    requires OneLineEach(lines) && 10 !in tail
    ensures var text := Terminated(lines) + tail;
      && InOrder(at, TakenLines(c, t, lines, |lines|)) && |ValidRecords(c, t, text)| == |at|
      && (forall k :: 0 <= k < |at| ==>
            at[k] < |lines| && c.decode(t, Chopped(lines[at[k]])) == Some(ValidRecords(c, t, text)[k]))
      && SkippedIn(c, t, text) == |LostLines(c, t, lines, |lines|)|
  {
    TerminatedReads(lines);
    CompleteBefore(Terminated(lines), tail);
    var chopped := Lines(Terminated(lines));
    hide Lines, Complete, Chopped, InOrder, TakenLines, LostLines, ParseLines, CountSkipped;
    at := FirstHold(c, t, lines, chopped, |lines|);
    assert chopped[..|lines|] == chopped;
  }

  // ----- which record of a key stays -----

  /** Of the records of a key, told of by position: the last for profiles, manifests, plans
      and partitions, the first for every other table. */
  predicate Stays(t: Table, rs: seq<Record>, i: nat)
    requires i < |rs|
  {
    if t == Profiles || t == DatasetManifests || t == QueryPlans || t == PartitionMetadata then
      forall j :: i < j < |rs| ==> KeyOf(rs[j]) != KeyOf(rs[i])
    else forall j :: 0 <= j < i ==> KeyOf(rs[j]) != KeyOf(rs[i])
  }

  /** What a replay of records into an empty table leaves: one record of each key that
      occurs, the last or the first by the table's rule. */
  lemma {:induction false} ReplayLeaves(t: Table, rs: seq<Record>)
    requires AllOf(t, rs)
    ensures forall k :: k in PutAll(map[], rs) <==> exists i :: 0 <= i < |rs| && KeyOf(rs[i]) == k
    ensures forall i :: 0 <= i < |rs| && Stays(t, rs, i) ==> PutAll(map[], rs)[KeyOf(rs[i])] == rs[i]
    decreases |rs|
  {
    if rs != [] {
      var n := |rs| - 1;
      assert rs == rs[..n] + [rs[n]];
      ReplayLeaves(t, rs[..n]);
      PutAllSnoc(map[], rs[..n], rs[n]);
      var before := PutAll(map[], rs[..n]);
      hide PutAll, KeyOf, TableOf;
      assert forall i :: 0 <= i < n ==> rs[..n][i] == rs[i];
      forall i | 0 <= i < |rs| && Stays(t, rs, i)
        ensures Put(before, rs[n])[KeyOf(rs[i])] == rs[i]
      {
        if i < n {
          StaysBefore(t, rs, i);
        }
      }
    }
  }

  lemma StaysBefore(t: Table, rs: seq<Record>, i: nat)
    requires i < |rs| - 1 && Stays(t, rs, i)
    ensures Stays(t, rs[..|rs| - 1], i)
  {
    hide KeyOf;
  }
}
