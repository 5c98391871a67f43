// Crashes: an operation touches a table's files in steps, and a crash may fall
// before, inside or after any of them.
module Crash {
  import opened Prelude
  import opened Records
  import opened LogText
  import opened Utf8
  import opened Selection
  import opened LineFormat
  import opened Retention
  import opened StoreModel
  import opened StoreTheorems

  /** One table's files: its log and the temp file of a rewrite. */
  datatype TableFiles = TableFiles(log: seq<byte>, temp: Option<seq<byte>>)

  datatype DiskEvent = AppendBytes(bytes: seq<byte>) | WriteTemp(bytes: seq<byte>) | RenameTemp

  function Happen(f: TableFiles, e: DiskEvent): TableFiles {
    match e
    case AppendBytes(bytes) => f.(log := f.log + bytes)
    case WriteTemp(bytes) => f.(temp := Some(bytes))
    case RenameTemp => if f.temp.None? then f else TableFiles(f.temp.value, None)
  }

  /** The part of an event that was done: some first bytes of a write; a rename is
      done or not done. */
  function HappenPartly(f: TableFiles, e: DiskEvent, k: nat): TableFiles {
    match e
    case AppendBytes(bytes) => f.(log := f.log + bytes[..if k <= |bytes| then k else |bytes|])
    case WriteTemp(bytes) => f.(temp := Some(bytes[..if k <= |bytes| then k else |bytes|]))
    case RenameTemp => f
  }

  function HappenAll(f: TableFiles, es: seq<DiskEvent>): TableFiles
    decreases |es|
  {
    if es == [] then f else HappenAll(Happen(f, es[0]), es[1..])
  }

  /** The files after a crash in event `i`, of which `k` bytes were done. */
  function CrashedIn(f: TableFiles, es: seq<DiskEvent>, i: nat, k: nat): TableFiles
    requires i < |es|
  {
    HappenPartly(HappenAll(f, es[..i]), es[i], k)
  }

  // ----- what operations do to a table's files -----

  function RewriteEvents(c: Codec, s: TableState): seq<DiskEvent> {
    [WriteTemp(EncodeAll(c, Values(s.mem))), RenameTemp]
  }

  /** A write: one appended line, and a rewrite when compaction is due. */
  function WriteEvents(c: Codec, t: Table, s: TableState, r: Record): seq<DiskEvent> {
    if !Loads(s) || !c.accepts(r) then []
    else
      var appended := AppendRecord(c, LoadTable(c, t, s), r);
      [AppendBytes(EncodedLine(c, r))]
      + if Compactable(t) && CompactsNow(appended.lines, |appended.mem|) then RewriteEvents(c, appended) else []
  }

  lemma RewriteFiles(c: Codec, s: TableState, f: TableFiles)
    ensures HappenAll(f, RewriteEvents(c, s)) == TableFiles(RewriteTable(c, s).text, None)
  {
    var es := RewriteEvents(c, s);
    assert es[1..] == [RenameTemp] && es[1..][1..] == [];
    assert HappenAll(Happen(Happen(f, es[0]), RenameTemp), []) == HappenAll(f, es);
  }

  /** The events, all done, leave the log that the operation leaves. */
  lemma WriteFiles(c: Codec, t: Table, s: TableState, r: Record, temp: Option<seq<byte>>)
    requires TableOf(r) == t
    ensures HappenAll(TableFiles(s.text, temp), WriteEvents(c, t, s, r)).log == WriteTable(c, t, s, r).text
  {
    if Loads(s) && c.accepts(r) {
      var f := TableFiles(s.text, temp);
      var es := WriteEvents(c, t, s, r);
      var appended := AppendRecord(c, LoadTable(c, t, s), r);
      RewriteFiles(c, appended, Happen(f, es[0]));
      assert HappenAll(f, es) == HappenAll(Happen(f, es[0]), es[1..]);
      if Compactable(t) && CompactsNow(appended.lines, |appended.mem|) {
        assert es[1..] == RewriteEvents(c, appended);
      } else {
        assert es[1..] == [];
      }
    }
  }

  /** A crash inside a rewrite leaves the log as it was. */
  lemma CrashedRewrite(c: Codec, s: TableState, f: TableFiles, i: nat, k: nat)
    requires i < |RewriteEvents(c, s)|
    ensures CrashedIn(f, RewriteEvents(c, s), i, k).log == f.log
  {
    var es := RewriteEvents(c, s);
    if i == 1 {
      assert es[..1] == [es[0]] && es[..1][1..] == [];
      assert HappenAll(f, es[..1]) == Happen(f, es[0]);
    } else {
      assert es[..0] == [];
    }
  }

  /** A crash at any point of a write. If it cuts the line inside a character, the table
      does not reopen; else it reopens as it was before the write if the line was not
      completely appended, and as it is after it otherwise. */
  lemma CrashedWrite(c: Codec, t: Table, s: TableState, r: Record, temp: Option<seq<byte>>, i: nat, k: nat)
    requires Faithful(c) && TableInv(c, t, s) && TableOf(r) == t && i < |WriteEvents(c, t, s, r)|
    ensures Reopened(c, t, CrashedIn(TableFiles(s.text, temp), WriteEvents(c, t, s, r), i, k).log)
         == if i == 0 && k < |EncodedLine(c, r)| then
              if IsBoundary(EncodedLine(c, r), k) then Some(Contents(c, t, s.text)) else None
            else Some(Contents(c, t, WriteTable(c, t, s, r).text))
  {
    var f, es := TableFiles(s.text, temp), WriteEvents(c, t, s, r);
    var line := EncodedLine(c, r);
    WriteKeeps(c, s, r);
    if i == 0 {
      assert es[..0] == [];
      CrashedAppend(c, s.text, r, if k <= |line| then k else |line|);
    } else {
      AppendedContents(c, t, s, r);
      var appended := AppendRecord(c, LoadTable(c, t, s), r);
      hide Contents, WriteTable, EncodeAll, RewriteEvents, Whole, IsUtf8;
      LaterCrash(f, es[0], es[1..], i, k);
      assert es[1..] == RewriteEvents(c, appended);
      CrashedRewrite(c, appended, Happen(f, es[0]), i - 1, k);
    }
  }

  lemma AppendedContents(c: Codec, t: Table, s: TableState, r: Record)
    requires Faithful(c) && TableInv(c, t, s) && TableOf(r) == t && c.accepts(r)
    ensures Reopened(c, t, s.text + EncodedLine(c, r)) == Some(Put(Contents(c, t, s.text), r))
  {
    CrashedAppend(c, s.text, r, |EncodedLine(c, r)|);
    assert EncodedLine(c, r)[..|EncodedLine(c, r)|] == EncodedLine(c, r);
  }

  lemma LineIsAscii(c: Codec, r: Record)
    ensures IsAscii(EncodedLine(c, r)) <==> IsAscii(c.encode(r))
  {
    var line := EncodedLine(c, r);
    assert forall i :: 0 <= i < |c.encode(r)| ==> line[i] == c.encode(r)[i];
  }

  /** An accepted write can be cut anywhere and the table reopened exactly when the
      encoded record is ASCII. */
  lemma EveryCrashReopensIffAscii(c: Codec, t: Table, s: TableState, r: Record, temp: Option<seq<byte>>)
    requires Faithful(c) && TableInv(c, t, s) && TableOf(r) == t && c.accepts(r)
    ensures (forall i: nat, k: nat :: i < |WriteEvents(c, t, s, r)| ==>
              Reopened(c, t, CrashedIn(TableFiles(s.text, temp), WriteEvents(c, t, s, r), i, k).log).Some?)
       <==> IsAscii(c.encode(r))
  {
    var line, f, es := EncodedLine(c, r), TableFiles(s.text, temp), WriteEvents(c, t, s, r);
    LineIsAscii(c, r);
    EncodedIsText(c, r);
    EveryCutIsUtf8(line);
    assert |es| > 0;
    hide WriteEvents, CrashedIn, Reopened, EncodedLine, IsUtf8, IsBoundary, WriteTable, Contents, TableInv, Faithful;
    if IsAscii(line) {
      forall i: nat, k: nat | i < |es|
        ensures Reopened(c, t, CrashedIn(f, es, i, k).log).Some?
      {
        CrashedWrite(c, t, s, r, temp, i, k);
      }
    } else {
      var k := BadCut(line);
      CrashedWrite(c, t, s, r, temp, 0, k);
      assert Reopened(c, t, CrashedIn(f, es, 0, k).log).None?;
    }
  }

  lemma LaterCrash(f: TableFiles, e: DiskEvent, es: seq<DiskEvent>, i: nat, k: nat)
    requires 0 < i < 1 + |es|
    ensures CrashedIn(f, [e] + es, i, k) == CrashedIn(Happen(f, e), es, i - 1, k)
  {
    assert ([e] + es)[..i] == [e] + es[..i - 1];
    assert ([e] + es[..i - 1])[1..] == es[..i - 1];
  }

  /** A crash inside the rewrite of a table by compaction or retention leaves the table
      as it was, wherever the temp file was cut; after the rename it holds the new map. */
  lemma CrashedTableRewrite(c: Codec, t: Table, s: TableState, temp: Option<seq<byte>>, i: nat, k: nat)
    requires Faithful(c) && s.loaded && TableOk(c, t, s.mem) && i < 2
    ensures Reopened(c, t, CrashedIn(TableFiles(s.text, temp), RewriteEvents(c, s), i, k).log) == Reopened(c, t, s.text)
    ensures Reopened(c, t, HappenAll(TableFiles(s.text, temp), RewriteEvents(c, s)).log) == Some(s.mem)
  {
    CrashedRewrite(c, s, TableFiles(s.text, temp), i, k);
    RewriteFiles(c, s, TableFiles(s.text, temp));
    RewriteKeeps(c, t, s);
    LoadedIsLoaded(c, t, RewriteTable(c, s));
  }

  // ----- a table that does not reopen -----

  /** Whether an operation needs the table. */
  predicate Needs(op: Op, t: Table) {
    match op
    case WriteRecord(r) => TableOf(r) == t
    case Ask(q) => QueryTable(q) == t
    case CompactAll => t in UpsertTables()
    case ApplyRetention(policy) => t in RetentionTables(policy)
    case Reopen => false
  }

  lemma LoadElsewhere(c: Codec, s: Store, u: Table, t: Table)
    requires !Loads(s[t])
    ensures Load(c, s, u)[t] == s[t]
  {
    LoadAt(c, s, u, t);
    hide Load;
  }

  /** Loading in order stops at the table, which stays as it is. */
  lemma {:induction false} LoadInOrderStops(c: Codec, s: Store, ts: seq<Table>, t: Table)
    requires !Loads(s[t])
    ensures LoadInOrder(c, s, ts).0[t] == s[t]
    ensures t in ts ==> !LoadInOrder(c, s, ts).1
    decreases |ts|
  {
    if ts != [] && Loads(s[ts[0]]) {
      LoadElsewhere(c, s, ts[0], t);
      hide Loads, Load;
      LoadInOrderStops(c, Load(c, s, ts[0]), ts[1..], t);
      assert t in ts ==> t in ts[1..];
    }
  }

  lemma CompactStops(c: Codec, s: Store, t: Table)
    requires !Loads(s[t])
    ensures Compact(c, s).0[t] == s[t] && (t in UpsertTables() ==> !Compact(c, s).1)
  {
    var s1 := LoadInOrder(c, s, UpsertTables()).0;
    LoadInOrderStops(c, s, UpsertTables(), t);
    assert t !in UpsertTables() ==> t != Profiles && t != DatasetManifests && t != QueryPlans;
    hide LoadInOrder, CompactOne, UpsertTables;
    if t !in UpsertTables() {
      CompactOneAt(c, s1, Profiles, t);
      CompactOneAt(c, CompactOne(c, s1, Profiles), DatasetManifests, t);
      CompactOneAt(c, CompactOne(c, CompactOne(c, s1, Profiles), DatasetManifests), QueryPlans, t);
    }
  }

  lemma RetainStops(c: Codec, s: Store, policy: RetentionPolicy, t: Table)
    requires !Loads(s[t])
    ensures Retain(c, s, policy).0[t] == s[t] && (t in RetentionTables(policy) ==> Retain(c, s, policy).1 == LoadFailed)
  {
    var s1 := LoadInOrder(c, s, RetentionTables(policy)).0;
    LoadInOrderStops(c, s, RetentionTables(policy), t);
    RetentionTablesAre(policy, t);
    hide LoadInOrder, RetentionTables, RetainLoaded, RetentionTouches, RetainState;
    if t !in RetentionTables(policy) {
      UntouchedByRetention(c, s1, policy, t);
    }
  }

  lemma UnreadableStep(c: Codec, s: Store, op: Op, t: Table)
    requires !Loads(s[t])
    ensures !Loads(StoreStep(c, s, op).0[t]) && StoreStep(c, s, op).0[t].text == s[t].text
    ensures Needs(op, t) ==> StoreStep(c, s, op).1 == LoadFailed
  {
    CompactStops(c, s, t);
    hide Compact, Retain, Load, MemAnswer, UpsertTables, RetentionTables, IsUtf8;
    match op
    case WriteRecord(r) => UnreadableWrite(c, s, r, t);
    case Ask(q) => LoadElsewhere(c, s, QueryTable(q), t);
    case CompactAll =>
    case ApplyRetention(policy) => RetainStops(c, s, policy, t);
    case Reopen =>
  }

  lemma UnreadableWrite(c: Codec, s: Store, r: Record, t: Table)
    requires !Loads(s[t])
    ensures Write(c, s, r)[t] == s[t]
  {
    hide Put, LazyCompact, AppendRecord;
  }

  /** Nothing this store does repairs a log that is not text: through any run its bytes
      stay, and every operation that needs the table fails. */
  lemma {:induction false} UnreadableStays(c: Codec, s: Store, ops: seq<Op>, t: Table)
    requires !Loads(s[t])
    ensures StoreRun(c, s, ops).0[t].text == s[t].text && |StoreRun(c, s, ops).1| == |ops|
    ensures forall i :: 0 <= i < |ops| && Needs(ops[i], t) ==> StoreRun(c, s, ops).1[i] == LoadFailed
    decreases |ops|
  {
    if ops != [] {
      UnreadableStep(c, s, ops[0], t);
      hide StoreStep, Loads, Needs;
      var next := StoreStep(c, s, ops[0]).0;
      UnreadableStays(c, next, ops[1..], t);
      forall i | 0 <= i < |ops| && Needs(ops[i], t)
        ensures StoreRun(c, s, ops).1[i] == LoadFailed
      {
        if i > 0 {
          assert ops[i] == ops[1..][i - 1];
        }
      }
    }
  }

  /** Through every run, every operation that needs the table fails. */
  ghost predicate EveryUseFails(c: Codec, s: Store, t: Table) {
    forall ops: seq<Op>, i: nat :: i < |ops| && Needs(ops[i], t) ==>
      i < |StoreRun(c, s, ops).1| && StoreRun(c, s, ops).1[i] == LoadFailed
  }

  /** A store opened on a log that is not text. */
  lemma OpenedUnreadable(c: Codec, files: Files, t: Table)
    requires !IsUtf8(files[t])
    ensures EveryUseFails(c, Open(files), t)
  {
    var s := Open(files);
    assert !Loads(s[t]);
    hide StoreRun, Needs, Open, Loads, IsUtf8;
    forall ops: seq<Op>, i: nat | i < |ops| && Needs(ops[i], t)
      ensures i < |StoreRun(c, s, ops).1| && StoreRun(c, s, ops).1[i] == LoadFailed
    {
      UnreadableStays(c, s, ops, t);
    }
  }

  /** The first bytes of a line that is not ASCII, cut inside a character. */
  lemma TornFirstLine(c: Codec, r: Record) returns (k: nat)
    requires Faithful(c) && c.accepts(r) && !IsAscii(c.encode(r))
    ensures 0 < k < |EncodedLine(c, r)|
    ensures Reopened(c, TableOf(r), EncodedLine(c, r)[..k]).None? && !IsUtf8(EncodedLine(c, r)[..k])
  {
    LineIsAscii(c, r);
    EncodedIsText(c, r);
    hide EncodedLine, Faithful, IsUtf8;
    k := BadCut(EncodedLine(c, r));
    CutIsUtf8(EncodedLine(c, r), k);
  }

  /** An instance: a profile that displays as an e with an acute accent, the first
      record of its table, cut between the two bytes of that letter. The table does not
      reopen, and a store opened on the directory answers every operation that needs
      profiles with a failure. */
  lemma TornLetter(accepts: Record -> bool, r: Record) returns (c: Codec, k: nat)
    requires r == Profile("p", "\U{E9}") && accepts(r)
    ensures Faithful(c) && c.accepts == accepts && 0 < k < |EncodedLine(c, r)|
    ensures Reopened(c, Profiles, EncodedLine(c, r)[..k]).None?
    ensures forall files: Files :: files[Profiles] == EncodedLine(c, r)[..k] ==> EveryUseFails(c, Open(files), Profiles)
  {
    c := LineCodec(accepts);
    LineCodecIsFaithful(accepts);
    assert c.encode(r) == Encode(r) && c.accepts(r) && TableOf(r) == Profiles;
    NotAscii();
    hide Encode, EncodedLine, LineCodec, Faithful, StoreRun, Needs, IsUtf8, Reopened, Open, EveryUseFails;
    k := TornFirstLine(c, r);
    forall files: Files | files[Profiles] == EncodedLine(c, r)[..k]
      ensures EveryUseFails(c, Open(files), Profiles)
    {
      OpenedUnreadable(c, files, Profiles);
    }
  }

  lemma NotAscii()
    ensures !IsAscii(Encode(Profile("p", "\U{E9}")))
  {
    var fields := ["0", "p", "\U{E9}"];
    var head := QuotedBody("0") + ("\"" + (QuotedBody("p") + "\""));
    assert fields[1..] == ["p", "\U{E9}"] && fields[1..][1..] == ["\U{E9}"] && fields[1..][1..][1..] == [];
    assert QuotedAll(["\U{E9}"]) == QuotedBody("\U{E9}") + "\"";
    assert QuotedAll(fields) == QuotedBody("0") + ("\"" + (QuotedBody("p") + ("\"" + QuotedAll(["\U{E9}"]))));
    assert QuotedAll(fields) == head + QuotedAll(["\U{E9}"]);
    assert QuotedBody("\U{E9}") == "\U{E9}" by {
      assert "\U{E9}"[1..] == "";
    }
    hide QuotedAll, QuotedBody;
    EncodeTextConcat(head, "\U{E9}" + "\"");
    EncodeTextConcat("\U{E9}", "\"");
    assert EncodeText("\U{E9}") == EncodeChar('\U{E9}') by {
      assert "\U{E9}"[1..] == "" && EncodeText("") == [];
    }
    var bytes := EncodeText(head) + (EncodeText("\U{E9}") + EncodeText("\""));
    assert bytes[|EncodeText(head)|] == EncodeText("\U{E9}")[0] == 0xC3;
  }
}
