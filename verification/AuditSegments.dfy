/** The audit writer of internal/audit/writer.go on values: one hash chain shared by all
    apps and, for each app, closed segments, one open segment and a running index. */
module AuditSegments {
  import opened Common
  import opened HashChain

  /** A file that is no longer written to; rotated tells a full one from one that was
      closed with the writer. It lies in the directory of the day of openedAt, the timestamp
      of the record it was made for. */
  datatype Segment = Segment(records: seq<AuditLog>, rotated: bool, openedAt: int)

  /** The open file of an app and the size the writer counts for it. */
  datatype OpenFile = OpenFile(records: seq<AuditLog>, size: nat, openedAt: int)

  datatype Index = Index(start: int, end: int, events: map<string, nat>, total: nat, size: nat)

  datatype AppState = AppState(closed: seq<Segment>, current: Option<OpenFile>, index: Option<Index>)

  const NEW_APP := AppState([], None, None)

  datatype State = State(lastHash: string, apps: map<string, AppState>)

  function App(s: State, app: string): AppState {
    if app in s.apps then s.apps[app] else NEW_APP
  }

  datatype Fault = NoFault | OpenFails | WriteFails | IndexFails

  datatype WriteError = NotChained | NotOpened | NotEncoded | NotWritten | NotIndexed

  /** The hash functions and the size at which a segment is full. */
  datatype Config = Config(c: Crypto, rotateSize: nat)

  /** The bytes one record takes in the file: its encoding and a line end. */
  function RecordSize(c: Crypto, rec: AuditLog): nat {
    match c.encode(rec)
    case Some(text) => |text| + 1
    case None => 0
  }

  /** The defaults Write fills in. */
  function Complete(now: int, log: AuditLog): AuditLog {
    var l := if log.timestamp == 0 then log.(timestamp := now) else log;
    if l.appId == "" then l.(appId := "default") else l
  }

  function Count(events: map<string, nat>, e: string): nat {
    if e in events then events[e] else 0
  }

  /** updateIndex: the size it records is that of the segment being written. */
  function Indexed(prior: Option<Index>, rec: AuditLog, size: nat): Index {
    var t := rec.timestamp;
    var base := if prior.Some? then prior.value else Index(t, t, map[], 0, 0);
    Index(if t < base.start then t else base.start,
          if t > base.end then t else base.end,
          base.events[rec.eventType := Count(base.events, rec.eventType) + 1],
          base.total + 1,
          size)
  }

  function CloseFile(a: AppState, rotated: bool): AppState {
    match a.current
    case None => a
    case Some(f) => a.(closed := a.closed + [Segment(f.records, rotated, f.openedAt)], current := None)
  }

  /** getCurrentFile: the open file, whatever its day, or a new and empty one. */
  function CurrentFile(a: AppState, t: int): OpenFile {
    if a.current.Some? then a.current.value else OpenFile([], 0, t)
  }

  function Append(c: Crypto, a: AppState, f: OpenFile, rec: AuditLog): AppState {
    var size := f.size + RecordSize(c, rec);
    a.(current := Some(OpenFile(f.records + [rec], size, f.openedAt)), index := Some(Indexed(a.index, rec, size)))
  }

  /** What Write does to the files of the record's app once the record is chained. */
  function Store(cfg: Config, a: AppState, rec: AuditLog, fault: Fault): (AppState, Result<AuditLog, WriteError>) {
    if a.current.None? && fault == OpenFails then (a, Err(NotOpened))
    else
      var f := CurrentFile(a, rec.timestamp);
      if cfg.c.encode(rec).None? then (a.(current := Some(f)), Err(NotEncoded))
      else if fault == WriteFails then (a.(current := Some(f)), Err(NotWritten))
      else
        var a1 := Append(cfg.c, a, f, rec);
        if fault == IndexFails then (a1, Err(NotIndexed))
        else if a1.current.value.size >= cfg.rotateSize then (CloseFile(a1, true), Ok(rec))
        else (a1, Ok(rec))
  }

  function Write(cfg: Config, s: State, now: int, log: AuditLog, fault: Fault): (State, Result<AuditLog, WriteError>) {
    match Link(cfg.c, s.lastHash, Complete(now, log))
    case None => (s, Err(NotChained))
    case Some(rec) =>
      var (a, r) := Store(cfg, App(s, rec.appId), rec, fault);
      (State(rec.hash, s.apps[rec.appId := a]), r)
  }

  /** Close: every open segment is closed as it is. */
  function Close(s: State): State {
    s.(apps := map app | app in s.apps :: CloseFile(s.apps[app], false))
  }

  // ---------- runs ----------

  datatype Event = DoWrite(now: int, log: AuditLog, fault: Fault) | DoClose

  function Step(cfg: Config, s: State, e: Event): State {
    match e
    case DoWrite(now, log, fault) => Write(cfg, s, now, log, fault).0
    case DoClose => Close(s)
  }

  function After(cfg: Config, run: seq<Event>, n: nat): State
    requires n <= |run|
  {
    if n == 0 then State("", map[]) else Step(cfg, After(cfg, run, n - 1), run[n - 1])
  }

  /** The record that an event puts on the chain. */
  function ChainedBy(cfg: Config, s: State, e: Event): Option<AuditLog> {
    if e.DoWrite? then Link(cfg.c, s.lastHash, Complete(e.now, e.log)) else None
  }

  /** The records that an event puts into the files of an app: one or none. */
  function Added(cfg: Config, s: State, e: Event, app: string): seq<AuditLog> {
    match ChainedBy(cfg, s, e)
    case None => []
    case Some(rec) =>
      var r := Store(cfg, App(s, rec.appId), rec, e.fault).1;
      if rec.appId == app && (r.Ok? || r.error == NotIndexed) then [rec] else []
  }

  /** The whole chain, and the records written for one app with their places in it. */
  function ChainOf(cfg: Config, run: seq<Event>, n: nat): seq<AuditLog>
    requires n <= |run|
  {
    if n == 0 then []
    else
      var r := ChainedBy(cfg, After(cfg, run, n - 1), run[n - 1]);
      ChainOf(cfg, run, n - 1) + if r.Some? then [r.value] else []
  }

  function RecordsOf(cfg: Config, run: seq<Event>, n: nat, app: string): seq<AuditLog>
    requires n <= |run|
  {
    if n == 0 then []
    else RecordsOf(cfg, run, n - 1, app) + Added(cfg, After(cfg, run, n - 1), run[n - 1], app)
  }

  function PlacesOf(cfg: Config, run: seq<Event>, n: nat, app: string): seq<nat>
    requires n <= |run|
  {
    if n == 0 then []
    else PlacesOf(cfg, run, n - 1, app)
         + if Added(cfg, After(cfg, run, n - 1), run[n - 1], app) != [] then [|ChainOf(cfg, run, n - 1)|] else []
  }

  // ---------- what the segments and the index of an app hold ----------

  function TotalSize(c: Crypto, recs: seq<AuditLog>): nat {
    if recs == [] then 0 else TotalSize(c, recs[..|recs| - 1]) + RecordSize(c, recs[|recs| - 1])
  }

  function Flatten(segments: seq<Segment>): seq<AuditLog> {
    if segments == [] then [] else Flatten(segments[..|segments| - 1]) + segments[|segments| - 1].records
  }

  function Contents(a: AppState): seq<AuditLog> {
    Flatten(a.closed) + if a.current.Some? then a.current.value.records else []
  }

  /** The segment that holds the last record of an app. */
  function LastSegment(a: AppState): seq<AuditLog> {
    if a.current.Some? && a.current.value.records != [] then a.current.value.records else LastNonEmpty(a.closed)
  }

  function LastNonEmpty(segments: seq<Segment>): seq<AuditLog> {
    if segments == [] then []
    else if segments[|segments| - 1].records != [] then segments[|segments| - 1].records
    else LastNonEmpty(segments[..|segments| - 1])
  }

  function CountEvents(recs: seq<AuditLog>, e: string): nat {
    if recs == [] then 0
    else CountEvents(recs[..|recs| - 1], e) + if recs[|recs| - 1].eventType == e then 1 else 0
  }

  /** The index counts these records and bounds their timestamps tightly. */
  ghost predicate Describes(ix: Index, recs: seq<AuditLog>) {
    && ix.total == |recs|
    && (forall e :: Count(ix.events, e) == CountEvents(recs, e))
    && Bounds(ix, recs)
  }

  ghost predicate Bounds(ix: Index, recs: seq<AuditLog>) {
    && (forall i :: 0 <= i < |recs| ==> ix.start <= recs[i].timestamp <= ix.end)
    && (exists i :: 0 <= i < |recs| && recs[i].timestamp == ix.start)
    && (exists i :: 0 <= i < |recs| && recs[i].timestamp == ix.end)
  }

  /** What updateIndex builds from these records, sizes aside. */
  function Fold(recs: seq<AuditLog>): Option<Index> {
    if recs == [] then None else Some(Indexed(Fold(recs[..|recs| - 1]), recs[|recs| - 1], 0))
  }

  function Unsized(ix: Option<Index>): Option<Index> {
    match ix
    case None => None
    case Some(i) => Some(i.(size := 0))
  }

  ghost predicate FilesInv(c: Crypto, a: AppState, recs: seq<AuditLog>) {
    && Contents(a) == recs
    && (a.current.Some? ==> a.current.value.size == TotalSize(c, a.current.value.records))
  }

  ghost predicate IndexInv(c: Crypto, a: AppState, recs: seq<AuditLog>) {
    && Unsized(a.index) == Fold(recs)
    && (a.index.Some? ==> a.index.value.size == TotalSize(c, LastSegment(a)))
  }

  lemma FlattenMore(segments: seq<Segment>, last: Segment)
    ensures Flatten(segments + [last]) == Flatten(segments) + last.records
  {
    assert (segments + [last])[..|segments|] == segments;
  }

  lemma TotalMore(c: Crypto, recs: seq<AuditLog>, rec: AuditLog)
    ensures TotalSize(c, recs + [rec]) == TotalSize(c, recs) + RecordSize(c, rec)
    ensures Fold(recs + [rec]) == Some(Indexed(Fold(recs), rec, 0))
  {
    assert (recs + [rec])[..|recs|] == recs;
  }

  lemma UnsizedIndexed(ix: Option<Index>, rec: AuditLog, size: nat)
    ensures Unsized(Some(Indexed(ix, rec, size))) == Some(Indexed(Unsized(ix), rec, 0))
    ensures Indexed(ix, rec, size).size == size
  {
  }

  lemma AppendFiles(c: Crypto, a: AppState, f: OpenFile, rec: AuditLog, recs: seq<AuditLog>)
    requires FilesInv(c, a, recs) && f == CurrentFile(a, rec.timestamp)
    ensures FilesInv(c, Append(c, a, f, rec), recs + [rec])
  {
    hide Indexed;
    TotalMore(c, f.records, rec);
    AppendAssoc(Flatten(a.closed), f.records, [rec]);
  }

  lemma AppendIndex(c: Crypto, a: AppState, f: OpenFile, rec: AuditLog, recs: seq<AuditLog>)
    requires FilesInv(c, a, recs) && IndexInv(c, a, recs) && f == CurrentFile(a, rec.timestamp)
    ensures IndexInv(c, Append(c, a, f, rec), recs + [rec])
  {
    hide Indexed, Contents;
    TotalMore(c, f.records, rec);
    TotalMore(c, recs, rec);
    UnsizedIndexed(a.index, rec, f.size + RecordSize(c, rec));
  }

  lemma OpenKeeps(c: Crypto, a: AppState, t: int, recs: seq<AuditLog>)
    requires FilesInv(c, a, recs) && IndexInv(c, a, recs)
    ensures var a1 := a.(current := Some(CurrentFile(a, t)));
            FilesInv(c, a1, recs) && IndexInv(c, a1, recs)
  {
  }

  lemma CloseKeeps(c: Crypto, a: AppState, rotated: bool, recs: seq<AuditLog>)
    requires FilesInv(c, a, recs) && IndexInv(c, a, recs)
    ensures FilesInv(c, CloseFile(a, rotated), recs) && IndexInv(c, CloseFile(a, rotated), recs)
  {
    if a.current.Some? {
      var seg := Segment(a.current.value.records, rotated, a.current.value.openedAt);
      FlattenMore(a.closed, seg);
      assert (a.closed + [seg])[..|a.closed|] == a.closed;
    }
  }

  lemma StoreKeeps(cfg: Config, a: AppState, rec: AuditLog, fault: Fault, recs: seq<AuditLog>)
    requires FilesInv(cfg.c, a, recs) && IndexInv(cfg.c, a, recs)
    ensures var (a1, r) := Store(cfg, a, rec, fault);
            var recs1 := if r.Ok? || r.error == NotIndexed then recs + [rec] else recs;
            FilesInv(cfg.c, a1, recs1) && IndexInv(cfg.c, a1, recs1)
  {
    hide FilesInv, IndexInv, Indexed, CloseFile;
    var f := CurrentFile(a, rec.timestamp);
    OpenKeeps(cfg.c, a, rec.timestamp, recs);
    AppendFiles(cfg.c, a, f, rec, recs);
    AppendIndex(cfg.c, a, f, rec, recs);
    CloseKeeps(cfg.c, Append(cfg.c, a, f, rec), true, recs + [rec]);
  }

  lemma StepKeeps(cfg: Config, s: State, e: Event, app: string, recs: seq<AuditLog>)
    requires FilesInv(cfg.c, App(s, app), recs) && IndexInv(cfg.c, App(s, app), recs)
    ensures FilesInv(cfg.c, App(Step(cfg, s, e), app), recs + Added(cfg, s, e, app))
    ensures IndexInv(cfg.c, App(Step(cfg, s, e), app), recs + Added(cfg, s, e, app))
  {
    hide FilesInv, IndexInv, Store, CloseFile;
    assert recs + [] == recs;
    if e.DoClose? {
      CloseKeeps(cfg.c, App(s, app), false, recs);
    } else if ChainedBy(cfg, s, e).Some? && ChainedBy(cfg, s, e).value.appId == app {
      StoreKeeps(cfg, App(s, app), ChainedBy(cfg, s, e).value, e.fault, recs);
    }
  }

  lemma NewAppInv(c: Crypto)
    ensures FilesInv(c, NEW_APP, []) && IndexInv(c, NEW_APP, [])
  {
  }

  lemma {:induction false} AlwaysInv(cfg: Config, run: seq<Event>, n: nat, app: string)
    requires n <= |run|
    ensures FilesInv(cfg.c, App(After(cfg, run, n), app), RecordsOf(cfg, run, n, app))
    ensures IndexInv(cfg.c, App(After(cfg, run, n), app), RecordsOf(cfg, run, n, app))
  {
    hide Step, Added, FilesInv, IndexInv;
    if n == 0 {
      NewAppInv(cfg.c);
    } else {
      AlwaysInv(cfg, run, n - 1, app);
      StepKeeps(cfg, After(cfg, run, n - 1), run[n - 1], app, RecordsOf(cfg, run, n - 1, app));
    }
  }

  lemma {:induction false} FoldCounts(recs: seq<AuditLog>, e: string)
    requires recs != []
    ensures Fold(recs).Some? && Fold(recs).value.total == |recs|
    ensures Count(Fold(recs).value.events, e) == CountEvents(recs, e)
  {
    var front := recs[..|recs| - 1];
    if front == [] {
      assert CountEvents(front, e) == 0;
    } else {
      FoldCounts(front, e);
    }
  }

  lemma BoundsMore(prior: Index, front: seq<AuditLog>, rec: AuditLog, size: nat)
    requires Bounds(prior, front)
    ensures Bounds(Indexed(Some(prior), rec, size), front + [rec])
  {
    var i :| 0 <= i < |front| && front[i].timestamp == prior.start;
    var j :| 0 <= j < |front| && front[j].timestamp == prior.end;
    var all := front + [rec];
    assert all[i] == front[i] && all[j] == front[j] && all[|front|] == rec;
  }

  lemma {:induction false} FoldBounds(recs: seq<AuditLog>)
    requires recs != []
    ensures Fold(recs).Some? && Bounds(Fold(recs).value, recs)
  {
    var front, rec := recs[..|recs| - 1], recs[|recs| - 1];
    assert recs == front + [rec];
    if front == [] {
      assert Fold(recs) == Some(Indexed(None, rec, 0));
      assert recs[0].timestamp == rec.timestamp;
    } else {
      hide Bounds, Indexed;
      FoldBounds(front);
      BoundsMore(Fold(front).value, front, rec, 0);
    }
  }

  lemma IndexFacts(c: Crypto, a: AppState, recs: seq<AuditLog>)
    requires IndexInv(c, a, recs)
    ensures a.index.None? <==> recs == []
    ensures recs != [] ==> Describes(a.index.value, recs) && a.index.value.size == TotalSize(c, LastSegment(a))
  {
    hide LastSegment, TotalSize;
    if recs != [] {
      FoldBounds(recs);
      var ix, v := a.index.value, Fold(recs).value;
      assert ix.(size := 0) == v;
      var i :| 0 <= i < |recs| && recs[i].timestamp == v.start;
      var j :| 0 <= j < |recs| && recs[j].timestamp == v.end;
      assert recs[i].timestamp == ix.start && recs[j].timestamp == ix.end;
      forall e ensures Count(ix.events, e) == CountEvents(recs, e) { FoldCounts(recs, e); }
      FoldCounts(recs, "");
    }
  }

  /** After any run, an app's segments end to end are exactly the records written for
      it in order; its index counts exactly those, bounds their timestamps tightly, and
      gives the size of the segment that holds the last one. */
  lemma SegmentsHoldRecords(cfg: Config, run: seq<Event>, n: nat, app: string)
    requires n <= |run|
    ensures var a, recs := App(After(cfg, run, n), app), RecordsOf(cfg, run, n, app);
            && Contents(a) == recs
            && (a.index.None? <==> recs == [])
            && (recs != [] ==> Describes(a.index.value, recs) && a.index.value.size == TotalSize(cfg.c, LastSegment(a)))
  {
    hide Step, Added, IndexInv, Describes, Contents, LastSegment;
    AlwaysInv(cfg, run, n, app);
    IndexFacts(cfg.c, App(After(cfg, run, n), app), RecordsOf(cfg, run, n, app));
  }

  // ---------- the size in the index ----------

  lemma {:induction false} TotalSplit(c: Crypto, a: seq<AuditLog>, b: seq<AuditLog>)
    ensures TotalSize(c, a + b) == TotalSize(c, a) + TotalSize(c, b)
  {
    if b == [] {
      assert a + b == a;
    } else {
      assert (a + b)[..|a + b| - 1] == a + b[..|b| - 1];
      TotalSplit(c, a, b[..|b| - 1]);
    }
  }

  /** The records before the last non-empty segment. */
  function BeforeLast(a: AppState): seq<AuditLog> {
    if a.current.Some? && a.current.value.records != [] then Flatten(a.closed) else BeforeLastOf(a.closed)
  }

  function BeforeLastOf(segments: seq<Segment>): seq<AuditLog> {
    if segments == [] then []
    else if segments[|segments| - 1].records != [] then Flatten(segments[..|segments| - 1])
    else BeforeLastOf(segments[..|segments| - 1])
  }

  lemma {:induction false} LastOfSegments(segments: seq<Segment>)
    ensures Flatten(segments) == BeforeLastOf(segments) + LastNonEmpty(segments)
  {
    if segments != [] && segments[|segments| - 1].records == [] { LastOfSegments(segments[..|segments| - 1]); }
  }

  lemma LastEndsContents(a: AppState)
    ensures Contents(a) == BeforeLast(a) + LastSegment(a)
  {
    LastOfSegments(a.closed);
  }

  /** Whatever is in a file could be encoded. */
  lemma {:induction false} RecordsEncoded(cfg: Config, run: seq<Event>, n: nat, app: string)
    requires n <= |run|
    ensures forall r :: r in RecordsOf(cfg, run, n, app) ==> cfg.c.encode(r).Some?
  {
    hide After, ChainedBy, Append, CloseFile;
    if n > 0 { RecordsEncoded(cfg, run, n - 1, app); }
  }

  lemma {:induction false} TotalNothing(c: Crypto, recs: seq<AuditLog>)
    requires forall r :: r in recs ==> c.encode(r).Some?
    ensures TotalSize(c, recs) == 0 <==> recs == []
  {
    if recs != [] { TotalNothing(c, recs[..|recs| - 1]); }
  }

  /** The size in an app's index is the total of all its records exactly when a single
      segment holds them all. */
  lemma IndexSizeExactly(cfg: Config, run: seq<Event>, n: nat, app: string)
    requires n <= |run| && RecordsOf(cfg, run, n, app) != []
    ensures var a, recs := App(After(cfg, run, n), app), RecordsOf(cfg, run, n, app);
            a.index.Some? && (a.index.value.size == TotalSize(cfg.c, recs) <==> LastSegment(a) == recs)
  {
    hide After, RecordsOf, Contents, LastSegment, BeforeLast, TotalSize, Describes;
    var a, recs := App(After(cfg, run, n), app), RecordsOf(cfg, run, n, app);
    var before, last := BeforeLast(a), LastSegment(a);
    SegmentsHoldRecords(cfg, run, n, app);
    LastEndsContents(a);
    TotalSplit(cfg.c, before, last);
    RecordsEncoded(cfg, run, n, app);
    forall r | r in before ensures cfg.c.encode(r).Some? { assert r in recs; }
    TotalNothing(cfg.c, before);
    assert last == recs ==> |before| == 0;
  }

  // ---------- what one write leaves ----------

  lemma AppendContents(c: Crypto, a: AppState, f: OpenFile, rec: AuditLog)
    requires f == CurrentFile(a, rec.timestamp)
    ensures Contents(Append(c, a, f, rec)) == Contents(a) + [rec] && Append(c, a, f, rec).current.Some?
    ensures Contents(a.(current := Some(f))) == Contents(a)
  {
    hide Indexed, RecordSize;
    AppendAssoc(Flatten(a.closed), f.records, [rec]);
  }

  lemma CloseContents(a: AppState, rotated: bool)
    ensures Contents(CloseFile(a, rotated)) == Contents(a)
  {
    if a.current.Some? {
      var f := a.current.value;
      FlattenMore(a.closed, Segment(f.records, rotated, f.openedAt));
      assert Flatten(a.closed) + f.records + [] == Flatten(a.closed) + f.records;
    }
  }

  lemma StoreAppends(cfg: Config, a: AppState, rec: AuditLog, fault: Fault)
    ensures var (a1, r) := Store(cfg, a, rec, fault);
            Contents(a1) == Contents(a) + if r.Ok? || r.error == NotIndexed then [rec] else []
  {
    hide Contents, Append, CloseFile, CurrentFile;
    var f := CurrentFile(a, rec.timestamp);
    AppendContents(cfg.c, a, f, rec);
    CloseContents(Append(cfg.c, a, f, rec), true);
    assert Contents(a) + [] == Contents(a);
  }

  /** The record as it is to be stored: the default app and the present instant stand in
      only for what is missing, and it names the last hash. */
  ghost predicate CompletedAs(now: int, log: AuditLog, lastHash: string, rec: AuditLog) {
    && rec.appId == (if log.appId == "" then "default" else log.appId)
    && rec.timestamp == (if log.timestamp == 0 then now else log.timestamp)
    && rec.prevHash == lastHash
    && rec.eventType == log.eventType && rec.userId == log.userId && rec.clientIP == log.clientIP
    && rec.statusCode == log.statusCode && rec.body == log.body
  }

  /** A write succeeds exactly when its record can be encoded, before and after it is
      hashed, and no call fails; the record is then the last one of its app and of the chain,
      completed and intact, and no other app is touched. */
  lemma WritesExactly(cfg: Config, s: State, now: int, log: AuditLog, fault: Fault, rec: AuditLog)
    requires Ideal(cfg.c) && CompletedAs(now, log, s.lastHash, rec) && rec.hash == CalculateHash(cfg.c, rec)
    ensures var (s1, r) := Write(cfg, s, now, log, fault);
            && (r.Ok? <==>
                && VerifyLog(cfg.c, rec) && cfg.c.encode(rec).Some?
                && fault != WriteFails && fault != IndexFails
                && (fault == OpenFails ==> App(s, rec.appId).current.Some?))
            && (r.Ok? ==> r.value == rec && Contents(App(s1, rec.appId)) == Contents(App(s, rec.appId)) + [rec])
            && (r == Err(NotChained) <==> !VerifyLog(cfg.c, rec))
            && s1.lastHash == (if VerifyLog(cfg.c, rec) then rec.hash else s.lastHash)
            && forall app :: app != rec.appId ==> App(s1, app) == App(s, app)
  {
    hide Contents, CloseFile, Append;
    var linked := Complete(now, log).(prevHash := s.lastHash);
    assert rec.(hash := "") == linked.(hash := "");
    assert rec == linked.(hash := rec.hash);
    StoreAppends(cfg, App(s, rec.appId), rec, fault);
  }
}
