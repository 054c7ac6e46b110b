/** The audit reader of internal/audit/reader.go: pruning by index entry, filtering,
    merging and paging. */
module AuditReader {
  import opened Common
  import opened HashChain

  datatype FileInfo = FileInfo(path: string, start: int, end: int, events: map<string, int>)

  datatype Query = Query(start: Option<int>, end: Option<int>, eventTypes: seq<string>, userId: string, appId: string,
                         clientIP: string, statusCode: int, limit: nat, offset: nat)

  /** The log directory: its apps in directory order, their index files, the readable files
      by path, and the files of the current day of each app. What is there but cannot be
      read is None. */
  datatype Disk = Disk(apps: Option<seq<string>>, indexes: map<string, Option<seq<FileInfo>>>,
                       files: map<string, seq<AuditLog>>, today: map<string, Option<seq<string>>>)

  datatype ReadError = BadAppId | Unreadable

  predicate InTimeRange(log: AuditLog, q: Query) {
    (q.start.None? || log.timestamp >= q.start.value) && (q.end.None? || log.timestamp <= q.end.value)
  }

  predicate MatchFilters(log: AuditLog, q: Query) {
    && InTimeRange(log, q)
    && (q.eventTypes == [] || log.eventType in q.eventTypes)
    && (q.userId == "" || log.userId == q.userId)
    && (q.appId == "" || log.appId == q.appId)
    && (q.clientIP == "" || log.clientIP == q.clientIP)
    && (q.statusCode == 0 || log.statusCode == q.statusCode)
  }

  function Filter(logs: seq<AuditLog>, q: Query): seq<AuditLog> {
    Keep(logs, (l: AuditLog) => MatchFilters(l, q))
  }

  /** The places of the records that match, in order. */
  ghost function Places(logs: seq<AuditLog>, q: Query): (at: seq<nat>)
    ensures forall k :: 0 <= k < |at| ==> at[k] < |logs|
    ensures Increasing(at)
  {
    if logs == [] then []
    else
      var n := |logs| - 1;
      Places(logs[..n], q) + if MatchFilters(logs[n], q) then [n] else []
  }

  lemma {:induction false} PlacesExact(logs: seq<AuditLog>, q: Query, i: nat)
    ensures i in Places(logs, q) <==> i < |logs| && MatchFilters(logs[i], q)
  {
    hide MatchFilters;
    if logs != [] { PlacesExact(logs[..|logs| - 1], q, i); }
  }

  /** What is kept are the records at exactly those places, in their order. */
  lemma {:induction false} FilterPicks(logs: seq<AuditLog>, q: Query)
    ensures Filter(logs, q) == Pick(logs, Places(logs, q))
    ensures forall i: nat :: i in Places(logs, q) <==> i < |logs| && MatchFilters(logs[i], q)
  {
    hide MatchFilters;
    if logs != [] {
      FilterPicks(logs[..|logs| - 1], q);
      PickMore(logs, Places(logs[..|logs| - 1], q));
    }
    forall i: nat ensures i in Places(logs, q) <==> i < |logs| && MatchFilters(logs[i], q) { PlacesExact(logs, q, i); }
  }

  lemma PickMore(logs: seq<AuditLog>, at: seq<nat>)
    requires logs != [] && forall k :: 0 <= k < |at| ==> at[k] < |logs| - 1
    ensures Pick(logs, at + []) == Pick(logs[..|logs| - 1], at) + []
    ensures Pick(logs, at + [|logs| - 1]) == Pick(logs[..|logs| - 1], at) + [logs[|logs| - 1]]
  {
  }

  /** A map entry that is absent reads as zero. */
  function Events(f: FileInfo, e: string): int {
    if e in f.events then f.events[e] else 0
  }

  predicate Relevant(f: FileInfo, q: Query) {
    && (q.start.None? || f.end >= q.start.value)
    && (q.end.None? || f.start <= q.end.value)
    && (q.eventTypes == [] || exists e | e in q.eventTypes :: Events(f, e) > 0)
  }

  method IsFileRelevant(f: FileInfo, q: Query) returns (ok: bool)
    ensures ok <==> Relevant(f, q)
  {
    if q.start.Some? && f.end < q.start.value { return false; }
    if q.end.Some? && f.start > q.end.value { return false; }
    if |q.eventTypes| > 0 {
      var hasEvent := false;
      for i := 0 to |q.eventTypes|
        invariant !hasEvent && forall j :: 0 <= j < i ==> Events(f, q.eventTypes[j]) <= 0
      {
        if Events(f, q.eventTypes[i]) > 0 {
          assert q.eventTypes[i] in q.eventTypes;
          hasEvent := true;
          break;
        }
      }
      if !hasEvent { return false; }
    }
    return true;
  }

  /** An index entry that is true of its file: the file's timestamps lie within it and
      every event type in the file is counted. */
  ghost predicate Bounds(f: FileInfo, logs: seq<AuditLog>) {
    forall l :: l in logs ==> f.start <= l.timestamp <= f.end && Events(f, l.eventType) > 0
  }

  /** A pruned file has nothing that matches. */
  lemma PrunedHasNothing(f: FileInfo, logs: seq<AuditLog>, q: Query)
    requires Bounds(f, logs) && !Relevant(f, q)
    ensures Filter(logs, q) == []
  {
    KeepExact(logs, (l: AuditLog) => MatchFilters(l, q));
    HasMember(Filter(logs, q));
  }

  /** The matching records of the files at these paths, in order. */
  function Scan(files: map<string, seq<AuditLog>>, paths: seq<string>, q: Query): Result<seq<AuditLog>, ReadError> {
    if paths == [] then Ok([])
    else if paths[0] !in files then Err(Unreadable)
    else Prepend(Filter(files[paths[0]], q), Scan(files, paths[1..], q))
  }

  function Prepend(logs: seq<AuditLog>, r: Result<seq<AuditLog>, ReadError>): Result<seq<AuditLog>, ReadError> {
    if r.Ok? then Ok(logs + r.value) else r
  }

  /** The paths of the files that the index does not rule out. */
  function RelevantPaths(index: seq<FileInfo>, q: Query): seq<string> {
    if index == [] then []
    else (if Relevant(index[0], q) then [index[0].path] else []) + RelevantPaths(index[1..], q)
  }

  function AllPaths(index: seq<FileInfo>): seq<string> {
    if index == [] then [] else [index[0].path] + AllPaths(index[1..])
  }

  /** Pruning is exact: with entries that are true of their files, the relevant files
      alone give the same records as all of them. */
  lemma {:induction false} PruningExact(files: map<string, seq<AuditLog>>, index: seq<FileInfo>, q: Query)
    requires forall f :: f in index ==> f.path in files && Bounds(f, files[f.path])
    ensures Scan(files, RelevantPaths(index, q), q) == Scan(files, AllPaths(index), q)
    ensures Scan(files, AllPaths(index), q).Ok?
  {
    if index != [] {
      var f, rest := index[0], index[1..];
      PruningExact(files, rest, q);
      assert AllPaths(index)[1..] == AllPaths(rest);
      if Relevant(f, q) {
        assert RelevantPaths(index, q)[1..] == RelevantPaths(rest, q);
      } else {
        PrunedHasNothing(f, files[f.path], q);
        PrependNothing([], Scan(files, AllPaths(rest), q));
        assert RelevantPaths(index, q) == RelevantPaths(rest, q);
      }
    }
  }

  predicate ValidAppId(app: string) {
    '/' !in app && '\\' !in app && forall i | 0 <= i < |app| - 1 :: !(app[i] == '.' && app[i + 1] == '.')
  }

  /** The indexes read so far, which are never read again. */
  type Cache = map<string, seq<FileInfo>>

  function IndexOf(disk: Disk, cache: Cache, app: string): Result<Option<seq<FileInfo>>, ReadError> {
    if app in cache then Ok(Some(cache[app]))
    else if app !in disk.indexes then Ok(None)
    else if disk.indexes[app].None? then Err(Unreadable)
    else Ok(disk.indexes[app])
  }

  function TodayOf(disk: Disk, app: string): Result<seq<string>, ReadError> {
    if app !in disk.today then Ok([])
    else if disk.today[app].None? then Err(Unreadable)
    else Ok(disk.today[app].value)
  }

  function ScanToday(disk: Disk, app: string, q: Query): Result<seq<AuditLog>, ReadError> {
    match TodayOf(disk, app)
    case Err(e) => Err(e)
    case Ok(paths) => Scan(disk.files, paths, q)
  }

  /** readAppLogs before sorting: what the index leads to, then the current day. */
  function AppLogs(disk: Disk, cache: Cache, app: string, q: Query): Result<seq<AuditLog>, ReadError> {
    if !ValidAppId(app) then Err(BadAppId)
    else
      match IndexOf(disk, cache, app)
      case Err(e) => Err(e)
      case Ok(None) => Ok([])
      case Ok(Some(index)) =>
        match Scan(disk.files, RelevantPaths(index, q), q)
        case Err(e) => Err(e)
        case Ok(historical) => Prepend(historical, ScanToday(disk, app, q))
  }

  // ---------- sorting ----------

  type Sorter = seq<AuditLog> -> seq<AuditLog>

  ghost predicate ByTime(logs: seq<AuditLog>) {
    forall i, j :: 0 <= i < j < |logs| ==> logs[i].timestamp <= logs[j].timestamp
  }

  /** sort.Slice by timestamp: some function that permutes its input into time order. */
  ghost predicate SortsByTime(sort: Sorter) {
    forall s :: ByTime(sort(s)) && multiset(sort(s)) == multiset(s)
  }

  /** There is one. */
  lemma SortExists()
    ensures SortsByTime(s => Sort(s, (a: AuditLog, b: AuditLog) => a.timestamp <= b.timestamp))
  {
    var le := (a: AuditLog, b: AuditLog) => a.timestamp <= b.timestamp;
    forall s ensures ByTime(Sort(s, le)) && multiset(Sort(s, le)) == multiset(s) {
      SortSorted(s, le);
    }
  }

  lemma SortNothing(sort: Sorter)
    requires SortsByTime(sort)
    ensures sort([]) == []
  {
    var none: seq<AuditLog> := [];
    assert |multiset(sort(none))| == |multiset(none)|;
  }

  function SortedLogs(sort: Sorter, r: Result<seq<AuditLog>, ReadError>): Result<seq<AuditLog>, ReadError> {
    if r.Ok? then Ok(sort(r.value)) else r
  }

  // ---------- answers ----------

  /** The records of these apps, each app's sorted, before the final sort. */
  function Gather(sort: Sorter, disk: Disk, cache: Cache, apps: seq<string>, q: Query): Result<seq<AuditLog>, ReadError>
  {
    if apps == [] then Ok([])
    else
      match SortedLogs(sort, AppLogs(disk, cache, apps[0], q))
      case Err(e) => Err(e)
      case Ok(logs) => Prepend(logs, Gather(sort, disk, cache, apps[1..], q))
  }

  /** What ReadLogs answers: one app's records, or a page of those of all apps. */
  function Answer(sort: Sorter, disk: Disk, cache: Cache, q: Query): Result<seq<AuditLog>, ReadError> {
    if q.appId != "" then SortedLogs(sort, AppLogs(disk, cache, q.appId, q))
    else if disk.apps.None? then Err(Unreadable)
    else
      var all := SortedLogs(sort, Gather(sort, disk, cache, disk.apps.value, q));
      if all.Err? then all else Ok(Page(all.value, q.offset, q.limit))
  }

  /** Two caches that lead to the same index for every app. */
  ghost predicate SameView(disk: Disk, a: Cache, b: Cache) {
    forall app :: IndexOf(disk, a, app) == IndexOf(disk, b, app)
  }

  class Reader {
    const sort: Sorter
    var indexes: Cache

    constructor (sort: Sorter)
      requires SortsByTime(sort)
      ensures Valid() && this.sort == sort && indexes == map[]
    {
      this.sort, indexes := sort, map[];
    }

    ghost predicate Valid() {
      SortsByTime(sort)
    }

    method LoadIndex(disk: Disk, app: string) returns (r: Result<Option<seq<FileInfo>>, ReadError>)
      modifies this
      ensures r == IndexOf(disk, old(indexes), app)
      ensures SameView(disk, old(indexes), indexes)
    {
      if app in indexes { return Ok(Some(indexes[app])); }
      if app !in disk.indexes { return Ok(None); }
      if disk.indexes[app].None? { return Err(Unreadable); }
      indexes := indexes[app := disk.indexes[app].value];
      return Ok(Some(indexes[app]));
    }

    method ReadFile(disk: Disk, path: string, q: Query) returns (r: Result<seq<AuditLog>, ReadError>)
      ensures r == if path in disk.files then Ok(Filter(disk.files[path], q)) else Err(Unreadable)
    {
      if path !in disk.files { return Err(Unreadable); }
      var file, logs := disk.files[path], [];
      for i := 0 to |file|
        invariant logs == Filter(file[..i], q)
      {
        assert file[..i + 1][..i] == file[..i];
        if MatchFilters(file[i], q) { logs := logs + [file[i]]; }
      }
      assert file[..|file|] == file;
      return Ok(logs);
    }

    method ReadHistoricalLogs(disk: Disk, index: seq<FileInfo>, q: Query) returns (r: Result<seq<AuditLog>, ReadError>)
      ensures r == Scan(disk.files, RelevantPaths(index, q), q)
    {
      var logs: seq<AuditLog> := [];
      assert index[0..] == index;
      PrependNothing([], Scan(disk.files, RelevantPaths(index, q), q));
      for i := 0 to |index|
        invariant Scan(disk.files, RelevantPaths(index, q), q)
                  == Prepend(logs, Scan(disk.files, RelevantPaths(index[i..], q), q))
      {
        var relevant := IsFileRelevant(index[i], q);
        ghost var rest := RelevantPaths(index[i + 1..], q);
        assert index[i..][1..] == index[i + 1..];
        if relevant {
          assert RelevantPaths(index[i..], q)[1..] == rest;
          var more := ReadFile(disk, index[i].path, q);
          if more.Err? { return more; }
          PrependTwice(logs, more.value, Scan(disk.files, rest, q));
          logs := logs + more.value;
        } else {
          assert RelevantPaths(index[i..], q) == rest;
        }
      }
      assert RelevantPaths(index[|index|..], q) == [];
      PrependNothing(logs, Ok([]));
      return Ok(logs);
    }

    method ScanCurrentDay(disk: Disk, app: string, q: Query) returns (r: Result<seq<AuditLog>, ReadError>)
      ensures r == ScanToday(disk, app, q)
    {
      var today := TodayOf(disk, app);
      if today.Err? { return Err(today.error); }
      var paths := today.value;
      var logs: seq<AuditLog> := [];
      assert paths[0..] == paths;
      PrependNothing([], Scan(disk.files, paths, q));
      for i := 0 to |paths|
        invariant Scan(disk.files, paths, q) == Prepend(logs, Scan(disk.files, paths[i..], q))
      {
        assert paths[i..][1..] == paths[i + 1..];
        var more := ReadFile(disk, paths[i], q);
        if more.Err? { return more; }
        PrependTwice(logs, more.value, Scan(disk.files, paths[i + 1..], q));
        logs := logs + more.value;
      }
      assert paths[|paths|..] == [];
      PrependNothing(logs, Ok([]));
      return Ok(logs);
    }

    method ReadAppLogs(disk: Disk, app: string, q: Query) returns (r: Result<seq<AuditLog>, ReadError>)
      requires Valid()
      modifies this
      ensures r == SortedLogs(sort, AppLogs(disk, old(indexes), app, q))
      ensures SameView(disk, old(indexes), indexes)
    {
      if !ValidAppId(app) { return Err(BadAppId); }
      var index := LoadIndex(disk, app);
      if index.Err? { return Err(index.error); }
      if index.value.None? {
        SortNothing(sort);
        return Ok([]);
      }
      var historical := ReadHistoricalLogs(disk, index.value.value, q);
      if historical.Err? { return historical; }
      var current := ScanCurrentDay(disk, app, q);
      if current.Err? { return current; }
      return Ok(sort(historical.value + current.value));
    }

    method ReadLogs(disk: Disk, q: Query) returns (r: Result<seq<AuditLog>, ReadError>)
      requires Valid()
      modifies this
      ensures r == Answer(sort, disk, old(indexes), q)
      ensures SameView(disk, old(indexes), indexes)
    {
      if q.appId != "" {
        r := ReadAppLogs(disk, q.appId, q);
        return;
      }
      if disk.apps.None? { return Err(Unreadable); }
      ghost var cache := indexes;
      var all: seq<AuditLog> := [];
      var apps := disk.apps.value;
      assert apps[0..] == apps;
      PrependNothing([], Gather(sort, disk, cache, apps, q));
      for i := 0 to |apps|
        invariant SameView(disk, cache, indexes)
        invariant Gather(sort, disk, cache, apps, q) == Prepend(all, Gather(sort, disk, cache, apps[i..], q))
      {
        assert apps[i..][1..] == apps[i + 1..];
        AppLogsSameView(disk, cache, indexes, apps[i], q);
        var logs := ReadAppLogs(disk, apps[i], q);
        if logs.Err? { return logs; }
        PrependTwice(all, logs.value, Gather(sort, disk, cache, apps[i + 1..], q));
        all := all + logs.value;
      }
      assert apps[|apps|..] == [];
      PrependNothing(all, Ok([]));
      all := sort(all);
      if q.offset >= |all| { return Ok([]); }
      var end := q.offset + q.limit;
      if end > |all| { end := |all|; }
      return Ok(all[q.offset..end]);
    }
  }

  lemma AppLogsSameView(disk: Disk, a: Cache, b: Cache, app: string, q: Query)
    requires SameView(disk, a, b)
    ensures AppLogs(disk, a, app, q) == AppLogs(disk, b, app, q)
  {
  }

  lemma {:induction false} GatherSameView(sort: Sorter, disk: Disk, a: Cache, b: Cache, apps: seq<string>, q: Query)
    requires SameView(disk, a, b)
    ensures Gather(sort, disk, a, apps, q) == Gather(sort, disk, b, apps, q)
  {
    if apps != [] {
      AppLogsSameView(disk, a, b, apps[0], q);
      GatherSameView(sort, disk, a, b, apps[1..], q);
    }
  }

  lemma PrependNothing(a: seq<AuditLog>, r: Result<seq<AuditLog>, ReadError>)
    ensures Prepend([], r) == r && Prepend(a, Ok([])) == Ok(a)
  {
    assert a + [] == a;
    if r.Ok? { assert [] + r.value == r.value; }
  }

  lemma PrependTwice(a: seq<AuditLog>, b: seq<AuditLog>, r: Result<seq<AuditLog>, ReadError>)
    ensures Prepend(a, Prepend(b, r)) == Prepend(a + b, r)
  {
    if r.Ok? { AppendAssoc(a, b, r.value); }
  }

  // ---------- pages ----------

  /** The paging step at the end of ReadLogs. */
  function Page(all: seq<AuditLog>, offset: nat, limit: nat): seq<AuditLog> {
    if offset >= |all| then []
    else all[offset..if offset + limit > |all| then |all| else offset + limit]
  }

  /** The first n pages of L records each, end to end. */
  function Pages(all: seq<AuditLog>, L: nat, n: nat): seq<AuditLog> {
    if n == 0 then [] else Pages(all, L, n - 1) + Page(all, (n - 1) * L, L)
  }

  lemma {:induction false} PagesPrefix(all: seq<AuditLog>, L: nat, n: nat)
    ensures Pages(all, L, n) == all[..if n * L > |all| then |all| else n * L]
  {
    if n > 0 {
      PagesPrefix(all, L, n - 1);
      assert n * L == (n - 1) * L + L;
    }
  }

  /** Pages of any positive size partition the result: nothing is lost or repeated. */
  lemma PagesPartition(all: seq<AuditLog>, L: nat, n: nat)
    requires L > 0 && n * L >= |all|
    ensures Pages(all, L, n) == all
  {
    PagesPrefix(all, L, n);
  }

  /** A page is empty exactly when the pages before it hold everything. */
  lemma PageEmpty(all: seq<AuditLog>, L: nat, n: nat)
    requires L > 0
    ensures Page(all, n * L, L) == [] <==> Pages(all, L, n) == all
  {
    hide Pages;
    PagesPrefix(all, L, n);
    CutWhole(all, n * L, L);
  }

  lemma CutWhole(all: seq<AuditLog>, at: nat, L: nat)
    requires L > 0
    ensures Page(all, at, L) == [] <==> all[..if at > |all| then |all| else at] == all
  {
    if at < |all| {
      assert |Page(all, at, L)| > 0 && |all[..at]| < |all|;
    }
  }

  // ---------- which records are found ----------

  /** The records of the files at these paths, end to end. */
  function Records(files: map<string, seq<AuditLog>>, paths: seq<string>): seq<AuditLog> {
    if paths == [] then []
    else (if paths[0] in files then files[paths[0]] else []) + Records(files, paths[1..])
  }

  /** The found records are those of the source that match, each as often as it is there. */
  ghost predicate Exactly(found: seq<AuditLog>, source: seq<AuditLog>, q: Query) {
    forall l :: multiset(found)[l] == if MatchFilters(l, q) then multiset(source)[l] else 0
  }

  lemma {:induction false} FilterExact(logs: seq<AuditLog>, q: Query)
    ensures Exactly(Filter(logs, q), logs, q)
  {
    if logs != [] {
      var n := |logs| - 1;
      FilterExact(logs[..n], q);
      assert logs == logs[..n] + [logs[n]];
    }
  }

  lemma ExactlyBoth(a: seq<AuditLog>, s: seq<AuditLog>, b: seq<AuditLog>, t: seq<AuditLog>, q: Query)
    requires Exactly(a, s, q) && Exactly(b, t, q)
    ensures Exactly(a + b, s + t, q)
  {
    forall l ensures multiset(a + b)[l] == if MatchFilters(l, q) then multiset(s + t)[l] else 0 {
      assert multiset(a + b)[l] == multiset(a)[l] + multiset(b)[l];
      assert multiset(s + t)[l] == multiset(s)[l] + multiset(t)[l];
    }
  }

  lemma {:induction false} ScanExact(files: map<string, seq<AuditLog>>, paths: seq<string>, q: Query)
    ensures Scan(files, paths, q).Ok? <==> forall p :: p in paths ==> p in files
    ensures Scan(files, paths, q).Ok? ==> Exactly(Scan(files, paths, q).value, Records(files, paths), q)
  {
    hide Exactly, Filter;
    if paths == [] {
      NothingExact(q);
    } else {
      assert paths == [paths[0]] + paths[1..];
      ScanExact(files, paths[1..], q);
      if Scan(files, paths, q).Ok? {
        FilterExact(files[paths[0]], q);
        ExactlyBoth(Filter(files[paths[0]], q), files[paths[0]], Scan(files, paths[1..], q).value,
                    Records(files, paths[1..]), q);
      }
    }
  }

  lemma NothingExact(q: Query)
    ensures Exactly([], [], q)
  {
  }

  /** Pruning in terms of records: the relevant files hold every matching record of all. */
  lemma {:induction false} PrunedSame(files: map<string, seq<AuditLog>>, index: seq<FileInfo>, q: Query,
                                      found: seq<AuditLog>)
    requires forall f :: f in index ==> f.path in files && Bounds(f, files[f.path])
    requires Exactly(found, Records(files, RelevantPaths(index, q)), q)
    ensures Exactly(found, Records(files, AllPaths(index)), q)
  {
    hide Filter, Bounds;
    PruningExact(files, index, q);
    ScanExact(files, RelevantPaths(index, q), q);
    ScanExact(files, AllPaths(index), q);
  }

  /** The paths that a query of one app reads: with all, pruning left out. */
  function PathsOf(disk: Disk, cache: Cache, app: string, q: Query, all: bool): seq<string> {
    var index := IndexOf(disk, cache, app);
    if index.Err? || index.value.None? || TodayOf(disk, app).Err? then []
    else (if all then AllPaths(index.value.value) else RelevantPaths(index.value.value, q)) + TodayOf(disk, app).value
  }

  function PathsOfAll(disk: Disk, cache: Cache, apps: seq<string>, q: Query, all: bool): seq<string> {
    if apps == [] then [] else PathsOf(disk, cache, apps[0], q, all) + PathsOfAll(disk, cache, apps[1..], q, all)
  }

  /** The index of the app, if it has one, is true of its files. */
  ghost predicate Truthful(disk: Disk, cache: Cache, app: string) {
    var index := IndexOf(disk, cache, app);
    index.Ok? && index.value.Some? ==>
      forall f :: f in index.value.value ==> f.path in disk.files && Bounds(f, disk.files[f.path])
  }

  lemma {:induction false} RecordsSplit(files: map<string, seq<AuditLog>>, a: seq<string>, b: seq<string>)
    ensures Records(files, a + b) == Records(files, a) + Records(files, b)
  {
    if a == [] {
      assert a + b == b;
    } else {
      assert (a + b)[1..] == a[1..] + b;
      RecordsSplit(files, a[1..], b);
    }
  }

  /** One app's answer holds exactly the matching records of its relevant files and of the
      current day, and of all its files if the index is true of them. */
  lemma AppExact(disk: Disk, cache: Cache, app: string, q: Query, all: bool)
    requires AppLogs(disk, cache, app, q).Ok? && (all ==> Truthful(disk, cache, app))
    ensures Exactly(AppLogs(disk, cache, app, q).value, Records(disk.files, PathsOf(disk, cache, app, q, all)), q)
  {
    hide Exactly, Filter, Scan, Records;
    var index := IndexOf(disk, cache, app).value;
    if index.None? {
      NothingExact(q);
      NoPaths(disk.files);
    } else {
      var relevant, today := RelevantPaths(index.value, q), TodayOf(disk, app).value;
      ScanExact(disk.files, relevant, q);
      ScanExact(disk.files, today, q);
      var historical := if all then AllPaths(index.value) else relevant;
      if all { PrunedSame(disk.files, index.value, q, Scan(disk.files, relevant, q).value); }
      RecordsSplit(disk.files, historical, today);
      ExactlyBoth(Scan(disk.files, relevant, q).value, Records(disk.files, historical),
                  Scan(disk.files, today, q).value, Records(disk.files, today), q);
    }
  }

  lemma NoPaths(files: map<string, seq<AuditLog>>)
    ensures Records(files, []) == []
  {
  }

  /** Exactness speaks of multisets only. */
  lemma ExactlySorted(sort: Sorter, found: seq<AuditLog>, source: seq<AuditLog>, q: Query)
    requires SortsByTime(sort) && Exactly(found, source, q)
    ensures ByTime(sort(found)) && Exactly(sort(found), source, q) && |sort(found)| == |found|
  {
    assert multiset(sort(found)) == multiset(found);
    assert |multiset(sort(found))| == |multiset(found)|;
  }

  lemma {:induction false} GatherExact(sort: Sorter, disk: Disk, cache: Cache, apps: seq<string>, q: Query, all: bool)
    requires SortsByTime(sort) && Gather(sort, disk, cache, apps, q).Ok?
    requires all ==> forall app :: app in apps ==> Truthful(disk, cache, app)
    ensures Exactly(Gather(sort, disk, cache, apps, q).value,
                    Records(disk.files, PathsOfAll(disk, cache, apps, q, all)), q)
  {
    hide Exactly, AppLogs, Records, PathsOf, SortsByTime, Truthful;
    if apps == [] {
      NothingExact(q);
      NoPaths(disk.files);
    } else {
      var first, rest := AppLogs(disk, cache, apps[0], q).value, Gather(sort, disk, cache, apps[1..], q).value;
      var paths, more := PathsOf(disk, cache, apps[0], q, all), PathsOfAll(disk, cache, apps[1..], q, all);
      AppExact(disk, cache, apps[0], q, all);
      ExactlySorted(sort, first, Records(disk.files, paths), q);
      GatherExact(sort, disk, cache, apps[1..], q, all);
      ExactlyBoth(sort(first), Records(disk.files, paths), rest, Records(disk.files, more), q);
      RecordsSplit(disk.files, paths, more);
    }
  }

  /** A query of one app answers its matching records, each as often as the files hold it,
      in time order. */
  lemma AppAnswerExact(sort: Sorter, disk: Disk, cache: Cache, q: Query, all: bool)
    requires SortsByTime(sort) && q.appId != "" && Answer(sort, disk, cache, q).Ok?
    requires all ==> Truthful(disk, cache, q.appId)
    ensures var r := Answer(sort, disk, cache, q).value;
            ByTime(r) && Exactly(r, Records(disk.files, PathsOf(disk, cache, q.appId, q, all)), q)
  {
    hide Exactly, AppLogs, Records, PathsOf, SortsByTime, Truthful;
    AppExact(disk, cache, q.appId, q, all);
    ExactlySorted(sort, AppLogs(disk, cache, q.appId, q).value,
                  Records(disk.files, PathsOf(disk, cache, q.appId, q, all)), q);
  }

  // ---------- files that are listed twice ----------

  /** Every path once, where it is listed last. */
  function Once(paths: seq<string>): seq<string> {
    if paths == [] then []
    else (if paths[0] in paths[1..] then [] else [paths[0]]) + Once(paths[1..])
  }

  /** What the files at these paths give of a query, whether or not each can be read. */
  function Matches(files: map<string, seq<AuditLog>>, paths: seq<string>, q: Query): seq<AuditLog> {
    if paths == [] then []
    else (if paths[0] in files then Filter(files[paths[0]], q) else []) + Matches(files, paths[1..], q)
  }

  /** A path that is listed again later leads to nothing that matches. */
  ghost predicate RepeatsNothing(files: map<string, seq<AuditLog>>, paths: seq<string>, q: Query) {
    forall i :: 0 <= i < |paths| && paths[i] in paths[i + 1..] && paths[i] in files ==> Filter(files[paths[i]], q) == []
  }

  lemma {:induction false} MatchesExact(files: map<string, seq<AuditLog>>, paths: seq<string>, q: Query)
    ensures Exactly(Matches(files, paths, q), Records(files, paths), q)
  {
    hide Exactly, Filter;
    NothingExact(q);
    if paths != [] {
      MatchesExact(files, paths[1..], q);
      var first := paths[0] in files;
      if first { FilterExact(files[paths[0]], q); }
      ExactlyBoth(if first then Filter(files[paths[0]], q) else [], if first then files[paths[0]] else [],
                  Matches(files, paths[1..], q), Records(files, paths[1..]), q);
    }
  }

  lemma {:induction false} OnceMatches(files: map<string, seq<AuditLog>>, paths: seq<string>, q: Query)
    ensures multiset(Matches(files, Once(paths), q)) <= multiset(Matches(files, paths, q))
    ensures multiset(Matches(files, Once(paths), q)) == multiset(Matches(files, paths, q))
            <==> RepeatsNothing(files, paths, q)
  {
    if paths != [] {
      hide Filter, RepeatsNothing;
      var p, rest := paths[0], paths[1..];
      var mine := if p in files then Filter(files[p], q) else [];
      var all, once := multiset(Matches(files, rest, q)), multiset(Matches(files, Once(rest), q));
      OnceMatches(files, rest, q);
      RepeatsMore(files, paths, q);
      assert multiset(Matches(files, paths, q)) == multiset(mine) + all;
      if p in rest {
        assert Once(paths) == [] + Once(rest) == Once(rest);
        AddedTo(multiset(mine), once, all);
        assert mine == [] <==> |multiset(mine)| == 0;
      } else {
        assert Once(paths)[1..] == Once(rest);
        assert multiset(Matches(files, Once(paths), q)) == multiset(mine) + once;
        AddedToBoth(multiset(mine), once, all);
      }
    }
  }

  lemma AddedTo(mine: multiset<AuditLog>, once: multiset<AuditLog>, all: multiset<AuditLog>)
    requires once <= all
    ensures once <= mine + all && (once == mine + all <==> |mine| == 0 && once == all)
  {
    assert all == once + (all - once);
    assert |mine + all| == |mine| + |all|;
    assert |mine| == 0 ==> mine == multiset{};
  }

  lemma AddedToBoth(mine: multiset<AuditLog>, once: multiset<AuditLog>, all: multiset<AuditLog>)
    requires once <= all
    ensures mine + once <= mine + all && (mine + once == mine + all <==> once == all)
  {
    if mine + once == mine + all {
      forall l ensures once[l] == all[l] { assert (mine + once)[l] == (mine + all)[l]; }
    }
  }

  lemma RepeatsMore(files: map<string, seq<AuditLog>>, paths: seq<string>, q: Query)
    requires paths != []
    ensures RepeatsNothing(files, paths, q) <==>
            RepeatsNothing(files, paths[1..], q)
                && (paths[0] in paths[1..] && paths[0] in files ==> Filter(files[paths[0]], q) == [])
  {
    hide Filter;
    var rest := paths[1..];
    forall i | 0 <= i < |rest| ensures rest[i] == paths[i + 1] && rest[i + 1..] == paths[i + 2..] {}
    if RepeatsNothing(files, paths, q) {
      forall i | 0 <= i < |rest| && rest[i] in rest[i + 1..] && rest[i] in files
        ensures Filter(files[rest[i]], q) == []
      {
        assert paths[i + 1] in paths[i + 2..];
      }
    }
  }

  /** An answer that is exact for the listed paths is exact for the set of files behind
      them if and only if no file that is listed twice has a record that matches. */
  lemma ExactForFiles(files: map<string, seq<AuditLog>>, paths: seq<string>, q: Query, found: seq<AuditLog>)
    requires Exactly(found, Records(files, paths), q)
    ensures Exactly(found, Records(files, Once(paths)), q) <==> RepeatsNothing(files, paths, q)
  {
    hide Records, Matches, Once, RepeatsNothing;
    MatchesExact(files, paths, q);
    MatchesExact(files, Once(paths), q);
    OnceMatches(files, paths, q);
    SameFound(found, Matches(files, paths, q), Records(files, paths), q);
    if Exactly(found, Records(files, Once(paths)), q) {
      SameFound(found, Matches(files, Once(paths), q), Records(files, Once(paths)), q);
    }
  }

  lemma SameFound(a: seq<AuditLog>, b: seq<AuditLog>, source: seq<AuditLog>, q: Query)
    requires Exactly(a, source, q) && Exactly(b, source, q)
    ensures multiset(a) == multiset(b)
  {
    forall l ensures multiset(a)[l] == multiset(b)[l] {}
  }

  // ---------- the pages of one query ----------

  function PageQuery(q: Query, L: nat, k: nat): Query {
    q.(offset := k * L, limit := L)
  }

  /** The answers to the first n pages, end to end; the cache may fill up between them. */
  function PageAnswers(sort: Sorter, disk: Disk, caches: seq<Cache>, q: Query, L: nat, n: nat)
    : Result<seq<AuditLog>, ReadError>
    requires n <= |caches|
  {
    if n == 0 then Ok([])
    else
      match PageAnswers(sort, disk, caches, q, L, n - 1)
      case Err(e) => Err(e)
      case Ok(logs) => Prepend(logs, Answer(sort, disk, caches[n - 1], PageQuery(q, L, n - 1)))
  }

  /** Every page is cut out of the same sorted list. */
  lemma PageOfSameList(sort: Sorter, disk: Disk, a: Cache, b: Cache, q: Query, L: nat, k: nat)
    requires SameView(disk, a, b) && q.appId == "" && disk.apps.Some?
    requires Gather(sort, disk, a, disk.apps.value, q).Ok?
    ensures Answer(sort, disk, b, PageQuery(q, L, k))
            == Ok(Page(sort(Gather(sort, disk, a, disk.apps.value, q).value), k * L, L))
  {
    hide Gather, Page, SameView;
    GatherSameView(sort, disk, a, b, disk.apps.value, q);
    GatherIgnoresPage(sort, disk, b, disk.apps.value, q, k * L, L);
  }

  lemma {:induction false} AnswersArePages(sort: Sorter, disk: Disk, caches: seq<Cache>, q: Query, L: nat, n: nat)
    requires 0 < |caches| && n <= |caches| && q.appId == "" && disk.apps.Some?
    requires forall k :: 0 <= k < n ==> SameView(disk, caches[0], caches[k])
    requires Gather(sort, disk, caches[0], disk.apps.value, q).Ok?
    ensures PageAnswers(sort, disk, caches, q, L, n)
            == Ok(Pages(sort(Gather(sort, disk, caches[0], disk.apps.value, q).value), L, n))
  {
    hide Gather, Page, SameView, Answer;
    if n > 0 {
      AnswersArePages(sort, disk, caches, q, L, n - 1);
      PageOfSameList(sort, disk, caches[0], caches[n - 1], q, L, n - 1);
    }
  }

  /** Over a fixed directory, the answers to consecutive pages of any positive size, end to
      end, are the matching records of all apps in time order, each as often as the files
      hold it: nothing is lost or repeated. */
  lemma PagesHoldEverything(sort: Sorter, disk: Disk, caches: seq<Cache>, q: Query, L: nat, n: nat, all: bool)
    requires SortsByTime(sort) && L > 0 && 0 < n <= |caches| && q.appId == "" && disk.apps.Some?
    requires forall k :: 0 <= k < n ==> SameView(disk, caches[0], caches[k])
    requires Gather(sort, disk, caches[0], disk.apps.value, q).Ok?
    requires n * L >= |Gather(sort, disk, caches[0], disk.apps.value, q).value|
    requires all ==> forall app :: app in disk.apps.value ==> Truthful(disk, caches[0], app)
    ensures var r := PageAnswers(sort, disk, caches, q, L, n);
            && r.Ok? && ByTime(r.value)
            && Exactly(r.value, Records(disk.files, PathsOfAll(disk, caches[0], disk.apps.value, q, all)), q)
  {
    hide Exactly, Gather, PageAnswers, Records, PathsOfAll, SortsByTime, Truthful, SameView, ByTime;
    var found := Gather(sort, disk, caches[0], disk.apps.value, q).value;
    GatherExact(sort, disk, caches[0], disk.apps.value, q, all);
    ExactlySorted(sort, found, Records(disk.files, PathsOfAll(disk, caches[0], disk.apps.value, q, all)), q);
    AnswersArePages(sort, disk, caches, q, L, n);
    PagesPartition(sort(found), L, n);
  }

  /** The page asked for plays no part in which records are found. */
  lemma {:induction false} GatherIgnoresPage(sort: Sorter, disk: Disk, cache: Cache, apps: seq<string>, q: Query,
                                             offset: nat, limit: nat)
    ensures Gather(sort, disk, cache, apps, q.(offset := offset, limit := limit)) == Gather(sort, disk, cache, apps, q)
  {
    hide AppLogs;
    if apps != [] {
      GatherIgnoresPage(sort, disk, cache, apps[1..], q, offset, limit);
      AppIgnoresPage(disk, cache, apps[0], q, offset, limit);
    }
  }

  lemma AppIgnoresPage(disk: Disk, cache: Cache, app: string, q: Query, offset: nat, limit: nat)
    ensures AppLogs(disk, cache, app, q.(offset := offset, limit := limit)) == AppLogs(disk, cache, app, q)
  {
    var index, today := IndexOf(disk, cache, app), TodayOf(disk, app);
    if today.Ok? { ScanIgnoresPage(disk.files, today.value, q, offset, limit); }
    if index.Ok? && index.value.Some? {
      PathsIgnorePage(index.value.value, q, offset, limit);
      ScanIgnoresPage(disk.files, RelevantPaths(index.value.value, q), q, offset, limit);
    }
  }

  lemma {:induction false} ScanIgnoresPage(files: map<string, seq<AuditLog>>, paths: seq<string>, q: Query,
                                           offset: nat, limit: nat)
    ensures Scan(files, paths, q.(offset := offset, limit := limit)) == Scan(files, paths, q)
  {
    if paths != [] {
      ScanIgnoresPage(files, paths[1..], q, offset, limit);
      if paths[0] in files { FilterIgnoresPage(files[paths[0]], q, offset, limit); }
    }
  }

  lemma FilterIgnoresPage(logs: seq<AuditLog>, q: Query, offset: nat, limit: nat)
    ensures Filter(logs, q.(offset := offset, limit := limit)) == Filter(logs, q)
  {
    var q1 := q.(offset := offset, limit := limit);
    KeepSame(logs, (l: AuditLog) => MatchFilters(l, q1), (l: AuditLog) => MatchFilters(l, q));
  }

  lemma {:induction false} PathsIgnorePage(index: seq<FileInfo>, q: Query, offset: nat, limit: nat)
    ensures RelevantPaths(index, q.(offset := offset, limit := limit)) == RelevantPaths(index, q)
  {
    if index != [] { PathsIgnorePage(index[1..], q, offset, limit); }
  }
}
