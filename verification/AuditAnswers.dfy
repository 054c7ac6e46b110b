/** What a query of the audit log answers, filter by filter (internal/audit/reader.go). */
module AuditAnswers {
  import opened Common
  import opened HashChain
  import opened AuditReader

  /** The record meets every filter that the query sets. */
  ghost predicate Wanted(l: AuditLog, q: Query) {
    && (q.start.Some? ==> q.start.value <= l.timestamp)
    && (q.end.Some? ==> l.timestamp <= q.end.value)
    && (|q.eventTypes| > 0 ==> exists i :: 0 <= i < |q.eventTypes| && q.eventTypes[i] == l.eventType)
    && (q.userId != "" ==> l.userId == q.userId)
    && (q.appId != "" ==> l.appId == q.appId)
    && (q.clientIP != "" ==> l.clientIP == q.clientIP)
    && (q.statusCode != 0 ==> l.statusCode == q.statusCode)
  }

  lemma MatchIsWanted(l: AuditLog, q: Query)
    ensures MatchFilters(l, q) <==> Wanted(l, q)
  {
    assert q.eventTypes == [] <==> |q.eventTypes| == 0;
  }

  /** The files a query reads: those of its app, or of every app there is. */
  function ReadPaths(disk: Disk, cache: Cache, q: Query, all: bool): seq<string> {
    if q.appId != "" then PathsOf(disk, cache, q.appId, q, all)
    else if disk.apps.None? then []
    else PathsOfAll(disk, cache, disk.apps.value, q, all)
  }

  /** Every index entry used is true of its file. */
  ghost predicate AllTruthful(disk: Disk, cache: Cache, q: Query) {
    if q.appId != "" then Truthful(disk, cache, q.appId)
    else disk.apps.Some? ==> forall app :: app in disk.apps.value ==> Truthful(disk, cache, app)
  }

  /** Nothing is cut off: a query of one app has no pages, and a first page that is not
      full holds everything. */
  predicate Whole(q: Query, answer: seq<AuditLog>) {
    q.appId != "" || (q.offset == 0 && |answer| < q.limit)
  }

  /** A page has only records that are in the list, and all of them if it is whole. */
  lemma PageMembers(all: seq<AuditLog>, q: Query)
    ensures multiset(Page(all, q.offset, q.limit)) <= multiset(all)
    ensures q.offset == 0 && |Page(all, q.offset, q.limit)| < q.limit ==> Page(all, q.offset, q.limit) == all
    ensures ByTime(all) ==> ByTime(Page(all, q.offset, q.limit))
  {
    if q.offset < |all| {
      SliceMembers(all, q.offset, if q.offset + q.limit > |all| then |all| else q.offset + q.limit);
    }
  }

  lemma SliceMembers(all: seq<AuditLog>, i: nat, j: nat)
    requires i <= j <= |all|
    ensures multiset(all[i..j]) <= multiset(all)
  {
    var front, middle, back := all[..i], all[i..j], all[j..];
    assert all == front + middle + back;
  }

  /** What is answered, with pages left out. */
  ghost predicate AnswersAll(sort: Sorter, disk: Disk, cache: Cache, q: Query, all: bool, full: seq<AuditLog>) {
    && Answer(sort, disk, cache, q).Ok?
    && Exactly(full, Records(disk.files, ReadPaths(disk, cache, q, all)), q)
    && multiset(Answer(sort, disk, cache, q).value) <= multiset(full)
    && (Whole(q, Answer(sort, disk, cache, q).value) ==> Answer(sort, disk, cache, q).value == full)
    && ByTime(Answer(sort, disk, cache, q).value)
  }

  lemma FullAnswer(sort: Sorter, disk: Disk, cache: Cache, q: Query, all: bool) returns (full: seq<AuditLog>)
    requires SortsByTime(sort) && Answer(sort, disk, cache, q).Ok? && (all ==> AllTruthful(disk, cache, q))
    ensures AnswersAll(sort, disk, cache, q, all, full)
  {
    hide Exactly, Records, PathsOf, PathsOfAll, SortsByTime, Truthful, AppLogs, Gather, Page, ByTime;
    if q.appId != "" {
      AppAnswerExact(sort, disk, cache, q, all);
      full := Answer(sort, disk, cache, q).value;
    } else {
      var found := Gather(sort, disk, cache, disk.apps.value, q).value;
      GatherExact(sort, disk, cache, disk.apps.value, q, all);
      ExactlySorted(sort, found, Records(disk.files, ReadPaths(disk, cache, q, all)), q);
      full := sort(found);
      PageMembers(full, q);
    }
  }

  /** Answers are in time order, and every answered record has what the query asks for and
      is in a file that is read; where nothing is cut off, a record of these files that has it all is answered, as
      often as they hold it. With entries that are true of their files, these are all
      files the indexes list. */
  lemma AnsweredExactly(sort: Sorter, disk: Disk, cache: Cache, q: Query, all: bool, l: AuditLog)
    requires SortsByTime(sort) && Answer(sort, disk, cache, q).Ok? && (all ==> AllTruthful(disk, cache, q))
    ensures var answer, held := Answer(sort, disk, cache, q).value, Records(disk.files, ReadPaths(disk, cache, q, all));
            && ByTime(answer) && (l in answer ==> Wanted(l, q) && l in held)
            && (Whole(q, answer) ==> multiset(answer)[l] == if Wanted(l, q) then multiset(held)[l] else 0)
  {
    hide Answer, Records, ReadPaths, SortsByTime, AllTruthful, Wanted, MatchFilters, Whole, ByTime;
    var full := FullAnswer(sort, disk, cache, q, all);
    MatchIsWanted(l, q);
    var answer, held := Answer(sort, disk, cache, q).value, Records(disk.files, ReadPaths(disk, cache, q, all));
    assert l in answer <==> multiset(answer)[l] > 0;
    assert l in held <==> multiset(held)[l] > 0;
  }

  // ---------- one filter at a time ----------

  datatype Field = User | ClientIP | StatusCode | EventTypes | Start | End

  /** The query with one filter left out. */
  function Without(q: Query, f: Field): Query {
    match f
    case User => q.(userId := "")
    case ClientIP => q.(clientIP := "")
    case StatusCode => q.(statusCode := 0)
    case EventTypes => q.(eventTypes := [])
    case Start => q.(start := None)
    case End => q.(end := None)
  }

  /** What the query asks of a record in that one field. */
  predicate Passes(l: AuditLog, q: Query, f: Field) {
    match f
    case User => q.userId in {"", l.userId}
    case ClientIP => q.clientIP in {"", l.clientIP}
    case StatusCode => q.statusCode in {0, l.statusCode}
    case EventTypes => q.eventTypes == [] || l.eventType in q.eventTypes
    case Start => q.start.None? || q.start.value <= l.timestamp
    case End => q.end.None? || l.timestamp <= q.end.value
  }

  lemma WantedWithout(l: AuditLog, q: Query, f: Field)
    ensures Wanted(l, q) <==> Wanted(l, Without(q, f)) && Passes(l, q, f)
  {
  }

  lemma {:induction false} KeepCount(s: seq<AuditLog>, p: AuditLog -> bool, l: AuditLog)
    ensures multiset(Keep(s, p))[l] == if p(l) then multiset(s)[l] else 0
  {
    if s != [] {
      var n := |s| - 1;
      KeepCount(s[..n], p, l);
      assert s == s[..n] + [s[n]];
    }
  }

  // ---------- when a query can be answered ----------

  /** The app's index, the directory of the day and every file they lead to can be read;
      an app without an index has nothing to read. */
  predicate Readable(disk: Disk, cache: Cache, app: string, q: Query) {
    && ValidAppId(app) && IndexOf(disk, cache, app).Ok?
    && (IndexOf(disk, cache, app).value.Some? ==>
          TodayOf(disk, app).Ok? && forall p | p in PathsOf(disk, cache, app, q, false) :: p in disk.files)
  }

  predicate AllReadable(disk: Disk, cache: Cache, q: Query) {
    if q.appId != "" then Readable(disk, cache, q.appId, q)
    else disk.apps.Some? && forall app | app in disk.apps.value :: Readable(disk, cache, app, q)
  }

  lemma AppReadable(disk: Disk, cache: Cache, app: string, q: Query)
    ensures AppLogs(disk, cache, app, q).Ok? <==> Readable(disk, cache, app, q)
  {
    var index, today := IndexOf(disk, cache, app), TodayOf(disk, app);
    if index.Ok? && index.value.Some? {
      hide Filter, Relevant, Exactly, RelevantPaths, Scan, ValidAppId, IndexOf, TodayOf;
      var relevant := RelevantPaths(index.value.value, q);
      ScanExact(disk.files, relevant, q);
      if today.Ok? {
        ScanExact(disk.files, today.value, q);
        assert forall p :: p in relevant + today.value <==> p in relevant || p in today.value;
      }
    }
  }

  lemma {:induction false} GatherReadable(sort: Sorter, disk: Disk, cache: Cache, apps: seq<string>, q: Query)
    ensures Gather(sort, disk, cache, apps, q).Ok? <==> forall app :: app in apps ==> Readable(disk, cache, app, q)
  {
    hide AppLogs, Readable;
    if apps != [] {
      assert apps == [apps[0]] + apps[1..];
      AppReadable(disk, cache, apps[0], q);
      GatherReadable(sort, disk, cache, apps[1..], q);
    }
  }

  /** A query is answered exactly when everything it has to read can be read. */
  lemma AnswersWhenReadable(sort: Sorter, disk: Disk, cache: Cache, q: Query)
    ensures Answer(sort, disk, cache, q).Ok? <==> AllReadable(disk, cache, q)
  {
    hide AppLogs, Readable, Gather;
    if q.appId != "" {
      AppReadable(disk, cache, q.appId, q);
    } else if disk.apps.Some? {
      GatherReadable(sort, disk, cache, disk.apps.value, q);
    }
  }

  lemma {:induction false} FewerPaths(index: seq<FileInfo>, q: Query, f: Field)
    ensures forall p :: p in RelevantPaths(index, q) ==> p in RelevantPaths(index, Without(q, f))
  {
    if index != [] {
      FewerPaths(index[1..], q, f);
      assert Relevant(index[0], q) ==> Relevant(index[0], Without(q, f));
    }
  }

  /** A filter never makes a query fail. */
  lemma StillReadable(disk: Disk, cache: Cache, q: Query, f: Field)
    requires AllReadable(disk, cache, Without(q, f))
    ensures AllReadable(disk, cache, q)
  {
    hide RelevantPaths, IndexOf, TodayOf, ValidAppId;
    forall app | Readable(disk, cache, app, Without(q, f)) ensures Readable(disk, cache, app, q) {
      var index := IndexOf(disk, cache, app).value;
      if index.Some? { FewerPaths(index.value, q, f); }
    }
  }

  // ---------- the filters ----------

  /** A filter that does not decide which files are read. */
  predicate Plain(f: Field) {
    f.User? || f.ClientIP? || f.StatusCode?
  }

  lemma {:induction false} SameRelevant(index: seq<FileInfo>, q: Query, q0: Query)
    requires q0.start == q.start && q0.end == q.end && q0.eventTypes == q.eventTypes
    ensures RelevantPaths(index, q) == RelevantPaths(index, q0)
  {
    if index != [] { SameRelevant(index[1..], q, q0); }
  }

  lemma {:induction false} SamePaths(disk: Disk, cache: Cache, apps: seq<string>, q: Query, q0: Query, all: bool)
    requires all || (q0.start == q.start && q0.end == q.end && q0.eventTypes == q.eventTypes)
    ensures forall app :: PathsOf(disk, cache, app, q, all) == PathsOf(disk, cache, app, q0, all)
    ensures PathsOfAll(disk, cache, apps, q, all) == PathsOfAll(disk, cache, apps, q0, all)
  {
    hide RelevantPaths;
    forall app ensures PathsOf(disk, cache, app, q, all) == PathsOf(disk, cache, app, q0, all) {
      var index := IndexOf(disk, cache, app);
      if !all && index.Ok? && index.value.Some? { SameRelevant(index.value.value, q, q0); }
    }
    if apps != [] { SamePaths(disk, cache, apps[1..], q, q0, all); }
  }

  lemma SmallerMultiset(a: multiset<AuditLog>, b: multiset<AuditLog>)
    requires a <= b
    ensures |a| <= |b|
  {
    assert b == a + (b - a);
  }

  lemma KeptByFilter(full: seq<AuditLog>, full0: seq<AuditLog>, held: seq<AuditLog>, q: Query, f: Field)
    requires Exactly(full, held, q) && Exactly(full0, held, Without(q, f))
    ensures multiset(full) == multiset(Keep(full0, l => Passes(l, q, f))) && |full| <= |full0|
  {
    hide Passes, Without, MatchFilters, Wanted, Keep;
    var kept := Keep(full0, l => Passes(l, q, f));
    forall l ensures multiset(full)[l] == multiset(kept)[l] <= multiset(full0)[l] {
      KeepCount(full0, l => Passes(l, q, f), l);
      MatchIsWanted(l, q);
      MatchIsWanted(l, Without(q, f));
      WantedWithout(l, q, f);
    }
    SmallerMultiset(multiset(full), multiset(full0));
  }

  /** Each filter does what it says: where the answer without it is whole, the answer with it
      can be had, is whole, and is that answer kept by the one field, each record as often.
      The filters by event type and time, which also decide what is read, need index
      entries that are true of their files. */
  lemma FilterKeeps(sort: Sorter, disk: Disk, cache: Cache, q: Query, f: Field)
    requires SortsByTime(sort) && (Plain(f) || AllTruthful(disk, cache, q))
    requires Answer(sort, disk, cache, Without(q, f)).Ok?
    requires Whole(q, Answer(sort, disk, cache, Without(q, f)).value)
    ensures Answer(sort, disk, cache, q).Ok?
    ensures var answer := Answer(sort, disk, cache, q).value;
            && Whole(q, answer)
            && multiset(answer) == multiset(Keep(Answer(sort, disk, cache, Without(q, f)).value, l => Passes(l, q, f)))
  {
    hide Answer, Records, PathsOf, PathsOfAll, SortsByTime, AllReadable, Exactly, Passes, Truthful, ByTime;
    var q0, all := Without(q, f), !Plain(f);
    AnswersWhenReadable(sort, disk, cache, q0);
    StillReadable(disk, cache, q, f);
    AnswersWhenReadable(sort, disk, cache, q);
    var full := FullAnswer(sort, disk, cache, q, all);
    var full0 := FullAnswer(sort, disk, cache, q0, all);
    SamePaths(disk, cache, if disk.apps.Some? then disk.apps.value else [], q, q0, all);
    KeptByFilter(full, full0, Records(disk.files, ReadPaths(disk, cache, q, all)), q, f);
    var answer := Answer(sort, disk, cache, q).value;
    assert |multiset(answer)| <= |multiset(full)| by { SmallerMultiset(multiset(answer), multiset(full)); }
  }

  // ---------- the filter by app ----------

  /** The files of each app hold only its own records. */
  ghost predicate OwnRecords(disk: Disk, cache: Cache, apps: seq<string>, q: Query) {
    forall app, l :: app in apps && l in Records(disk.files, PathsOf(disk, cache, app, q, false)) ==> l.appId == app
  }

  lemma {:induction false} RecordsOfApp(disk: Disk, cache: Cache, apps: seq<string>, q: Query, app: string, l: AuditLog)
    requires OwnRecords(disk, cache, apps, q) && Distinct(apps) && l.appId == app
    ensures multiset(Records(disk.files, PathsOfAll(disk, cache, apps, q, false)))[l]
         == if app in apps then multiset(Records(disk.files, PathsOf(disk, cache, app, q, false)))[l] else 0
  {
    hide PathsOf, Records;
    if apps == [] {
      NoPaths(disk.files);
    } else {
      assert apps == [apps[0]] + apps[1..];
      RecordsOfApp(disk, cache, apps[1..], q, app, l);
      var mine, rest := PathsOf(disk, cache, apps[0], q, false), PathsOfAll(disk, cache, apps[1..], q, false);
      RecordsSplit(disk.files, mine, rest);
      assert l in Records(disk.files, mine) <==> multiset(Records(disk.files, mine))[l] > 0;
    }
  }

  /** Asking for one app gives what asking for all gives, kept by the app, where the files
      of each app hold only its own records. */
  lemma AppFilterKeeps(sort: Sorter, disk: Disk, cache: Cache, q: Query)
    requires SortsByTime(sort) && q.appId != "" && disk.apps.Some?
    requires q.appId in disk.apps.value && Distinct(disk.apps.value) && OwnRecords(disk, cache, disk.apps.value, q)
    requires Answer(sort, disk, cache, q.(appId := "")).Ok?
    requires Whole(q.(appId := ""), Answer(sort, disk, cache, q.(appId := "")).value)
    ensures Answer(sort, disk, cache, q).Ok?
    ensures multiset(Answer(sort, disk, cache, q).value)
         == multiset(Keep(Answer(sort, disk, cache, q.(appId := "")).value, (l: AuditLog) => l.appId == q.appId))
  {
    hide Answer, Records, PathsOf, PathsOfAll, SortsByTime, Readable, MatchFilters, ByTime, Truthful;
    var q0, apps := q.(appId := ""), disk.apps.value;
    AnswersWhenReadable(sort, disk, cache, q0);
    ReadableAlike(disk, cache, q.appId, q, q0);
    AnswersWhenReadable(sort, disk, cache, q);
    var full := FullAnswer(sort, disk, cache, q, false);
    var full0 := FullAnswer(sort, disk, cache, q0, false);
    SamePaths(disk, cache, apps, q, q0, false);
    var kept := Keep(full0, (l: AuditLog) => l.appId == q.appId);
    forall l ensures multiset(full)[l] == multiset(kept)[l] {
      KeepCount(full0, (l: AuditLog) => l.appId == q.appId, l);
      MatchIsWanted(l, q);
      MatchIsWanted(l, q0);
      if l.appId == q.appId { RecordsOfApp(disk, cache, apps, q, q.appId, l); }
    }
  }

  lemma ReadableAlike(disk: Disk, cache: Cache, app: string, q: Query, q0: Query)
    requires q0.start == q.start && q0.end == q.end && q0.eventTypes == q.eventTypes
    ensures Readable(disk, cache, app, q) <==> Readable(disk, cache, app, q0)
  {
    SamePaths(disk, cache, [], q, q0, false);
  }
}
