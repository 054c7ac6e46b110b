/** Writer and reader together: what a query finds of the records that were written, given
    the directories and the index that the writer really makes (internal/audit/writer.go,
    model.go, reader.go). */
module AuditTrail {
  import opened Common
  import opened HashChain
  import opened AuditSegments
  import opened AuditVerification
  import AuditReader

  /** The day an instant falls on; which one is the calendar's affair. */
  type Calendar = int -> int

  /** All files of an app, the open one last. */
  function SegmentsOf(a: AppState): seq<Segment> {
    a.closed + match a.current
               case None => []
               case Some(f) => [Segment(f.records, false, f.openedAt)]
  }

  /** The files that lie in the directory of a day: those made for a record of that day,
      whatever was written to them later. */
  function OpenedOn(cal: Calendar, day: int, segments: seq<Segment>): seq<Segment> {
    Keep(segments, (s: Segment) => cal(s.openedAt) == day)
  }

  function OpenedElsewhere(cal: Calendar, day: int, segments: seq<Segment>): seq<Segment> {
    Keep(segments, (s: Segment) => cal(s.openedAt) != day)
  }

  /** What the files at these paths hold. */
  function FilesAt(files: map<string, seq<AuditLog>>, paths: seq<string>): seq<seq<AuditLog>>
    requires forall p :: p in paths ==> p in files
  {
    seq(|paths|, i requires 0 <= i < |paths| => files[paths[i]])
  }

  function RecordLists(segments: seq<Segment>): seq<seq<AuditLog>> {
    seq(|segments|, i requires 0 <= i < |segments| => segments[i].records)
  }

  /** The files at these paths are these segments, in whatever order. */
  ghost predicate HoldFiles(files: map<string, seq<AuditLog>>, paths: seq<string>, segments: seq<Segment>) {
    && (forall p :: p in paths ==> p in files)
    && multiset(FilesAt(files, paths)) == multiset(RecordLists(segments))
  }

  /** The directory holds the app's state on the given day: an index that lists no files,
      and under the day's directory exactly the files opened on it. */
  ghost predicate Stored(disk: AuditReader.Disk, cache: AuditReader.Cache, app: string, a: AppState,
                         cal: Calendar, day: int) {
    && (app in cache ==> cache[app] == [])
    && (a.index.Some? ==> app in disk.indexes)
    && (app in disk.indexes ==> disk.indexes[app] == Some([]))
    && var today := AuditReader.TodayOf(disk, app);
       today.Ok? && HoldFiles(disk.files, today.value, OpenedOn(cal, day, SegmentsOf(a)))
  }

  // ---------- records of files, counted ----------

  /** How often a record occurs in these lists. */
  ghost function Occurrences(lists: seq<seq<AuditLog>>, l: AuditLog): nat {
    if lists == [] then 0 else Occurrences(lists[..|lists| - 1], l) + multiset(lists[|lists| - 1])[l]
  }

  lemma {:induction false} OccurrencesSplit(a: seq<seq<AuditLog>>, b: seq<seq<AuditLog>>, l: AuditLog)
    ensures Occurrences(a + b, l) == Occurrences(a, l) + Occurrences(b, l)
  {
    if b == [] {
      assert a + b == a;
    } else {
      assert (a + b)[..|a + b| - 1] == a + b[..|b| - 1];
      OccurrencesSplit(a, b[..|b| - 1], l);
    }
  }

  lemma OccurrencesWithout(lists: seq<seq<AuditLog>>, i: nat, l: AuditLog)
    requires i < |lists|
    ensures Occurrences(lists, l) == Occurrences(lists[..i] + lists[i + 1..], l) + multiset(lists[i])[l]
  {
    var before, after := lists[..i], lists[i + 1..];
    assert lists == before + [lists[i]] + after;
    OccurrencesSplit(before, after, l);
    OccurrencesSplit(before + [lists[i]], after, l);
    assert (before + [lists[i]])[..i] == before;
  }

  /** A permutation has the last element somewhere, and the rest besides. */
  lemma LastSomewhere<T>(a: seq<T>, b: seq<T>) returns (i: nat)
    requires multiset(a) == multiset(b) && a != []
    ensures i < |b| && b[i] == a[|a| - 1] && multiset(a[..|a| - 1]) == multiset(b[..i] + b[i + 1..])
  {
    var front, x := a[..|a| - 1], a[|a| - 1];
    assert a == front + [x];
    assert x in multiset(a);
    i :| 0 <= i < |b| && b[i] == x;
    assert b == b[..i] + [x] + b[i + 1..];
    assert multiset(b) == multiset(b[..i] + b[i + 1..]) + multiset{x};
    assert multiset(front) == multiset(a) - multiset{x};
  }

  /** The order of the lists does not matter. */
  lemma {:induction false} OccurrencesPermuted(a: seq<seq<AuditLog>>, b: seq<seq<AuditLog>>, l: AuditLog)
    requires multiset(a) == multiset(b)
    ensures Occurrences(a, l) == Occurrences(b, l)
  {
    if a == [] {
      assert |multiset(b)| == |multiset(a)|;
    } else {
      var i := LastSomewhere(a, b);
      OccurrencesPermuted(a[..|a| - 1], b[..i] + b[i + 1..], l);
      OccurrencesWithout(b, i, l);
    }
  }

  lemma {:induction false} FlattenCounts(segments: seq<Segment>, l: AuditLog)
    ensures multiset(Flatten(segments))[l] == Occurrences(RecordLists(segments), l)
  {
    if segments != [] {
      var n := |segments| - 1;
      FlattenCounts(segments[..n], l);
      assert RecordLists(segments)[..n] == RecordLists(segments[..n]);
    }
  }

  lemma {:induction false} RecordsCount(files: map<string, seq<AuditLog>>, paths: seq<string>, l: AuditLog)
    requires forall p :: p in paths ==> p in files
    ensures multiset(AuditReader.Records(files, paths))[l] == Occurrences(FilesAt(files, paths), l)
  {
    if paths != [] {
      var first, rest := files[paths[0]], FilesAt(files, paths[1..]);
      RecordsCount(files, paths[1..], l);
      assert FilesAt(files, paths) == [first] + rest;
      OccurrencesSplit([first], rest, l);
      assert [first][..0] == [];
    }
  }

  /** So the files of the day give the records of the segments opened on it. */
  lemma FilesHoldSegments(files: map<string, seq<AuditLog>>, paths: seq<string>, segments: seq<Segment>)
    requires HoldFiles(files, paths, segments)
    ensures multiset(AuditReader.Records(files, paths)) == multiset(Flatten(segments))
  {
    forall l ensures multiset(AuditReader.Records(files, paths))[l] == multiset(Flatten(segments))[l] {
      RecordsCount(files, paths, l);
      FlattenCounts(segments, l);
      OccurrencesPermuted(FilesAt(files, paths), RecordLists(segments), l);
    }
  }

  lemma {:induction false} FlattenParts(cal: Calendar, day: int, segments: seq<Segment>)
    ensures multiset(Flatten(segments))
         == multiset(Flatten(OpenedOn(cal, day, segments))) + multiset(Flatten(OpenedElsewhere(cal, day, segments)))
  {
    if segments != [] {
      var front, last := segments[..|segments| - 1], segments[|segments| - 1];
      hide Flatten;
      var here, there := OpenedOn(cal, day, front), OpenedElsewhere(cal, day, front);
      assert segments == front + [last];
      FlattenParts(cal, day, front);
      FlattenMore(front, last);
      FlattenMore(here, last);
      FlattenMore(there, last);
      PartsMore(cal, day, front, last);
    }
  }

  lemma PartsMore(cal: Calendar, day: int, front: seq<Segment>, last: Segment)
    ensures var here, there := OpenedOn(cal, day, front), OpenedElsewhere(cal, day, front);
            && OpenedOn(cal, day, front + [last]) == (if cal(last.openedAt) == day then here + [last] else here)
            && OpenedElsewhere(cal, day, front + [last])
               == (if cal(last.openedAt) == day then there else there + [last])
  {
    var here, there := OpenedOn(cal, day, front), OpenedElsewhere(cal, day, front);
    KeepMore(front, last, (s: Segment) => cal(s.openedAt) == day);
    KeepMore(front, last, (s: Segment) => cal(s.openedAt) != day);
    assert here + [] == here && there + [] == there;
  }

  lemma AllSegments(a: AppState)
    ensures Flatten(SegmentsOf(a)) == Contents(a)
  {
    match a.current
    case None => assert a.closed + [] == a.closed;
    case Some(f) => FlattenMore(a.closed, Segment(f.records, false, f.openedAt));
  }

  lemma {:induction false} InFlatten(segments: seq<Segment>, l: AuditLog)
    ensures l in Flatten(segments) <==> exists s :: s in segments && l in s.records
  {
    if segments != [] {
      var front, last := segments[..|segments| - 1], segments[|segments| - 1];
      InFlatten(front, l);
      assert segments == front + [last];
      if s :| s in segments && l in s.records {
        assert s in front || s == last;
      }
    }
  }

  // ---------- what a query finds ----------

  /** A query of an app finds exactly the matching records of the files opened on the
      current day: the writer leaves the list of files in the index empty, so it leads to
      no others. */
  lemma OnlyTodaysFilesFound(cfg: Config, run: seq<Event>, n: nat, app: string, cal: Calendar, day: int,
                             sort: AuditReader.Sorter, disk: AuditReader.Disk, cache: AuditReader.Cache,
                             q: AuditReader.Query)
    requires n <= |run| && AuditReader.SortsByTime(sort) && q.appId == app && app != ""
    requires Stored(disk, cache, app, App(After(cfg, run, n), app), cal, day)
    requires AuditReader.Answer(sort, disk, cache, q).Ok?
    ensures var todays := OpenedOn(cal, day, SegmentsOf(App(After(cfg, run, n), app)));
            AuditReader.Exactly(AuditReader.Answer(sort, disk, cache, q).value, Flatten(todays), q)
  {
    hide *;
    var a := App(After(cfg, run, n), app);
    SegmentsHoldRecords(cfg, run, n, app);
    AnswerOk(sort, disk, cache, q);
    ReadsToday(disk, cache, app, a, cal, day, q);
    AuditReader.AppAnswerExact(sort, disk, cache, q, false);
    SameSource(AuditReader.Answer(sort, disk, cache, q).value,
               AuditReader.Records(disk.files, AuditReader.PathsOf(disk, cache, app, q, false)),
               Flatten(OpenedOn(cal, day, SegmentsOf(a))), q);
  }

  lemma AnswerOk(sort: AuditReader.Sorter, disk: AuditReader.Disk, cache: AuditReader.Cache, q: AuditReader.Query)
    requires q.appId != "" && AuditReader.Answer(sort, disk, cache, q).Ok?
    ensures AuditReader.AppLogs(disk, cache, q.appId, q).Ok?
  {
  }

  lemma SameSource(found: seq<AuditLog>, s: seq<AuditLog>, t: seq<AuditLog>, q: AuditReader.Query)
    requires AuditReader.Exactly(found, s, q) && multiset(s) == multiset(t)
    ensures AuditReader.Exactly(found, t, q)
  {
  }

  /** The files such a query reads hold the records of the files opened on the day. */
  lemma ReadsToday(disk: AuditReader.Disk, cache: AuditReader.Cache, app: string, a: AppState, cal: Calendar,
                   day: int, q: AuditReader.Query)
    requires Stored(disk, cache, app, a, cal, day) && (a.index.None? ==> Contents(a) == [])
    ensures multiset(AuditReader.Records(disk.files, AuditReader.PathsOf(disk, cache, app, q, false)))
         == multiset(Flatten(OpenedOn(cal, day, SegmentsOf(a))))
  {
    hide Contents, Flatten, SegmentsOf, OpenedOn, OpenedElsewhere, AuditReader.Records, HoldFiles;
    var today := AuditReader.TodayOf(disk, app).value;
    var todays := OpenedOn(cal, day, SegmentsOf(a));
    if app !in cache && app !in disk.indexes {
      AuditReader.NoPaths(disk.files);
      AllSegments(a);
      FlattenParts(cal, day, SegmentsOf(a));
      assert |multiset(Flatten(todays))| == 0;
    } else {
      assert [] + today == today;
      FilesHoldSegments(disk.files, today, todays);
    }
  }

  /** Some record of the segment matches. */
  ghost predicate HasMatch(s: Segment, q: AuditReader.Query) {
    exists l :: l in s.records && AuditReader.MatchFilters(l, q)
  }

  /** A query finds every matching record of the app, as often as it was written, if and
      only if every file that holds one was opened on the current day. */
  lemma FindsAllExactly(cfg: Config, run: seq<Event>, n: nat, app: string, cal: Calendar, day: int,
                        sort: AuditReader.Sorter, disk: AuditReader.Disk, cache: AuditReader.Cache,
                        q: AuditReader.Query)
    requires n <= |run| && AuditReader.SortsByTime(sort) && q.appId == app && app != ""
    requires Stored(disk, cache, app, App(After(cfg, run, n), app), cal, day)
    requires AuditReader.Answer(sort, disk, cache, q).Ok?
    ensures AuditReader.Exactly(AuditReader.Answer(sort, disk, cache, q).value, RecordsOf(cfg, run, n, app), q)
            <==> forall s :: s in SegmentsOf(App(After(cfg, run, n), app)) && HasMatch(s, q) ==> cal(s.openedAt) == day
  {
    hide *;
    var segments := SegmentsOf(App(After(cfg, run, n), app));
    OnlyTodaysFilesFound(cfg, run, n, app, cal, day, sort, disk, cache, q);
    SegmentsHoldRecords(cfg, run, n, app);
    AllSegments(App(After(cfg, run, n), app));
    FlattenParts(cal, day, segments);
    MoreSource(AuditReader.Answer(sort, disk, cache, q).value, Flatten(OpenedOn(cal, day, segments)),
               Flatten(OpenedElsewhere(cal, day, segments)), Flatten(segments), q);
    MatchesElsewhere(cal, day, segments, q);
  }

  ghost predicate NoMatch(logs: seq<AuditLog>, q: AuditReader.Query) {
    forall l :: l in logs ==> !AuditReader.MatchFilters(l, q)
  }

  /** What is exact for a part of the source is exact for all of it if the rest has no match. */
  lemma MoreSource(found: seq<AuditLog>, part: seq<AuditLog>, rest: seq<AuditLog>, all: seq<AuditLog>,
                   q: AuditReader.Query)
    requires AuditReader.Exactly(found, part, q) && multiset(all) == multiset(part) + multiset(rest)
    ensures AuditReader.Exactly(found, all, q) <==> NoMatch(rest, q)
  {
    if AuditReader.Exactly(found, all, q) {
      forall l | l in rest ensures !AuditReader.MatchFilters(l, q) {
        assert multiset(rest)[l] > 0;
        assert multiset(all)[l] == multiset(part)[l] + multiset(rest)[l];
      }
    }
    if NoMatch(rest, q) {
      forall l ensures multiset(found)[l] == if AuditReader.MatchFilters(l, q) then multiset(all)[l] else 0 {
        assert multiset(all)[l] == multiset(part)[l] + multiset(rest)[l];
        if AuditReader.MatchFilters(l, q) { assert l !in rest; }
      }
    }
  }

  lemma MatchesElsewhere(cal: Calendar, day: int, segments: seq<Segment>, q: AuditReader.Query)
    ensures NoMatch(Flatten(OpenedElsewhere(cal, day, segments)), q)
            <==> forall s :: s in segments && HasMatch(s, q) ==> cal(s.openedAt) == day
  {
    hide Flatten, AuditReader.MatchFilters;
    var elsewhere := OpenedElsewhere(cal, day, segments);
    KeepExact(segments, (s: Segment) => cal(s.openedAt) != day);
    forall l ensures l in Flatten(elsewhere) <==> exists s :: s in elsewhere && l in s.records {
      InFlatten(elsewhere, l);
    }
    if NoMatch(Flatten(elsewhere), q) {
      forall s | s in segments && HasMatch(s, q) ensures cal(s.openedAt) == day {
        var l :| l in s.records && AuditReader.MatchFilters(l, q);
        assert l !in Flatten(elsewhere);
      }
    }
  }

  /** Records of one app are pairwise different, as their hashes are. */
  lemma RecordsDistinct(cfg: Config, run: seq<Event>, n: nat, app: string, i: nat, j: nat)
    requires Ideal(cfg.c) && n <= |run| && i < j < |RecordsOf(cfg, run, n, app)|
    ensures RecordsOf(cfg, run, n, app)[i] != RecordsOf(cfg, run, n, app)[j]
  {
    hide After, RecordsOf, PlacesOf, ChainOf, Ideal;
    ChainBuilt(cfg, run, n);
    RecordsAtPlaces(cfg, run, n, app);
    var at := PlacesOf(cfg, run, n, app);
    ChainDistinct(cfg.c, ChainOf(cfg, run, n), at[i], at[j]);
  }

  lemma {:induction false} OnceEach(logs: seq<AuditLog>, l: AuditLog)
    requires Distinct(logs)
    ensures multiset(logs)[l] <= 1
  {
    if logs != [] {
      var n := |logs| - 1;
      assert logs == logs[..n] + [logs[n]];
      OnceEach(logs[..n], l);
      if l == logs[n] { assert l !in logs[..n]; }
    }
  }

  /** So no record of a file opened on another day is ever found, whatever is asked for:
      not those of earlier days, and not those written today to a file of an earlier day. */
  lemma OthersNeverFound(cfg: Config, run: seq<Event>, n: nat, app: string, cal: Calendar, day: int,
                         sort: AuditReader.Sorter, disk: AuditReader.Disk, cache: AuditReader.Cache,
                         q: AuditReader.Query, s: Segment, l: AuditLog)
    requires Ideal(cfg.c) && n <= |run| && AuditReader.SortsByTime(sort) && q.appId == app && app != ""
    requires Stored(disk, cache, app, App(After(cfg, run, n), app), cal, day)
    requires AuditReader.Answer(sort, disk, cache, q).Ok?
    requires s in SegmentsOf(App(After(cfg, run, n), app)) && cal(s.openedAt) != day && l in s.records
    ensures l !in AuditReader.Answer(sort, disk, cache, q).value
  {
    hide *;
    var segments, recs := SegmentsOf(App(After(cfg, run, n), app)), RecordsOf(cfg, run, n, app);
    OnlyTodaysFilesFound(cfg, run, n, app, cal, day, sort, disk, cache, q);
    SegmentsHoldRecords(cfg, run, n, app);
    AllSegments(App(After(cfg, run, n), app));
    FlattenParts(cal, day, segments);
    RecordsOnce(cfg, run, n, app, l);
    LiesElsewhere(cal, day, segments, s, l);
    NotInPart(AuditReader.Answer(sort, disk, cache, q).value, Flatten(OpenedOn(cal, day, segments)),
              Flatten(OpenedElsewhere(cal, day, segments)), recs, q, l);
  }

  lemma RecordsOnce(cfg: Config, run: seq<Event>, n: nat, app: string, l: AuditLog)
    requires Ideal(cfg.c) && n <= |run|
    ensures multiset(RecordsOf(cfg, run, n, app))[l] <= 1
  {
    hide After, RecordsOf, Ideal;
    var recs := RecordsOf(cfg, run, n, app);
    forall i, j | 0 <= i < j < |recs| ensures recs[i] != recs[j] { RecordsDistinct(cfg, run, n, app, i, j); }
    OnceEach(recs, l);
  }

  lemma LiesElsewhere(cal: Calendar, day: int, segments: seq<Segment>, s: Segment, l: AuditLog)
    requires s in segments && cal(s.openedAt) != day && l in s.records
    ensures l in Flatten(OpenedElsewhere(cal, day, segments))
  {
    KeepExact(segments, (s: Segment) => cal(s.openedAt) != day);
    InFlatten(OpenedElsewhere(cal, day, segments), l);
  }

  lemma NotInPart(found: seq<AuditLog>, part: seq<AuditLog>, rest: seq<AuditLog>, all: seq<AuditLog>,
                  q: AuditReader.Query, l: AuditLog)
    requires AuditReader.Exactly(found, part, q) && multiset(all) == multiset(part) + multiset(rest)
    requires multiset(all)[l] <= 1 && l in rest
    ensures l !in found
  {
    assert multiset(rest)[l] > 0;
    assert multiset(all)[l] == multiset(part)[l] + multiset(rest)[l];
    assert multiset(found)[l] == 0;
    assert l !in multiset(found);
  }

  // ---------- a run in which this happens ----------

  /** An app that writes once on each of two days, with no file ever full. */
  function AcrossMidnight(first: AuditLog, second: AuditLog): seq<Event> {
    [Written(first), Written(second)]
  }

  /** The directory on the second day: the index, and nothing under that day. */
  function SecondDay(app: string): AuditReader.Disk {
    AuditReader.Disk(Some([app]), map[app := Some([])], map[], map[])
  }

  lemma OneFileForBoth(cfg: Config, first: AuditLog, second: AuditLog)
    requires Ideal(cfg.c) && forall r :: cfg.c.encode(r).Some?
    requires Filled(first) && Filled(second) && first.appId == second.appId
    requires var r1 := Chained(cfg.c, "", first);
             cfg.rotateSize > RecordSize(cfg.c, r1) + RecordSize(cfg.c, Chained(cfg.c, r1.hash, second))
    ensures var r1 := Chained(cfg.c, "", first);
            var a := App(After(cfg, AcrossMidnight(first, second), 2), first.appId);
            && a.closed == [] && a.current.Some? && a.current.value.openedAt == first.timestamp
            && a.current.value.records == [r1, Chained(cfg.c, r1.hash, second)]
  {
    hide Ideal, Indexed, Step, VerifyLog, Chained, RecordSize;
    var run, r1 := AcrossMidnight(first, second), Chained(cfg.c, "", first);
    var r2 := Chained(cfg.c, r1.hash, second);
    var s0, s1 := After(cfg, run, 0), After(cfg, run, 1);
    assert s1 == Step(cfg, s0, run[0]) && After(cfg, run, 2) == Step(cfg, s1, run[1]);
    WriteStores(cfg, s0, first);
    WriteStores(cfg, s1, second);
    assert App(s1, first.appId).current == Some(OpenFile([] + [r1], RecordSize(cfg.c, r1), first.timestamp));
    assert [] + [r1] + [r2] == [r1, r2];
  }

  /** The record of the second day lies in the file of the first; on the second day a query
      for everything of the app succeeds and finds nothing. */
  lemma LostAcrossMidnight(cfg: Config, first: AuditLog, second: AuditLog, cal: Calendar, sort: AuditReader.Sorter,
                           q: AuditReader.Query)
    requires Ideal(cfg.c) && (forall r :: cfg.c.encode(r).Some?) && AuditReader.SortsByTime(sort)
    requires Filled(first) && Filled(second) && first.appId == second.appId == q.appId
    requires AuditReader.ValidAppId(q.appId) && cal(first.timestamp) != cal(second.timestamp)
    requires var r1 := Chained(cfg.c, "", first);
             cfg.rotateSize > RecordSize(cfg.c, r1) + RecordSize(cfg.c, Chained(cfg.c, r1.hash, second))
    ensures var run := AcrossMidnight(first, second);
            var disk := SecondDay(q.appId);
            && |RecordsOf(cfg, run, 2, q.appId)| == 2
            && RecordsOf(cfg, run, 2, q.appId)[1].timestamp == second.timestamp
            && Stored(disk, map[], q.appId, App(After(cfg, run, 2), q.appId), cal, cal(second.timestamp))
            && AuditReader.Answer(sort, disk, map[], q) == Ok([])
  {
    hide Ideal, After, RecordsOf, Chained, RecordSize, Describes;
    var run := AcrossMidnight(first, second);
    var a := App(After(cfg, run, 2), q.appId);
    OneFileForBoth(cfg, first, second);
    SegmentsHoldRecords(cfg, run, 2, q.appId);
    SecondTimestamp(cfg, first, second);
    var file := Segment(a.current.value.records, false, first.timestamp);
    assert SegmentsOf(a) == [] + [file];
    PartsMore(cal, cal(second.timestamp), [], file);
    assert OpenedOn(cal, cal(second.timestamp), SegmentsOf(a)) == [];
    AuditReader.SortNothing(sort);
    assert [] + a.current.value.records == a.current.value.records;
  }

  lemma SecondTimestamp(cfg: Config, first: AuditLog, second: AuditLog)
    ensures Chained(cfg.c, Chained(cfg.c, "", first).hash, second).timestamp == second.timestamp
  {
  }
}
